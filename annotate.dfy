/**
 * The annotate phase, `make_path_nodes` (src/tdom_path/tree.py:148-242): the `href` of every
 * `link` and the `src` of every `script` that names a local asset is replaced by the handle
 * `make_path` resolves it to, and the element becomes a PathElement when one of its
 * attributes is then a file-system path.
 */
module Annotate {
  import opened Base
  import opened WebPath
  import opened Nodes
  import opened Walker

  /** The alternatives of the anchored pattern `^(https?://|//|mailto:|tel:|data:|javascript:|#)`, written out. */
  const ExternalPrefixes: seq<string> := ["http://", "https://", "//", "mailto:", "tel:", "data:", "javascript:", "#"]

  /** LATIN SMALL LETTER LONG S, which `re.IGNORECASE` matches with "s". */
  const LongS: char := '\U{017F}'

  /**
   * Whether the character `c` matches the pattern character `p` (punctuation or a lower-case
   * ASCII letter) under `re.IGNORECASE` on a str pattern: a letter matches itself in either
   * case, "i" also matches dotted capital I and dotless small i, "s" the long s, and "k" the
   * Kelvin sign.
   */
  predicate MatchesIgnoringCase(c: char, p: char) {
    c == p
    || ('a' <= p <= 'z' && c as int == p as int - 32)
    || (p == 'i' && (c == '\U{0130}' || c == '\U{0131}'))
    || (p == 's' && c == LongS)
    || (p == 'k' && c == '\U{212A}')
  }

  predicate StartsWithIgnoringCase(s: string, prefix: string) {
    |prefix| <= |s| && forall i :: 0 <= i < |prefix| ==> MatchesIgnoringCase(s[i], prefix[i])
  }

  /** Whether an anchored alternation of the given literals matches at the start of `s`. */
  function MatchesAnyPrefix(s: string, prefixes: seq<string>): (b: bool)
    ensures b <==> exists k :: 0 <= k < |prefixes| && StartsWithIgnoringCase(s, prefixes[k])
    decreases |prefixes|
  {
    if prefixes == [] then false
    else
      var rest := MatchesAnyPrefix(s, prefixes[1..]);
      assert forall k :: 0 < k < |prefixes| ==> prefixes[k] == prefixes[1..][k - 1];
      StartsWithIgnoringCase(s, prefixes[0]) || rest
  }

  /**
   * `_should_process_href`: only a non-empty string is processed, and only when it starts,
   * ignoring case, with none of the external or special prefixes.
   */
  function ShouldProcessHref(v: AttrValue): (b: bool)
    ensures b <==> v.Str? && v.s != "" && forall k :: 0 <= k < |ExternalPrefixes| ==> !StartsWithIgnoringCase(v.s, ExternalPrefixes[k])
  {
    v.Str? && v.s != "" && !MatchesAnyPrefix(v.s, ExternalPrefixes)
  }

  /** The string differs from the external prefix `ExternalPrefixes[k]` at position `j`, even ignoring case. */
  predicate DiffersAt(s: string, k: nat, j: nat) {
    k < |ExternalPrefixes| && j < |s| && j < |ExternalPrefixes[k]| && !MatchesIgnoringCase(s[j], ExternalPrefixes[k][j])
  }

  /** A non-empty string that differs from each external prefix somewhere is processed. */
  lemma ProcessedWhenEveryPrefixDiffers(s: string, at: seq<nat>)
    requires s != "" && |at| == 8
    requires DiffersAt(s, 0, at[0]) && DiffersAt(s, 1, at[1]) && DiffersAt(s, 2, at[2]) && DiffersAt(s, 3, at[3])
    requires DiffersAt(s, 4, at[4]) && DiffersAt(s, 5, at[5]) && DiffersAt(s, 6, at[6]) && DiffersAt(s, 7, at[7])
    ensures ShouldProcessHref(Str(s))
  {
    forall k | 0 <= k < |ExternalPrefixes| ensures !StartsWithIgnoringCase(s, ExternalPrefixes[k]) {
      assert DiffersAt(s, k, at[k]) by {
        if k < 4 {
          if k == 0 {} else if k == 1 {} else if k == 2 {} else {}
        } else {
          if k == 4 {} else if k == 5 {} else if k == 6 {} else {}
        }
      }
    }
  }

  /** Local paths are processed, including ones that only resemble a scheme. */
  lemma LocalHrefsProcessed()
    ensures ShouldProcessHref(Str("static/styles.css"))
    ensures ShouldProcessHref(Str("data.css"))
    ensures ShouldProcessHref(Str("https:/cdn.css"))
  {
    StaticHrefProcessed();
    DataFileProcessed();
    SingleSlashSchemeProcessed();
  }

  lemma StaticHrefProcessed()
    ensures ShouldProcessHref(Str("static/styles.css"))
  {
    ProcessedWhenEveryPrefixDiffers("static/styles.css", [0, 0, 0, 0, 0, 0, 0, 0]);
  }

  lemma DataFileProcessed()
    ensures ShouldProcessHref(Str("data.css"))
  {
    ProcessedWhenEveryPrefixDiffers("data.css", [0, 0, 0, 0, 0, 4, 0, 0]);
  }

  lemma SingleSlashSchemeProcessed()
    ensures ShouldProcessHref(Str("https:/cdn.css"))
  {
    ProcessedWhenEveryPrefixDiffers("https:/cdn.css", [4, 7, 0, 0, 0, 0, 0, 0]);
  }

  /** External and special URLs are skipped whatever their case, as are the empty string and None. */
  lemma ExternalHrefsSkipped()
    ensures !ShouldProcessHref(Str("HTTPS://cdn.example.com/style.css"))
    ensures !ShouldProcessHref(Str("Mailto:user@example.com"))
    ensures !ShouldProcessHref(Str("#section"))
    ensures !ShouldProcessHref(Str("java" + [LongS] + "cript:void(0)"))
    ensures !ShouldProcessHref(Str("")) && !ShouldProcessHref(Null)
  {
    assert StartsWithIgnoringCase("HTTPS://cdn.example.com/style.css", ExternalPrefixes[1]);
    assert StartsWithIgnoringCase("Mailto:user@example.com", ExternalPrefixes[3]);
    assert StartsWithIgnoringCase("#section", ExternalPrefixes[7]);
    assert StartsWithIgnoringCase("java" + [LongS] + "cript:void(0)", ExternalPrefixes[6]);
  }

  /** The attribute the engine rewrites on an element with this tag: `href` of a link, `src` of a script. */
  function AssetAttr(tag: string): Option<string> {
    if tag == "link" then Some("href") else if tag == "script" then Some("src") else None
  }

  /** `_transform_asset_element(element, attr_name, component)` */
  function TransformAssetElement(e: Node, attrName: string, c: Component, files: Backend): (r: Result<Node, Error>)
    requires e.Element?
    ensures !ShouldProcessHref(Get(e.attrs, attrName)) ==> r == Ok(e)
    ensures ShouldProcessHref(Get(e.attrs, attrName)) && AssetHandle(c, Get(e.attrs, attrName).s, files).Err? ==>
      r == Err(AssetHandle(c, Get(e.attrs, attrName).s, files).error)
    ensures ShouldProcessHref(Get(e.attrs, attrName)) && AssetHandle(c, Get(e.attrs, attrName).s, files).Ok? ==>
      var h := AssetHandle(c, Get(e.attrs, attrName).s, files).value;
      && r.Ok? && r.value.Element? && r.value.tag == e.tag && r.value.children == e.children
      && |r.value.attrs| == |e.attrs|
      && (forall i :: 0 <= i < |e.attrs| ==>
            r.value.attrs[i] == if e.attrs[i].0 == attrName then (attrName, Handle(h)) else e.attrs[i])
      && (r.value.isPathElement <==> exists i :: 0 <= i < |r.value.attrs| && IsPurePathValue(r.value.attrs[i].1))
  {
    var v := Get(e.attrs, attrName);
    if !ShouldProcessHref(v) then Ok(e)
    else
      match AssetHandle(c, v.s, files)
      case Err(err) => Err(err)
      case Ok(h) =>
        var attrs := Assign(e.attrs, attrName, Handle(h));
        Ok(Element(e.tag, attrs, e.children, HasPurePath(attrs)))
  }

  /** The transform `make_path_nodes` hands to the walker. */
  function AnnotateTransform(n: Node, c: Component, files: Backend): Result<Node, Error> {
    match n
    case Element(tag, _, _, _) =>
      if tag == "link" then TransformAssetElement(n, "href", c, files)
      else if tag == "script" then TransformAssetElement(n, "src", c, files)
      else Ok(n)
    case _ => Ok(n)
  }

  function AnnotateFn(c: Component, files: Backend): Node -> Result<Node, Error> {
    m => AnnotateTransform(m, c, files)
  }

  lemma AnnotateKeepsChildren(c: Component, files: Backend)
    ensures PreservesChildren(AnnotateFn(c, files))
  {
    forall m | AnnotateFn(c, files)(m).Ok?
      ensures Children(AnnotateFn(c, files)(m).value) == Children(m)
    {
      assert AnnotateFn(c, files)(m) == AnnotateTransform(m, c, files);
    }
  }

  /** `make_path_nodes(target, component)` */
  function MakePathNodes(target: Node, c: Component, files: Backend): Result<Node, Error> {
    AnnotateKeepsChildren(c, files);
    Walk(target, AnnotateFn(c, files))
  }

  /** An element the annotate phase rewrites: a link or script whose asset attribute is a processable string. */
  predicate Eligible(n: Node) {
    n.Element? && AssetAttr(n.tag).Some? && ShouldProcessHref(Get(n.attrs, AssetAttr(n.tag).value))
  }

  /** The asset string of an eligible element. */
  function AssetString(n: Node): string
    requires Eligible(n)
  {
    Get(n.attrs, AssetAttr(n.tag).value).s
  }

  /** An eligible element whose asset `make_path` cannot resolve. */
  predicate FailingAsset(n: Node, c: Component, files: Backend) {
    Eligible(n) && AssetHandle(c, AssetString(n), files).Err?
  }

  /**
   * How annotation leaves an attribute list: the same names in the same order; the asset
   * attribute of a link or script, when it holds a processable string, holds the handle
   * `make_path` resolves that string to; every other value is unchanged.
   */
  ghost predicate AttrsAnnotated(tag: string, attrs: Attrs, newAttrs: Attrs, c: Component, files: Backend) {
    |newAttrs| == |attrs|
    && forall i :: 0 <= i < |attrs| ==>
      && newAttrs[i].0 == attrs[i].0
      && (if Some(attrs[i].0) == AssetAttr(tag) && ShouldProcessHref(attrs[i].1)
          then newAttrs[i].1.Handle? && AssetHandle(c, attrs[i].1.s, files) == Ok(newAttrs[i].1.h)
          else newAttrs[i].1 == attrs[i].1)
  }

  /**
   * `r` is what annotation makes of `n`: the same shape; text and comments untouched;
   * attributes as AttrsAnnotated says; and an element is a PathElement exactly when none
   * of its children changed and, if it was rewritten, one of its attributes is now a
   * file-system path, or, if it was not, it was a PathElement already.
   */
  ghost predicate Annotated(n: Node, r: Node, c: Component, files: Backend)
    decreases n
  {
    match n
    case Element(tag, attrs, kids, marked) =>
      && r.Element? && r.tag == tag
      && AttrsAnnotated(tag, attrs, r.attrs, c, files)
      && |r.children| == |kids|
      && (forall i :: 0 <= i < |kids| ==> Annotated(kids[i], r.children[i], c, files))
      && r.isPathElement == (r.children == kids && if Eligible(n) then HasPurePath(r.attrs) else marked)
    case Fragment(kids) =>
      && r.Fragment?
      && |r.children| == |kids|
      && (forall i :: 0 <= i < |kids| ==> Annotated(kids[i], r.children[i], c, files))
    case _ => r == n
  }

  /** What the transform does to one node it succeeds on. */
  lemma AnnotateTransformShape(n: Node, c: Component, files: Backend)
    requires n.Element? && UniqueKeys(n.attrs) && AnnotateTransform(n, c, files).Ok?
    ensures var t := AnnotateTransform(n, c, files).value;
      && t.Element? && t.tag == n.tag && t.children == n.children
      && AttrsAnnotated(n.tag, n.attrs, t.attrs, c, files)
      && t.isPathElement == if Eligible(n) then HasPurePath(t.attrs) else n.isPathElement
  {
    var t := AnnotateTransform(n, c, files).value;
    if Eligible(n) {
      var name := AssetAttr(n.tag).value;
      forall i | 0 <= i < |n.attrs| && n.attrs[i].0 == name
        ensures n.attrs[i].1 == Get(n.attrs, name)
      {
      }
    } else if AssetAttr(n.tag).Some? {
      var name := AssetAttr(n.tag).value;
      forall i | 0 <= i < |n.attrs| && n.attrs[i].0 == name
        ensures n.attrs[i].1 == Get(n.attrs, name)
      {
      }
    }
  }

  /** The transform fails on a node exactly when the node is an eligible element whose asset does not resolve, with make_path's error. */
  lemma AnnotateTransformFails(n: Node, c: Component, files: Backend)
    ensures AnnotateTransform(n, c, files).Err? <==> FailingAsset(n, c, files)
    ensures FailingAsset(n, c, files) ==> AnnotateTransform(n, c, files).error == AssetHandle(c, AssetString(n), files).error
  {
  }

  /** Annotation describes every successful run of `make_path_nodes` on a well-formed tree. */
  lemma {:induction false} MakePathNodesAnnotates(n: Node, c: Component, files: Backend)
    requires WellFormed(n) && MakePathNodes(n, c, files).Ok?
    ensures Annotated(n, MakePathNodes(n, c, files).value, c, files)
    decreases n
  {
    var f := AnnotateFn(c, files);
    AnnotateKeepsChildren(c, files);
    WalkOk(n, f);
    var r := MakePathNodes(n, c, files).value;
    var kids := Children(n);
    forall i | 0 <= i < |kids| ensures Annotated(kids[i], Children(r)[i], c, files) {
      MakePathNodesAnnotates(kids[i], c, files);
    }
    assert f(n) == AnnotateTransform(n, c, files);
    if n.Element? {
      AnnotateTransformShape(n, c, files);
    }
  }

  /**
   * `make_path_nodes` raises exactly when some link or script asset fails to resolve, and
   * it raises the error of the first such element in document order.
   */
  lemma MakePathNodesFailsAtFirstAsset(n: Node, c: Component, files: Backend)
    ensures var ms := PreOrder(n);
      && (MakePathNodes(n, c, files).Err? <==> exists i :: 0 <= i < |ms| && FailingAsset(ms[i], c, files))
      && (MakePathNodes(n, c, files).Err? ==>
            exists i :: 0 <= i < |ms| && FailingAsset(ms[i], c, files)
              && MakePathNodes(n, c, files).error == AssetHandle(c, AssetString(ms[i]), files).error
              && forall j :: 0 <= j < i ==> !FailingAsset(ms[j], c, files))
  {
    var f := AnnotateFn(c, files);
    AnnotateKeepsChildren(c, files);
    WalkFailsAtFirstError(n, f);
    forall m ensures f(m).Err? <==> FailingAsset(m, c, files)
      ensures FailingAsset(m, c, files) ==> f(m).error == AssetHandle(c, AssetString(m), files).error
    {
      AnnotateTransformFails(m, c, files);
    }
  }

  /** A tree with no eligible element comes back as it is. */
  lemma MakePathNodesUnchanged(n: Node, c: Component, files: Backend)
    requires forall m :: m in PreOrder(n) ==> !Eligible(m)
    ensures MakePathNodes(n, c, files) == Ok(n)
  {
    var f := AnnotateFn(c, files);
    AnnotateKeepsChildren(c, files);
    forall m | m in PreOrder(n) ensures f(m) == Ok(m) {
      assert f(m) == AnnotateTransform(m, c, files);
    }
    WalkIdentity(n, f);
  }

  /** An annotated tree equal to its input holds no eligible element. */
  lemma {:induction false} AnnotatedSelfHasNoAssets(n: Node, c: Component, files: Backend)
    requires WellFormed(n) && Annotated(n, n, c, files)
    ensures forall m :: m in PreOrder(n) ==> !Eligible(m)
    decreases n
  {
    forall m | m in PreOrder(n) ensures !Eligible(m) {
      PreOrderMember(n, m);
      if m != n {
        var i :| 0 <= i < |Children(n)| && m in PreOrder(Children(n)[i]);
        AnnotatedSelfHasNoAssets(Children(n)[i], c, files);
      }
    }
  }

  /** On a well-formed tree, `make_path_nodes` returns its input exactly when no link or script holds a processable asset. */
  lemma MakePathNodesIdentityIff(n: Node, c: Component, files: Backend)
    requires WellFormed(n)
    ensures MakePathNodes(n, c, files) == Ok(n) <==> forall m :: m in PreOrder(n) ==> !Eligible(m)
  {
    if MakePathNodes(n, c, files) == Ok(n) {
      MakePathNodesAnnotates(n, c, files);
      AnnotatedSelfHasNoAssets(n, c, files);
    } else if forall m :: m in PreOrder(n) ==> !Eligible(m) {
      MakePathNodesUnchanged(n, c, files);
    }
  }

  /** An `img` is never rewritten, even when its `src` is a package path. */
  lemma ImageSourceUntouched(c: Component, files: Backend)
    ensures var img := Element("img", [("src", Str("pkg:static/logo.png"))], [], false);
      MakePathNodes(img, c, files) == Ok(img)
  {
    var img := Element("img", [("src", Str("pkg:static/logo.png"))], [], false);
    assert PreOrder(img) == [img] + Flatten([]);
    MakePathNodesUnchanged(img, c, files);
  }
}
