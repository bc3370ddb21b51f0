/**
 * The render phase, `render_path_nodes` (src/tdom_path/tree.py:245-490): every PathElement
 * that holds a file-system path has each such attribute turned into the string the
 * strategy computes, and becomes a plain Element again.
 */
module Render {
  import opened Base
  import opened Text
  import opened PosixPath
  import opened WebPath
  import opened Nodes
  import opened Walker

  /** `RelativePathStrategy(site_prefix)`: a frozen dataclass, so a value. */
  datatype RelativePathStrategy = RelativePathStrategy(sitePrefix: Option<PurePath>)

  /**
   * `RelativePathStrategy.calculate_path(source, target)`. A PurePosixPath is always true,
   * so any prefix takes the first branch; otherwise the path of `source` seen from the
   * directory of `target`, or `str(source)` when pathlib raises ValueError.
   */
  function CalculatePath(s: RelativePathStrategy, source: PurePath, target: PurePath): string {
    if s.sitePrefix.Some? then PathStr(JoinPath(s.sitePrefix.value, source))
    else
      match RelativeTo(source, Parent(target))
      case Some(rel) => PathStr(rel)
      case None => PathStr(source)
  }

  /**
   * With a site prefix the target plays no part: a relative source is printed under the
   * prefix, one "/" between them, and an absolute source replaces the prefix.
   */
  lemma CalculatePathWithPrefix(prefix: PurePath, source: PurePath, target: PurePath, otherTarget: PurePath)
    ensures var s := RelativePathStrategy(Some(prefix));
      && CalculatePath(s, source, target) == CalculatePath(s, source, otherTarget)
      && (source.anchored ==> CalculatePath(s, source, target) == PathStr(source))
      && (!source.anchored && prefix.parts != [] && source.parts != [] ==>
            CalculatePath(s, source, target) == PathStr(prefix) + "/" + PathStr(source))
  {
    if !source.anchored && prefix.parts != [] && source.parts != [] {
      JoinPathString(prefix, source);
    }
  }

  /**
   * Without a prefix the result is the declarative walk-up path from the target's
   * directory: one ".." per part of that directory beyond what it shares with the source,
   * then the rest of the source; and `str(source)` when the anchors differ or the walk
   * would have to climb over a "..".
   */
  lemma CalculatePathWithoutPrefix(source: PurePath, target: PurePath)
    ensures WalkUpPath(source, Parent(target)).Some? ==>
      CalculatePath(RelativePathStrategy(None), source, target) == PathStr(WalkUpPath(source, Parent(target)).value)
    ensures WalkUpPath(source, Parent(target)).None? ==>
      CalculatePath(RelativePathStrategy(None), source, target) == PathStr(source)
    ensures source.anchored != target.anchored ==> CalculatePath(RelativePathStrategy(None), source, target) == PathStr(source)
  {
    RelativeToIsWalkUp(source, Parent(target));
  }

  /**
   * Round trip: when the relative computation succeeds for a source with no ".." part, the
   * string printed is that of a relative path which, resolved against the target's
   * directory, leads back to the source.
   */
  lemma CalculatePathResolvesBack(source: PurePath, target: PurePath)
    requires ".." !in source.parts
    requires RelativeTo(source, Parent(target)).Some?
    ensures exists rel: PurePath ::
      && CalculatePath(RelativePathStrategy(None), source, target) == PathStr(rel)
      && !rel.anchored
      && Resolve(Parent(target), rel.parts) == source
  {
    RelativeToResolvesBack(source, Parent(target));
    var rel := RelativeTo(source, Parent(target)).value;
    assert CalculatePath(RelativePathStrategy(None), source, target) == PathStr(rel);
  }

  /** A source in the target's own directory prints as its bare file name. */
  lemma CalculatePathSameDirectory(source: PurePath, target: PurePath)
    requires source.parts != [] && Parent(source) == Parent(target)
    ensures CalculatePath(RelativePathStrategy(None), source, target) == Name(source)
  {
    var dir := Parent(target);
    assert IsRelativeTo(source, Ancestor(dir, 0)) by {
      assert Ancestor(dir, 0) == dir;
    }
    assert source.parts[|dir.parts|..] == [Name(source)];
    assert Repeat("..", 0) == [];
    assert RelativeToFrom(source, dir, 0) == Some(PurePath(false, Repeat("..", 0) + source.parts[|dir.parts|..]));
  }

  /** A stylesheet two directories down seen from a page one directory down: one climb, not two. */
  lemma CalculatePathClimbsOnce()
    ensures CalculatePath(RelativePathStrategy(None),
                          PurePath(false, ["mysite", "components", "heading", "static", "styles.css"]),
                          PurePath(false, ["mysite", "pages", "about.html"]))
            == "../components/heading/static/styles.css"
  {
    var source := PurePath(false, ["mysite", "components", "heading", "static", "styles.css"]);
    var target := PurePath(false, ["mysite", "pages", "about.html"]);
    var dir := PurePath(false, ["mysite", "pages"]);
    var rel := PurePath(false, ["..", "components", "heading", "static", "styles.css"]);
    assert Parent(target) == dir;
    // relative_to finds no match at the directory itself, then walks up once to "mysite".
    assert RelativeTo(source, dir) == Some(rel) by {
      assert RelativeToFrom(source, dir, 1) == Some(rel) by {
        assert Ancestor(dir, 1) == PurePath(false, ["mysite"]);
        assert IsRelativeTo(source, Ancestor(dir, 1));
        assert Repeat("..", 1) == [".."];
        assert source.parts[1..] == ["components", "heading", "static", "styles.css"];
        assert Repeat("..", 1) + source.parts[|Ancestor(dir, 1).parts|..] == rel.parts;
      }
      assert Ancestor(dir, 0) == dir;
      assert source.parts[1] != dir.parts[1];
      assert !(dir.parts <= source.parts);
      assert Name(dir) == "pages";
    }
    ClimbPrinted();
  }

  /**
   * The printed form of that climb. Each literal join below is its own lemma: evaluated
   * together, the string literals cost the solver more than one proof may spend.
   */
  lemma ClimbPrinted()
    ensures PathStr(PurePath(false, ["..", "components", "heading", "static", "styles.css"]))
            == "../components/heading/static/styles.css"
  {
    assert ["..", "components", "heading", "static", "styles.css"][1..] == ["components", "heading", "static", "styles.css"];
    JoinComponentPath();
    ClimbLiteral();
  }

  lemma JoinStylesheetPath()
    ensures Join(["static", "styles.css"], '/') == "static/styles.css"
  {
    assert ["static", "styles.css"][1..] == ["styles.css"];
  }

  lemma JoinHeadingPath()
    ensures Join(["heading", "static", "styles.css"], '/') == "heading/static/styles.css"
  {
    assert ["heading", "static", "styles.css"][1..] == ["static", "styles.css"];
    JoinStylesheetPath();
  }

  lemma JoinComponentPath()
    ensures Join(["components", "heading", "static", "styles.css"], '/') == "components/heading/static/styles.css"
  {
    assert ["components", "heading", "static", "styles.css"][1..] == ["heading", "static", "styles.css"];
    JoinHeadingPath();
  }

  lemma ClimbLiteral()
    ensures ".." + "/" + "components/heading/static/styles.css" == "../components/heading/static/styles.css"
  {
  }

  /** A path-valued attribute becomes the strategy's string; every other value stays. */
  function RenderValue(v: AttrValue, target: PurePath, s: RelativePathStrategy): AttrValue {
    if IsPurePathValue(v) then Str(CalculatePath(s, PathOf(v.h), target)) else v
  }

  /**
   * The attributes `_render_transform_node` builds: the same names in the same order, every
   * file-system path replaced by its string, everything else kept; no path is left.
   */
  function RenderedAttrs(attrs: Attrs, target: PurePath, s: RelativePathStrategy): (r: Attrs)
    ensures |r| == |attrs|
    ensures forall i :: 0 <= i < |attrs| ==> r[i].0 == attrs[i].0
    ensures forall i :: 0 <= i < |attrs| && !IsPurePathValue(attrs[i].1) ==> r[i].1 == attrs[i].1
    ensures forall i :: 0 <= i < |attrs| && IsPurePathValue(attrs[i].1) ==>
      r[i].1 == Str(CalculatePath(s, PathOf(attrs[i].1.h), target))
    ensures !HasPurePath(r)
    ensures UniqueKeys(attrs) ==> UniqueKeys(r)
  {
    seq(|attrs|, i requires 0 <= i < |attrs| => (attrs[i].0, RenderValue(attrs[i].1, target, s)))
  }

  /** The loop of `_render_transform_node` that fills a fresh dict, key by key. */
  method RenderAttributes(attrs: Attrs, target: PurePath, s: RelativePathStrategy) returns (newAttrs: Attrs)
    requires UniqueKeys(attrs)
    ensures newAttrs == RenderedAttrs(attrs, target, s)
  {
    newAttrs := [];
    for i := 0 to |attrs|
      invariant newAttrs == RenderedAttrs(attrs[..i], target, s)
    {
      var (name, value) := attrs[i];
      var rendered := if IsPurePathValue(value) then Str(CalculatePath(s, PathOf(value.h), target)) else value;
      assert !HasKey(newAttrs, name) by {
        forall j | 0 <= j < |newAttrs| ensures newAttrs[j].0 != name {
          assert newAttrs[j].0 == attrs[..i][j].0 == attrs[j].0;
        }
      }
      newAttrs := Assign(newAttrs, name, rendered);
      assert attrs[..i + 1] == attrs[..i] + [attrs[i]];
      assert newAttrs == RenderedAttrs(attrs[..i + 1], target, s);
    }
    assert attrs[..|attrs|] == attrs;
  }

  /** `_render_transform_node(node, target, strategy)` */
  function RenderTransformNode(n: Node, target: PurePath, s: RelativePathStrategy): (r: Node)
    ensures !(n.Element? && n.isPathElement && HasPurePath(n.attrs)) ==> r == n
    ensures n.Element? && n.isPathElement && HasPurePath(n.attrs) ==>
      && r.Element? && !r.isPathElement && r.tag == n.tag && r.children == n.children
      && r.attrs == RenderedAttrs(n.attrs, target, s)
      && |r.attrs| == |n.attrs| && (forall i :: 0 <= i < |n.attrs| ==> r.attrs[i].0 == n.attrs[i].0)
      && (forall i :: 0 <= i < |n.attrs| && !IsPurePathValue(n.attrs[i].1) ==> r.attrs[i].1 == n.attrs[i].1)
      && (forall i :: 0 <= i < |n.attrs| && IsPurePathValue(n.attrs[i].1) ==>
            r.attrs[i].1 == Str(CalculatePath(s, PathOf(n.attrs[i].1.h), target)))
      && !HasPurePath(r.attrs)
  {
    if !(n.Element? && n.isPathElement) then n
    else if !HasPurePath(n.attrs) then n
    else Element(n.tag, RenderedAttrs(n.attrs, target, s), n.children, false)
  }

  function RenderFn(target: PurePath, s: RelativePathStrategy): Node -> Result<Node, ()> {
    m => Ok(RenderTransformNode(m, target, s))
  }

  lemma RenderFnTotal(target: PurePath, s: RelativePathStrategy)
    ensures PreservesChildren(RenderFn(target, s))
    ensures forall m :: RenderFn(target, s)(m) == Ok(RenderTransformNode(m, target, s))
  {
  }

  /** `strategy or RelativePathStrategy()` */
  function StrategyOrDefault(strategy: Option<RelativePathStrategy>): RelativePathStrategy {
    if strategy.None? then RelativePathStrategy(None) else strategy.value
  }

  /**
   * `r` is what rendering makes of `n`: the same shape; text and comments untouched; a
   * PathElement holding a file-system path gets its rendered attributes and becomes a plain
   * Element; any other element keeps its attributes, and stays a PathElement only when it
   * was one and none of its children changed.
   */
  ghost predicate Rendered(n: Node, r: Node, target: PurePath, s: RelativePathStrategy)
    decreases n
  {
    match n
    case Element(tag, attrs, kids, marked) =>
      var rewritten := marked && HasPurePath(attrs);
      && r.Element? && r.tag == tag
      && r.attrs == (if rewritten then RenderedAttrs(attrs, target, s) else attrs)
      && |r.children| == |kids|
      && (forall i :: 0 <= i < |kids| ==> Rendered(kids[i], r.children[i], target, s))
      && r.isPathElement == (!rewritten && marked && r.children == kids)
    case Fragment(kids) =>
      && r.Fragment?
      && |r.children| == |kids|
      && (forall i :: 0 <= i < |kids| ==> Rendered(kids[i], r.children[i], target, s))
    case _ => r == n
  }

  lemma {:induction false} WalkRenders(n: Node, target: PurePath, s: RelativePathStrategy)
    requires PreservesChildren(RenderFn(target, s))
    requires Walk(n, RenderFn(target, s)).Ok?
    ensures Rendered(n, Walk(n, RenderFn(target, s)).value, target, s)
    decreases n
  {
    var f := RenderFn(target, s);
    WalkOk(n, f);
    var kids := Children(n);
    forall i | 0 <= i < |kids| ensures Rendered(kids[i], Children(Walk(n, f).value)[i], target, s) {
      WalkRenders(kids[i], target, s);
    }
    assert f(n) == Ok(RenderTransformNode(n, target, s));
  }

  /** `render_path_nodes(tree, target, strategy)`: never raises, and renders as Rendered says with the strategy or its default. */
  function RenderPathNodes(tree: Node, target: PurePath, strategy: Option<RelativePathStrategy>): (r: Node)
    ensures Rendered(tree, r, target, StrategyOrDefault(strategy))
  {
    var s := StrategyOrDefault(strategy);
    RenderFnTotal(target, s);
    WalkTotal(tree, RenderFn(target, s));
    WalkRenders(tree, target, s);
    Walk(tree, RenderFn(target, s)).value
  }

  /** A tree with no PathElement holding a file-system path comes back as it is. */
  lemma RenderPathNodesUnchanged(tree: Node, target: PurePath, strategy: Option<RelativePathStrategy>)
    requires forall m :: m in PreOrder(tree) ==> !(m.Element? && m.isPathElement && HasPurePath(m.attrs))
    ensures RenderPathNodes(tree, target, strategy) == tree
  {
    var s := StrategyOrDefault(strategy);
    RenderFnTotal(target, s);
    WalkIdentity(tree, RenderFn(target, s));
  }
}
