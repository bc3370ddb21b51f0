/**
 * The two phases together: a tree annotated by `make_path_nodes` and then rendered by
 * `render_path_nodes`. Rendering turns back into strings every handle annotation made,
 * provided the backend hands out file-system directories and no asset element sits inside
 * another one; otherwise handles can survive.
 */
module Pipeline {
  import opened Base
  import opened Text
  import opened PosixPath
  import opened WebPath
  import opened Nodes
  import opened Walker
  import opened Annotate
  import opened Render

  /** No attribute anywhere in the tree holds a handle, as in a tree a template produces. */
  ghost predicate NoHandles(n: Node)
    decreases n
  {
    (n.Element? ==> !HasHandle(n.attrs))
    && forall i :: 0 <= i < |Children(n)| ==> NoHandles(Children(n)[i])
  }

  /** Every root the backend hands out is a directory on a POSIX file system (a pathlib.PosixPath). */
  ghost predicate FileSystemBackend(files: Backend) {
    forall name :: files(name).Some? ==> files(name).value.FsRoot?
  }

  /** No link or script of the tree holds a processable asset. */
  ghost predicate NoAssets(n: Node) {
    forall m :: m in PreOrder(n) ==> !Eligible(m)
  }

  /** No element with a processable asset has another one among its descendants. */
  ghost predicate NoNestedAssets(n: Node)
    decreases n
  {
    (Eligible(n) ==> forall i :: 0 <= i < |Children(n)| ==> NoAssets(Children(n)[i]))
    && forall i :: 0 <= i < |Children(n)| ==> NoNestedAssets(Children(n)[i])
  }

  /** Every element that holds a handle is a PathElement, and each of its handles is a file-system path. */
  ghost predicate Settled(n: Node)
    decreases n
  {
    (n.Element? && HasHandle(n.attrs) ==>
       n.isPathElement && forall i :: 0 <= i < |n.attrs| && n.attrs[i].1.Handle? ==> IsPurePath(n.attrs[i].1.h))
    && forall i :: 0 <= i < |Children(n)| ==> Settled(Children(n)[i])
  }

  /** A handle `make_path` returns starts at a root the backend handed out. */
  lemma HandleRootFromBackend(c: Component, asset: string, files: Backend)
    requires FileSystemBackend(files) && AssetHandle(c, asset, files).Ok?
    ensures IsPurePath(AssetHandle(c, asset, files).value)
  {
  }

  /** Annotation leaves a tree with no eligible element exactly as it is. */
  lemma {:induction false} AnnotatedWithoutAssets(n: Node, r: Node, c: Component, files: Backend)
    requires WellFormed(n) && NoAssets(n) && Annotated(n, r, c, files)
    ensures r == n
    decreases n
  {
    var kids := Children(n);
    forall i | 0 <= i < |kids| ensures NoAssets(kids[i]) {
      forall m | m in PreOrder(kids[i]) ensures !Eligible(m) {
        ChildPreOrder(n, i, m);
      }
    }
    match n
    case Element(tag, attrs, _, marked) =>
      assert !Eligible(n);
      forall i | 0 <= i < |attrs| ensures r.attrs[i] == attrs[i] {
        if Some(attrs[i].0) == AssetAttr(tag) {
          assert Get(attrs, attrs[i].0) == attrs[i].1;
        }
      }
      assert r.attrs == attrs;
      forall i | 0 <= i < |kids| ensures r.children[i] == kids[i] {
        AnnotatedWithoutAssets(kids[i], r.children[i], c, files);
      }
      assert r.children == kids;
    case Fragment(_) =>
      forall i | 0 <= i < |kids| ensures r.children[i] == kids[i] {
        AnnotatedWithoutAssets(kids[i], r.children[i], c, files);
      }
      assert r.children == kids;
    case _ =>
  }

  /**
   * On a handle-free tree with no nested assets and a file-system backend, annotation
   * leaves every element that holds a handle a PathElement holding only file-system paths.
   */
  lemma {:induction false} AnnotationSettles(n: Node, r: Node, c: Component, files: Backend)
    requires WellFormed(n) && NoHandles(n) && NoNestedAssets(n) && FileSystemBackend(files)
    requires Annotated(n, r, c, files)
    ensures Settled(r)
    decreases n
  {
    var kids := Children(n);
    forall i | 0 <= i < |kids| ensures Settled(Children(r)[i]) {
      AnnotationSettles(kids[i], Children(r)[i], c, files);
    }
    if n.Element? {
      var tag, attrs := n.tag, n.attrs;
      forall i | 0 <= i < |attrs| && r.attrs[i].1.Handle?
        ensures Some(attrs[i].0) == AssetAttr(tag) && ShouldProcessHref(attrs[i].1)
        ensures IsPurePath(r.attrs[i].1.h)
      {
        assert !attrs[i].1.Handle?;
        if Some(attrs[i].0) == AssetAttr(tag) && ShouldProcessHref(attrs[i].1) {
          HandleRootFromBackend(c, attrs[i].1.s, files);
        }
      }
      if HasHandle(r.attrs) {
        var i :| 0 <= i < |r.attrs| && r.attrs[i].1.Handle?;
        assert Get(attrs, attrs[i].0) == attrs[i].1;
        assert Eligible(n);
        forall j | 0 <= j < |kids| ensures r.children[j] == kids[j] {
          AnnotatedWithoutAssets(kids[j], r.children[j], c, files);
        }
        assert r.children == kids;
        assert IsPurePathValue(r.attrs[i].1);
      }
    }
  }

  /** Rendering a settled tree leaves no handle anywhere. */
  lemma {:induction false} RenderingClears(a: Node, r: Node, target: PurePath, s: RelativePathStrategy)
    requires Settled(a) && Rendered(a, r, target, s)
    ensures NoHandles(r)
    decreases a
  {
    var kids := Children(a);
    forall i | 0 <= i < |kids| ensures NoHandles(Children(r)[i]) {
      RenderingClears(kids[i], Children(r)[i], target, s);
    }
    if a.Element? {
      if HasHandle(a.attrs) {
        var i :| 0 <= i < |a.attrs| && a.attrs[i].1.Handle?;
        assert IsPurePathValue(a.attrs[i].1);
        assert r.attrs == RenderedAttrs(a.attrs, target, s);
        forall j | 0 <= j < |r.attrs| ensures !r.attrs[j].1.Handle? {
          if !IsPurePathValue(a.attrs[j].1) {
            assert r.attrs[j].1 == a.attrs[j].1;
          }
        }
      } else {
        assert !HasPurePath(a.attrs);
      }
    }
  }

  /**
   * Round trip: on a handle-free, well-formed tree with no asset element inside another and
   * a backend of file-system directories, annotating and then rendering (to any target,
   * with any strategy) leaves no handle in the tree.
   */
  lemma AnnotateThenRenderLeavesNoHandles(
    n: Node, c: Component, files: Backend, target: PurePath, strategy: Option<RelativePathStrategy>)
    requires WellFormed(n) && NoHandles(n) && NoNestedAssets(n) && FileSystemBackend(files)
    requires MakePathNodes(n, c, files).Ok?
    ensures NoHandles(RenderPathNodes(MakePathNodes(n, c, files).value, target, strategy))
  {
    var a := MakePathNodes(n, c, files).value;
    MakePathNodesAnnotates(n, c, files);
    AnnotationSettles(n, a, c, files);
    RenderingClears(a, RenderPathNodes(a, target, strategy), target, StrategyOrDefault(strategy));
  }

  /** A relative asset with no special prefix is processed. */
  lemma PlainAssetsProcessed()
    ensures ShouldProcessHref(Str("a.css")) && ShouldProcessHref(Str("b.js"))
  {
    ProcessedWhenEveryPrefixDiffers("a.css", [0, 0, 0, 0, 0, 0, 0, 0]);
    ProcessedWhenEveryPrefixDiffers("b.js", [0, 0, 0, 0, 0, 0, 0, 0]);
  }

  /** A childless link, a script holding it, both with local assets, and the component they belong to. */
  const PlainLink := Element("link", [("href", Str("a.css"))], [], false)
  const ScriptWithLink := Element("script", [("src", Str("b.js"))], [PlainLink], false)
  const PageComponent := Component("Page", Some("site"))

  lemma PageAssetsResolve(files: Backend, asset: string)
    requires files("site").Some? && ':' !in asset
    ensures AssetHandle(PageComponent, asset, files).Ok?
    ensures AssetHandle(PageComponent, asset, files).value.root == files("site").value
  {
    SplitWithoutSep("site", '.');
    assert NormalizeModuleName("site") == "site";
  }

  lemma NestedPreOrder()
    ensures PreOrder(ScriptWithLink) == [ScriptWithLink, PlainLink]
  {
    assert PreOrder(PlainLink) == [PlainLink];
    PreOrderOneChild(ScriptWithLink);
  }

  lemma NestedTreeAnnotates(files: Backend)
    requires files("site").Some?
    ensures MakePathNodes(ScriptWithLink, PageComponent, files).Ok?
  {
    PlainAssetsProcessed();
    PageAssetsResolve(files, "a.css");
    PageAssetsResolve(files, "b.js");
    NestedPreOrder();
    assert !FailingAsset(ScriptWithLink, PageComponent, files);
    assert !FailingAsset(PlainLink, PageComponent, files);
    MakePathNodesFailsAtFirstAsset(ScriptWithLink, PageComponent, files);
  }

  lemma NestedScriptLosesMarker(files: Backend)
    requires files("site").Some?
    ensures MakePathNodes(ScriptWithLink, PageComponent, files).Ok?
    ensures var a := MakePathNodes(ScriptWithLink, PageComponent, files).value;
      && a.Element? && !a.isPathElement
      && |a.attrs| == 1 && a.attrs[0].0 == "src" && a.attrs[0].1.Handle?
  {
    NestedTreeAnnotates(files);
    PlainAssetsProcessed();
    var a := MakePathNodes(ScriptWithLink, PageComponent, files).value;
    assert WellFormed(ScriptWithLink) by {
      assert WellFormed(PlainLink);
    }
    MakePathNodesAnnotates(ScriptWithLink, PageComponent, files);
    assert Annotated(PlainLink, a.children[0], PageComponent, files);
    assert a.children[0].attrs[0].1.Handle?;
    assert a.children != [PlainLink];
  }

  /**
   * Without the nesting condition the round trip fails: a script holding a link loses its
   * PathElement marker when the walker rebuilds it around the rewritten link, so
   * rendering leaves the script's handle in place.
   */
  lemma NestedAssetKeepsHandle(files: Backend, target: PurePath, strategy: Option<RelativePathStrategy>)
    requires files("site").Some?
    ensures MakePathNodes(ScriptWithLink, PageComponent, files).Ok?
    ensures Get(RenderPathNodes(MakePathNodes(ScriptWithLink, PageComponent, files).value, target, strategy).attrs, "src").Handle?
  {
    NestedScriptLosesMarker(files);
    var a := MakePathNodes(ScriptWithLink, PageComponent, files).value;
    var r := RenderPathNodes(a, target, strategy);
    assert r.attrs == a.attrs;
  }

  /** A childless link with a local asset is annotated: its href becomes the handle `make_path` returns. */
  lemma PlainLinkAnnotates(files: Backend)
    requires files("site").Some?
    ensures MakePathNodes(PlainLink, PageComponent, files).Ok?
    ensures var a := MakePathNodes(PlainLink, PageComponent, files).value;
      && a.Element? && a.children == [] && |a.attrs| == 1 && a.attrs[0].1.Handle?
      && AssetHandle(PageComponent, "a.css", files) == Ok(a.attrs[0].1.h)
      && a.isPathElement == HasPurePath(a.attrs)
  {
    PlainAssetsProcessed();
    PageAssetsResolve(files, "a.css");
    assert PreOrder(PlainLink) == [PlainLink];
    assert !FailingAsset(PlainLink, PageComponent, files);
    MakePathNodesFailsAtFirstAsset(PlainLink, PageComponent, files);
    MakePathNodesAnnotates(PlainLink, PageComponent, files);
  }

  /**
   * A backend that is not the file system (a zip archive, say) hands out handles that are not
   * PurePosixPath instances: the link is rewritten but never becomes a PathElement, so
   * rendering leaves its handle in place.
   */
  lemma OpaqueRootKeepsHandle(files: Backend, target: PurePath, strategy: Option<RelativePathStrategy>)
    requires files("site").Some? && files("site").value.OpaqueRoot?
    ensures MakePathNodes(PlainLink, PageComponent, files).Ok?
    ensures var a := MakePathNodes(PlainLink, PageComponent, files).value;
      && Get(a.attrs, "href").Handle? && !a.isPathElement
      && RenderPathNodes(a, target, strategy) == a
  {
    PlainLinkAnnotates(files);
    PageAssetsResolve(files, "a.css");
    var a := MakePathNodes(PlainLink, PageComponent, files).value;
    assert !IsPurePathValue(a.attrs[0].1);
    assert !HasPurePath(a.attrs);
    assert PreOrder(a) == [a];
    RenderPathNodesUnchanged(a, target, strategy);
  }
}
