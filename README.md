# tdom-path engine in Dafny

A model of the asset-path engine of tdom-path. The engine works in two phases over a tdom
markup tree (Elements, Fragments, Text and Comments).

- **Annotate** (`make_path_nodes`). Walks the tree. On every `<link>` it replaces a local
  `href`, and on every `<script>` a local `src`, with the resource handle `make_path`
  returns for the component. An element left holding a PurePosixPath becomes a
  `PathElement`.
- **Render** (`render_path_nodes`). Walks the tree again and turns every PurePosixPath
  attribute of a `PathElement` into a string with a `RelativePathStrategy`. The string is
  either the site prefix joined with the path, or the path seen from the directory of the
  target page (pathlib's `relative_to(..., walk_up=True)`), or the path itself when pathlib
  raises.

`make_path` accepts two forms of asset string:

- the package form `pkg:sub/path`, resolved against `importlib.resources.files(pkg)`;
- the relative form, resolved against the component's `__module__`. A module name whose
  last two segments repeat loses its last segment. Leading `.` and `/` characters are
  stripped from the asset, and empty segments are skipped.

The modules follow the source:

| module | models |
|---|---|
| `Base` | Option and Result |
| `Text` | Python `str.split`, `str.split(sep, 1)`, `"/".join`, `str.lstrip(chars)` |
| `PosixPath` | the part of `pathlib.PurePosixPath` the engine uses: `/`, `.parent`, `str()`, `relative_to(walk_up=True)` |
| `WebPath` | `src/tdom_path/webpath.py`: path-type detection, module-name normalisation, package-path parsing and resolution, `make_path` |
| `Nodes` | tdom nodes, attribute dicts in insertion order, the `PathElement` marker |
| `Walker` | `_walk_tree`, generic over a transform that may raise |
| `Annotate` | `_should_process_href`, `_transform_asset_element`, `make_path_nodes` |
| `Render` | `RelativePathStrategy.calculate_path`, `_render_transform_node`, `render_path_nodes` |
| `Pipeline` | annotate followed by render: when every handle is cleared, and two trees where one survives |

Some external parts are parameters of the model:

- **`importlib.resources.files`** is a parameter `files: string -> Option<Root>`. `None`
  stands for any failure to import the module, a `ModuleNotFoundError` or any other
  exception, which `make_path` lets propagate unchanged. A root is either a file-system directory
  (on a POSIX host a `PosixPath`, so every handle below it is a PurePosixPath) or an opaque
  Traversable, such as a zip archive or a Windows path, which is not one.
- **A handle** is its root and the segments navigated from it with `/`.
- **A component** is its `repr` and its `__module__`, which is `None` when the attribute is
  missing.
- **Python's `is` test** in the walker is modelled as equality of values. Both transforms
  return their argument when they change nothing, and a different value when they change
  something.
- **Exceptions** become `Err` values. The walker stops at the first error in the order
  Python makes the calls, which is pre-order.

## Model

| member | source | states |
|---|---|---|
| `WebPath.DetectPathType` | src/tdom_path/webpath.py:54 | the asset is in package form exactly when it contains a colon anywhere |
| `WebPath.NormalizeModuleName` | src/tdom_path/webpath.py:79-82 | when the last two dot-segments are equal, the result plus "." plus the last segment is the input; otherwise the input is returned unchanged; the result differs from the input exactly when the segments repeat |
| `WebPath.NormalizeIsNotIdempotent` | src/tdom_path/webpath.py:79-82 | normalisation drops only one repeated segment: "a.b.b.b" gives "a.b.b", and normalising again gives "a.b" |
| `Text.JoinSplit` | src/tdom_path/webpath.py:79-81 | joining the pieces of a split with the same separator gives back the string |
| `Text.Split` | src/tdom_path/webpath.py:79 | `str.split(sep)` gives at least one piece, and no piece contains the separator |
| `WebPath.ParsePackagePath` | src/tdom_path/webpath.py:106-111 | with a colon: the package name has no colon, and name + ":" + resource path is the asset; without one: the asset and "" |
| `Text.SplitOnce` | src/tdom_path/webpath.py:107-109 | `split(c, 1)` gives two pieces exactly when c occurs; then the first has no c, and first + c + second is the input; otherwise the one piece is the input |
| `Text.SplitOnceAtFirst` | src/tdom_path/webpath.py:107 | `split(c, 1)` of s + c + t, where s has no c, is [s, t] |
| `WebPath.ParseKeepsLaterColons` | src/tdom_path/webpath.py:103-104 | "pkg:sub:file.txt" parses to ("pkg", "sub:file.txt") |
| `WebPath.ParseEmptyPackageName` | src/tdom_path/webpath.py:106-109 | ":file.txt" parses to ("", "file.txt") |
| `WebPath.ResolvePackagePath` | src/tdom_path/webpath.py:136-146 | the loop over the resource path's segments gives the package root followed by every `/`-segment, none for an empty path, and ModuleNotFound when the package cannot be found |
| `WebPath.MakePath` | src/tdom_path/webpath.py:193-222 | the method's result is `AssetHandle`: the package branch, the TypeError branch, ModuleNotFound, and otherwise the module root followed by the non-empty segments of the lstripped asset |
| `WebPath.PackageFormNavigatesResourcePath` | src/tdom_path/webpath.py:196-200 | a package-form asset ignores the component; it fails exactly when the package is missing; otherwise the handle starts at the package root, and its slash-free segments join back to the resource path |
| `WebPath.RelativeFormNeedsModule` | src/tdom_path/webpath.py:202-205 | a relative asset for a component without `__module__` fails with the TypeError, whose message names `__module__` |
| `WebPath.RelativeFormSteps` | src/tdom_path/webpath.py:207-220 | a relative asset fails exactly when the normalised module is missing; otherwise the handle starts at its root, its segments are exactly the non-empty `/`-pieces of the lstripped asset in order, and every segment is non-empty and slash-free; the segments concatenate to the lstripped asset without its slashes; the first segment starts with neither "." nor "/" |
| `Text.LStrip` | src/tdom_path/webpath.py:214 | `lstrip(chars)` returns a suffix of the input that does not start with any character of the set, after removing only characters of the set |
| `WebPath.FollowAppends` | src/tdom_path/webpath.py:142-144 | joining a path with segments that are neither "" nor "." (pathlib's `/`, one segment at a time) gives the path with those segments appended, anchor kept |
| `WebPath.FollowConcat` | src/tdom_path/webpath.py:142-144 | navigating through a + b is navigating through a, then through b from there |
| `WebPath.FollowSkipsCurrent` | src/tdom_path/webpath.py:142-144 | a "" or "." segment leaves the path where it was |
| `WebPath.RelativeHandlePath` | src/tdom_path/webpath.py:210-220 | on a file-system root, a relative asset with no "." piece resolves to the module's directory followed by the non-empty pieces of the lstripped asset |
| `WebPath.PackageHandlePath` | src/tdom_path/webpath.py:137-144 | on a file-system root, a package asset whose resource path has no "" or "." piece resolves to the package's directory followed by the resource path's pieces |
| `WebPath.RelativeFormStepsAreSplit` | src/tdom_path/webpath.py:214-220 | when the lstripped asset is non-empty, has no "//" and does not end in "/", the relative form navigates exactly its "/"-pieces |
| `Text.NonEmpty` | src/tdom_path/webpath.py:218-220 | the skip-empty loop keeps exactly the non-empty pieces: a piece is kept iff it is in the input and not "" |
| `Text.NonEmptyAppend` | src/tdom_path/webpath.py:218-220 | the filter works piece by piece: the kept pieces of a + b are those of a followed by those of b, so order is kept |
| `Text.NonEmptyKeepsAll` | src/tdom_path/webpath.py:218-220 | with no empty piece the filter returns its input unchanged |
| `Text.SplitPiecesNonEmpty` | src/tdom_path/webpath.py:217 | `split("/")` of a non-empty string that neither starts nor ends with "/" and has no "//" gives only non-empty pieces |
| `Annotate.MatchesAnyPrefix` | src/tdom_path/tree.py:22-24 | the regex alternation matches exactly when some alternative is a case-insensitive prefix |
| `Annotate.ShouldProcessHref` | src/tdom_path/tree.py:63-75 | an attribute value is processed exactly when it is a non-empty string that none of the external prefixes matches, ignoring case |
| `Annotate.ProcessedWhenEveryPrefixDiffers` | src/tdom_path/tree.py:63-75 | a non-empty string that differs from every external prefix at some position, ignoring case, is processed |
| `Annotate.LocalHrefsProcessed` | src/tdom_path/tree.py:22-24 | "static/styles.css", "data.css" and "https:/cdn.css" are processed |
| `Annotate.ExternalHrefsSkipped` | src/tdom_path/tree.py:22-24 | "HTTPS://…", "Mailto:…", "#section", "javaſcript:…" (a long s matches s under IGNORECASE), "" and None are skipped |
| `Nodes.Get` | src/tdom_path/tree.py:161 | `attrs.get(k)` is None when the key is absent, and the stored value when it is present |
| `Nodes.Assign` | src/tdom_path/tree.py:171-172 | `attrs[k] = v` replaces the value in place when the key exists, and appends the pair otherwise |
| `Nodes.AssignGet` | src/tdom_path/tree.py:171-172 | after the assignment the dict still has unique keys, `k` reads `v`, and every other key reads its old value |
| `Nodes.HasPurePath` | src/tdom_path/tree.py:175 | true exactly when some attribute value is a PurePosixPath |
| `Annotate.TransformAssetElement` | src/tdom_path/tree.py:161-188 | an unprocessable value returns the element itself; a `make_path` error propagates; otherwise the element keeps its tag and children, only `attr_name` changes to the handle, and it is a PathElement exactly when some attribute holds a PurePosixPath |
| `Annotate.AnnotateKeepsChildren` | src/tdom_path/tree.py:227-240 | the annotate transform never changes a node's children |
| `Annotate.AnnotateTransformShape` | src/tdom_path/tree.py:227-240 | on an element: same tag and children; only the `href` of a link or the `src` of a script can change; the marker is set by `has_path` when the element was rewritten and kept otherwise |
| `Annotate.AnnotateTransformFails` | src/tdom_path/tree.py:227-240 | the transform fails exactly on a link or script whose asset `make_path` rejects, with that error |
| `Walker.AllOk` | src/tdom_path/tree.py:121 | evaluating the children's walks in order gives all the values, or the first error and no later one |
| `Walker.WalkFailsAtFirstError` | src/tdom_path/tree.py:114-145 | the walk fails exactly when the transform fails on some node, and with the error of the first such node in pre-order |
| `Walker.WalkOk` | src/tdom_path/tree.py:114-145 | a successful walk transforms the node and walks each child into the child at the same position; it returns the transformed node when no child changed, and a rebuilt plain Element or Fragment otherwise |
| `Walker.WalkIdentity` | src/tdom_path/tree.py:131-141 | when the transform returns every node of the tree unchanged, the walk returns the tree itself |
| `Walker.PreOrderOneChild` | src/tdom_path/tree.py:114-121 | the visiting order of a node with one child is the node followed by the child's subtree |
| `Annotate.MakePathNodesAnnotates` | src/tdom_path/tree.py:191-242 | a successful annotation keeps the tree's shape, text and comments; it rewrites exactly the processable `href`/`src` of links and scripts into their `make_path` handles; an element ends up a PathElement exactly when none of its children changed and, if it was rewritten, it holds a PurePosixPath |
| `Annotate.MakePathNodesFailsAtFirstAsset` | src/tdom_path/tree.py:191-242 | annotation fails exactly when some asset in the tree is rejected by `make_path`, and it raises the error of the first such asset in pre-order |
| `Annotate.MakePathNodesUnchanged` | src/tdom_path/tree.py:227-242 | a tree with no processable link or script asset comes back as the same tree |
| `Annotate.AnnotatedSelfHasNoAssets` | src/tdom_path/tree.py:191-242 | a tree that annotates to itself has no processable link or script asset |
| `Annotate.MakePathNodesIdentityIff` | src/tdom_path/tree.py:191-242 | annotation returns the tree itself exactly when the tree has no processable link or script asset |
| `Annotate.ImageSourceUntouched` | src/tdom_path/tree.py:229-240 | the `src` of an `<img>` is never resolved, even in package form |
| `PosixPath.RelativeToIsWalkUp` | src/tdom_path/tree.py:373 | pathlib's walk-up loop gives `".."` once for each segment of the directory after the common prefix, then the rest of the source; it fails when the anchors differ or a ".." would have to be walked over |
| `PosixPath.RelativeToResolvesBack` | src/tdom_path/tree.py:373 | when the source has no ".." part and `relative_to` succeeds, the relative path it finds is unanchored, and resolving it from the directory gives back the source |
| `PosixPath.JoinPath` | src/tdom_path/tree.py:361 | pathlib's `p / q`: anchored when either is; an anchored `q` prints as itself; otherwise the result lies below `p` and adds exactly `q`'s parts |
| `PosixPath.JoinPathString` | src/tdom_path/tree.py:361 | printed, `p / q` of a relative `q` is `p`, "/", `q`, when both have parts |
| `Render.CalculatePathWithPrefix` | src/tdom_path/tree.py:358-361 | with a site prefix the target is ignored; an absolute source prints as itself; when the source is relative and both the prefix and the source have at least one part (so not for a root "/" or "." prefix, nor a "." source), the result is prefix + "/" + source |
| `Render.CalculatePathWithoutPrefix` | src/tdom_path/tree.py:363-377 | without a prefix the result is the walk-up path from the target's directory; when that does not exist, such as for different anchors, it is the source printed as is |
| `Render.CalculatePathResolvesBack` | src/tdom_path/tree.py:363-374 | when the source has no ".." part and `relative_to` from the target's directory succeeds, the string returned without a prefix prints a relative path that, resolved from that directory, leads back to the source |
| `Render.CalculatePathSameDirectory` | src/tdom_path/tree.py:346-350 | a source in the target's directory renders as its file name |
| `Render.CalculatePathClimbsOnce` | src/tdom_path/tree.py:352-356 | mysite/components/heading/static/styles.css seen from mysite/pages/about.html is "../components/heading/static/styles.css" |
| `Render.RenderedAttrs` | src/tdom_path/tree.py:410-418 | same keys in the same order; PurePosixPath values become the strategy's string; every other value is unchanged; no PurePosixPath remains; unique keys stay unique |
| `Render.RenderAttributes` | src/tdom_path/tree.py:411-418 | the loop filling `new_attrs` one item at a time builds exactly `RenderedAttrs` |
| `Render.RenderTransformNode` | src/tdom_path/tree.py:397-425 | anything but a PathElement holding a PurePosixPath is returned as is; such an element becomes a plain Element with the same tag, children and keys, whose attributes are `RenderedAttrs`: each PurePosixPath value is replaced by the strategy's string for it, every other value is kept, and no PurePosixPath is left |
| `Render.RenderFnTotal` | src/tdom_path/tree.py:490 | the render transform never fails and never changes a node's children |
| `Render.WalkRenders` | src/tdom_path/tree.py:428-490 | rendering keeps the tree's shape; each PathElement holding a PurePosixPath has its attributes rendered and loses the marker; everything else keeps its attributes |
| `Render.RenderPathNodes` | src/tdom_path/tree.py:485-490 | with the default strategy when none is given, the result is the input rendered as `WalkRenders` describes |
| `Render.RenderPathNodesUnchanged` | src/tdom_path/tree.py:397-408 | a tree with no PathElement holding a PurePosixPath renders to itself |
| `Pipeline.HandleRootFromBackend` | src/tdom_path/webpath.py:137-146 | with a POSIX file-system backend every handle `make_path` returns is a PurePosixPath |
| `Pipeline.AnnotatedWithoutAssets` | src/tdom_path/tree.py:227-242 | annotation leaves a tree without processable assets exactly as it is |
| `Pipeline.AnnotationSettles` | src/tdom_path/tree.py:174-188 | on a well-formed tree with no handles and no nested assets, and with a file-system backend, every element holding a handle after annotation is a PathElement, and its handles are paths |
| `Pipeline.RenderingClears` | src/tdom_path/tree.py:397-425 | rendering a settled tree leaves no handle |
| `Pipeline.AnnotateThenRenderLeavesNoHandles` | src/tdom_path/tree.py:191-242 | on a handle-free tree with no asset element inside another, and a file-system backend, annotating and then rendering leaves no handle, for any target and strategy |
| `Pipeline.PlainAssetsProcessed` | src/tdom_path/tree.py:63-75 | "a.css" and "b.js" are processed |
| `Pipeline.PageAssetsResolve` | src/tdom_path/webpath.py:207-220 | a relative asset of a component in module "site" resolves below `files("site")` |
| `Pipeline.NestedPreOrder` | src/tdom_path/tree.py:114-121 | a script holding a link is visited script first, then link |
| `Pipeline.NestedTreeAnnotates` | src/tdom_path/tree.py:191-242 | that nested tree annotates without error |
| `Pipeline.NestedScriptLosesMarker` | src/tdom_path/tree.py:125-130 | the script is rebuilt around its rewritten link as a plain Element: it holds a handle but is not a PathElement |
| `Pipeline.NestedAssetKeepsHandle` | src/tdom_path/tree.py:125-130 | so after rendering, the script's `src` is still a handle, not a string |
| `Pipeline.PlainLinkAnnotates` | src/tdom_path/tree.py:171-177 | a childless link's `href` becomes its `make_path` handle, and the element is a PathElement exactly when that handle is a PurePosixPath |
| `Pipeline.OpaqueRootKeepsHandle` | src/tdom_path/tree.py:174-188 | with a backend that is not the file system, the link holds a handle but is not a PathElement, and rendering leaves it untouched |

## Left out

- `path_nodes` (tree.py:493 onward) is left out. It is a decorator that finds the component from the call's arguments. It is a boundary around the core and has no path logic of its own.
- The real `importlib.resources.files` is left out. It imports modules and reads packages, so it is a parameter of the model. The model does not check whether an asset exists, because the engine's code does no such check.
- The resolver cache, existence validation and the collected-assets set are left out. The code modelled here (webpath.py and tree.py) has none of them: `make_path` returns the handle directly, and `RelativePathStrategy` has only `site_prefix`.
- HTML serialisation (`str(element)`) is left out. It is tdom's code, and tdom is not part of this model.
- Other `RenderStrategy` implementations are left out. The model covers only `RelativePathStrategy`, which is the default.
- Render.RelativePathStrategy: `site_prefix` is a PurePosixPath only. A plain `str` prefix, which the `RenderStrategy` docstring shows (tree.py:270) but the field type of `RelativePathStrategy` excludes, is not modelled.
- The model assumes a POSIX host. There `files()` gives pathlib directories, which are PurePosixPaths. On Windows it gives `WindowsPath` roots, and the `isinstance(v, PurePosixPath)` test at tree.py:175 fails for them. Such a root is an `OpaqueRoot` of the model: its handles are never marked and so never rendered (`Pipeline.OpaqueRootKeepsHandle`). `Pipeline.HandleRootFromBackend`, `Pipeline.AnnotationSettles` and `Pipeline.AnnotateThenRenderLeavesNoHandles` hold for a POSIX host's backend only.
- Nodes.Node: other tdom node kinds, such as a document type, are not modelled. The walker passes them through as it does Text and Comment.
- Walker.Walk requires a transform that keeps the children of the node it returns. The source only assumes this. Both transforms of the engine keep them, as `AnnotateKeepsChildren` and `RenderFnTotal` prove.
- WebPath.Component: a `__module__` attribute that exists but holds None is not modelled. `hasattr` is modelled as the option being present.
- Render.CalculatePathClimbsOnce: the docstring examples at tree.py:353-356 and tree.py:478 give "../../components/…". The model follows `relative_to(walk_up=True)`, which climbs once from mysite/pages, and proves "../components/…" instead.
- Annotate.MakePathNodesAnnotates: the model keeps a behaviour the code has. A rebuild in `_walk_tree` makes a plain `Element`, so a link or script whose children changed loses its PathElement marker (`Pipeline.NestedAssetKeepsHandle`). For this reason the round trip is proved only for trees without nested assets and for a file-system backend.
- Three behaviours of the code that the model keeps as written:
  - A relative asset loses every leading "." and "/" character (`lstrip("./")`, webpath.py:214), although the comment at webpath.py:213 speaks of stripping a `./` prefix.
  - A site prefix is joined with pathlib's `/` (tree.py:361), so an absolute source replaces the prefix instead of being appended to it.
  - An element is marked as a PathElement only when it ends up holding a PurePosixPath (tree.py:178-183), so handles from an opaque backend are never rendered (`Pipeline.OpaqueRootKeepsHandle`).
- Namespace packages are left out. For one, `files` returns a `MultiplexedPath`, which is not a PurePosixPath although the children `joinpath` gives are. A root of the model is either a pathlib directory or an opaque Traversable whose children stay opaque, so a handle that changes kind below its root is not modelled.
