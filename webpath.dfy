/**
 * The resolver of src/tdom_path/webpath.py: it turns a component and an asset string into a
 * Traversable handle, either relative to the component's own module or, in the
 * "package:resource/path" form, relative to a named package.
 */
module WebPath {
  import opened Base
  import opened Text
  import opened PosixPath

  /**
   * What the backend `importlib.resources.files(name)` returns: a directory on a POSIX
   * host's file system (a pathlib.PosixPath, hence a PurePosixPath), or another kind of
   * Traversable (a zip archive, or a WindowsPath on Windows), identified only by name.
   */
  datatype Root = FsRoot(dir: PurePath) | OpaqueRoot(name: string)

  /** A Traversable handle: the root the backend gave and the segments navigated from it with `/`, in order. */
  datatype Traversable = Traversable(root: Root, steps: seq<string>)

  /** `importlib.resources.files`: the root for a module name, or None when it cannot be imported. */
  type Backend = string -> Option<Root>

  /** A component: its `repr` (used in messages) and its `__module__`, None when it has no such attribute. */
  datatype Component = Component(repr: string, moduleAttr: Option<string>)

  datatype Error =
    | NoModuleAttribute(message: string)  // the TypeError make_path raises
    | ModuleNotFound(name: string)        // whatever the backend raises when the module cannot be imported, propagated unchanged

  datatype PathType = Package | Relative

  /** `handle / part` */
  function Div(t: Traversable, part: string): Traversable {
    Traversable(t.root, t.steps + [part])
  }

  /** Whether a handle is a PurePosixPath instance: pathlib paths are, other Traversables are not. */
  predicate IsPurePath(t: Traversable) {
    t.root.FsRoot?
  }

  /** The pathlib path reached from `start` through `steps`, each joined with pathlib's `/`. */
  function Follow(start: PurePath, steps: seq<string>): PurePath
    decreases |steps|
  {
    if steps == [] then start else Child(Follow(start, steps[..|steps| - 1]), steps[|steps| - 1])
  }

  /** The PurePosixPath a file-system handle is. */
  function PathOf(t: Traversable): PurePath
    requires IsPurePath(t)
  {
    Follow(t.root.dir, t.steps)
  }

  /** Steps that are neither "" nor "." each add one part: the path is the start with the steps appended. */
  lemma {:induction false} FollowAppends(start: PurePath, steps: seq<string>)
    requires forall i :: 0 <= i < |steps| ==> steps[i] != "" && steps[i] != "."
    ensures Follow(start, steps) == PurePath(start.anchored, start.parts + steps)
    decreases |steps|
  {
    if steps != [] {
      var init := steps[..|steps| - 1];
      FollowAppends(start, init);
      assert steps == init + [steps[|steps| - 1]];
      assert start.parts + steps == (start.parts + init) + [steps[|steps| - 1]];
    }
  }

  /** Following `a + b` is following `a`, then `b` from where `a` ends. */
  lemma {:induction false} FollowConcat(start: PurePath, a: seq<string>, b: seq<string>)
    ensures Follow(start, a + b) == Follow(Follow(start, a), b)
    decreases |b|
  {
    if b == [] {
      assert a + b == a;
    } else {
      var b' := b[..|b| - 1];
      assert (a + b)[..|a + b| - 1] == a + b';
      assert (a + b)[|a + b| - 1] == b[|b| - 1];
      FollowConcat(start, a, b');
    }
  }

  /** A "." step (or an empty one) leaves the path where it was: pathlib drops it. */
  lemma FollowSkipsCurrent(start: PurePath, a: seq<string>, dot: string, b: seq<string>)
    requires dot == "." || dot == ""
    ensures Follow(start, a + [dot] + b) == Follow(start, a + b)
  {
    FollowConcat(start, a + [dot], b);
    FollowConcat(start, a, b);
    assert (a + [dot])[..|a + [dot]| - 1] == a;
  }

  /** `_detect_path_type`: the package form is recognised by a colon anywhere in the asset string. */
  function DetectPathType(asset: string): (r: PathType)
    ensures r == Package <==> exists i :: 0 <= i < |asset| && asset[i] == ':'
  {
    if ':' in asset then Package else Relative
  }

  /** Whether the last two dotted segments of a module name are equal (as in "pkg.heading.heading"). */
  predicate RepeatsLastSegment(moduleName: string) {
    var parts := Split(moduleName, '.');
    |parts| >= 2 && parts[|parts| - 1] == parts[|parts| - 2]
  }

  /**
   * `_normalize_module_name`: drops the final dotted segment when it repeats the one before,
   * and leaves the name alone otherwise.
   */
  function NormalizeModuleName(moduleName: string): (r: string)
    ensures RepeatsLastSegment(moduleName) ==>
      var parts := Split(moduleName, '.');
      r + "." + parts[|parts| - 1] == moduleName
    ensures !RepeatsLastSegment(moduleName) ==> r == moduleName
    ensures |r| <= |moduleName|
    ensures r != moduleName <==> RepeatsLastSegment(moduleName)
  {
    var parts := Split(moduleName, '.');
    if |parts| >= 2 && parts[|parts| - 1] == parts[|parts| - 2] then
      JoinSplit(moduleName, '.');
      assert parts == parts[..|parts| - 1] + [parts[|parts| - 1]];
      JoinSnoc(parts[..|parts| - 1], parts[|parts| - 1], '.');
      Join(parts[..|parts| - 1], '.')
    else moduleName
  }

  /** Normalising twice can drop two segments: the rule is not idempotent. */
  lemma NormalizeIsNotIdempotent()
    ensures NormalizeModuleName("a.b.b.b") == "a.b.b"
    ensures NormalizeModuleName(NormalizeModuleName("a.b.b.b")) == "a.b"
  {
    SplitFourSegments();
    SplitThreeSegments();
    assert ["a", "b", "b", "b"][..3] == ["a", "b", "b"];
    JoinSplit("a.b.b", '.');
    assert ["a", "b", "b"][..2] == ["a", "b"];
    SplitTwoSegments();
    JoinSplit("a.b", '.');
  }

  lemma SplitTwoSegments()
    ensures Split("a.b", '.') == ["a", "b"]
  {
    SplitWithoutSep("b", '.');
    assert "a.b" == "a" + "." + "b";
    SplitAtFirst("a", "b", '.');
  }

  lemma SplitThreeSegments()
    ensures Split("a.b.b", '.') == ["a", "b", "b"]
  {
    SplitWithoutSep("b", '.');
    assert "b.b" == "b" + "." + "b";
    SplitAtFirst("b", "b", '.');
    assert "a.b.b" == "a" + "." + "b.b";
    SplitAtFirst("a", "b.b", '.');
  }

  lemma SplitFourSegments()
    ensures Split("a.b.b.b", '.') == ["a", "b", "b", "b"]
  {
    assert "b.b.b" == "b" + "." + "b.b";
    assert Split("b.b", '.') == ["b", "b"] by {
      SplitWithoutSep("b", '.');
      assert "b.b" == "b" + "." + "b";
      SplitAtFirst("b", "b", '.');
    }
    SplitAtFirst("b", "b.b", '.');
    assert "a.b.b.b" == "a" + "." + "b.b.b";
    SplitAtFirst("a", "b.b.b", '.');
  }

  /**
   * `_parse_package_path`: split at the first colon into the package name and the resource
   * path; a string with no colon is all package name.
   */
  function ParsePackagePath(asset: string): (r: (string, string))
    ensures ':' in asset ==> ':' !in r.0 && r.0 + ":" + r.1 == asset
    ensures ':' !in asset ==> r == (asset, "")
  {
    var parts := SplitOnce(asset, ':');
    if |parts| == 2 then (parts[0], parts[1]) else (asset, "")
  }

  /** Only the first colon separates: later ones stay in the resource path. */
  lemma ParseKeepsLaterColons()
    ensures ParsePackagePath("pkg:sub:file.txt") == ("pkg", "sub:file.txt")
  {
    assert "pkg:sub:file.txt" == "pkg" + ":" + "sub:file.txt";
    assert ':' !in "pkg" by {
      assert forall i :: 0 <= i < 3 ==> "pkg"[i] != ':';
    }
    SplitOnceAtFirst("pkg", "sub:file.txt", ':');
  }

  /** A leading colon gives an empty package name. */
  lemma ParseEmptyPackageName()
    ensures ParsePackagePath(":file.txt") == ("", "file.txt")
  {
    assert ":file.txt" == "" + ":" + "file.txt";
    SplitOnceAtFirst("", "file.txt", ':');
  }

  /**
   * The handle `_resolve_package_path` returns: the package's root, navigated through every
   * "/"-separated segment of a non-empty resource path, empty segments included.
   */
  function PackageHandle(files: Backend, packageName: string, resourcePath: string): Result<Traversable, Error> {
    match files(packageName)
    case None => Err(ModuleNotFound(packageName))
    case Some(root) => Ok(Traversable(root, if resourcePath == "" then [] else Split(resourcePath, '/')))
  }

  /** `_resolve_package_path`, step by step as the source navigates. */
  method ResolvePackagePath(files: Backend, packageName: string, resourcePath: string)
    returns (r: Result<Traversable, Error>)
    ensures r == PackageHandle(files, packageName, resourcePath)
  {
    var packageRoot := files(packageName);
    if packageRoot.None? {
      return Err(ModuleNotFound(packageName));
    }
    var result := Traversable(packageRoot.value, []);
    if resourcePath != "" {
      var parts := Split(resourcePath, '/');
      for i := 0 to |parts|
        invariant result == Traversable(packageRoot.value, parts[..i])
      {
        assert parts[..i + 1] == parts[..i] + [parts[i]];
        result := Div(result, parts[i]);
      }
      assert parts[..|parts|] == parts;
    }
    return Ok(result);
  }

  /** The steps a relative asset navigates: the non-empty "/"-pieces left after stripping every leading "." and "/". */
  function RelativeSteps(asset: string): seq<string> {
    NonEmpty(Split(LStrip(asset, {'.', '/'}), '/'))
  }

  /** The message of the TypeError for a component without `__module__`. */
  function NoModuleMessage(c: Component): string {
    "Object " + c.repr + " has no __module__ attribute"
  }

  /** What `make_path(component, asset)` returns or raises. */
  function AssetHandle(c: Component, asset: string, files: Backend): Result<Traversable, Error> {
    if DetectPathType(asset) == Package then
      var (packageName, resourcePath) := ParsePackagePath(asset);
      PackageHandle(files, packageName, resourcePath)
    else if c.moduleAttr.None? then
      Err(NoModuleAttribute(NoModuleMessage(c)))
    else
      var moduleName := NormalizeModuleName(c.moduleAttr.value);
      match files(moduleName)
      case None => Err(ModuleNotFound(moduleName))
      case Some(root) => Ok(Traversable(root, RelativeSteps(asset)))
  }

  /** `make_path`, navigating segment by segment as the source does. */
  method MakePath(component: Component, asset: string, files: Backend) returns (r: Result<Traversable, Error>)
    ensures r == AssetHandle(component, asset, files)
  {
    var pathType := DetectPathType(asset);
    if pathType == Package {
      var (packageName, resourcePath) := ParsePackagePath(asset);
      r := ResolvePackagePath(files, packageName, resourcePath);
      return;
    }
    if component.moduleAttr.None? {
      return Err(NoModuleAttribute(NoModuleMessage(component)));
    }
    var moduleName := NormalizeModuleName(component.moduleAttr.value);
    var moduleRoot := files(moduleName);
    if moduleRoot.None? {
      return Err(ModuleNotFound(moduleName));
    }
    var cleanAsset := LStrip(asset, {'.', '/'});
    var parts := Split(cleanAsset, '/');
    var result := Traversable(moduleRoot.value, []);
    for i := 0 to |parts|
      invariant result == Traversable(moduleRoot.value, NonEmpty(parts[..i]))
    {
      assert parts[..i + 1][..i] == parts[..i];
      if parts[i] != "" {
        result := Div(result, parts[i]);
      }
    }
    assert parts[..|parts|] == parts;
    return Ok(result);
  }

  /**
   * The package form never looks at the component, and navigates from the named package's
   * root through segments that join back into the resource path.
   */
  lemma PackageFormNavigatesResourcePath(c: Component, asset: string, files: Backend)
    requires ':' in asset
    ensures var (packageName, resourcePath) := ParsePackagePath(asset);
      && AssetHandle(c, asset, files) == AssetHandle(Component("None", None), asset, files)
      && (files(packageName).None? <==> AssetHandle(c, asset, files) == Err(ModuleNotFound(packageName)))
      && (AssetHandle(c, asset, files).Ok? ==>
            var t := AssetHandle(c, asset, files).value;
            t.root == files(packageName).value && Join(t.steps, '/') == resourcePath
            && forall i :: 0 <= i < |t.steps| ==> '/' !in t.steps[i])
  {
    var (packageName, resourcePath) := ParsePackagePath(asset);
    if resourcePath != "" {
      JoinSplit(resourcePath, '/');
    }
  }

  /** A component without `__module__` makes every relative asset fail with a TypeError that names `__module__`. */
  lemma RelativeFormNeedsModule(c: Component, asset: string, files: Backend)
    requires ':' !in asset && c.moduleAttr.None?
    ensures AssetHandle(c, asset, files).Err? && AssetHandle(c, asset, files).error.NoModuleAttribute?
    ensures var message := AssetHandle(c, asset, files).error.message;
      exists i :: OccursAt(message, "__module__", i)
  {
    var message := NoModuleMessage(c);
    var i := |"Object "| + |c.repr| + |" has no "|;
    assert message[i..i + 10] == "__module__";
    assert OccursAt(message, "__module__", i);
  }

  /**
   * The relative form navigates from the root of the component's normalised module through
   * the non-empty "/"-pieces of the stripped asset, in order: they are slash-free and keep every
   * character of the stripped asset except the slashes; the first starts with neither "." nor "/".
   */
  lemma RelativeFormSteps(c: Component, asset: string, files: Backend)
    requires ':' !in asset && c.moduleAttr.Some?
    ensures var moduleName := NormalizeModuleName(c.moduleAttr.value);
      && (files(moduleName).None? <==> AssetHandle(c, asset, files) == Err(ModuleNotFound(moduleName)))
      && (AssetHandle(c, asset, files).Ok? ==>
            var t := AssetHandle(c, asset, files).value;
            && t.root == files(moduleName).value
            && (forall i :: 0 <= i < |t.steps| ==> t.steps[i] != "" && '/' !in t.steps[i])
            && t.steps == NonEmpty(Split(LStrip(asset, {'.', '/'}), '/'))
            && Concat(t.steps) == Without(LStrip(asset, {'.', '/'}), '/')
            && (t.steps != [] ==> t.steps[0][0] != '.' && t.steps[0][0] != '/'))
  {
    var clean := LStrip(asset, {'.', '/'});
    var parts := Split(clean, '/');
    ConcatSplit(clean, '/');
    ConcatNonEmpty(parts);
    assert forall i :: 0 <= i < |NonEmpty(parts)| ==> NonEmpty(parts)[i] in parts;
    if clean != [] {
      assert parts[0] != "" && parts[0][0] == clean[0];
      NonEmptyHead(parts);
    }
  }

  /**
   * When the stripped asset has no empty piece (no "//", no trailing "/"), the relative form
   * navigates exactly its "/"-separated pieces: nothing is dropped and no piece is merged.
   */
  lemma RelativeFormStepsAreSplit(c: Component, asset: string, files: Backend)
    requires ':' !in asset && c.moduleAttr.Some?
    requires AssetHandle(c, asset, files).Ok?
    requires var clean := LStrip(asset, {'.', '/'});
      clean != [] && clean[|clean| - 1] != '/'
      && forall i :: 0 <= i < |clean| - 1 ==> !(clean[i] == '/' && clean[i + 1] == '/')
    ensures AssetHandle(c, asset, files).value.steps == Split(LStrip(asset, {'.', '/'}), '/')
  {
    var clean := LStrip(asset, {'.', '/'});
    assert NoEmptyPiece(clean, '/');
    SplitPiecesNonEmpty(clean, '/');
    NonEmptyKeepsAll(Split(clean, '/'));
  }

  /**
   * A relative asset on a file-system root: unless a piece is ".", the handle is the path of the
   * module's directory with the asset's non-empty pieces appended.
   */
  lemma RelativeHandlePath(c: Component, asset: string, files: Backend)
    requires ':' !in asset && c.moduleAttr.Some?
    requires AssetHandle(c, asset, files).Ok? && IsPurePath(AssetHandle(c, asset, files).value)
    requires "." !in Split(LStrip(asset, {'.', '/'}), '/')
    ensures var t := AssetHandle(c, asset, files).value;
      PathOf(t) == PurePath(t.root.dir.anchored, t.root.dir.parts + NonEmpty(Split(LStrip(asset, {'.', '/'}), '/')))
  {
    var t := AssetHandle(c, asset, files).value;
    assert forall i :: 0 <= i < |t.steps| ==> t.steps[i] in t.steps;
    FollowAppends(t.root.dir, t.steps);
  }

  /**
   * A package asset on a file-system root: unless the resource path has an empty or "." piece,
   * the handle is the path of the package's directory with the resource path's pieces appended.
   */
  lemma PackageHandlePath(c: Component, asset: string, files: Backend)
    requires ':' in asset
    requires AssetHandle(c, asset, files).Ok? && IsPurePath(AssetHandle(c, asset, files).value)
    requires var resourcePath := ParsePackagePath(asset).1;
      "" !in Split(resourcePath, '/') && "." !in Split(resourcePath, '/')
    ensures var t := AssetHandle(c, asset, files).value;
      PathOf(t) == PurePath(t.root.dir.anchored, t.root.dir.parts + Split(ParsePackagePath(asset).1, '/'))
  {
    var t := AssetHandle(c, asset, files).value;
    var resourcePath := ParsePackagePath(asset).1;
    assert resourcePath != "" by {
      assert Split("", '/') == [""];
    }
    assert t.steps == Split(resourcePath, '/');
    assert forall i :: 0 <= i < |t.steps| ==> t.steps[i] in t.steps;
    FollowAppends(t.root.dir, t.steps);
  }
}
