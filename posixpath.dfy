/**
 * The part of `pathlib.PurePosixPath` the engine relies on: joining with `/`,
 * `parent`, `str()`, and `relative_to(other, walk_up=True)`.
 */
module PosixPath {
  import opened Base
  import opened Text

  /**
   * A pure POSIX path in parsed form: whether it starts at the root `/`, and its parts.
   * pathlib never keeps an empty or a "." part, and a part never holds a "/".
   */
  datatype PurePath = PurePath(anchored: bool, parts: seq<string>)

  /** `str(p)`: the root, then the parts joined by "/"; a path with neither prints as ".". */
  function PathStr(p: PurePath): string {
    if p.anchored then "/" + Join(p.parts, '/')
    else if p.parts == [] then "."
    else Join(p.parts, '/')
  }

  /** `p.parent`: the path without its last part (the root and "." are their own parents). */
  function Parent(p: PurePath): (q: PurePath)
    ensures q.anchored == p.anchored && q.parts <= p.parts
    ensures p.parts != [] ==> |q.parts| == |p.parts| - 1
  {
    if p.parts == [] then p else PurePath(p.anchored, p.parts[..|p.parts| - 1])
  }

  /** `p.name`: the last part, or "" when there is none. */
  function Name(p: PurePath): string {
    if p.parts == [] then "" else p.parts[|p.parts| - 1]
  }

  /** `p / segment` for a segment holding no "/": pathlib drops "" and "." segments and keeps every other one, ".." included. */
  function Child(p: PurePath, segment: string): (q: PurePath)
    ensures q.anchored == p.anchored
  {
    if segment == "" || segment == "." then p else PurePath(p.anchored, p.parts + [segment])
  }

  /**
   * `p / q` for two paths: an anchored `q` replaces `p` altogether; otherwise the result lies
   * below `p`, and what it adds to `p` is `q`.
   */
  function JoinPath(p: PurePath, q: PurePath): (r: PurePath)
    ensures r.anchored == (p.anchored || q.anchored)
    ensures q.anchored ==> PathStr(r) == PathStr(q)
    ensures !q.anchored ==> IsRelativeTo(r, p) && r.parts[|p.parts|..] == q.parts
  {
    if q.anchored then q else PurePath(p.anchored, p.parts + q.parts)
  }

  /** Printed, `p / q` of a relative `q` is `p`, a "/" and `q`, as long as neither is empty. */
  lemma JoinPathString(p: PurePath, q: PurePath)
    requires !q.anchored && p.parts != [] && q.parts != []
    ensures PathStr(JoinPath(p, q)) == PathStr(p) + "/" + PathStr(q)
  {
    JoinAppend(p.parts, q.parts, '/');
  }

  /** `p.is_relative_to(base)`, i.e. `base == p or base in p.parents`. */
  predicate IsRelativeTo(p: PurePath, base: PurePath) {
    p.anchored == base.anchored && base.parts <= p.parts
  }

  /** `k` copies of `s`. */
  function Repeat(s: string, k: nat): (r: seq<string>)
    ensures |r| == k && forall i :: 0 <= i < k ==> r[i] == s
  {
    if k == 0 then [] else [s] + Repeat(s, k - 1)
  }

  /** The ancestor of `other` that is `step` parts above it (step 0 is `other` itself). */
  function Ancestor(other: PurePath, step: nat): PurePath
    requires step <= |other.parts|
  {
    PurePath(other.anchored, other.parts[..|other.parts| - step])
  }

  /**
   * CPython's `relative_to(other, walk_up=True)` loop from ancestor `step` on: it tries
   * `other` and then each of its parents in turn; the first one that `p` lies under ends
   * the search with one ".." per step taken; walking over a ".." part, or running out of
   * ancestors (different anchors), raises ValueError, modelled as None.
   */
  function RelativeToFrom(p: PurePath, other: PurePath, step: nat): Option<PurePath>
    requires step <= |other.parts|
    decreases |other.parts| - step
  {
    var a := Ancestor(other, step);
    if IsRelativeTo(p, a) then Some(PurePath(false, Repeat("..", step) + p.parts[|a.parts|..]))
    else if Name(a) == ".." then None
    else if step == |other.parts| then None
    else RelativeToFrom(p, other, step + 1)
  }

  function RelativeTo(p: PurePath, other: PurePath): Option<PurePath> {
    RelativeToFrom(p, other, 0)
  }

  /** The length of the longest common prefix of two part lists. */
  function CommonPrefixLength(a: seq<string>, b: seq<string>): (m: nat)
    ensures m <= |a| && m <= |b| && a[..m] == b[..m]
    ensures m == |a| || m == |b| || a[m] != b[m]
    decreases |a|
  {
    if a == [] || b == [] || a[0] != b[0] then 0
    else
      var m := CommonPrefixLength(a[1..], b[1..]);
      assert a[..m + 1] == [a[0]] + a[1..][..m];
      assert b[..m + 1] == [b[0]] + b[1..][..m];
      1 + m
  }

  /**
   * What `relative_to(other, walk_up=True)` computes, stated without the loop: with equal
   * anchors and no ".." among the parts of `other` beyond the common prefix, one ".." per
   * such part followed by the rest of `p`; otherwise an error.
   */
  function WalkUpPath(p: PurePath, other: PurePath): Option<PurePath> {
    if p.anchored != other.anchored then None
    else
      var m := CommonPrefixLength(p.parts, other.parts);
      if ".." in other.parts[m..] then None
      else Some(PurePath(false, Repeat("..", |other.parts| - m) + p.parts[m..]))
  }

  /** A prefix of `other` of length `k` is a prefix of `p` exactly when `k` is within their common prefix. */
  lemma PrefixWithinCommon(p: seq<string>, other: seq<string>, k: nat)
    requires k <= |other|
    ensures other[..k] <= p <==> k <= CommonPrefixLength(p, other)
  {
    var m := CommonPrefixLength(p, other);
    if k <= m {
      assert other[..k] == other[..m][..k] == p[..m][..k] == p[..k];
    } else if k <= |p| {
      assert other[..k][m] == other[m] != p[m] == p[..k][m];
    }
  }

  lemma {:induction false} RelativeToFromIsWalkUp(p: PurePath, other: PurePath, step: nat)
    requires step <= |other.parts|
    requires p.anchored == other.anchored ==> step <= |other.parts| - CommonPrefixLength(p.parts, other.parts)
    requires forall j :: |other.parts| - step <= j < |other.parts| ==> other.parts[j] != ".."
    ensures RelativeToFrom(p, other, step) == WalkUpPath(p, other)
    decreases |other.parts| - step
  {
    var a := Ancestor(other, step);
    var k := |other.parts| - step;
    if p.anchored == other.anchored {
      var m := CommonPrefixLength(p.parts, other.parts);
      PrefixWithinCommon(p.parts, other.parts, k);
      if k == m {
        assert ".." !in other.parts[m..] by {
          forall j | 0 <= j < |other.parts[m..]| ensures other.parts[m..][j] != ".." {
            assert other.parts[m..][j] == other.parts[m + j];
          }
        }
      } else if Name(a) == ".." {
        assert other.parts[m..][k - 1 - m] == "..";
      } else {
        RelativeToFromIsWalkUp(p, other, step + 1);
      }
    } else if Name(a) != ".." && step < |other.parts| {
      RelativeToFromIsWalkUp(p, other, step + 1);
    }
  }

  /** pathlib's ancestor loop computes exactly the declarative walk-up path. */
  lemma RelativeToIsWalkUp(p: PurePath, other: PurePath)
    ensures RelativeTo(p, other) == WalkUpPath(p, other)
  {
    RelativeToFromIsWalkUp(p, other, 0);
  }

  /**
   * Lexical resolution of relative parts against a directory, as a browser resolves a
   * relative URL: each ".." removes the last part (when there is one that is not ".."
   * itself), every other part is appended.
   */
  function Resolve(base: PurePath, rel: seq<string>): PurePath
    decreases |rel|
  {
    if rel == [] then base
    else if rel[0] == ".." && base.parts != [] && Name(base) != ".." then Resolve(Parent(base), rel[1..])
    else Resolve(PurePath(base.anchored, base.parts + [rel[0]]), rel[1..])
  }

  lemma {:induction false} ResolveClimbs(base: PurePath, k: nat, tail: seq<string>)
    requires k <= |base.parts|
    requires forall j :: |base.parts| - k <= j < |base.parts| ==> base.parts[j] != ".."
    ensures Resolve(base, Repeat("..", k) + tail) == Resolve(PurePath(base.anchored, base.parts[..|base.parts| - k]), tail)
    decreases k
  {
    if k > 0 {
      var rel := Repeat("..", k) + tail;
      var up := PurePath(base.anchored, base.parts[..|base.parts| - 1]);
      assert rel[0] == "..";
      assert rel[1..] == Repeat("..", k - 1) + tail;
      assert Name(base) == base.parts[|base.parts| - 1] != "..";
      assert Parent(base) == up;
      assert Resolve(base, rel) == Resolve(up, rel[1..]);
      assert forall j :: |up.parts| - (k - 1) <= j < |up.parts| ==> up.parts[j] == base.parts[j];
      ResolveClimbs(up, k - 1, tail);
      assert up.parts[..|up.parts| - (k - 1)] == base.parts[..|base.parts| - k];
    } else {
      assert Repeat("..", k) + tail == tail;
      assert base.parts[..|base.parts|] == base.parts;
    }
  }

  lemma {:induction false} ResolveAppends(base: PurePath, tail: seq<string>)
    requires ".." !in tail
    ensures Resolve(base, tail) == PurePath(base.anchored, base.parts + tail)
    decreases |tail|
  {
    if tail != [] {
      assert tail[0] in tail;
      assert ".." !in tail[1..] by {
        forall x | x in tail[1..] ensures x in tail { }
      }
      ResolveAppends(PurePath(base.anchored, base.parts + [tail[0]]), tail[1..]);
      assert base.parts + [tail[0]] + tail[1..] == base.parts + tail;
    }
  }

  /**
   * Round trip: resolving the relative path that `relative_to(other, walk_up=True)` returns
   * against `other` gives `p` back, whenever `p` holds no ".." part of its own.
   */
  lemma RelativeToResolvesBack(p: PurePath, other: PurePath)
    requires ".." !in p.parts
    requires RelativeTo(p, other).Some?
    ensures !RelativeTo(p, other).value.anchored
    ensures Resolve(other, RelativeTo(p, other).value.parts) == p
  {
    RelativeToIsWalkUp(p, other);
    var m := CommonPrefixLength(p.parts, other.parts);
    var k := |other.parts| - m;
    var tail := p.parts[m..];
    assert p.anchored == other.anchored && ".." !in other.parts[m..];
    assert RelativeTo(p, other) == Some(PurePath(false, Repeat("..", k) + tail));
    forall j | |other.parts| - k <= j < |other.parts| ensures other.parts[j] != ".." {
      assert other.parts[j] == other.parts[m..][j - m];
    }
    ResolveClimbs(other, k, tail);
    var common := PurePath(other.anchored, other.parts[..m]);
    assert other.parts[..|other.parts| - k] == other.parts[..m];
    assert Resolve(other, Repeat("..", k) + tail) == Resolve(common, tail);
    assert ".." !in tail by {
      forall x | x in tail ensures x in p.parts { }
    }
    ResolveAppends(common, tail);
    assert other.parts[..m] == p.parts[..m];
    assert other.parts[..m] + tail == p.parts;
  }
}
