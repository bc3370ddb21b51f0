/**
 * The markup tree the engine rewrites: tdom's Element, Fragment, Text and Comment nodes,
 * with attribute dictionaries kept as ordered lists of (name, value) pairs. A value is a
 * string, None, or (after annotation) a resource handle; `isPathElement` marks the
 * PathElement subclass of Element.
 */
module Nodes {
  import opened WebPath

  datatype AttrValue = Str(s: string) | Null | Handle(h: Traversable)

  /** A Python dict in insertion order. */
  type Attrs = seq<(string, AttrValue)>

  datatype Node =
    | Element(tag: string, attrs: Attrs, children: seq<Node>, isPathElement: bool)
    | Fragment(children: seq<Node>)
    | Text(text: string)
    | Comment(text: string)

  /** The children of an Element or Fragment; other nodes have none. */
  function Children(n: Node): (cs: seq<Node>)
    ensures forall i :: 0 <= i < |cs| ==> cs[i] < n
  {
    match n
    case Element(_, _, cs, _) => cs
    case Fragment(cs) => cs
    case _ => []
  }

  /** A dict never holds a key twice. */
  predicate UniqueKeys(attrs: Attrs) {
    forall i, j :: 0 <= i < j < |attrs| ==> attrs[i].0 != attrs[j].0
  }

  /** Every element of the tree has a proper attribute dict. */
  ghost predicate WellFormed(n: Node)
    decreases n
  {
    (n.Element? ==> UniqueKeys(n.attrs))
    && forall i :: 0 <= i < |Children(n)| ==> WellFormed(Children(n)[i])
  }

  /** `attrs.get(k)`: the value stored under `k`, or None when `k` is absent. */
  function Get(attrs: Attrs, k: string): (v: AttrValue)
    ensures (forall i :: 0 <= i < |attrs| ==> attrs[i].0 != k) ==> v == Null
    ensures UniqueKeys(attrs) ==> forall i :: 0 <= i < |attrs| && attrs[i].0 == k ==> v == attrs[i].1
    ensures v != Null ==> exists i :: 0 <= i < |attrs| && attrs[i] == (k, v)
    decreases |attrs|
  {
    if attrs == [] then Null
    else if attrs[0].0 == k then attrs[0].1
    else
      var v := Get(attrs[1..], k);
      assert forall i :: 0 < i < |attrs| ==> attrs[i] == attrs[1..][i - 1];
      v
  }

  predicate HasKey(attrs: Attrs, k: string) {
    exists i :: 0 <= i < |attrs| && attrs[i].0 == k
  }

  /**
   * `attrs[k] = v` on a dict: an existing key keeps its position and gets the new value,
   * a new key goes at the end.
   */
  function Assign(attrs: Attrs, k: string, v: AttrValue): (r: Attrs)
    ensures HasKey(attrs, k) ==> |r| == |attrs|
    ensures !HasKey(attrs, k) ==> |r| == |attrs| + 1 && r[|attrs|] == (k, v)
    ensures forall i :: 0 <= i < |attrs| ==> r[i] == if attrs[i].0 == k then (k, v) else attrs[i]
  {
    if HasKey(attrs, k) then seq(|attrs|, i requires 0 <= i < |attrs| => if attrs[i].0 == k then (k, v) else attrs[i])
    else attrs + [(k, v)]
  }

  /** After `attrs[k] = v` the dict has the new value under `k` and the old one under every other key. */
  lemma AssignGet(attrs: Attrs, k: string, v: AttrValue, other: string)
    requires UniqueKeys(attrs)
    ensures UniqueKeys(Assign(attrs, k, v))
    ensures Get(Assign(attrs, k, v), k) == v
    ensures other != k ==> Get(Assign(attrs, k, v), other) == Get(attrs, other)
  {
    var r := Assign(attrs, k, v);
    if !HasKey(attrs, k) {
      assert r[|attrs|].0 == k;
    } else {
      var i :| 0 <= i < |attrs| && attrs[i].0 == k;
      assert r[i].0 == k;
    }
    if other != k {
      forall i | 0 <= i < |r| && r[i].0 == other ensures i < |attrs| && r[i] == attrs[i] {
        if i < |attrs| {
          assert r[i] == if attrs[i].0 == k then (k, v) else attrs[i];
        }
      }
    }
  }

  /** Whether a value is a PurePosixPath instance: a handle into the file system. */
  predicate IsPurePathValue(v: AttrValue) {
    v.Handle? && IsPurePath(v.h)
  }

  /** `any(isinstance(v, PurePosixPath) for v in attrs.values())` */
  function HasPurePath(attrs: Attrs): (b: bool)
    ensures b <==> exists i :: 0 <= i < |attrs| && IsPurePathValue(attrs[i].1)
    decreases |attrs|
  {
    if attrs == [] then false
    else
      var rest := HasPurePath(attrs[1..]);
      assert forall i :: 0 < i < |attrs| ==> attrs[i] == attrs[1..][i - 1];
      IsPurePathValue(attrs[0].1) || rest
  }

  /** Whether some attribute holds a handle of any kind. */
  predicate HasHandle(attrs: Attrs) {
    exists i :: 0 <= i < |attrs| && attrs[i].1.Handle?
  }
}
