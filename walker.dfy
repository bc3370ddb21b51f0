/**
 * `_walk_tree` (src/tdom_path/tree.py:78-145): applies a transform to a node, then walks
 * the transformed node's children; when no child comes back different, the transformed
 * node itself is the result, otherwise an Element or Fragment is rebuilt around the new
 * children. A transform that can raise is a function into Result, and the first error
 * in the order Python evaluates the calls ends the walk.
 *
 * Python's `is` test between old and new child is modelled by equality of values: both
 * transforms of the engine return their argument itself when they change nothing, and a
 * different value whenever they change something.
 */
module Walker {
  import opened Base
  import opened Nodes

  /** The walk recurses into the children of the transformed node: a transform must keep them. */
  ghost predicate PreservesChildren<E>(f: Node -> Result<Node, E>) {
    forall m :: f(m).Ok? ==> Children(f(m).value) == Children(m)
  }

  /** A node rebuilt around new children: a plain Element (never a PathElement) with the tag and attributes of `t`, or a Fragment. */
  function Rebuild(t: Node, kids: seq<Node>): Node {
    match t
    case Element(tag, attrs, _, _) => Element(tag, attrs, kids, false)
    case Fragment(_) => Fragment(kids)
    case _ => t
  }

  /** The values of a list of results, or the first error among them. */
  function AllOk<T, E>(rs: seq<Result<T, E>>): (r: Result<seq<T>, E>)
    ensures r.Ok? <==> forall i :: 0 <= i < |rs| ==> rs[i].Ok?
    ensures r.Ok? ==> |r.value| == |rs| && forall i :: 0 <= i < |rs| ==> rs[i] == Ok(r.value[i])
    ensures r.Err? ==> exists i :: 0 <= i < |rs| && rs[i] == Err(r.error) && forall j :: 0 <= j < i ==> rs[j].Ok?
    decreases |rs|
  {
    if rs == [] then Ok([])
    else if rs[0].Err? then Err(rs[0].error)
    else
      var rest := AllOk(rs[1..]);
      assert forall i :: 0 < i < |rs| ==> rs[i] == rs[1..][i - 1];
      match rest
      case Err(e) =>
        assert exists i :: 0 < i < |rs| && rs[i] == Err(e) && forall j :: 0 <= j < i ==> rs[j].Ok? by {
          var k :| 0 <= k < |rs[1..]| && rs[1..][k] == Err(e) && forall j :: 0 <= j < k ==> rs[1..][j].Ok?;
          assert rs[k + 1] == Err(e);
        }
        Err(e)
      case Ok(vs) => Ok([rs[0].value] + vs)
  }

  /** `_walk_tree(node, transform_fn)` */
  function Walk<E>(n: Node, f: Node -> Result<Node, E>): Result<Node, E>
    requires PreservesChildren(f)
    decreases n
  {
    match f(n)
    case Err(e) => Err(e)
    case Ok(t) =>
      var kids := Children(t);
      if kids == [] then Ok(t)
      else
        var results := seq(|kids|, i requires 0 <= i < |kids| => Walk(kids[i], f));
        match AllOk(results)
        case Err(e) => Err(e)
        case Ok(newKids) => if newKids == kids then Ok(t) else Ok(Rebuild(t, newKids))
  }

  /** Every node of a tree, each before its descendants and the children left to right: the order the walk visits them in. */
  function PreOrder(n: Node): (ms: seq<Node>)
    ensures ms != [] && ms[0] == n
    decreases n
  {
    var kids := Children(n);
    [n] + Flatten(seq(|kids|, i requires 0 <= i < |kids| => PreOrder(kids[i])))
  }

  /** The pre-order of a node with a single child: the node, then its child's subtree. */
  lemma PreOrderOneChild(n: Node)
    requires |Children(n)| == 1
    ensures PreOrder(n) == [n] + PreOrder(Children(n)[0])
  {
    var kids := Children(n);
    var pres := seq(|kids|, i requires 0 <= i < |kids| => PreOrder(kids[i]));
    assert pres == [PreOrder(kids[0])];
    assert Flatten(pres) == PreOrder(kids[0]) + Flatten<Node>([]);
  }

  function Flatten<T>(xss: seq<seq<T>>): seq<T>
    decreases |xss|
  {
    if xss == [] then [] else xss[0] + Flatten(xss[1..])
  }

  /** The error of the first node in `ms` on which `f` fails, if any. */
  function FirstErr<E>(ms: seq<Node>, f: Node -> Result<Node, E>): (r: Option<E>)
    ensures r.None? <==> forall i :: 0 <= i < |ms| ==> f(ms[i]).Ok?
    ensures r.Some? ==> exists i :: 0 <= i < |ms| && f(ms[i]) == Err(r.value) && forall j :: 0 <= j < i ==> f(ms[j]).Ok?
    decreases |ms|
  {
    if ms == [] then None
    else if f(ms[0]).Err? then Some(f(ms[0]).error)
    else
      var r := FirstErr(ms[1..], f);
      assert forall i :: 0 < i < |ms| ==> ms[i] == ms[1..][i - 1];
      if r.Some? then
        assert exists i :: 0 < i < |ms| && f(ms[i]) == Err(r.value) && forall j :: 0 <= j < i ==> f(ms[j]).Ok? by {
          var k :| 0 <= k < |ms[1..]| && f(ms[1..][k]) == Err(r.value) && forall j :: 0 <= j < k ==> f(ms[1..][j]).Ok?;
          assert f(ms[k + 1]) == Err(r.value);
        }
        r
      else r
  }

  function ErrorOf<T, E>(r: Result<T, E>): Option<E> {
    match r
    case Ok(_) => None
    case Err(e) => Some(e)
  }

  lemma {:induction false} FirstErrAppend<E>(a: seq<Node>, b: seq<Node>, f: Node -> Result<Node, E>)
    ensures FirstErr(a + b, f) == if FirstErr(a, f).Some? then FirstErr(a, f) else FirstErr(b, f)
    decreases |a|
  {
    if a != [] {
      assert (a + b)[0] == a[0];
      if f(a[0]).Ok? {
        assert (a + b)[1..] == a[1..] + b;
        FirstErrAppend(a[1..], b, f);
      }
    } else {
      assert a + b == b;
    }
  }

  /** The first error of the results is the first error over the concatenated node lists they stand for. */
  lemma {:induction false} AllOkFlatten<E>(rs: seq<Result<Node, E>>, xss: seq<seq<Node>>, f: Node -> Result<Node, E>)
    requires |rs| == |xss|
    requires forall i :: 0 <= i < |rs| ==> ErrorOf(rs[i]) == FirstErr(xss[i], f)
    ensures ErrorOf(AllOk(rs)) == FirstErr(Flatten(xss), f)
    decreases |rs|
  {
    if rs != [] {
      assert ErrorOf(rs[0]) == FirstErr(xss[0], f);
      FirstErrAppend(xss[0], Flatten(xss[1..]), f);
      assert forall i :: 0 < i < |rs| ==> rs[i] == rs[1..][i - 1] && xss[i] == xss[1..][i - 1];
      AllOkFlatten(rs[1..], xss[1..], f);
    }
  }

  /** The walk fails exactly when the transform fails on some node, with the error of the first such node in pre-order. */
  lemma {:induction false} WalkFailsAtFirstError<E>(n: Node, f: Node -> Result<Node, E>)
    requires PreservesChildren(f)
    ensures ErrorOf(Walk(n, f)) == FirstErr(PreOrder(n), f)
    decreases n
  {
    var kids := Children(n);
    var pres := seq(|kids|, i requires 0 <= i < |kids| => PreOrder(kids[i]));
    assert PreOrder(n) == [n] + Flatten(pres);
    if f(n).Ok? {
      assert Children(f(n).value) == kids;
      assert ([n] + Flatten(pres))[1..] == Flatten(pres);
      if kids != [] {
        var results := seq(|kids|, i requires 0 <= i < |kids| => Walk(kids[i], f));
        forall i | 0 <= i < |kids| ensures ErrorOf(results[i]) == FirstErr(pres[i], f) {
          WalkFailsAtFirstError(kids[i], f);
        }
        AllOkFlatten(results, pres, f);
      }
    }
  }

  /** A transform that never fails makes the walk succeed. */
  lemma WalkTotal<E>(n: Node, f: Node -> Result<Node, E>)
    requires PreservesChildren(f)
    requires forall m :: f(m).Ok?
    ensures Walk(n, f).Ok?
  {
    WalkFailsAtFirstError(n, f);
  }

  lemma {:induction false} InFlatten<T>(x: T, xss: seq<seq<T>>, i: nat)
    requires i < |xss| && x in xss[i]
    ensures x in Flatten(xss)
    decreases i
  {
    if i > 0 {
      InFlatten(x, xss[1..], i - 1);
    }
  }

  lemma {:induction false} FlattenMember<T>(x: T, xss: seq<seq<T>>)
    requires x in Flatten(xss)
    ensures exists i :: 0 <= i < |xss| && x in xss[i]
    decreases |xss|
  {
    if x !in xss[0] {
      FlattenMember(x, xss[1..]);
      var i :| 0 <= i < |xss[1..]| && x in xss[1..][i];
      assert x in xss[i + 1];
    }
  }

  /** A node of a tree is its root or a node of one of its children's subtrees. */
  lemma PreOrderMember(n: Node, m: Node)
    requires m in PreOrder(n)
    ensures m == n || exists i :: 0 <= i < |Children(n)| && m in PreOrder(Children(n)[i])
  {
    var kids := Children(n);
    var pres := seq(|kids|, j requires 0 <= j < |kids| => PreOrder(kids[j]));
    if m != n {
      assert m in Flatten(pres);
      FlattenMember(m, pres);
    }
  }

  /** A node of a child's subtree is a node of the tree. */
  lemma ChildPreOrder(n: Node, i: nat, m: Node)
    requires i < |Children(n)| && m in PreOrder(Children(n)[i])
    ensures m in PreOrder(n)
  {
    var kids := Children(n);
    var pres := seq(|kids|, j requires 0 <= j < |kids| => PreOrder(kids[j]));
    InFlatten(m, pres, i);
  }

  /** A transform that leaves every node of a tree as it is leaves the tree as it is: the walk returns its input. */
  lemma {:induction false} WalkIdentity<E>(n: Node, f: Node -> Result<Node, E>)
    requires PreservesChildren(f)
    requires forall m :: m in PreOrder(n) ==> f(m) == Ok(m)
    ensures Walk(n, f) == Ok(n)
    decreases n
  {
    var kids := Children(n);
    assert f(n) == Ok(n);
    if kids != [] {
      var results := seq(|kids|, i requires 0 <= i < |kids| => Walk(kids[i], f));
      forall i | 0 <= i < |kids| ensures results[i] == Ok(kids[i]) {
        forall m | m in PreOrder(kids[i]) ensures f(m) == Ok(m) {
          ChildPreOrder(n, i, m);
        }
        WalkIdentity(kids[i], f);
      }
      assert AllOk(results).value == kids;
    }
  }

  /**
   * One level of a successful walk: the transform succeeded on the node, every child was
   * walked successfully into the child at the same position of the result, and the result
   * is the transformed node itself when no child changed, and a rebuilt node otherwise.
   */
  lemma WalkOk<E>(n: Node, f: Node -> Result<Node, E>)
    requires PreservesChildren(f) && Walk(n, f).Ok?
    ensures f(n).Ok?
    ensures var t, r := f(n).value, Walk(n, f).value;
      && Children(t) == Children(n)
      && |Children(r)| == |Children(n)|
      && (forall i :: 0 <= i < |Children(n)| ==> Walk(Children(n)[i], f) == Ok(Children(r)[i]))
      && r == if Children(r) == Children(n) then t else Rebuild(t, Children(r))
  {
    var t := f(n).value;
    var kids := Children(t);
    if kids != [] {
      var results := seq(|kids|, i requires 0 <= i < |kids| => Walk(kids[i], f));
      var newKids := AllOk(results).value;
      if newKids != kids {
        assert t.Element? || t.Fragment?;
      }
    }
  }
}
