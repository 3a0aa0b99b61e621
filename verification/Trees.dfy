/** Ordered trees, addressed by the child indexes that lead from the root to a node. */
module Trees {

  datatype Tree<T> = Tree(node: T, children: seq<Tree<T>>)

  ghost predicate HasAddress<T>(t: Tree<T>, a: seq<nat>)
    decreases a
  {
    a == [] || (a[0] < |t.children| && HasAddress(t.children[a[0]], a[1..]))
  }

  function At<T>(t: Tree<T>, a: seq<nat>): Tree<T>
    requires HasAddress(t, a)
    decreases a
  {
    if a == [] then t else At(t.children[a[0]], a[1..])
  }

  /** Below an address: the node there is found by going on from the first node. */
  lemma {:induction false} AtBelow<T>(t: Tree<T>, a: seq<nat>, b: seq<nat>)
    requires HasAddress(t, a)
    ensures HasAddress(t, a + b) <==> HasAddress(At(t, a), b)
    ensures HasAddress(t, a + b) ==> At(t, a + b) == At(At(t, a), b)
  {
    if a == [] {
      assert a + b == b;
    } else {
      assert (a + b)[1..] == a[1..] + b;
      AtBelow(t.children[a[0]], a[1..], b);
    }
  }

  /** Preorder: a node comes before its descendants, which come before its later siblings. */
  ghost predicate Before(a: seq<nat>, b: seq<nat>) {
    b != [] && (a == [] || a[0] < b[0] || (a[0] == b[0] && Before(a[1..], b[1..])))
  }

  lemma {:induction false} BeforeDistinct(a: seq<nat>, b: seq<nat>)
    requires Before(a, b)
    ensures a != b && !(b <= a)
  {
    if a != [] && a[0] == b[0] {
      assert b <= a ==> b[1..] == a[1..][..|b| - 1];
      BeforeDistinct(a[1..], b[1..]);
    }
  }

  /** Addresses below child i, seen from the parent. */
  ghost function Prefixed(i: nat, addresses: seq<seq<nat>>): (r: seq<seq<nat>>)
    ensures |r| == |addresses| && forall k :: 0 <= k < |r| ==> r[k] == [i] + addresses[k]
  {
    seq(|addresses|, k requires 0 <= k < |addresses| => [i] + addresses[k])
  }
}
