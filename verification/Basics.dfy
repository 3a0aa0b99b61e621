/** Notions that several models share. */
module Basics {

  datatype Option<T> = None | Some(value: T)

  ghost predicate NoDup<T>(s: seq<T>) {
    forall i, j :: 0 <= i < j < |s| ==> s[i] != s[j]
  }

  ghost predicate Rising(s: seq<nat>) {
    forall i, j :: 0 <= i < j < |s| ==> s[i] < s[j]
  }

  /** The lists one after the other. */
  function Flat<T>(xss: seq<seq<T>>): seq<T> {
    if xss == [] then [] else Flat(xss[..|xss| - 1]) + xss[|xss| - 1]
  }

  lemma FlatNext<T>(xss: seq<seq<T>>, i: nat)
    requires i < |xss|
    ensures Flat(xss[..i + 1]) == Flat(xss[..i]) + xss[i]
  {
    assert xss[..i + 1][..i] == xss[..i];
  }

  lemma FlatAppend<T>(xss: seq<seq<T>>, xs: seq<T>, rest: seq<T>)
    ensures Flat(xss + [xs]) + rest == Flat(xss) + (xs + rest)
  {
    assert (xss + [xs])[..|xss|] == xss;
  }

  lemma SliceNext<T>(a: seq<T>, s: seq<T>, i: nat)
    requires i < |s|
    ensures a + s[..i + 1] == (a + s[..i]) + [s[i]]
  {
  }

  lemma Regroup<T>(a: seq<T>, b: seq<T>, c: seq<T>)
    ensures a + (b + c) == (a + b) + c
  {
  }

  /**
   If p holds at the start, and each step keeps it exactly unless q holds there,
   then p holds all along if and only if q never does.
   */
  lemma {:induction false} KeptAllAlong(p: nat -> bool, q: nat -> bool, n: nat)
    requires p(0) && forall k: nat :: k < n && p(k) ==> (p(k + 1) <==> !q(k))
    ensures (forall k: nat :: k <= n ==> p(k)) <==> (forall k: nat :: k < n ==> !q(k))
  {
    if n > 0 {
      KeptAllAlong(p, q, n - 1);
      assert p(n - 1) ==> (p((n - 1) + 1) <==> !q(n - 1));
    }
  }
}
