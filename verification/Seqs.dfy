/** Filter and map over a sequence in one pass. */
module Seqs {
  import opened Wrappers

  function Pick<T, U>(xs: seq<T>, f: T -> Option<U>): seq<U> {
    if xs == [] then [] else
    Pick(xs[..|xs| - 1], f) + match f(xs[|xs| - 1]) case None => [] case Some(u) => [u]
  }

  lemma PickOne<T, U>(x: T, f: T -> Option<U>)
    ensures Pick([x], f) == match f(x) case None => [] case Some(u) => [u]
  {
    assert [x][..0] == [];
  }

  predicate PickedFrom<T, U(==)>(xs: seq<T>, f: T -> Option<U>, u: U) {
    exists i :: 0 <= i < |xs| && f(xs[i]) == Some(u)
  }

  lemma PickedFromFront<T, U>(xs: seq<T>, f: T -> Option<U>, u: U)
    requires xs != []
    ensures PickedFrom(xs, f, u) <==> PickedFrom(xs[..|xs| - 1], f, u) || f(xs[|xs| - 1]) == Some(u)
  {
    var n := |xs| - 1;
    var front := xs[..n];
    if PickedFrom(front, f, u) {
      var i :| 0 <= i < n && f(front[i]) == Some(u);
      assert xs[i] == front[i];
    }
    if PickedFrom(xs, f, u) {
      var i :| 0 <= i < |xs| && f(xs[i]) == Some(u);
      if i < n {
        assert front[i] == xs[i];
      }
    }
  }

  /** Exactly the images of the elements that have one are picked. */
  lemma {:induction false} PickMembers<T, U>(xs: seq<T>, f: T -> Option<U>, u: U)
    ensures u in Pick(xs, f) <==> PickedFrom(xs, f, u)
  {
    if xs != [] {
      var n := |xs| - 1;
      PickMembers(xs[..n], f, u);
      PickedFromFront(xs, f, u);
    }
  }

  function Sum(xs: seq<nat>): nat {
    if xs == [] then 0 else Sum(xs[..|xs| - 1]) + xs[|xs| - 1]
  }

  lemma Assoc<T>(a: seq<T>, b: seq<T>, c: seq<T>)
    ensures a + b + c == a + (b + c)
  {
  }

  lemma AppendFrom<T>(a: seq<T>, b: seq<T>, k: nat)
    requires k <= |a|
    ensures (a + b)[k..] == a[k..] + b
  {
  }

  lemma BehindFirst<T>(xs: seq<T>, i: nat)
    requires 0 < i < |xs|
    ensures xs[..i] == [xs[0]] + xs[1..][..i - 1] && xs[i + 1..] == xs[1..][i..] && xs[i] == xs[1..][i - 1]
  {
  }

  /** Map over a sequence; one None makes the whole result None. */
  function Traverse<T, U>(xs: seq<T>, f: T -> Option<U>): Option<seq<U>> {
    if xs == [] then Some([]) else
    var front, last := Traverse(xs[..|xs| - 1], f), f(xs[|xs| - 1]);
    if front.Some? && last.Some? then Some(front.value + [last.value]) else None
  }

  lemma {:induction false} TraverseAll<T, U>(xs: seq<T>, f: T -> Option<U>, us: seq<U>)
    requires |xs| == |us|
    ensures Traverse(xs, f) == Some(us) <==> forall i :: 0 <= i < |us| ==> f(xs[i]) == Some(us[i])
  {
    if us != [] {
      var n := |us| - 1;
      TraverseAll(xs[..n], f, us[..n]);
      assert us == us[..n] + [us[n]];
      assert forall i :: 0 <= i < n ==> xs[..n][i] == xs[i] && us[..n][i] == us[i];
    }
  }

  /** The step from element k to the next takes inv along. */
  ghost predicate Carries<T>(inv: T -> bool, xs: seq<T>, k: nat)
    requires k + 1 < |xs|
  {
    inv(xs[k]) ==> inv(xs[k + 1])
  }

  /** Induction over a history: what holds at first and is carried by every step holds throughout. */
  lemma {:induction false} CarriedAlong<T>(inv: T -> bool, xs: seq<T>, i: nat)
    requires i < |xs| && inv(xs[0])
    requires forall k: nat :: k < i ==> Carries(inv, xs, k)
    ensures inv(xs[i])
  {
    if i > 0 {
      CarriedAlong(inv, xs, i - 1);
      assert Carries(inv, xs, i - 1);
    }
  }
}
