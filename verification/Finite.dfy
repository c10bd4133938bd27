/** Counting facts about finite sets and duplicate-free sequences. */
module Finite {

  ghost predicate Distinct<T>(s: seq<T>) {
    forall i, j | 0 <= i < j < |s| :: s[i] != s[j]
  }

  function Min(a: nat, b: nat): nat {
    if a <= b then a else b
  }

  function Elements<T>(s: seq<T>): set<T> {
    set x | x in s
  }

  // The numbers below n.
  function Below(n: nat): (r: set<nat>)
    ensures forall i: nat :: i in r <==> i < n
    ensures |r| == n
  {
    if n == 0 then {} else Below(n - 1) + {n - 1}
  }

  lemma StrictlySmaller<T>(a: set<T>, b: set<T>)
    requires a < b
    ensures |a| < |b|
  {
    var x :| x in b && x !in a;
    assert b == (b - a) + a;
    assert x in b - a;
  }

  lemma SubsetCard<T>(a: set<T>, b: set<T>)
    requires a <= b
    ensures |a| <= |b|
    ensures |a| == |b| ==> a == b
  {
    if a != b {
      StrictlySmaller(a, b);
    }
  }

  lemma Missing<T>(a: set<T>, b: set<T>) returns (x: T)
    requires a <= b && |a| != |b|
    ensures x in b && x !in a
  {
    if b <= a {
      SubsetCard(b, a);
      SubsetCard(a, b);
    }
    x :| x in b && x !in a;
  }

  lemma {:induction false} DistinctCard<T>(s: seq<T>)
    requires Distinct(s)
    ensures |Elements(s)| == |s|
  {
    if s != [] {
      var front, last := s[..|s| - 1], s[|s| - 1];
      DistinctCard(front);
      assert s == front + [last];
      assert Elements(s) == Elements(front) + {last};
      assert last !in Elements(front);
    }
  }

  // A duplicate-free sequence of numbers below n is no longer than n.
  lemma DistinctFits(s: seq<nat>, n: nat)
    requires Distinct(s) && forall x | x in s :: x < n
    ensures |s| <= n
  {
    DistinctCard(s);
    SubsetCard(Elements(s), Below(n));
  }

  lemma DistinctAppend<T>(s: seq<T>, x: T)
    requires Distinct(s) && x !in s
    ensures Distinct(s + [x])
  {
  }

  lemma DistinctJoin<T>(a: seq<T>, b: seq<T>)
    requires Distinct(a) && Distinct(b) && forall x | x in a :: x !in b
    ensures Distinct(a + b)
  {
    forall i, j | 0 <= i < j < |a + b|
      ensures (a + b)[i] != (a + b)[j]
    {
      if i < |a| <= j {
        assert a[i] in a && b[j - |a|] in b;
      }
    }
  }

  ghost predicate Ascending(s: seq<nat>) {
    forall i, j | 0 <= i < j < |s| :: s[i] < s[j]
  }

  function Inserted(s: seq<nat>, x: nat): seq<nat> {
    if s == [] || x < s[0] then [x] + s else [s[0]] + Inserted(s[1..], x)
  }

  lemma {:induction false} InsertedSorts(s: seq<nat>, x: nat)
    requires Ascending(s) && x !in s
    ensures Ascending(Inserted(s, x)) && forall y :: y in Inserted(s, x) <==> y == x || y in s
  {
    if s != [] && s[0] <= x {
      assert s == [s[0]] + s[1..];
      InsertedSorts(s[1..], x);
      var r := Inserted(s[1..], x);
      forall i | 0 <= i < |r|
        ensures s[0] < r[i]
      {
        assert r[i] in r;
      }
    }
  }

  // The members of a set of numbers in increasing order.
  method Sorted(members: set<nat>) returns (s: seq<nat>)
    ensures Ascending(s) && forall x :: x in s <==> x in members
  {
    s := [];
    var todo := members;
    while todo != {}
      invariant todo <= members && Ascending(s)
      invariant forall x :: x in s <==> x in members && x !in todo
      decreases |todo|
    {
      var x :| x in todo;
      InsertedSorts(s, x);
      s := Inserted(s, x);
      todo := todo - {x};
    }
  }

  // ----- Picking members by position -----

  // One more position at the end.
  lemma OneMore(at: seq<nat>, n: nat)
    requires Ascending(at) && forall i | i in at :: i < n
    ensures Ascending(at + [n]) && forall i: nat :: i in at + [n] <==> i in at || i == n
  {
    assert forall k | 0 <= k < |at| :: at[k] in at;
  }

  // Every position one further.
  function Later(at: seq<nat>): (r: seq<nat>)
    ensures |r| == |at| && forall k | 0 <= k < |at| :: r[k] == at[k] + 1
  {
    seq(|at|, k requires 0 <= k < |at| => at[k] + 1)
  }

  lemma LaterMembers(at: seq<nat>)
    ensures forall i: nat :: i in Later(at) <==> i > 0 && i - 1 in at
  {
    forall i: nat
      ensures i in Later(at) <==> i > 0 && i - 1 in at
    {
      if i > 0 && i - 1 in at {
        var k :| 0 <= k < |at| && at[k] == i - 1;
        assert Later(at)[k] == i;
      }
    }
  }

  // Perhaps one more position in front.
  function InFront(at: seq<nat>, first: bool): (r: seq<nat>)
    ensures |r| == |at| + if first then 1 else 0
  {
    (if first then [0] else []) + Later(at)
  }

  lemma OneInFront(at: seq<nat>, first: bool)
    requires Ascending(at)
    ensures Ascending(InFront(at, first))
    ensures forall i: nat :: i in InFront(at, first) <==> (i > 0 && i - 1 in at) || (i == 0 && first)
  {
    LaterMembers(at);
  }

  lemma InFrontAt(at: seq<nat>, first: bool, k: nat)
    requires k < |InFront(at, first)|
    ensures InFront(at, first)[k] == if !first then at[k] + 1 else if k == 0 then 0 else at[k - 1] + 1
  {
  }

  // What is picked from a sequence, knowing what is picked from its tail.
  lemma PickedInFront<T>(s: seq<T>, picked: seq<T>, at: seq<nat>, first: bool)
    requires s != [] && |picked| == |at| && forall k | 0 <= k < |at| :: at[k] < |s| - 1 && picked[k] == s[at[k] + 1]
    ensures var r, out := InFront(at, first), (if first then [s[0]] else []) + picked;
      |out| == |r| && forall k | 0 <= k < |r| :: r[k] < |s| && out[k] == s[r[k]]
  {
    hide InFront;
    var r, out := InFront(at, first), (if first then [s[0]] else []) + picked;
    forall k | 0 <= k < |r|
      ensures r[k] < |s| && out[k] == s[r[k]]
    {
      InFrontAt(at, first, k);
      if !first {
        assert out[k] == picked[k];
      } else if k > 0 {
        assert out[k] == picked[k - 1];
      }
    }
  }
}
