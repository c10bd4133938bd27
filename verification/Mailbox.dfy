/** An actor's mailbox: a sorted list while it is small, buckets by priority once it has
    grown, and one stable priority queue throughout. */
module Mailbox {
  import opened Names
  import Finite

  datatype Envelope = Envelope(sender: Option<nat>, payload: string, priority: int)

  const MIGRATE_THRESHOLD := 64

  // ----- The queue both forms stand for -----

  ghost predicate Sorted(q: seq<Envelope>) {
    forall i, j | 0 <= i < j < |q| :: q[i].priority >= q[j].priority
  }

  // Behind everything of its priority or higher.
  function Inserted(q: seq<Envelope>, e: Envelope): seq<Envelope> {
    if q == [] || q[0].priority < e.priority then [e] + q else [q[0]] + Inserted(q[1..], e)
  }

  // The envelopes of one priority, in order.
  function Of(q: seq<Envelope>, p: int): seq<Envelope> {
    if q == [] then [] else (if q[0].priority == p then [q[0]] else []) + Of(q[1..], p)
  }

  /** They are the members of that priority, picked by position. */
  lemma {:induction false} OfByPosition(q: seq<Envelope>, p: int) returns (at: seq<nat>)
    ensures Finite.Ascending(at) && forall i: nat :: i in at <==> i < |q| && q[i].priority == p
    ensures |Of(q, p)| == |at| && forall k | 0 <= k < |at| :: at[k] < |q| && Of(q, p)[k] == q[at[k]]
  {
    if q == [] {
      at := [];
    } else {
      var rest := OfByPosition(q[1..], p);
      var first := q[0].priority == p;
      Finite.OneInFront(rest, first);
      Finite.PickedInFront(q, Of(q[1..], p), rest, first);
      at := Finite.InFront(rest, first);
    }
  }

  lemma OfStep(x: Envelope, q: seq<Envelope>, p: int)
    ensures Of([x] + q, p) == (if x.priority == p then [x] else []) + Of(q, p)
  {
    assert ([x] + q)[1..] == q;
  }

  lemma {:induction false} OfAppend(a: seq<Envelope>, b: seq<Envelope>, p: int)
    ensures Of(a + b, p) == Of(a, p) + Of(b, p)
  {
    if a == [] {
      assert a + b == b;
    } else {
      hide Of;
      var x, rest := a[0], a[1..];
      OfAppend(rest, b, p);
      assert a == [x] + rest && a + b == [x] + (rest + b);
      OfStep(x, rest, p);
      OfStep(x, rest + b, p);
    }
  }

  lemma {:induction false} OfNone(q: seq<Envelope>, p: int)
    requires forall e | e in q :: e.priority != p
    ensures Of(q, p) == []
  {
    if q != [] {
      OfNone(q[1..], p);
    }
  }

  lemma {:induction false} OfMember(q: seq<Envelope>, e: Envelope)
    ensures e in Of(q, e.priority) <==> e in q
  {
    if q != [] {
      OfMember(q[1..], e);
    }
  }

  lemma {:induction false} InsertedIsSorted(q: seq<Envelope>, e: Envelope)
    requires Sorted(q)
    ensures Sorted(Inserted(q, e)) && forall x :: x in Inserted(q, e) <==> x == e || x in q
  {
    if q != [] && q[0].priority >= e.priority {
      var rest := Inserted(q[1..], e);
      InsertedIsSorted(q[1..], e);
      assert q == [q[0]] + q[1..];
      forall i | 0 <= i < |rest|
        ensures q[0].priority >= rest[i].priority
      {
        assert rest[i] in rest;
      }
    }
  }

  lemma {:induction false} InsertedOf(q: seq<Envelope>, e: Envelope, p: int)
    requires Sorted(q)
    ensures Of(Inserted(q, e), p) == Of(q, p) + (if e.priority == p then [e] else [])
  {
    if q == [] || q[0].priority < e.priority {
      OfStep(e, q, p);
      if p == e.priority {
        OfNone(q, p);
      }
    } else {
      var x, rest := q[0], q[1..];
      InsertedOf(rest, e, p);
      assert q == [x] + rest && Inserted(q, e) == [x] + Inserted(rest, e);
      hide Of, Inserted, Sorted;
      OfStep(x, rest, p);
      OfStep(x, Inserted(rest, e), p);
    }
  }

  /** Order by priority and order within each priority determine the whole queue. */
  lemma {:induction false} SortedIsUnique(a: seq<Envelope>, b: seq<Envelope>)
    requires Sorted(a) && Sorted(b) && forall p :: Of(a, p) == Of(b, p)
    ensures a == b
  {
    hide Of, Sorted;
    if a != [] && b != [] {
      HeadsAgree(a, b);
      forall p
        ensures Of(a[1..], p) == Of(b[1..], p)
      {
        OfTail(a, p);
        OfTail(b, p);
      }
      assert Sorted(a[1..]) && Sorted(b[1..]) by {
        TailSorted(a);
        TailSorted(b);
      }
      SortedIsUnique(a[1..], b[1..]);
      assert a == [a[0]] + a[1..] && b == [b[0]] + b[1..];
    } else {
      EmptyAgrees(a, b);
      EmptyAgrees(b, a);
    }
  }

  lemma TailSorted(q: seq<Envelope>)
    requires q != [] && Sorted(q)
    ensures Sorted(q[1..])
  {
  }

  lemma EmptyAgrees(a: seq<Envelope>, b: seq<Envelope>)
    requires forall p :: Of(a, p) == Of(b, p)
    ensures b == [] ==> a == []
  {
    hide Of;
    if a != [] {
      OfMember(a, a[0]);
      assert Of(a, a[0].priority) == Of(b, a[0].priority);
      OfMember(b, a[0]);
    }
  }

  lemma OfTail(q: seq<Envelope>, p: int)
    requires q != []
    ensures Of(q[1..], p) == if q[0].priority == p then Of(q, p)[1..] else Of(q, p)
  {
  }

  lemma HeadsAgree(a: seq<Envelope>, b: seq<Envelope>)
    requires a != [] && b != [] && Sorted(a) && Sorted(b) && forall p :: Of(a, p) == Of(b, p)
    ensures a[0] == b[0]
  {
    hide Of;
    var p, r := a[0].priority, b[0].priority;
    assert Of(a, p) == Of(b, p) && Of(a, r) == Of(b, r);
    OfMember(a, a[0]);
    OfMember(b, a[0]);
    OfMember(a, b[0]);
    OfMember(b, b[0]);
    assert p == r;
    OfHead(a);
    OfHead(b);
  }

  lemma OfHead(q: seq<Envelope>)
    requires q != []
    ensures Of(q, q[0].priority) != [] && Of(q, q[0].priority)[0] == q[0]
  {
  }

  // ----- Buckets -----

  type Buckets = map<int, seq<Envelope>>

  function Bucket(m: Buckets, p: int): seq<Envelope> {
    if p in m then m[p] else []
  }

  ghost predicate Filed(m: Buckets) {
    forall p | p in m :: m[p] != [] && forall e | e in m[p] :: e.priority == p
  }

  lemma {:induction false} HasHighest(keys: set<int>) returns (k: int)
    requires keys != {}
    ensures k in keys && forall j | j in keys :: j <= k
  {
    var some := SomeKey(keys);
    k := some;
    var rest := keys - {some};
    assert forall j | j in keys :: j == some || j in rest;
    if rest != {} {
      var r := HasHighest(rest);
      if k < r {
        k := r;
      }
    }
  }

  lemma SomeKey(keys: set<int>) returns (k: int)
    requires keys != {}
    ensures k in keys
  {
    assert (forall x :: x !in keys) ==> keys == {};
    k :| k in keys;
  }

  // The last key of an ordered map.
  function Highest(keys: set<int>): (k: int)
    requires keys != {}
    ensures k in keys && forall j | j in keys :: j <= k
  {
    assert exists k :: k in keys && forall j | j in keys :: j <= k by {
      var k := HasHighest(keys);
    }
    var k :| k in keys && forall j | j in keys :: j <= k;
    k
  }

  // The buckets of some keys, highest priority first.
  function Flattened(m: Buckets, keys: set<int>): seq<Envelope> {
    if keys == {} then []
    else
      var k := Highest(keys);
      Bucket(m, k) + Flattened(m, keys - {k})
  }

  lemma {:induction false} FlattenedIs(m: Buckets, keys: set<int>)
    requires Filed(m) && keys <= m.Keys
    ensures Sorted(Flattened(m, keys))
    ensures forall e :: e in Flattened(m, keys) ==> e.priority in keys
    ensures forall p :: Of(Flattened(m, keys), p) == if p in keys then m[p] else []
    decreases keys
  {
    if keys != {} {
      var k := Highest(keys);
      var rest := Flattened(m, keys - {k});
      assert m[k] != [] && forall e | e in m[k] :: e.priority == k;
      assert Flattened(m, keys) == m[k] + rest;
      FlattenedIs(m, keys - {k});
      hide Flattened, Of, Sorted, Highest, Filed;
      assert Of(rest, k) == [];
      JoinSorted(m[k], rest, k);
      JoinMembers(m[k], rest);
      forall p
        ensures Of(m[k] + rest, p) == if p in keys then m[p] else []
      {
        OfJoined(m[k], rest, k, p);
      }
    }
  }

  lemma JoinMembers(a: seq<Envelope>, b: seq<Envelope>)
    ensures forall e :: e in a + b <==> e in a || e in b
  {
  }

  // A bucket in front of others.
  lemma OfJoined(a: seq<Envelope>, b: seq<Envelope>, k: int, p: int)
    requires (forall e | e in a :: e.priority == k) && Of(b, k) == []
    ensures Of(a + b, p) == if p == k then a else Of(b, p)
  {
    hide Of;
    OfAppend(a, b, p);
    if p == k {
      OfAll(a, k);
      assert a + [] == a;
    } else {
      OfNone(a, p);
      assert [] + Of(b, p) == Of(b, p);
    }
  }

  lemma JoinSorted(a: seq<Envelope>, b: seq<Envelope>, k: int)
    requires (forall e | e in a :: e.priority == k) && Sorted(b) && forall e | e in b :: e.priority <= k
    ensures Sorted(a + b)
  {
    forall i, j | 0 <= i < j < |a + b|
      ensures (a + b)[i].priority >= (a + b)[j].priority
    {
      assert (a + b)[i] in a || (a + b)[i] in b;
      assert (a + b)[j] in a || (a + b)[j] in b;
    }
  }

  lemma {:induction false} OfAll(q: seq<Envelope>, p: int)
    requires forall e | e in q :: e.priority == p
    ensures Of(q, p) == q
  {
    if q != [] {
      OfAll(q[1..], p);
      assert q == [q[0]] + q[1..];
    }
  }

  function Whole(m: Buckets): seq<Envelope> {
    Flattened(m, m.Keys)
  }

  function Pushed(m: Buckets, e: Envelope): Buckets {
    m[e.priority := Bucket(m, e.priority) + [e]]
  }

  lemma PushedFiled(m: Buckets, e: Envelope)
    requires Filed(m)
    ensures Filed(Pushed(m, e))
  {
  }

  // Adding to a bucket is inserting into the queue.
  lemma PushedIsInserted(m: Buckets, e: Envelope)
    requires Filed(m)
    ensures Whole(Pushed(m, e)) == Inserted(Whole(m), e)
  {
    hide Of, Sorted, Inserted, Flattened;
    var m' := Pushed(m, e);
    PushedFiled(m, e);
    FlattenedIs(m, m.Keys);
    InsertedIsSorted(Whole(m), e);
    forall p
      ensures Bucket(m', p) == Of(Inserted(Whole(m), e), p)
    {
      InsertedOf(Whole(m), e, p);
      assert Of(Whole(m), p) == Bucket(m, p);
    }
    SameQueue(m', Inserted(Whole(m), e));
  }

  // Buckets that hold exactly what the queue holds of each priority stand for the queue.
  lemma SameQueue(m: Buckets, q: seq<Envelope>)
    requires Filed(m) && Sorted(q) && forall p :: Bucket(m, p) == Of(q, p)
    ensures Whole(m) == q
  {
    FlattenedIs(m, m.Keys);
    SortedIsUnique(Whole(m), q);
  }

  function Total(m: Buckets, keys: set<int>): nat {
    if keys == {} then 0
    else
      var k := Highest(keys);
      |Bucket(m, k)| + Total(m, keys - {k})
  }

  lemma {:induction false} TotalIsLength(m: Buckets, keys: set<int>)
    ensures Total(m, keys) == |Flattened(m, keys)|
    decreases keys
  {
    if keys != {} {
      TotalIsLength(m, keys - {Highest(keys)});
    }
  }

  // Moves a sorted list into buckets, one envelope at a time.
  method Migrate(v: seq<Envelope>) returns (m: Buckets)
    requires Sorted(v)
    ensures Filed(m) && Whole(m) == v
  {
    hide Sorted, Pushed, Filed;
    m := map[];
    NoBuckets();
    for k := 0 to |v|
      invariant Filed(m) && forall p :: Bucket(m, p) == Of(v[..k], p)
    {
      assert v[..k + 1] == v[..k] + [v[k]] && [v[k]][1..] == [];
      forall p
        ensures Bucket(Pushed(m, v[k]), p) == Of(v[..k + 1], p)
      {
        OfAppend(v[..k], [v[k]], p);
        PushedBucket(m, v[k], p);
      }
      PushedFiled(m, v[k]);
      m := Pushed(m, v[k]);
    }
    assert v[..|v|] == v;
    SameQueue(m, v);
  }

  lemma NoBuckets()
    ensures Filed(map[])
  {
  }

  lemma PushedBucket(m: Buckets, e: Envelope, p: int)
    ensures Bucket(Pushed(m, e), p) == Bucket(m, p) + (if e.priority == p then [e] else [])
  {
  }

  // ----- The mailbox -----

  datatype Impl = Linear(items: seq<Envelope>) | Mapped(buckets: Buckets)

  class Mailbox {
    var inner: Impl

    constructor ()
      ensures Valid() && Contents() == [] && inner.Linear?
    {
      inner := Linear([]);
    }

    ghost predicate Valid()
      reads this
    {
      match inner
      case Linear(items) => Sorted(items) && |items| <= MIGRATE_THRESHOLD
      case Mapped(buckets) => Filed(buckets)
    }

    ghost function Contents(): seq<Envelope>
      reads this
    {
      match inner
      case Linear(items) => items
      case Mapped(buckets) => Whole(buckets)
    }

    lemma ContentsSorted()
      requires Valid()
      ensures Sorted(Contents())
    {
      if inner.Mapped? {
        FlattenedIs(inner.buckets, inner.buckets.Keys);
      }
    }

    method Len() returns (n: nat)
      requires Valid()
      ensures n == |Contents()|
    {
      match inner
      case Linear(items) => n := |items|;
      case Mapped(buckets) =>
        TotalIsLength(buckets, buckets.Keys);
        n := Total(buckets, buckets.Keys);
    }

    method IsEmpty() returns (b: bool)
      requires Valid()
      ensures b <==> Contents() == []
    {
      var n := Len();
      b := n == 0;
    }

    method Front() returns (r: Option<Envelope>)
      requires Valid()
      ensures r == if Contents() == [] then None else Some(Contents()[0])
    {
      match inner
      case Linear(items) => r := if items == [] then None else Some(items[0]);
      case Mapped(buckets) =>
        if buckets.Keys == {} {
          r := None;
        } else {
          r := Some(buckets[Highest(buckets.Keys)][0]);
        }
    }

    method ToVec() returns (out: seq<Envelope>)
      requires Valid()
      ensures out == Contents()
    {
      hide Sorted, Filed;
      match inner
      case Linear(items) => out := items;
      case Mapped(buckets) =>
        out := [];
        var keys := buckets.Keys;
        while keys != {}
          invariant out + Flattened(buckets, keys) == Whole(buckets) && keys <= buckets.Keys
          decreases keys
        {
          var k := Highest(keys);
          assert Flattened(buckets, keys) == buckets[k] + Flattened(buckets, keys - {k});
          assert (out + buckets[k]) + Flattened(buckets, keys - {k}) == Whole(buckets);
          out := out + buckets[k];
          keys := keys - {k};
        }
    }

    /** Takes the oldest envelope of the highest priority and nothing else. */
    method PopFront() returns (r: Option<Envelope>)
      requires Valid()
      modifies this
      ensures Valid() && inner.Linear? == old(inner.Linear?)
      ensures r == if old(Contents()) == [] then None else Some(old(Contents())[0])
      ensures Contents() == if old(Contents()) == [] then [] else old(Contents())[1..]
    {
      match inner
      case Linear(items) =>
        if items == [] {
          r := None;
        } else {
          r := Some(items[0]);
          inner := Linear(items[1..]);
        }
      case Mapped(buckets) =>
        if buckets.Keys == {} {
          r := None;
        } else {
          var p := Highest(buckets.Keys);
          var q := buckets[p];
          r := Some(q[0]);
          PopBucket(buckets, p);
          if q[1..] == [] {
            inner := Mapped(buckets - {p});
          } else {
            inner := Mapped(buckets[p := q[1..]]);
          }
        }
    }

    /** Puts the envelope behind everything of its priority or higher, in either form; the
        list gives way to buckets when it would hold more than the threshold. */
    method Insert(e: Envelope)
      requires Valid()
      modifies this
      ensures Valid() && Contents() == Inserted(old(Contents()), e)
      ensures inner.Linear? <==> old(inner.Linear?) && |old(Contents())| < 64
    {
      match inner
      case Linear(items) =>
        // The second scan, over equal priorities, never moves: this one stops strictly below.
        var pos := 0;
        while pos < |items| && items[pos].priority >= e.priority
          invariant 0 <= pos <= |items| && forall i | 0 <= i < pos :: items[i].priority >= e.priority
        {
          pos := pos + 1;
        }
        var v := items[..pos] + [e] + items[pos..];
        InsertedAt(items, e, pos);
        InsertedIsSorted(items, e);
        inner := Linear(v);
        if |v| > MIGRATE_THRESHOLD {
          var m := Migrate(v);
          inner := Mapped(m);
        }
      case Mapped(buckets) =>
        PushedFiled(buckets, e);
        PushedIsInserted(buckets, e);
        inner := Mapped(Pushed(buckets, e));
    }
  }

  lemma {:induction false} InsertedAt(q: seq<Envelope>, e: Envelope, pos: nat)
    requires pos <= |q| && (forall i | 0 <= i < pos :: q[i].priority >= e.priority)
    requires pos < |q| ==> q[pos].priority < e.priority
    ensures q[..pos] + [e] + q[pos..] == Inserted(q, e)
  {
    if pos == 0 {
      assert q[..0] == [] && q[0..] == q;
    } else {
      InsertedAt(q[1..], e, pos - 1);
      var rest := q[1..];
      assert Inserted(q, e) == [q[0]] + Inserted(rest, e);
      assert q[..pos] == [q[0]] + rest[..pos - 1] && q[pos..] == rest[pos - 1..];
      hide Inserted;
    }
  }

  // Taking the first envelope of the highest bucket is taking the first of the queue.
  lemma PopBucket(m: Buckets, p: int)
    requires Filed(m) && p in m && p == Highest(m.Keys)
    ensures var m' := if m[p][1..] == [] then m - {p} else m[p := m[p][1..]];
      Filed(m') && Whole(m) == [m[p][0]] + Whole(m')
  {
    hide Flattened, Of, Sorted;
    var m' := if m[p][1..] == [] then m - {p} else m[p := m[p][1..]];
    FlattenedIs(m, m.Keys);
    FiledTail(m, p);
    var whole := Whole(m);
    WholeHead(m, p);
    TailSorted(whole);
    forall r
      ensures Bucket(m', r) == Of(whole[1..], r)
    {
      assert Of(whole, r) == Bucket(m, r);
      OfTail(whole, r);
    }
    hide Bucket;
    SameQueue(m', whole[1..]);
  }

  lemma WholeHead(m: Buckets, p: int)
    requires Filed(m) && p in m && p == Highest(m.Keys)
    ensures Whole(m) != [] && Whole(m)[0] == m[p][0] && m[p][0].priority == p
  {
  }

  lemma FiledTail(m: Buckets, p: int)
    requires Filed(m) && p in m
    ensures Filed(if m[p][1..] == [] then m - {p} else m[p := m[p][1..]])
  {
  }

  // ----- Whole runs -----

  datatype Op = Put(envelope: Envelope) | Take

  /** What is left in the queue and what was taken from it, in order. */
  function Run(ops: seq<Op>): (seq<Envelope>, seq<Envelope>) {
    if ops == [] then ([], [])
    else
      var (queue, taken) := Run(ops[..|ops| - 1]);
      match ops[|ops| - 1]
      case Put(e) => (Inserted(queue, e), taken)
      case Take => if queue == [] then (queue, taken) else (queue[1..], taken + [queue[0]])
  }

  function PutIn(ops: seq<Op>): seq<Envelope> {
    if ops == [] then []
    else
      PutIn(ops[..|ops| - 1])
      + (match ops[|ops| - 1]
         case Put(e) => [e]
         case Take => [])
  }

  lemma OfOne(e: Envelope, p: int)
    ensures Of([e], p) == if e.priority == p then [e] else []
  {
    assert [e][1..] == [];
  }

  lemma PutKeeps(taken: seq<Envelope>, queue: seq<Envelope>, all: seq<Envelope>, e: Envelope, p: int)
    requires Sorted(queue) && Of(taken, p) + Of(queue, p) == Of(all, p)
    ensures Of(taken, p) + Of(Inserted(queue, e), p) == Of(all + [e], p)
  {
    hide Of, Sorted, Inserted;
    InsertedOf(queue, e, p);
    OfAppend(all, [e], p);
    OfOne(e, p);
  }

  lemma TakeKeeps(taken: seq<Envelope>, queue: seq<Envelope>, p: int)
    requires queue != []
    ensures Of(taken + [queue[0]], p) + Of(queue[1..], p) == Of(taken, p) + Of(queue, p)
  {
    hide Of;
    OfAppend(taken, [queue[0]], p);
    OfAppend([queue[0]], queue[1..], p);
    assert [queue[0]] + queue[1..] == queue;
  }

  /** Over any run the queue stays sorted, and within each priority what was taken followed
      by what is left is exactly what was put in, in that order: nothing is lost, repeated
      or overtaken. */
  lemma {:induction false} FirstInFirstOut(ops: seq<Op>, p: int)
    ensures Sorted(Run(ops).0)
    ensures Of(Run(ops).1, p) + Of(Run(ops).0, p) == Of(PutIn(ops), p)
  {
    if ops != [] {
      var front := ops[..|ops| - 1];
      FirstInFirstOut(front, p);
      var (queue, taken) := Run(front);
      match ops[|ops| - 1]
      case Put(e) =>
        InsertedIsSorted(queue, e);
        PutKeeps(taken, queue, PutIn(front), e, p);
      case Take =>
        assert PutIn(ops) == PutIn(front);
        if queue != [] {
          TakeKeeps(taken, queue, p);
        }
    }
  }

  /** A mailbox driven by any sequence of operations holds the queue of that run. */
  method Drive(ops: seq<Op>) returns (mailbox: Mailbox, taken: seq<Envelope>)
    ensures fresh(mailbox) && mailbox.Valid() && mailbox.Contents() == Run(ops).0 && taken == Run(ops).1
  {
    mailbox := new Mailbox();
    taken := [];
    assert ops[..0] == [];
    for k := 0 to |ops|
      invariant fresh(mailbox) && mailbox.Valid() && mailbox.Contents() == Run(ops[..k]).0 && taken == Run(ops[..k]).1
    {
      assert ops[..k + 1][..k] == ops[..k];
      match ops[k]
      case Put(e) => mailbox.Insert(e);
      case Take =>
        var r := mailbox.PopFront();
        if r.Some? {
          taken := taken + [r.value];
        }
    }
    assert ops[..|ops|] == ops;
  }
}
