/** Arena escape promotion: a value about to outlive its arena is copied, object by object,
    into the arena it escapes to. */
module Promotion {
  import opened Names
  import opened Heap

  // ----- Arenas -----

  // Older arenas have lower levels; no arena at all is the lowest.
  function Level(arena: Option<nat>): nat {
    match arena
    case None => 0
    case Some(a) => a + 1
  }

  ghost predicate AtMost(heap: Objects, level: nat, hs: set<nat>) {
    forall h | h in hs && h in heap :: Level(heap[h].arena) <= level
  }

  /** The discipline of the heap: objects are composites or plain, they refer to older
      objects only, and never into an arena newer than their own. A cell may be anywhere, as
      long as it has been made. */
  ghost predicate Disciplined(heap: Objects, next: nat) {
    forall id | id in heap :: Kept(heap, id) && id < next && Below(Cells(heap[id].value), next)
  }

  ghost predicate Kept(heap: Objects, id: nat)
    requires id in heap
  {
    var o := heap[id];
    && !o.value.Handle?
    && (forall h | h in Handles(o.value) :: h < id)
    && AtMost(heap, Level(o.arena), Handles(o.value))
  }

  // ----- What a value looks like from outside -----

  /** A value with every handle replaced by what it stands for; a handle whose object is gone
      stays. Handles are followed only downwards from the bound. */
  function Normalized(heap: Objects, v: Value, bound: nat): Value
    decreases bound, v, 1
  {
    match v
    case Handle(h) =>
      if h in heap && h < bound && !heap[h].value.Handle? then Normalized(heap, heap[h].value, h)
      else if h in heap then heap[h].value
      else v
    case Composite(shape, parts) => Composite(shape, AllNormalized(heap, parts, bound))
    case _ => v
  }

  function AllNormalized(heap: Objects, vs: seq<Value>, bound: nat): seq<Value>
    decreases bound, vs, 0
  {
    if vs == [] then [] else [Normalized(heap, vs[0], bound)] + AllNormalized(heap, vs[1..], bound)
  }

  /** How many objects promotion to a level copies: one for every handle met on the way that
      points into a newer arena, so a shared object counts once for each handle to it. */
  function Copies(heap: Objects, level: nat, v: Value, bound: nat): nat
    decreases bound, v, 1
  {
    match v
    case Handle(h) =>
      if h in heap && h < bound && Level(heap[h].arena) > level then Copies(heap, level, heap[h].value, h) + 1 else 0
    case Composite(_, parts) => AllCopies(heap, level, parts, bound)
    case _ => 0
  }

  function AllCopies(heap: Objects, level: nat, vs: seq<Value>, bound: nat): nat
    decreases bound, vs, 0
  {
    if vs == [] then 0 else Copies(heap, level, vs[0], bound) + AllCopies(heap, level, vs[1..], bound)
  }

  ghost predicate Below(hs: set<nat>, bound: nat) {
    forall h | h in hs :: h < bound
  }

  // The heaps agree on a family of ids that handles do not leave.
  ghost predicate Agree(heap: Objects, heap': Objects, keep: nat -> bool) {
    forall id | keep(id) ::
      && (id in heap <==> id in heap')
      && (id in heap ==> heap[id] == heap'[id] && Below(Handles(heap[id].value), id)
                         && forall h | h in Handles(heap[id].value) :: keep(h))
  }

  lemma {:induction false} NormalizedAgrees(heap: Objects, heap': Objects, keep: nat -> bool, level: nat, v: Value,
      bound: nat, bound': nat)
    requires Agree(heap, heap', keep) && Below(Handles(v), bound) && Below(Handles(v), bound')
    requires forall h | h in Handles(v) :: keep(h)
    ensures Normalized(heap, v, bound) == Normalized(heap', v, bound')
    ensures Copies(heap, level, v, bound) == Copies(heap', level, v, bound')
    decreases bound, v, 1
  {
    match v
    case Handle(h) =>
      if h in heap {
        NormalizedAgrees(heap, heap', keep, level, heap[h].value, h, h);
      }
    case Composite(_, parts) => AllNormalizedAgree(heap, heap', keep, level, parts, bound, bound');
    case _ =>
  }

  lemma {:induction false} AllNormalizedAgree(heap: Objects, heap': Objects, keep: nat -> bool, level: nat,
      vs: seq<Value>, bound: nat, bound': nat)
    requires Agree(heap, heap', keep) && Below(HandlesOfAll(vs), bound) && Below(HandlesOfAll(vs), bound')
    requires forall h | h in HandlesOfAll(vs) :: keep(h)
    ensures AllNormalized(heap, vs, bound) == AllNormalized(heap', vs, bound')
    ensures AllCopies(heap, level, vs, bound) == AllCopies(heap', level, vs, bound')
    decreases bound, vs, 0
  {
    hide Agree;
    if vs != [] {
      NormalizedAgrees(heap, heap', keep, level, vs[0], bound, bound');
      AllNormalizedAgree(heap, heap', keep, level, vs[1..], bound, bound');
    }
  }

  // ----- What is seen at a path -----

  // What stands somewhere in a value: a composite of so many parts, or a value without parts.
  datatype Sight = Branch(shape: Shape, arity: nat) | End(value: Value) | Nowhere

  /** What is seen at a path of part positions when every handle on the way is followed to the
      object behind it; a handle whose object is gone is seen itself. */
  function Seen(heap: Objects, v: Value, path: seq<nat>, bound: nat): Sight
    decreases bound, v
  {
    match v
    case Handle(h) =>
      if h in heap && h < bound then Seen(heap, heap[h].value, path, h) else if path == [] then End(v) else Nowhere
    case Composite(shape, parts) =>
      if path == [] then Branch(shape, |parts|)
      else if path[0] < |parts| then Seen(heap, parts[path[0]], path[1..], bound)
      else Nowhere
    case _ => if path == [] then End(v) else Nowhere
  }

  // The same in a value that is looked at as it is.
  function SightAt(v: Value, path: seq<nat>): Sight {
    match ValueAt(v, path)
    case None => Nowhere
    case Some(Composite(shape, parts)) => Branch(shape, |parts|)
    case Some(w) => End(w)
  }

  lemma {:induction false} NormalizedPart(heap: Objects, vs: seq<Value>, bound: nat, k: nat)
    requires k < |vs|
    ensures |AllNormalized(heap, vs, bound)| == |vs| && AllNormalized(heap, vs, bound)[k]
      == Normalized(heap, vs[k], bound)
    decreases k
  {
    hide Normalized;
    if k > 0 {
      NormalizedPart(heap, vs[1..], bound, k - 1);
    } else {
      NormalizedLength(heap, vs[1..], bound);
    }
  }

  lemma {:induction false} NormalizedLength(heap: Objects, vs: seq<Value>, bound: nat)
    ensures |AllNormalized(heap, vs, bound)| == |vs|
  {
    hide Normalized;
    if vs != [] {
      NormalizedLength(heap, vs[1..], bound);
    }
  }

  /** The normal form of a value shows at every path what following its handles shows. */
  lemma {:induction false} NormalizedShows(heap: Objects, v: Value, path: seq<nat>, bound: nat, n: nat)
    requires Disciplined(heap, n) && Below(Handles(v), bound)
    ensures SightAt(Normalized(heap, v, bound), path) == Seen(heap, v, path, bound)
    decreases bound, v
  {
    match v
    case Handle(h) =>
      if h in heap {
        assert Kept(heap, h);
        NormalizedShows(heap, heap[h].value, path, h, n);
      }
    case Composite(_, parts) =>
      NormalizedLength(heap, parts, bound);
      if path != [] && path[0] < |parts| {
        HandlesOfPart(parts, path[0]);
        NormalizedPart(heap, parts, bound, path[0]);
        NormalizedShows(heap, parts[path[0]], path[1..], bound, n);
      }
    case _ =>
  }

  /** Through its handles, a promoted value shows at every path what it showed before. */
  lemma PromotedShowsTheSame(before: Objects, n: nat, after: Objects, n': nat, target: Option<nat>, v: Value, r: Value,
      bound: nat, path: seq<nat>)
    requires Disciplined(before, n) && Below(Handles(v), bound)
      && Promoted(before, n, after, n', target, v, r, bound)
    ensures Seen(after, r, path, n') == Seen(before, v, path, bound)
  {
    hide Disciplined, Normalized, Seen, Handles, Cells;
    assert Disciplined(after, n') && Below(Handles(r), n');
    NormalizedShows(before, v, path, bound, n);
    NormalizedShows(after, r, path, n', n');
  }

  // ----- What one promotion does -----

  // The heap has only grown, by objects of the target arena.
  ghost predicate Grown(before: Objects, n: nat, after: Objects, n': nat, target: Option<nat>) {
    && n <= n' && Disciplined(after, n')
    && (forall id | id in before :: id in after && after[id] == before[id])
    && (forall id | id in after && id !in before :: n <= id && after[id].arena == target && after[id].alive)
  }

  /** The result stands for the same value, reaches nothing newer than the target arena, and
      cost one new object there for each escaping handle; everything else is as it was. */
  ghost predicate Promoted(before: Objects, n: nat, after: Objects, n': nat, target: Option<nat>, v: Value, r: Value,
      bound: nat) {
    && Grown(before, n, after, n', target)
    && Below(Handles(r), n') && AtMost(after, Level(target), Handles(r))
    && Normalized(after, r, n') == Normalized(before, v, bound)
    && n' == n + Copies(before, Level(target), v, bound)
    && Cells(r) == Cells(v) && (r.Handle? <==> v.Handle?) && (n' == n ==> r == v)
  }

  ghost predicate AllPromoted(before: Objects, n: nat, after: Objects, n': nat, target: Option<nat>, vs: seq<Value>,
      rs: seq<Value>, bound: nat) {
    && Grown(before, n, after, n', target)
    && Below(HandlesOfAll(rs), n') && AtMost(after, Level(target), HandlesOfAll(rs))
    && AllNormalized(after, rs, n') == AllNormalized(before, vs, bound)
    && n' == n + AllCopies(before, Level(target), vs, bound)
    && CellsOfAll(rs) == CellsOfAll(vs) && (n' == n ==> rs == vs)
  }

  lemma {:induction false} AllAppend(heap: Objects, level: nat, vs: seq<Value>, x: Value, bound: nat)
    ensures AllNormalized(heap, vs + [x], bound) == AllNormalized(heap, vs, bound) + [Normalized(heap, x, bound)]
    ensures AllCopies(heap, level, vs + [x], bound) == AllCopies(heap, level, vs, bound) + Copies(heap, level, x, bound)
    ensures HandlesOfAll(vs + [x]) == HandlesOfAll(vs) + Handles(x) && CellsOfAll(vs + [x]) == CellsOfAll(vs) + Cells(x)
  {
    hide Handles, Cells, Normalized, Copies;
    if vs == [] {
      assert vs + [x] == [x] && [x][1..] == [];
    } else {
      assert (vs + [x])[1..] == vs[1..] + [x];
      AllAppend(heap, level, vs[1..], x, bound);
    }
  }

  // Growing changes nothing for values whose handles were there before.
  lemma GrownAgrees(before: Objects, n: nat, after: Objects, n': nat, target: Option<nat>)
    requires Disciplined(before, n) && Grown(before, n, after, n', target)
    ensures Agree(before, after, id => id < n)
  {
    hide Handles, Cells;
  }

  lemma GrownTwice(before: Objects, n: nat, mid: Objects, n1: nat, after: Objects, n2: nat, target: Option<nat>)
    requires Grown(before, n, mid, n1, target) && Grown(mid, n1, after, n2, target)
    ensures Grown(before, n, after, n2, target)
  {
    hide Disciplined;
  }

  // Handles that were at most at a level stay there.
  lemma AtMostStays(mid: Objects, n1: nat, after: Objects, n2: nat, target: Option<nat>, level: nat, hs: set<nat>)
    requires Grown(mid, n1, after, n2, target) && Below(hs, n1) && AtMost(mid, level, hs)
    ensures Below(hs, n2) && AtMost(after, level, hs)
  {
    hide Disciplined;
  }

  lemma PromoteStep(before: Objects, n: nat, mid: Objects, n1: nat, after: Objects, n2: nat, target: Option<nat>,
                    vs: seq<Value>, rs: seq<Value>, v: Value, r: Value, bound: nat)
    requires Disciplined(before, n) && bound <= n && Below(Handles(v), bound)
    requires AllPromoted(before, n, mid, n1, target, vs, rs, bound) && Promoted(mid, n1, after, n2, target, v, r, bound)
    ensures AllPromoted(before, n, after, n2, target, vs + [v], rs + [r], bound)
  {
    hide Normalized, AllNormalized, Copies, AllCopies, Handles, HandlesOfAll, Cells, CellsOfAll, Agree, Disciplined,
      Grown, AtMost;
    var level := Level(target);
    GrownTwice(before, n, mid, n1, after, n2, target);
    AtMostStays(mid, n1, after, n2, target, level, HandlesOfAll(rs));
    GrownAgrees(before, n, mid, n1, target);
    NormalizedAgrees(before, mid, id => id < n, level, v, bound, bound);
    assert Disciplined(mid, n1) by { GrownIsDisciplined(before, n, mid, n1, target); }
    GrownAgrees(mid, n1, after, n2, target);
    AllNormalizedAgree(mid, after, id => id < n1, level, rs, n1, n2);
    AllAppend(before, level, vs, v, bound);
    AllAppend(after, level, rs, r, n2);
    assert n <= n1 <= n2 by { GrownIsDisciplined(before, n, mid, n1, target);
      GrownIsDisciplined(mid, n1, after, n2, target); }
    AtMostBoth(after, level, HandlesOfAll(rs), Handles(r));
  }

  lemma GrownIsDisciplined(before: Objects, n: nat, after: Objects, n': nat, target: Option<nat>)
    requires Grown(before, n, after, n', target)
    ensures Disciplined(after, n') && n <= n'
  {
  }

  lemma AtMostBoth(heap: Objects, level: nat, hs: set<nat>, hs': set<nat>)
    requires AtMost(heap, level, hs) && AtMost(heap, level, hs')
    ensures AtMost(heap, level, hs + hs')
  {
  }

  lemma NothingPromoted(heap: Objects, n: nat, target: Option<nat>, bound: nat)
    requires Disciplined(heap, n)
    ensures AllPromoted(heap, n, heap, n, target, [], [], bound)
  {
  }

  lemma PartsPromoted(before: Objects, n: nat, after: Objects, n': nat, target: Option<nat>, shape: Shape,
                      parts: seq<Value>, rs: seq<Value>, bound: nat)
    requires AllPromoted(before, n, after, n', target, parts, rs, bound)
    ensures Promoted(before, n, after, n', target, Composite(shape, parts), Composite(shape, rs), bound)
  {
    hide Grown, AllNormalized, AllCopies, HandlesOfAll, CellsOfAll, AtMost, Below;
  }

  // A value that promotion leaves alone.
  lemma Untouched(heap: Objects, n: nat, target: Option<nat>, v: Value, bound: nat)
    requires Disciplined(heap, n) && !v.Composite? && bound <= n && Below(Handles(v), bound)
    requires v.Handle? && v.id in heap ==> Level(heap[v.id].arena) <= Level(target)
    ensures Promoted(heap, n, heap, n, target, v, v, bound)
  {
  }

  lemma CopyGrown(mid: Objects, n1: nat, target: Option<nat>, r: Value)
    requires Disciplined(mid, n1) && !r.Handle? && Below(Handles(r), n1) && Below(Cells(r), n1)
      && AtMost(mid, Level(target), Handles(r))
    ensures Grown(mid, n1, mid[n1 := Object(r, target, true)], n1 + 1, target)
  {
    hide Handles, Cells;
    var after := mid[n1 := Object(r, target, true)];
    forall id | id in after
      ensures Kept(after, id) && id < n1 + 1 && Below(Cells(after[id].value), n1 + 1)
    {
      if id != n1 {
        KeptStays(mid, n1, Object(r, target, true), id);
      }
    }
    hide Kept;
  }

  // A new object changes nothing for the others.
  lemma KeptStays(mid: Objects, n1: nat, o: Object, id: nat)
    requires Disciplined(mid, n1) && id in mid
    ensures id != n1 && id < n1 && Kept(mid[n1 := o], id) && Below(Cells(mid[id].value), n1)
  {
    hide Handles, Cells;
    assert Kept(mid, id);
  }

  // The copy of an object, made once its own value has been promoted.
  lemma CopyMade(before: Objects, n: nat, mid: Objects, n1: nat, target: Option<nat>, h: nat, r: Value, bound: nat)
    requires Disciplined(before, n) && h in before && h < bound <= n && Level(before[h].arena) > Level(target)
    requires Promoted(before, n, mid, n1, target, before[h].value, r, h)
    ensures Promoted(before, n, mid[n1 := Object(r, target, true)], n1 + 1, target, Handle(h), Handle(n1), bound)
  {
    var after := mid[n1 := Object(r, target, true)];
    ObjectBelow(before, n, h);
    hide Normalized, AllNormalized, Copies, AllCopies, Disciplined, Grown, Agree, Kept, AtMost, Cells;
    PromotedGrows(before, n, mid, n1, target, before[h].value, r, h);
    CopyGrown(mid, n1, target, r);
    GrownTwice(before, n, mid, n1, after, n1 + 1, target);
    GrownAgrees(mid, n1, after, n1 + 1, target);
    NormalizedAgrees(mid, after, id => id < n1, Level(target), r, n1, n1);
    CopyLooks(after, n1, r);
    OriginalLooks(before, Level(target), h, bound);
    CopyHolds(after, n1, h, target, r);
  }

  // The handle to the copy, as a value.
  lemma CopyHolds(after: Objects, id: nat, h: nat, target: Option<nat>, r: Value)
    requires id in after && after[id] == Object(r, target, true)
    ensures Below(Handles(Handle(id)), id + 1) && AtMost(after, Level(target), Handles(Handle(id)))
    ensures Cells(Handle(id)) == Cells(Handle(h))
  {
  }

  lemma CopyLooks(heap: Objects, id: nat, r: Value)
    requires id in heap && heap[id].value == r && !r.Handle?
    ensures Normalized(heap, Handle(id), id + 1) == Normalized(heap, r, id)
  {
  }

  lemma OriginalLooks(heap: Objects, level: nat, h: nat, bound: nat)
    requires h in heap && h < bound && Level(heap[h].arena) > level && !heap[h].value.Handle?
    ensures Normalized(heap, Handle(h), bound) == Normalized(heap, heap[h].value, h)
    ensures Copies(heap, level, Handle(h), bound) == Copies(heap, level, heap[h].value, h) + 1
  {
  }

  // What is registered for an atomic.
  function Atomic(initial: Value): Value {
    Composite(Struct("Atomic", ["kind", "value"]), [Plain("atomic"), initial])
  }

  lemma OnePart(v: Value)
    ensures HandlesOfAll([v]) == Handles(v) && CellsOfAll([v]) == Cells(v)
  {
    hide Handles, Cells;
    assert [v][0] == v && [v][1..] == [];
  }

  lemma AtomicHolds(initial: Value)
    ensures Handles(Atomic(initial)) == Handles(initial) && Cells(Atomic(initial)) == Cells(initial)
  {
    var kind := Plain("atomic");
    OnePart(initial);
    assert [kind, initial][0] == kind && [kind, initial][1..] == [initial];
    assert HandlesOfAll([kind, initial]) == Handles(kind) + HandlesOfAll([initial]);
    assert CellsOfAll([kind, initial]) == Cells(kind) + CellsOfAll([initial]);
  }

  // ----- The interpreter's heap -----

  class Memory {
    var objects: Objects
    var nextId: nat
    var arenaStack: seq<nat>
    var currentArena: Option<nat>
    var nextArena: nat
    var promotions: nat

    constructor ()
      ensures Valid() && objects == map[] && nextId == 1 && arenaStack == [] && currentArena == None && promotions == 0
    {
      objects, nextId := map[], 1;
      arenaStack, currentArena, nextArena := [], None, 1;
      promotions := 0;
    }

    ghost predicate Valid()
      reads this
    {
      && Disciplined(objects, nextId)
      && (forall id | id in objects :: Level(objects[id].arena) <= nextArena)
      && (forall a | a in arenaStack :: a < nextArena)
      && (forall i, j | 0 <= i < j < |arenaStack| :: arenaStack[i] < arenaStack[j])
    }

    method HeapRegister(val: Value) returns (id: nat)
      modifies `objects, `nextId
      ensures id == old(nextId) && nextId == id + 1 && objects == old(objects)[id := Object(val, None, true)]
    {
      id := nextId;
      nextId := nextId + 1;
      objects := objects[id := Object(val, None, true)];
    }

    method HeapRegisterInArena(val: Value, arena: nat) returns (id: nat)
      modifies `objects, `nextId
      ensures id == old(nextId) && nextId == id + 1 && objects == old(objects)[id := Object(val, Some(arena), true)]
    {
      id := nextId;
      nextId := nextId + 1;
      objects := objects[id := Object(val, Some(arena), true)];
    }

    /** The arena pushed is newer than every other, and nothing is in it yet. */
    method PushImplicitArena() returns (arena: nat)
      requires Valid()
      modifies this
      ensures Valid() && objects == old(objects) && nextId == old(nextId) && promotions == old(promotions)
      ensures arenaStack == old(arenaStack) + [arena] && currentArena == Some(arena) && nextArena == arena + 1
      ensures forall id | id in objects :: Level(objects[id].arena) < Level(currentArena)
      ensures forall a | a in old(arenaStack) :: a < arena
    {
      hide Disciplined;
      arena := nextArena;
      nextArena := nextArena + 1;
      assert forall i | 0 <= i < |arenaStack| :: arenaStack[i] in arenaStack;
      arenaStack := arenaStack + [arena];
      currentArena := Some(arena);
    }

    /** A new composite goes to the current arena; what it stands for is the value given. */
    method HeapifyComposite(v: Value) returns (r: Value)
      requires Valid() && Below(Handles(v), nextId) && Below(Cells(v), nextId) && Level(currentArena) <= nextArena
      requires AtMost(objects, Level(currentArena), Handles(v))
      modifies `objects, `nextId
      ensures Valid() && forall id | id in old(objects) :: id in objects && objects[id] == old(objects)[id]
      ensures if v.Composite? && (v.shape.Array? || v.shape.Struct? || v.shape.Enum?)
              then r == Handle(old(nextId)) && nextId == old(nextId) + 1
                   && objects == old(objects)[old(nextId) := Object(v, currentArena, true)]
              else r == v && objects == old(objects) && nextId == old(nextId)
      ensures Below(Handles(r), nextId) && AtMost(objects, Level(currentArena), Handles(r))
      ensures Normalized(objects, r, nextId) == Normalized(old(objects), v, old(nextId))
    {
      r := v;
      if v.Composite? && (v.shape.Array? || v.shape.Struct? || v.shape.Enum?) {
        ghost var before, n := objects, nextId;
        var id: nat;
        match currentArena {
          case Some(arena) => id := HeapRegisterInArena(v, arena);
          case None => id := HeapRegister(v);
        }
        r := Handle(id);
        Heapified(before, n, currentArena, v);
      }
    }

    /** A new atomic goes to the current arena; the handle to it is not a strong one. */
    method HeapCreateAtomic(initial: Value) returns (r: Value)
      requires Valid() && Below(Handles(initial), nextId) && Below(Cells(initial), nextId)
        && Level(currentArena) <= nextArena
      requires AtMost(objects, Level(currentArena), Handles(initial))
      modifies `objects, `nextId
      ensures Valid() && r == Cell(old(nextId)) && nextId == old(nextId) + 1
      ensures objects == old(objects)[old(nextId) := Object(Atomic(initial), currentArena, true)]
    {
      ghost var before, n := objects, nextId;
      var v := Atomic(initial);
      var id: nat;
      match currentArena {
        case Some(arena) => id := HeapRegisterInArena(v, arena);
        case None => id := HeapRegister(v);
      }
      r := Cell(id);
      AtomicHolds(initial);
      Heapified(before, n, currentArena, v);
    }

    /** Promotion terminates and does what `Promoted` says, whatever the heap. */
    method PromoteIfEscaping(target: Option<nat>, v: Value, ghost bound: nat) returns (r: Value)
      requires Valid() && Level(target) <= nextArena && bound <= nextId && Below(Handles(v), bound)
      modifies `objects, `nextId, `promotions
      ensures Valid() && Promoted(old(objects), old(nextId), objects, nextId, target, v, r, bound)
      ensures promotions - old(promotions) == nextId - old(nextId)
      decreases bound, v
    {
      hide Promoted, AllPromoted, Normalized, AllNormalized, Copies, AllCopies, Disciplined;
      ghost var before, n := objects, nextId;
      r := v;
      match v {
        case Handle(h) =>
          var inner := None;
          if h in objects && objects[h].arena.Some? {
            var arena := objects[h].arena.value;
            var shouldPromote := match target case None => true case Some(t) => arena != t && arena > t;
            if shouldPromote {
              inner := Some(objects[h].value);
            }
          }
          match inner {
            case Some(value) =>
              ObjectBelow(objects, nextId, h);
              var copy := PromoteIfEscaping(target, value, h);
              PromotedGrows(before, n, objects, nextId, target, value, copy, h);
              ghost var mid, n1 := objects, nextId;
              var id: nat;
              match target {
                case Some(t) => id := HeapRegisterInArena(copy, t);
                case None => id := HeapRegister(copy);
              }
              r := Handle(id);
              promotions := promotions + 1;
              CopyMade(before, n, mid, n1, target, h, copy, bound);
              PromotedGrows(before, n, objects, nextId, target, v, r, bound);
            case None =>
              Untouched(before, n, target, v, bound);
          }
        case Composite(shape, parts) =>
          var out := [];
          NothingPromoted(objects, nextId, target, bound);
          assert parts[..0] == [];
          for k := 0 to |parts|
            invariant Valid() && n <= nextId && AllPromoted(before, n, objects, nextId, target, parts[..k], out, bound)
            invariant promotions - old(promotions) == nextId - n
          {
            HandlesOfPart(parts, k);
            ghost var mid, n1 := objects, nextId;
            var part := PromoteIfEscaping(target, parts[k], bound);
            PromotedGrows(mid, n1, objects, nextId, target, parts[k], part, bound);
            PromoteStep(before, n, mid, n1, objects, nextId, target, parts[..k], out, parts[k], part, bound);
            assert parts[..k + 1] == parts[..k] + [parts[k]];
            out := out + [part];
          }
          assert parts[..|parts|] == parts;
          r := Composite(shape, out);
          PartsPromoted(before, n, objects, nextId, target, shape, parts, out, bound);
        case _ =>
          Untouched(before, n, target, v, bound);
      }
    }
  }

  lemma ObjectBelow(heap: Objects, n: nat, h: nat)
    requires Disciplined(heap, n) && h in heap
    ensures h < n && Below(Handles(heap[h].value), h) && Below(Cells(heap[h].value), n) && !heap[h].value.Handle?
  {
    assert Kept(heap, h);
  }

  lemma PromotedGrows(before: Objects, n: nat, after: Objects, n': nat, target: Option<nat>, v: Value, r: Value,
      bound: nat)
    requires Promoted(before, n, after, n', target, v, r, bound)
    ensures Grown(before, n, after, n', target) && n <= n' && Disciplined(after, n')
  {
  }

  lemma Heapified(before: Objects, n: nat, arena: Option<nat>, v: Value)
    requires Disciplined(before, n) && v.Composite? && Below(Handles(v), n) && Below(Cells(v), n)
      && AtMost(before, Level(arena), Handles(v))
    ensures var after := before[n := Object(v, arena, true)];
      Disciplined(after, n + 1) && Normalized(after, Handle(n), n + 1) == Normalized(before, v, n)
  {
    var after := before[n := Object(v, arena, true)];
    forall id | id in after
      ensures Kept(after, id) && id < n + 1 && Below(Cells(after[id].value), n + 1)
    {
      hide Handles, Cells;
      assert id in before ==> Kept(before, id);
    }
    assert Grown(before, n, after, n + 1, arena);
    GrownAgrees(before, n, after, n + 1, arena);
    NormalizedAgrees(before, after, id => id < n, 0, v, n, n);
    CopyLooks(after, n, v);
  }
}
