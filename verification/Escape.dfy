/** What promotion is for: a value that leaves its arena must not depend on it. Promotion
    follows strong handles only, so it is safe exactly when every cell the value reaches is
    old enough already. */
module Escape {
  import opened Names
  import opened Heap
  import opened Promotion

  // ----- References -----

  // A value holds a strong handle or a cell.
  ghost predicate Holds(v: Value, x: Value) {
    (x.Handle? && x.id in Handles(v)) || (x.Cell? && x.id in Cells(v))
  }

  function Target(x: Value): nat {
    if x.Handle? || x.Cell? then x.id else 0
  }

  ghost predicate Next(heap: Objects, x: Value, y: Value) {
    Target(x) in heap && Holds(heap[Target(x)].value, y)
  }

  /** The references passed on the way from a value into the heap. */
  ghost predicate Leads(heap: Objects, v: Value, path: seq<Value>) {
    path != [] && Holds(v, path[0]) && forall i | 0 <= i < |path| - 1 :: Next(heap, path[i], path[i + 1])
  }

  function Last(path: seq<Value>): Value
    requires path != []
  {
    path[|path| - 1]
  }

  // What the reference refers to is gone or in an arena no newer than the level.
  ghost predicate AtLevel(heap: Objects, x: Value, level: nat) {
    Target(x) in heap ==> Level(heap[Target(x)].arena) <= level
  }

  /** Nothing the value reaches, along strong handles and cells, is newer than the level. */
  ghost predicate ReachesAtMost(heap: Objects, v: Value, level: nat) {
    forall path | Leads(heap, v, path) :: AtLevel(heap, Last(path), level)
  }

  /** No cell the value reaches is newer than the level. */
  ghost predicate CellsAtMost(heap: Objects, v: Value, level: nat) {
    forall path | Leads(heap, v, path) && Last(path).Cell? :: AtLevel(heap, Last(path), level)
  }

  // Only the last reference may be a cell.
  ghost predicate Strong(path: seq<Value>) {
    forall i | 0 <= i < |path| - 1 :: path[i].Handle?
  }

  lemma LeadsOn(heap: Objects, v: Value, x: Value, path: seq<Value>)
    requires Holds(v, x) && Target(x) in heap && Leads(heap, heap[Target(x)].value, path)
    ensures Leads(heap, v, [x] + path) && Last([x] + path) == Last(path)
  {
    hide Handles, Cells;
  }

  lemma LeadsFrom(heap: Objects, v: Value, path: seq<Value>, j: nat)
    requires Leads(heap, v, path) && j + 1 < |path|
    ensures Target(path[j]) in heap && Leads(heap, heap[Target(path[j])].value, path[j + 1..])
    ensures Last(path[j + 1..]) == Last(path)
  {
    hide Handles, Cells;
    var rest := path[j + 1..];
    assert Next(heap, path[j], path[j + 1]);
    forall i | 0 <= i < |rest| - 1
      ensures Next(heap, rest[i], rest[i + 1])
    {
      assert Next(heap, path[j + 1 + i], path[j + 1 + i + 1]);
    }
  }

  lemma LeadsFront(heap: Objects, v: Value, path: seq<Value>, j: nat)
    requires Leads(heap, v, path) && j < |path|
    ensures Leads(heap, v, path[..j + 1]) && Last(path[..j + 1]) == path[j]
  {
    hide Next, Holds;
    var front := path[..j + 1];
    forall i | 0 <= i < |front| - 1
      ensures Next(heap, front[i], front[i + 1])
    {
      assert Next(heap, path[i], path[i + 1]);
    }
  }

  // One way after another, where the first ends in the cell the second starts from.
  lemma LeadsThrough(heap: Objects, v: Value, front: seq<Value>, path: seq<Value>, c: nat)
    requires Leads(heap, v, front) && Last(front) == Cell(c) && Leads(heap, Cell(c), path)
    ensures Leads(heap, v, front + path[1..]) && Last(front + path[1..]) == Last(path)
  {
    hide Next;
    assert path[0] == Cell(c);
    var all := front + path[1..];
    forall i | 0 <= i < |all| - 1
      ensures Next(heap, all[i], all[i + 1])
    {
      if i < |front| - 1 {
        assert Next(heap, front[i], front[i + 1]);
      } else {
        var k := i - (|front| - 1);
        assert all[i] == path[k] && Next(heap, path[k], path[k + 1]);
      }
    }
  }

  // ----- Cells show through normalization -----

  lemma {:induction false} PartHolds(parts: seq<Value>, x: Value) returns (i: nat)
    requires (x.Handle? && x.id in HandlesOfAll(parts)) || (x.Cell? && x.id in CellsOfAll(parts))
    ensures i < |parts| && Holds(parts[i], x)
  {
    hide Handles, Cells;
    if Holds(parts[0], x) {
      i := 0;
    } else {
      i := PartHolds(parts[1..], x);
      i := i + 1;
    }
  }

  lemma HoldsPart(shape: Shape, parts: seq<Value>, i: nat, x: Value)
    requires i < |parts| && Holds(parts[i], x)
    ensures Holds(Composite(shape, parts), x)
  {
    HandlesOfPart(parts, i);
    CellsOfPart(parts, i);
  }

  lemma {:induction false} PartNormalized(heap: Objects, parts: seq<Value>, bound: nat, i: nat)
    requires i < |parts|
    ensures |AllNormalized(heap, parts, bound)| == |parts|
    ensures AllNormalized(heap, parts, bound)[i] == Normalized(heap, parts[i], bound)
  {
    hide Normalized;
    if |parts| > 1 {
      PartNormalized(heap, parts[1..], bound, if i == 0 then 0 else i - 1);
    }
  }

  lemma {:induction false} NormalizedLength(heap: Objects, parts: seq<Value>, bound: nat)
    ensures |AllNormalized(heap, parts, bound)| == |parts|
  {
    hide Normalized;
    if parts != [] {
      NormalizedLength(heap, parts[1..], bound);
    }
  }

  // A cell of the normal form is reached along strong handles.
  lemma {:induction false} CellIsReached(heap: Objects, n: nat, v: Value, bound: nat, c: nat) returns (path: seq<Value>)
    requires Disciplined(heap, n) && Below(Handles(v), bound) && c in Cells(Normalized(heap, v, bound))
    ensures Leads(heap, v, path) && Strong(path) && Last(path) == Cell(c)
    decreases bound, v
  {
    hide Disciplined;
    match v {
      case Cell(_) => path := [v];
      case Handle(h) =>
        ObjectBelow(heap, n, h) by { ObjectThere(heap, n, h, bound, c); }
        var rest := CellIsReached(heap, n, heap[h].value, h, c);
        LeadsOn(heap, v, v, rest);
        path := [v] + rest;
      case Composite(shape, parts) =>
        NormalizedLength(heap, parts, bound);
        var i := PartHolds(AllNormalized(heap, parts, bound), Cell(c));
        PartNormalized(heap, parts, bound, i);
        HandlesOfPart(parts, i);
        path := CellIsReached(heap, n, parts[i], bound, c);
        HoldsPart(shape, parts, i, path[0]);
    }
  }

  lemma ObjectThere(heap: Objects, n: nat, h: nat, bound: nat, c: nat)
    requires Disciplined(heap, n) && c in Cells(Normalized(heap, Handle(h), bound))
    ensures h in heap
  {
  }

  // A cell reached along strong handles is in the normal form.
  lemma {:induction false} ReachedIsCell(heap: Objects, n: nat, v: Value, bound: nat, path: seq<Value>)
    requires Disciplined(heap, n) && Below(Handles(v), bound) && Leads(heap, v, path) && Strong(path)
      && Last(path).Cell?
    ensures Last(path).id in Cells(Normalized(heap, v, bound))
    decreases |path|, v
  {
    hide Disciplined;
    match v {
      case Handle(h) =>
        assert path[0] == v;
        LeadsFrom(heap, v, path, 0);
        ObjectBelow(heap, n, h);
        ReachedIsCell(heap, n, heap[h].value, h, path[1..]);
      case Composite(shape, parts) =>
        var i := PartHolds(parts, path[0]);
        HandlesOfPart(parts, i);
        ReachedIsCell(heap, n, parts[i], bound, path);
        PartNormalized(heap, parts, bound, i);
        CellsOfPart(AllNormalized(heap, parts, bound), i);
      case _ =>
    }
  }

  // ----- Promotion reaches the same cells -----

  lemma FirstCell(path: seq<Value>) returns (j: nat)
    requires path != [] && Last(path).Cell?
    ensures j < |path| && path[j].Cell? && forall i | 0 <= i < j :: !path[i].Cell?
  {
    j := 0;
    while !path[j].Cell?
      invariant j < |path| && forall i | 0 <= i < j :: !path[i].Cell?
      decreases |path| - j
    {
      j := j + 1;
    }
  }

  lemma LeadsHolds(heap: Objects, v: Value, path: seq<Value>)
    requires Leads(heap, v, path)
    ensures forall i | 0 <= i < |path| :: path[i].Handle? || path[i].Cell?
  {
    hide Handles, Cells;
    forall i | 0 < i < |path|
      ensures path[i].Handle? || path[i].Cell?
    {
      assert Next(heap, path[i - 1], path[i - 1 + 1]);
    }
  }

  // The way to the first cell.
  lemma ToFirstCell(heap: Objects, n: nat, v: Value, bound: nat, path: seq<Value>) returns (j: nat)
    requires Disciplined(heap, n) && Below(Handles(v), bound) && Leads(heap, v, path) && Last(path).Cell?
    ensures j < |path| && path[j].Cell? && path[j].id in Cells(Normalized(heap, v, bound))
  {
    j := FirstCell(path);
    LeadsHolds(heap, v, path);
    var front := path[..j + 1];
    hide Handles, Cells, Disciplined, Normalized;
    LeadsFront(heap, v, path, j);
    ReachedIsCell(heap, n, v, bound, front);
  }

  // Among the first n ids the second heap has all that the first has, and nothing leads out.
  ghost predicate Contained(heap: Objects, heap': Objects, n: nat) {
    forall id | id in heap && id < n ::
      id in heap' && heap'[id] == heap[id] && Below(Handles(heap[id].value), n) && Below(Cells(heap[id].value), n)
  }

  lemma {:induction false} LeadsThere(heap: Objects, heap': Objects, n: nat, v: Value, path: seq<Value>)
    requires Contained(heap, heap', n) && Leads(heap, v, path) && Below(Handles(v), n) && Below(Cells(v), n)
    ensures Leads(heap', v, path)
    decreases |path|
  {
    hide Handles, Cells;
    if |path| > 1 {
      LeadsFrom(heap, v, path, 0);
      var x := path[0];
      LeadsThere(heap, heap', n, heap[Target(x)].value, path[1..]);
      LeadsOn(heap', v, x, path[1..]);
      assert [x] + path[1..] == path;
    }
  }

  /** Values with the same normal form reach the same cells. */
  lemma CellsCarried(heap: Objects, n: nat, v: Value, bound: nat, heap': Objects, n': nat, v': Value, bound': nat,
      low: nat, path: seq<Value>)
    returns (path': seq<Value>)
    requires Disciplined(heap, n) && Disciplined(heap', n') && Below(Handles(v), bound) && Below(Handles(v'), bound')
    requires Normalized(heap, v, bound) == Normalized(heap', v', bound')
      && Below(Cells(Normalized(heap, v, bound)), low)
    requires Contained(heap, heap', low) && Leads(heap, v, path) && Last(path).Cell?
    ensures Leads(heap', v', path') && Last(path') == Last(path)
  {
    hide Handles, Cells, Disciplined, Normalized;
    var j := ToFirstCell(heap, n, v, bound, path);
    var c := path[j].id;
    path' := CellIsReached(heap', n', v', bound', c);
    if j + 1 < |path| {
      LeadsFrom(heap, v, path, j);
      var rest := path[j + 1..];
      LeadsThere(heap, heap', low, heap[c].value, rest);
      LeadsOn(heap', Cell(c), Cell(c), rest) by { CellHolds(c); }
      LeadsThrough(heap', v', path', [Cell(c)] + rest, c);
      path' := path' + ([Cell(c)] + rest)[1..];
    }
  }

  lemma CellHolds(c: nat)
    ensures Holds(Cell(c), Cell(c))
  {
  }

  // What a promotion's two sides have in common.
  lemma PromotedSides(before: Objects, n: nat, after: Objects, n': nat, target: Option<nat>, v: Value, r: Value,
      bound: nat)
    requires Disciplined(before, n) && bound <= n && Below(Handles(v), bound) && Below(Cells(v), n)
    requires Promoted(before, n, after, n', target, v, r, bound)
    ensures Disciplined(after, n') && Below(Handles(r), n') && Contained(before, after, n)
      && Contained(after, before, n)
    ensures Normalized(after, r, n') == Normalized(before, v, bound) && Below(Cells(Normalized(before, v, bound)), n)
  {
    hide Normalized, Copies, Handles, Cells;
    assert forall id | id in before :: Kept(before, id);
    forall c | c in Cells(Normalized(before, v, bound))
      ensures c < n
    {
      var path := CellIsReached(before, n, v, bound, c);
      if |path| > 1 {
        assert Next(before, path[|path| - 2], path[|path| - 2 + 1]);
      }
    }
  }

  /** Along strong handles alone nothing newer is reached than what is reached at once. */
  lemma {:induction false} NothingNewerReached(heap: Objects, n: nat, level: nat, v: Value, path: seq<Value>)
    requires Disciplined(heap, n) && AtMost(heap, level, Handles(v)) && Leads(heap, v, path) && Last(path).Handle?
      && Strong(path)
    ensures AtLevel(heap, Last(path), level)
    decreases |path|
  {
    hide Handles, Cells;
    if |path| > 1 {
      LeadsFrom(heap, v, path, 0);
      assert Kept(heap, path[0].id);
      NothingNewerReached(heap, n, level, heap[path[0].id].value, path[1..]);
    }
  }

  /** Promotion is safe, nothing it hands on reaches an arena newer than the target, if and
      only if no cell the value reached before the call was in one. */
  lemma SafeExactly(before: Objects, n: nat, after: Objects, n': nat, target: Option<nat>, v: Value, r: Value,
      bound: nat)
    requires Disciplined(before, n) && bound <= n && Below(Handles(v), bound) && Below(Cells(v), n)
    requires Promoted(before, n, after, n', target, v, r, bound)
    ensures ReachesAtMost(after, r, Level(target)) <==> CellsAtMost(before, v, Level(target))
  {
    var level := Level(target);
    PromotedSides(before, n, after, n', target, v, r, bound);
    assert AtMost(after, level, Handles(r));
    hide Promoted, Disciplined, Normalized, Handles, Cells;
    if ReachesAtMost(after, r, level) {
      forall path | Leads(before, v, path) && Last(path).Cell?
        ensures AtLevel(before, Last(path), level)
      {
        var path' := CellsCarried(before, n, v, bound, after, n', r, n', n, path);
        CellBelow(before, n, v, path);
      }
    }
    if CellsAtMost(before, v, level) {
      forall path | Leads(after, r, path)
        ensures AtLevel(after, Last(path), level)
      {
        ReachedAtMost(before, n, after, n', v, r, bound, level, path);
      }
    }
  }

  // A cell reached has been made.
  lemma CellBelow(heap: Objects, n: nat, v: Value, path: seq<Value>)
    requires Disciplined(heap, n) && Below(Cells(v), n) && Leads(heap, v, path) && Last(path).Cell?
    ensures Last(path).id < n
  {
    hide Handles, Cells;
    if |path| > 1 {
      assert Next(heap, path[|path| - 2], path[|path| - 2 + 1]);
    }
  }

  // The last cell on the way is one reached before; from there on there are only handles.
  lemma ReachedAtMost(before: Objects, n: nat, after: Objects, n': nat, v: Value, r: Value, bound: nat, level: nat,
      path: seq<Value>)
    requires Disciplined(before, n) && Disciplined(after, n') && Below(Handles(v), bound) && Below(Handles(r), n')
      && Below(Cells(v), n)
    requires Contained(before, after, n) && Contained(after, before, n) && AtMost(after, level, Handles(r))
    requires Normalized(after, r, n') == Normalized(before, v, bound) && Below(Cells(Normalized(before, v, bound)), n)
    requires CellsAtMost(before, v, level) && Leads(after, r, path)
    ensures AtLevel(after, Last(path), level)
  {
    hide Handles, Cells, Disciplined, Normalized;
    LeadsHolds(after, r, path);
    var j := LastCell(path);
    if j == |path| {
      NothingNewerReached(after, n', level, r, path);
    } else {
      var front := path[..j + 1];
      LeadsFront(after, r, path, j);
      var way := CellsCarried(after, n', r, n', before, n, v, bound, n, front);
      assert AtLevel(before, Last(way), level);
      CellBelow(before, n, v, way);
      var c := path[j].id;
      if j + 1 < |path| {
        LeadsFrom(after, r, path, j);
        assert AtMost(after, level, Handles(after[c].value)) by { KeptAtMost(after, n', c, level); }
        NothingNewerReached(after, n', level, after[c].value, path[j + 1..]);
      }
    }
  }

  lemma KeptAtMost(heap: Objects, n: nat, c: nat, level: nat)
    requires Disciplined(heap, n) && c in heap && Level(heap[c].arena) <= level
    ensures AtMost(heap, level, Handles(heap[c].value))
  {
    assert Kept(heap, c);
  }

  lemma LastCell(path: seq<Value>) returns (j: nat)
    requires path != []
    ensures j < |path| ==> path[j].Cell?
    ensures j <= |path| && forall i | j < i < |path| :: !path[i].Cell?
    ensures j == |path| ==> forall i | 0 <= i < |path| :: !path[i].Cell?
  {
    j := |path|;
    var k := 0;
    while k < |path|
      invariant k <= |path| && (j == |path| || j < k)
      invariant j < |path| ==> path[j].Cell? && forall i | j < i < k :: !path[i].Cell?
      invariant j == |path| ==> forall i | 0 <= i < k :: !path[i].Cell?
    {
      if path[k].Cell? {
        j := k;
      }
      k := k + 1;
    }
  }

  // ----- After the arena is gone -----

  /** What can be seen of a value: handles replaced by what they stand for, cells opened to
      some depth. */
  datatype View = Leaf(value: Value) | Node(shape: Shape, parts: seq<View>) | Open(cell: nat, contents: View)

  function Opened(heap: Objects, v: Value, depth: nat): View
    decreases depth, v, 1
  {
    match v
    case Cell(c) =>
      if c in heap && depth > 0 then Open(c, Opened(heap, Normalized(heap, heap[c].value, c), depth - 1)) else Leaf(v)
    case Composite(shape, parts) => Node(shape, AllOpened(heap, parts, depth))
    case _ => Leaf(v)
  }

  function AllOpened(heap: Objects, vs: seq<Value>, depth: nat): seq<View>
    decreases depth, vs, 0
  {
    if vs == [] then [] else [Opened(heap, vs[0], depth)] + AllOpened(heap, vs[1..], depth)
  }

  /** Values that look the same, in whatever heaps, are the same. */
  lemma {:induction false} ViewsTellApart(heap: Objects, heap': Objects, v: Value, w: Value, depth: nat)
    requires Opened(heap, v, depth) == Opened(heap', w, depth)
    ensures v == w
    decreases v, 1
  {
    match v
    case Composite(_, parts) =>
      if w.Composite? {
        AllViewsTellApart(heap, heap', parts, w.parts, depth);
      }
    case _ =>
  }

  lemma {:induction false} AllViewsTellApart(heap: Objects, heap': Objects, vs: seq<Value>, ws: seq<Value>, depth: nat)
    requires AllOpened(heap, vs, depth) == AllOpened(heap', ws, depth)
    ensures vs == ws
    decreases vs, 0
  {
    hide Opened;
    if vs != [] && ws != [] {
      var a, b := AllOpened(heap, vs, depth), AllOpened(heap', ws, depth);
      assert a[0] == Opened(heap, vs[0], depth) && a[1..] == AllOpened(heap, vs[1..], depth);
      assert b[0] == Opened(heap', ws[0], depth) && b[1..] == AllOpened(heap', ws[1..], depth);
      ViewsTellApart(heap, heap', vs[0], ws[0], depth);
      AllViewsTellApart(heap, heap', vs[1..], ws[1..], depth);
      assert vs == [vs[0]] + vs[1..] && ws == [ws[0]] + ws[1..];
    }
  }

  function Observed(heap: Objects, v: Value, bound: nat, depth: nat): View {
    Opened(heap, Normalized(heap, v, bound), depth)
  }

  /** Objects newer than the level may be gone, nothing else is. */
  ghost predicate Dropped(after: Objects, dropped: Objects, level: nat) {
    && (forall id | id in dropped :: id in after && dropped[id] == after[id])
    && (forall id | id in after && id !in dropped :: Level(after[id].arena) > level)
  }

  lemma DroppedAgrees(heap: Objects, n: nat, dropped: Objects, level: nat, v: Value, bound: nat)
    requires Disciplined(heap, n) && Dropped(heap, dropped, level) && Below(Handles(v), bound)
      && AtMost(heap, level, Handles(v))
    ensures Normalized(dropped, v, bound) == Normalized(heap, v, bound)
  {
    var keep := (id: nat) => id !in heap || Level(heap[id].arena) <= level;
    assert Agree(heap, dropped, keep) by {
      hide Handles, Cells, Normalized;
      forall id | keep(id) && id in heap
        ensures Below(Handles(heap[id].value), id) && forall h | h in Handles(heap[id].value) :: keep(h)
      {
        assert Kept(heap, id);
      }
    }
    NormalizedAgrees(heap, dropped, keep, 0, v, bound, bound);
  }

  // All cells reached from these are old enough.
  ghost predicate Settled(heap: Objects, cells: set<nat>, level: nat) {
    forall c | c in cells :: CellsAtMost(heap, Cell(c), level)
  }

  lemma SettledNormal(heap: Objects, n: nat, v: Value, bound: nat, level: nat)
    requires Disciplined(heap, n) && Below(Handles(v), bound) && CellsAtMost(heap, v, level)
    ensures Settled(heap, Cells(Normalized(heap, v, bound)), level)
  {
    hide Handles, Cells, Disciplined, Normalized, Next, AtLevel;
    forall c, path | c in Cells(Normalized(heap, v, bound)) && Leads(heap, Cell(c), path) && Last(path).Cell?
      ensures AtLevel(heap, Last(path), level)
    {
      var front := CellIsReached(heap, n, v, bound, c);
      LeadsThrough(heap, v, front, path, c);
    }
  }

  // The same from inside a cell.
  lemma SettledInside(heap: Objects, c: nat, level: nat)
    requires CellsAtMost(heap, Cell(c), level) && c in heap
    ensures Level(heap[c].arena) <= level && CellsAtMost(heap, heap[c].value, level)
  {
    hide Handles;
    CellHolds(c);
    assert Leads(heap, Cell(c), [Cell(c)]) && Last([Cell(c)]) == Cell(c);
    forall path | Leads(heap, heap[c].value, path) && Last(path).Cell?
      ensures AtLevel(heap, Last(path), level)
    {
      LeadsOn(heap, Cell(c), Cell(c), path);
    }
  }

  lemma {:induction false} ViewSurvives(heap: Objects, n: nat, dropped: Objects, v: Value, level: nat, depth: nat)
    requires Disciplined(heap, n) && Dropped(heap, dropped, level) && Settled(heap, Cells(v), level)
    ensures Opened(dropped, v, depth) == Opened(heap, v, depth)
    decreases depth, v, 1
  {
    hide Disciplined, Normalized, CellsAtMost;
    match v
    case Cell(c) =>
      if c in heap && depth > 0 {
        SettledInside(heap, c, level);
        var inside := heap[c].value;
        KeptAtMost(heap, n, c, level);
        ObjectBelow(heap, n, c);
        DroppedAgrees(heap, n, dropped, level, inside, c);
        SettledNormal(heap, n, inside, c, level);
        ViewSurvives(heap, n, dropped, Normalized(heap, inside, c), level, depth - 1);
      }
    case Composite(_, parts) => ViewsSurvive(heap, n, dropped, parts, level, depth);
    case _ =>
  }

  lemma {:induction false} ViewsSurvive(heap: Objects, n: nat, dropped: Objects, vs: seq<Value>, level: nat, depth: nat)
    requires Disciplined(heap, n) && Dropped(heap, dropped, level) && Settled(heap, CellsOfAll(vs), level)
    ensures AllOpened(dropped, vs, depth) == AllOpened(heap, vs, depth)
    decreases depth, vs, 0
  {
    hide Disciplined, Dropped, CellsAtMost, Opened;
    if vs != [] {
      ViewSurvives(heap, n, dropped, vs[0], level, depth);
      ViewsSurvive(heap, n, dropped, vs[1..], level, depth);
    }
  }

  // Seen alike as a whole, each cell is seen alike.
  lemma {:induction false} CellsShow(heap: Objects, heap': Objects, v: Value, depth: nat, c: nat)
    requires Opened(heap, v, depth) == Opened(heap', v, depth) && c in Cells(v)
    ensures Opened(heap, Cell(c), depth) == Opened(heap', Cell(c), depth)
    decreases v, 1
  {
    if v.Composite? {
      AllCellsShow(heap, heap', v.parts, depth, c);
    }
  }

  lemma {:induction false} AllCellsShow(heap: Objects, heap': Objects, vs: seq<Value>, depth: nat, c: nat)
    requires AllOpened(heap, vs, depth) == AllOpened(heap', vs, depth) && c in CellsOfAll(vs)
    ensures Opened(heap, Cell(c), depth) == Opened(heap', Cell(c), depth)
    decreases vs, 0
  {
    hide Opened;
    assert AllOpened(heap, vs, depth)[0] == AllOpened(heap', vs, depth)[0];
    assert AllOpened(heap, vs, depth)[1..] == AllOpened(heap', vs, depth)[1..];
    if c in Cells(vs[0]) {
      CellsShow(heap, heap', vs[0], depth, c);
    } else {
      AllCellsShow(heap, heap', vs[1..], depth, c);
    }
  }

  // The heap without everything newer.
  function Older(heap: Objects, level: nat): Objects {
    map id | id in heap && Level(heap[id].arena) <= level :: heap[id]
  }

  // A view that survives to every depth had no newer cell on any way.
  lemma {:induction false} NewerCellShows(heap: Objects, n: nat, level: nat, v: Value, bound: nat, path: seq<Value>)
    requires Disciplined(heap, n) && Below(Handles(v), bound) && Leads(heap, v, path) && Last(path).Cell?
    requires forall depth: nat :: var w := Normalized(heap, v, bound);
      Opened(Older(heap, level), w, depth) == Opened(heap, w, depth)
    ensures AtLevel(heap, Last(path), level)
    decreases |path|
  {
    hide Disciplined, Normalized, Cells, Handles, Holds;
    var old', w := Older(heap, level), Normalized(heap, v, bound);
    var j := ToFirstCell(heap, n, v, bound, path);
    var c := path[j].id;
    forall depth: nat
      ensures Opened(old', Cell(c), depth) == Opened(heap, Cell(c), depth)
    {
      CellsShow(old', heap, w, depth, c);
    }
    assert Opened(old', Cell(c), 1) == Opened(heap, Cell(c), 1);
    if j + 1 < |path| {
      LeadsFrom(heap, v, path, j);
      KeptAtMost(heap, n, c, level);
      ObjectBelow(heap, n, c);
      var inside := heap[c].value;
      DroppedAgrees(heap, n, old', level, inside, c);
      forall depth: nat
        ensures var x := Normalized(heap, inside, c); Opened(old', x, depth) == Opened(heap, x, depth)
      {
        assert Opened(old', Cell(c), depth + 1) == Opened(heap, Cell(c), depth + 1);
      }
      NewerCellShows(heap, n, level, inside, c, path[j + 1..]);
    }
  }

  /** What was promoted looks the same to every depth, whichever newer objects are dropped
      afterwards, if and only if no cell the value reached before the call was newer than the
      target. */
  lemma SurvivesDropExactly(before: Objects, n: nat, after: Objects, n': nat, target: Option<nat>, v: Value, r: Value,
      bound: nat)
    requires Disciplined(before, n) && bound <= n && Below(Handles(v), bound) && Below(Cells(v), n)
    requires Promoted(before, n, after, n', target, v, r, bound)
    ensures (forall dropped, depth: nat | Dropped(after, dropped, Level(target)) ::
               Observed(dropped, r, n', depth) == Observed(before, v, bound, depth))
            <==> CellsAtMost(before, v, Level(target))
  {
    var level := Level(target);
    PromotedSides(before, n, after, n', target, v, r, bound);
    assert AtMost(after, level, Handles(r));
    hide Promoted, Disciplined, Normalized, Handles, Cells, Leads, AtLevel, Opened;
    var w := Normalized(before, v, bound);
    if CellsAtMost(before, v, level) {
      forall dropped, depth: nat | Dropped(after, dropped, level)
        ensures Observed(dropped, r, n', depth) == Observed(before, v, bound, depth)
      {
        DroppedAgrees(after, n', dropped, level, r, n');
        PromotedCells(before, n, after, n', target, v, r, bound);
        SettledNormal(after, n', r, n', level);
        ViewSurvives(after, n', dropped, w, level, depth);
        ViewKept(before, n, after, n', w, depth);
      }
    }
    if forall dropped, depth: nat | Dropped(after, dropped, level) ::
      Observed(dropped, r, n', depth) == Observed(before, v, bound, depth) {
      OlderShows(before, n, after, n', v, r, bound, level);
    }
  }

  lemma OlderShows(before: Objects, n: nat, after: Objects, n': nat, v: Value, r: Value, bound: nat, level: nat)
    requires Disciplined(before, n) && Disciplined(after, n') && Contained(before, after, n)
      && Contained(after, before, n)
    requires Below(Handles(v), bound) && Below(Cells(v), n) && Below(Handles(r), n') && AtMost(after, level, Handles(r))
    requires Normalized(after, r, n') == Normalized(before, v, bound) && Below(Cells(Normalized(before, v, bound)), n)
    requires forall depth: nat :: Observed(Older(after, level), r, n', depth) == Observed(before, v, bound, depth)
    ensures CellsAtMost(before, v, level)
  {
    hide Disciplined, Normalized, Handles, Cells, Next, Opened;
    var w, dropped := Normalized(before, v, bound), Older(after, level);
    DroppedAgrees(after, n', dropped, level, r, n');
    forall depth: nat
      ensures Opened(dropped, w, depth) == Opened(after, w, depth)
    {
      assert Observed(dropped, r, n', depth) == Observed(before, v, bound, depth);
      ViewKept(before, n, after, n', w, depth);
    }
    forall path | Leads(before, v, path) && Last(path).Cell?
      ensures AtLevel(before, Last(path), level)
    {
      var path' := CellsCarried(before, n, v, bound, after, n', r, n', n, path);
      NewerCellShows(after, n', level, r, n', path');
      CellBelow(before, n, v, path);
      AtLevelKept(before, after, n, Last(path), level);
    }
  }

  lemma AtLevelKept(before: Objects, after: Objects, n: nat, x: Value, level: nat)
    requires Contained(before, after, n) && x.Cell? && x.id < n && AtLevel(after, x, level)
    ensures AtLevel(before, x, level)
  {
  }

  // Promotion leaves the cells reached as they were.
  lemma PromotedCells(before: Objects, n: nat, after: Objects, n': nat, target: Option<nat>, v: Value, r: Value,
      bound: nat)
    requires Disciplined(before, n) && bound <= n && Below(Handles(v), bound) && Below(Cells(v), n)
    requires Promoted(before, n, after, n', target, v, r, bound) && CellsAtMost(before, v, Level(target))
    ensures CellsAtMost(after, r, Level(target))
  {
    SafeExactly(before, n, after, n', target, v, r, bound);
    hide Promoted, Disciplined, Leads, AtLevel;
  }

  // Growing the heap changes no view of what was there.
  lemma {:induction false} ViewKept(before: Objects, n: nat, after: Objects, n': nat, w: Value, depth: nat)
    requires Disciplined(before, n) && Contained(before, after, n) && Contained(after, before, n) && Below(Cells(w), n)
    ensures Opened(after, w, depth) == Opened(before, w, depth)
    decreases depth, w, 1
  {
    hide Disciplined, Normalized, Handles;
    match w
    case Cell(c) =>
      if c in before && depth > 0 {
        var inside := before[c].value;
        ObjectBelow(before, n, c);
        ContainedAgree(before, n, after, inside, c);
        NormalBelow(before, n, inside, c);
        ViewKept(before, n, after, n', Normalized(before, inside, c), depth - 1);
      }
    case Composite(_, parts) => ViewsKept(before, n, after, n', parts, depth);
    case _ =>
  }

  lemma {:induction false} ViewsKept(before: Objects, n: nat, after: Objects, n': nat, ws: seq<Value>, depth: nat)
    requires Disciplined(before, n) && Contained(before, after, n) && Contained(after, before, n)
      && Below(CellsOfAll(ws), n)
    ensures AllOpened(after, ws, depth) == AllOpened(before, ws, depth)
    decreases depth, ws, 0
  {
    hide Disciplined, Contained, Opened;
    if ws != [] {
      ViewKept(before, n, after, n', ws[0], depth);
      ViewsKept(before, n, after, n', ws[1..], depth);
    }
  }

  lemma ContainedAgree(before: Objects, n: nat, after: Objects, v: Value, bound: nat)
    requires Disciplined(before, n) && Contained(before, after, n) && Contained(after, before, n)
    requires Below(Handles(v), bound) && bound <= n
    ensures Normalized(after, v, bound) == Normalized(before, v, bound)
  {
    var keep := (id: nat) => id < n;
    assert Agree(before, after, keep) by {
      hide Handles, Cells, Normalized;
      forall id | id < n && id in before
        ensures Below(Handles(before[id].value), id)
      {
        assert Kept(before, id);
      }
    }
    NormalizedAgrees(before, after, keep, 0, v, bound, bound);
  }

  lemma NormalBelow(heap: Objects, n: nat, v: Value, bound: nat)
    requires Disciplined(heap, n) && Below(Handles(v), bound) && Below(Cells(v), n)
    ensures Below(Cells(Normalized(heap, v, bound)), n)
  {
    hide Normalized, Handles, Cells, Disciplined;
    forall c | c in Cells(Normalized(heap, v, bound))
      ensures c < n
    {
      var path := CellIsReached(heap, n, v, bound, c);
      CellBelow(heap, n, v, path);
    }
  }

  // The heap with one atomic, made in arena 5.
  function OneAtomic(): Objects {
    map[1 := Object(Atomic(Plain("0")), Some(5), true)]
  }

  lemma OneAtomicIsDisciplined()
    ensures Disciplined(OneAtomic(), 2)
  {
    AtomicHolds(Plain("0"));
    hide Atomic;
    assert forall id | id in OneAtomic() :: Kept(OneAtomic(), id);
  }

  lemma CellStandsForItself(heap: Objects, c: nat, bound: nat)
    ensures Normalized(heap, Cell(c), bound) == Cell(c)
    ensures Observed(heap, Cell(c), bound, 1).Open? <==> c in heap
  {
  }

  /** The handle of that atomic is handed on to a caller without an arena: promotion leaves
      it as it is, the newer cell is still reached, and once arena 5 is gone so is what could
      be seen. */
  lemma NewerCellEscapes()
    ensures Promoted(OneAtomic(), 2, OneAtomic(), 2, None, Cell(1), Cell(1), 2)
    ensures !ReachesAtMost(OneAtomic(), Cell(1), Level(None)) && Dropped(OneAtomic(), map[], Level(None))
    ensures Observed(map[], Cell(1), 2, 1) != Observed(OneAtomic(), Cell(1), 2, 1)
  {
    hide Disciplined, Normalized, Observed, Promoted;
    OneAtomicIsDisciplined();
    Untouched(OneAtomic(), 2, None, Cell(1), 2);
    CellHolds(1);
    assert Leads(OneAtomic(), Cell(1), [Cell(1)]) && !AtLevel(OneAtomic(), Last([Cell(1)]), 0);
    CellStandsForItself(OneAtomic(), 1, 2);
    CellStandsForItself(map[], 1, 2);
  }
}
