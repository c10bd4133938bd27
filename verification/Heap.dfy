/** Run-time values and the object heap they refer into. */
module Heap {
  import opened Names

  // What a composite is, apart from its parts.
  datatype Shape =
    | Array
    | Tuple
    | Struct(name: string, fields: seq<string>)
    | Enum(name: string, variant: string)
    | Optional

  /** A struct's parts follow its field names in whatever order its table is walked; an
      optional has one part or none. Plain stands for everything without parts or handles. */
  datatype Value =
    | Plain(text: string)
    | Handle(id: nat)
    | Cell(id: nat)
    | Weak(id: nat)
    | Unowned(id: nat)
    | Composite(shape: Shape, parts: seq<Value>)

  datatype Object = Object(value: Value, arena: Option<nat>, alive: bool)

  type Objects = map<nat, Object>

  // The strong handles a value holds.
  function Handles(v: Value): set<nat>
    decreases v, 1
  {
    match v
    case Handle(h) => {h}
    case Composite(_, parts) => HandlesOfAll(parts)
    case _ => {}
  }

  function HandlesOfAll(vs: seq<Value>): set<nat>
    decreases vs, 0
  {
    if vs == [] then {} else Handles(vs[0]) + HandlesOfAll(vs[1..])
  }

  lemma {:induction false} HandlesOfPart(vs: seq<Value>, i: nat)
    requires i < |vs|
    ensures Handles(vs[i]) <= HandlesOfAll(vs)
  {
    if i > 0 {
      HandlesOfPart(vs[1..], i - 1);
    }
  }

  // The atomic and mutex cells a value holds.
  function Cells(v: Value): set<nat>
    decreases v, 1
  {
    match v
    case Cell(c) => {c}
    case Composite(_, parts) => CellsOfAll(parts)
    case _ => {}
  }

  function CellsOfAll(vs: seq<Value>): set<nat>
    decreases vs, 0
  {
    if vs == [] then {} else Cells(vs[0]) + CellsOfAll(vs[1..])
  }

  lemma {:induction false} CellsOfPart(vs: seq<Value>, i: nat)
    requires i < |vs|
    ensures Cells(vs[i]) <= CellsOfAll(vs)
  {
    if i > 0 {
      CellsOfPart(vs[1..], i - 1);
    }
  }

  // ----- The same by paths -----

  // The value at a path of part positions.
  function ValueAt(v: Value, path: seq<nat>): Option<Value>
    decreases |path|
  {
    if path == [] then Some(v)
    else if v.Composite? && path[0] < |v.parts| then ValueAt(v.parts[path[0]], path[1..])
    else None
  }

  lemma PartAt(v: Value, k: nat, path: seq<nat>)
    requires v.Composite? && k < |v.parts|
    ensures ValueAt(v, [k] + path) == ValueAt(v.parts[k], path)
  {
    assert ([k] + path)[1..] == path;
  }

  // The path leads to that value.
  ghost predicate IsAt(v: Value, path: seq<nat>, part: Value) {
    ValueAt(v, path) == Some(part)
  }

  lemma OnlyItself(v: Value, part: Value)
    requires !v.Composite?
    ensures (exists path :: IsAt(v, path, part)) <==> v == part
  {
    assert IsAt(v, [], v);
    forall path
      ensures IsAt(v, path, part) ==> v == part
    {
    }
  }

  /** A value holds a handle when some path leads to it, through composites of any shape. */
  lemma {:induction false} HandlesByPaths(v: Value, h: nat)
    ensures h in Handles(v) <==> exists path :: IsAt(v, path, Handle(h))
    decreases v, 1
  {
    match v
    case Composite(_, parts) =>
      HandlesInParts(parts, h);
      if h in Handles(v) {
        var k: nat, path :| k < |parts| && IsAt(parts[k], path, Handle(h));
        PartAt(v, k, path);
        assert IsAt(v, [k] + path, Handle(h));
      }
      if path :| IsAt(v, path, Handle(h)) {
        assert IsAt(parts[path[0]], path[1..], Handle(h));
      }
    case _ =>
      OnlyItself(v, Handle(h));
  }

  lemma {:induction false} HandlesInParts(vs: seq<Value>, h: nat)
    ensures h in HandlesOfAll(vs) <==> exists k: nat, path :: k < |vs| && IsAt(vs[k], path, Handle(h))
    decreases vs, 0
  {
    if vs != [] {
      HandlesByPaths(vs[0], h);
      HandlesInParts(vs[1..], h);
      if k: nat, path :| k < |vs[1..]| && IsAt(vs[1..][k], path, Handle(h)) {
        assert IsAt(vs[k + 1], path, Handle(h));
      }
      if k: nat, path :| k < |vs| && IsAt(vs[k], path, Handle(h)) {
        assert k == 0 || IsAt(vs[1..][k - 1], path, Handle(h));
      }
    }
  }

  /** The same for cells. */
  lemma {:induction false} CellsByPaths(v: Value, c: nat)
    ensures c in Cells(v) <==> exists path :: IsAt(v, path, Cell(c))
    decreases v, 1
  {
    match v
    case Composite(_, parts) =>
      CellsInParts(parts, c);
      if c in Cells(v) {
        var k: nat, path :| k < |parts| && IsAt(parts[k], path, Cell(c));
        PartAt(v, k, path);
        assert IsAt(v, [k] + path, Cell(c));
      }
      if path :| IsAt(v, path, Cell(c)) {
        assert IsAt(parts[path[0]], path[1..], Cell(c));
      }
    case _ =>
      OnlyItself(v, Cell(c));
  }

  lemma {:induction false} CellsInParts(vs: seq<Value>, c: nat)
    ensures c in CellsOfAll(vs) <==> exists k: nat, path :: k < |vs| && IsAt(vs[k], path, Cell(c))
    decreases vs, 0
  {
    if vs != [] {
      CellsByPaths(vs[0], c);
      CellsInParts(vs[1..], c);
      if k: nat, path :| k < |vs[1..]| && IsAt(vs[1..][k], path, Cell(c)) {
        assert IsAt(vs[k + 1], path, Cell(c));
      }
      if k: nat, path :| k < |vs| && IsAt(vs[k], path, Cell(c)) {
        assert k == 0 || IsAt(vs[1..][k - 1], path, Cell(c));
      }
    }
  }
}
