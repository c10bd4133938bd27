/** The phi-insertion pass: splits the code into blocks, and gives a block whose
    predecessors end on different temporaries a phi of its own. */
module PhiInsertion {
  import opened Names
  import opened Ir
  import opened Ssa
  import LowerFn

  // ----- Blocks -----

  datatype Block = Block(name: string, code: seq<Instr>)

  // `cur` is what the open block called `name` holds so far.
  function Split(code: seq<Instr>, name: string, cur: seq<Instr>): (r: seq<Block>)
    ensures r != []
  {
    if code == [] then [Block(name, cur)]
    else if code[0].Label? then [Block(name, cur)] + Split(code[1..], code[0].name, [code[0]])
    else Split(code[1..], name, cur + [code[0]])
  }

  function Blocks(code: seq<Instr>): seq<Block> {
    Split(code, "entry", [])
  }

  function Flatten(blocks: seq<Block>): seq<Instr> {
    if blocks == [] then [] else blocks[0].code + Flatten(blocks[1..])
  }

  /** Splitting loses nothing. */
  lemma {:induction false} FlattenSplit(code: seq<Instr>, name: string, cur: seq<Instr>)
    ensures Flatten(Split(code, name, cur)) == cur + code
  {
    if code == [] {
      assert [Block(name, cur)][1..] == [];
    } else if code[0].Label? {
      FlattenSplit(code[1..], code[0].name, [code[0]]);
      var rest := Split(code[1..], code[0].name, [code[0]]);
      assert ([Block(name, cur)] + rest)[1..] == rest;
      assert code == [code[0]] + code[1..];
    } else {
      FlattenSplit(code[1..], name, cur + [code[0]]);
      assert cur + [code[0]] + code[1..] == cur + code;
    }
  }

  // ----- Predecessors -----

  function Successors(b: Block): seq<string> {
    if b.code == [] then []
    else
      match b.code[|b.code| - 1]
      case Br(t) => [t]
      case BrCond(_, t, f) => [t, f]
      case _ => []
  }

  // The last block of that name.
  function IndexOf(blocks: seq<Block>, name: string): (r: Option<nat>)
    ensures r.Some? ==> r.value < |blocks|
  {
    if blocks == [] then None
    else if blocks[|blocks| - 1].name == name then Some(|blocks| - 1)
    else IndexOf(blocks[..|blocks| - 1], name)
  }

  // One mention of `from` for each target that is block i.
  function Arrivals(blocks: seq<Block>, targets: seq<string>, from: string, i: nat): seq<string> {
    if targets == [] then []
    else
      Arrivals(blocks, targets[..|targets| - 1], from, i)
      + (if IndexOf(blocks, targets[|targets| - 1]) == Some(i) then [from] else [])
  }

  // The predecessors of block i among the first k blocks.
  function Preds(blocks: seq<Block>, k: nat, i: nat): seq<string>
    requires k <= |blocks|
  {
    if k == 0 then []
    else Preds(blocks, k - 1, i) + Arrivals(blocks, Successors(blocks[k - 1]), blocks[k - 1].name, i)
  }

  // ----- Phis -----

  // The last of the function's own temporaries that a block defines.
  function LastDef(fname: string, code: seq<Instr>): Option<string> {
    if code == [] then None
    else
      var d := Collected(code[|code| - 1]);
      if d.Some? && IsCandidate(fname, d.value) then d else LastDef(fname, code[..|code| - 1])
  }

  function IncomingOf(fname: string, names: seq<Block>, blocks: seq<Block>, preds: seq<string>): seq<(string, string)>
    requires |names| == |blocks|
  {
    if preds == [] then []
    else
      var front := IncomingOf(fname, names, blocks, preds[..|preds| - 1]);
      match IndexOf(names, preds[|preds| - 1])
      case None => front
      case Some(pi) =>
        (match LastDef(fname, blocks[pi].code)
         case Some(v) => front + [(v, blocks[pi].name)]
         case None => front)
  }

  predicate AllSame(pairs: seq<(string, string)>) {
    forall k | 0 <= k < |pairs| - 1 :: pairs[k].0 == pairs[k + 1].0
  }

  function Replaced(fname: string, incoming: seq<(string, string)>, dest: string, s: string): string {
    if IsCandidate(fname, s) && exists k :: 0 <= k < |incoming| && incoming[k].0 == s then dest else s
  }

  function ReplacedAll(fname: string, incoming: seq<(string, string)>, dest: string, ss: seq<string>): seq<string> {
    if ss == [] then [] else [Replaced(fname, incoming, dest, ss[0])] + ReplacedAll(fname, incoming, dest, ss[1..])
  }

  // Uses in arithmetic, calls and branches now read the phi.
  function Rewritten(fname: string, incoming: seq<(string, string)>, dest: string, i: Instr): Instr {
    match i
    case Arith(op, d, a, b) => Arith(op, d, Replaced(fname, incoming, dest, a), Replaced(fname, incoming, dest, b))
    case Call(d, callee, args) => Call(d, callee, ReplacedAll(fname, incoming, dest, args))
    case BrCond(c, t, f) => BrCond(Replaced(fname, incoming, dest, c), t, f)
    case _ => i
  }

  function RewrittenAll(fname: string, incoming: seq<(string, string)>, dest: string, code: seq<Instr>): seq<Instr> {
    if code == [] then []
    else RewrittenAll(fname, incoming, dest, code[..|code| - 1]) + [Rewritten(fname, incoming, dest, code[|code| - 1])]
  }

  function PhiDest(fname: string, i: nat): string {
    "%phi_" + LowerFn.StripAt(fname) + "_" + Decimal(i)
  }

  function WithPhi(fname: string, b: Block, incoming: seq<(string, string)>, dest: string): Block {
    if b.code == [] then b
    else
      var code :=
        if b.code[0].Label? then [b.code[0], Phi(dest, I64, incoming)] + b.code[1..]
        else [Label(b.name), Phi(dest, I64, incoming)] + b.code;
      Block(b.name, RewrittenAll(fname, incoming, dest, code))
  }

  // Block i, if it needs a phi.
  function Processed(fname: string, names: seq<Block>, blocks: seq<Block>, i: nat): (r: seq<Block>)
    requires |names| == |blocks| && i < |blocks|
    ensures |r| == |blocks|
  {
    var preds := Preds(names, |names|, i);
    if |preds| <= 1 then blocks
    else
      var incoming := IncomingOf(fname, names, blocks, preds);
      if incoming == [] || AllSame(incoming) then blocks
      else blocks[i := WithPhi(fname, blocks[i], incoming, PhiDest(fname, i))]
  }

  // The first n blocks processed in turn; names and predecessors are those of the original.
  function ProcessedTo(fname: string, names: seq<Block>, n: nat): (r: seq<Block>)
    requires n <= |names|
    ensures |r| == |names|
  {
    if n == 0 then names else Processed(fname, names, ProcessedTo(fname, names, n - 1), n - 1)
  }

  function PhisInserted(f: Function): Function {
    var blocks := Blocks(f.body);
    f.(body := Flatten(ProcessedTo(f.name, blocks, |blocks|)))
  }

  // ----- What the pass looks at and what it changes -----

  /** A block precedes another when it ends on a branch to it; the last block of a name is meant. */
  lemma {:induction false} PredsAre(blocks: seq<Block>, k: nat, i: nat, p: string)
    requires k <= |blocks|
    ensures p in Preds(blocks, k, i) <==> exists m :: 0 <= m < k && blocks[m].name == p && EndsOn(blocks, blocks[m], i)
  {
    hide EndsOn, IndexOf, Successors, Arrivals;
    if k > 0 {
      PredsAre(blocks, k - 1, i, p);
      ArrivalsAre(blocks, Successors(blocks[k - 1]), blocks[k - 1].name, i, p);
      TargetsAre(blocks, blocks[k - 1], i);
    }
  }

  // The block ends on a branch, one of whose targets is the name of block i and of no later one.
  ghost predicate EndsOn(blocks: seq<Block>, b: Block, i: nat) {
    b.code != [] && i < |blocks| && (forall j | i < j < |blocks| :: blocks[j].name != blocks[i].name) &&
    match b.code[|b.code| - 1]
    case Br(t) => t == blocks[i].name
    case BrCond(_, t, f) => t == blocks[i].name || f == blocks[i].name
    case _ => false
  }

  lemma {:induction false} IndexOfIs(blocks: seq<Block>, name: string, i: nat)
    ensures IndexOf(blocks, name) == Some(i)
      <==> i < |blocks| && blocks[i].name == name && forall j | i < j < |blocks| :: blocks[j].name != name
  {
    if blocks != [] {
      IndexOfIs(blocks[..|blocks| - 1], name, i);
    }
  }

  lemma {:induction false} ArrivalsAre(blocks: seq<Block>, targets: seq<string>, from: string, i: nat, p: string)
    ensures p in Arrivals(blocks, targets, from, i)
      <==> p == from && exists t :: t in targets && IndexOf(blocks, t) == Some(i)
  {
    hide IndexOf;
    if targets != [] {
      var front, last := targets[..|targets| - 1], targets[|targets| - 1];
      ArrivalsAre(blocks, front, from, i, p);
      assert targets == front + [last];
      if p == from && exists t :: t in front && IndexOf(blocks, t) == Some(i) {
        var t :| t in front && IndexOf(blocks, t) == Some(i);
        assert t in targets;
      }
      if t :| t in targets && IndexOf(blocks, t) == Some(i) {
        assert t in front || t == last;
      }
      assert last in targets;
    }
  }

  lemma TargetsAre(blocks: seq<Block>, b: Block, i: nat)
    ensures EndsOn(blocks, b, i) <==> exists t :: t in Successors(b) && IndexOf(blocks, t) == Some(i)
  {
    forall t
      ensures IndexOf(blocks, t) == Some(i)
        <==> i < |blocks| && blocks[i].name == t && forall j | i < j < |blocks| :: blocks[j].name != t
    {
      IndexOfIs(blocks, t, i);
    }
    if EndsOn(blocks, b, i) {
      assert blocks[i].name in Successors(b);
    }
  }

  /** The temporary a block ends on: the function's own, defined last in it. */
  lemma {:induction false} LastDefIs(fname: string, code: seq<Instr>, d: string)
    ensures LastDef(fname, code) == Some(d)
      <==> exists k :: 0 <= k < |code| && DefinesOwn(fname, code[k], d) && DefinesNothing(fname, code[k + 1..])
  {
    hide DefinesOwn, Collected, IsCandidate;
    if code != [] {
      var front, last := code[..|code| - 1], code[|code| - 1];
      LastDefIs(fname, front, d);
      forall e
        ensures DefinesOwn(fname, last, e) <==> Collected(last) == Some(e) && IsCandidate(fname, e)
      {
        OwnIsCollected(fname, last, e);
      }
      forall j | 0 < j <= |front|
        ensures DefinesNothing(fname, code[j..])
          <==> DefinesNothing(fname, front[j..]) && forall e :: !DefinesOwn(fname, last, e)
      {
        assert code[j..] == front[j..] + [last];
        NothingMore(fname, front[j..], last);
      }
      assert DefinesNothing(fname, code[|front| + 1..]);
    }
  }

  ghost predicate DefinesNothing(fname: string, code: seq<Instr>) {
    forall k, e | 0 <= k < |code| :: !DefinesOwn(fname, code[k], e)
  }

  lemma NothingMore(fname: string, code: seq<Instr>, last: Instr)
    ensures DefinesNothing(fname, code + [last])
      <==> DefinesNothing(fname, code) && forall e :: !DefinesOwn(fname, last, e)
  {
    hide DefinesOwn;
    var all := code + [last];
    assert all[|code|] == last && forall k | 0 <= k < |code| :: all[k] == code[k];
  }

  // The operands the pass may change.
  function Uses(i: Instr): seq<string> {
    match i
    case Arith(_, _, a, b) => [a, b]
    case Call(_, _, args) => args
    case BrCond(c, _, _) => [c]
    case _ => []
  }

  // The instruction apart from them.
  function Apart(i: Instr): Instr {
    match i
    case Arith(op, d, _, _) => Arith(op, d, "", "")
    case Call(d, callee, _) => Call(d, callee, [])
    case BrCond(_, t, f) => BrCond("", t, f)
    case _ => i
  }

  // One of the function's own temporaries that come in.
  predicate ComesIn(fname: string, incoming: seq<(string, string)>, s: string) {
    && (exists k :: 0 <= k < |incoming| && incoming[k].0 == s)
    && "%" + LowerFn.StripAt(fname) + "_" <= s
    && !("%t" <= s && forall k | 2 <= k < |s| :: '0' <= s[k] <= '9')
  }

  lemma ReplacedIs(fname: string, incoming: seq<(string, string)>, dest: string, s: string)
    ensures Replaced(fname, incoming, dest, s) == if ComesIn(fname, incoming, s) then dest else s
  {
    if "%t" <= s {
      assert forall k | 2 <= k < |s| :: s[k] == s[2..][k - 2];
      assert forall k | 0 <= k < |s[2..]| :: s[2..][k] == s[k + 2];
    }
  }

  lemma {:induction false} ReplacedAllAre(fname: string, incoming: seq<(string, string)>, dest: string, ss: seq<string>)
    ensures var r := ReplacedAll(fname, incoming, dest, ss);
      |r| == |ss| && forall k | 0 <= k < |ss| :: r[k] == Replaced(fname, incoming, dest, ss[k])
  {
    hide Replaced;
    if ss != [] {
      ReplacedAllAre(fname, incoming, dest, ss[1..]);
    }
  }

  /** In a block that gets a phi, operands of arithmetic, calls and branches that come in read the phi;
      nothing else changes. */
  lemma RewrittenReadsThePhi(fname: string, incoming: seq<(string, string)>, dest: string, i: Instr)
    ensures var r := Rewritten(fname, incoming, dest, i);
      && Apart(r) == Apart(i) && |Uses(r)| == |Uses(i)|
      && forall k | 0 <= k < |Uses(i)| ::
        Uses(r)[k] == if ComesIn(fname, incoming, Uses(i)[k]) then dest else Uses(i)[k]
  {
    hide Replaced, ComesIn;
    if i.Call? {
      ReplacedAllAre(fname, incoming, dest, i.args);
    }
    forall s
      ensures Replaced(fname, incoming, dest, s) == if ComesIn(fname, incoming, s) then dest else s
    {
      ReplacedIs(fname, incoming, dest, s);
    }
  }

  /** The phi stands right behind the block's label, which is added where there is none; behind it the
      block's instructions follow, each rewritten. */
  lemma PhiStandsFirst(fname: string, b: Block, incoming: seq<(string, string)>, dest: string)
    requires b.code != []
    ensures var r, skip := WithPhi(fname, b, incoming, dest), if b.code[0].Label? then 1 else 0;
      && r.name == b.name
      && |r.code| == |b.code| + 2 - skip
      && r.code[0] == (if b.code[0].Label? then b.code[0] else Label(b.name))
      && r.code[1] == Phi(dest, I64, incoming)
      && forall k | skip <= k < |b.code| :: r.code[k + 2 - skip] == Rewritten(fname, incoming, dest, b.code[k])
  {
    hide Rewritten;
    var code :=
      if b.code[0].Label? then [b.code[0], Phi(dest, I64, incoming)] + b.code[1..]
      else [Label(b.name), Phi(dest, I64, incoming)] + b.code;
    RewrittenAllAre(fname, incoming, dest, code);
    NotRewritten(fname, incoming, dest);
  }

  lemma NotRewritten(fname: string, incoming: seq<(string, string)>, dest: string)
    ensures Rewritten(fname, incoming, dest, Phi(dest, I64, incoming)) == Phi(dest, I64, incoming)
    ensures forall l :: Rewritten(fname, incoming, dest, Label(l)) == Label(l)
  {
  }

  lemma {:induction false} RewrittenAllAre(fname: string, incoming: seq<(string, string)>, dest: string,
      code: seq<Instr>)
    ensures var r := RewrittenAll(fname, incoming, dest, code);
      |r| == |code| && forall k | 0 <= k < |code| :: r[k] == Rewritten(fname, incoming, dest, code[k])
  {
    hide Rewritten;
    if code != [] {
      RewrittenAllAre(fname, incoming, dest, code[..|code| - 1]);
    }
  }

  lemma FlattenStep(blocks: seq<Block>, i: nat)
    requires i < |blocks|
    ensures Flatten(blocks[i..]) == blocks[i].code + Flatten(blocks[i + 1..])
  {
    assert blocks[i..][0] == blocks[i] && blocks[i..][1..] == blocks[i + 1..];
  }

  lemma NoArrivals(blocks: seq<Block>, targets: seq<string>, from: string, i: nat)
    ensures Arrivals(blocks, targets[..0], from, i) == []
  {
  }

  lemma OneMoreArrival(blocks: seq<Block>, targets: seq<string>, m: nat, from: string, i: nat)
    requires m < |targets|
    ensures Arrivals(blocks, targets[..m + 1], from, i)
      == Arrivals(blocks, targets[..m], from, i) + (if IndexOf(blocks, targets[m]) == Some(i) then [from] else [])
  {
    hide IndexOf;
    assert targets[..m + 1][..m] == targets[..m];
  }

  // ----- The passes on a function in place -----

  class Unit {
    var func: Function

    constructor (f: Function)
      ensures func == f
    {
      func := f;
    }

    method SplitBlocks() returns (blocks: seq<Block>)
      ensures blocks == Blocks(func.body)
    {
      blocks := [];
      var name, cur: seq<Instr> := "entry", [];
      for k := 0 to |func.body|
        invariant blocks + Split(func.body[k..], name, cur) == Blocks(func.body)
      {
        var i := func.body[k];
        assert func.body[k..][0] == i && func.body[k..][1..] == func.body[k + 1..];
        if i.Label? {
          ghost var rest := Split(func.body[k + 1..], i.name, [i]);
          assert blocks + ([Block(name, cur)] + rest) == blocks + [Block(name, cur)] + rest;
          blocks := blocks + [Block(name, cur)];
          name, cur := i.name, [i];
        } else {
          cur := cur + [i];
        }
      }
      assert func.body[|func.body|..] == [];
      blocks := blocks + [Block(name, cur)];
    }

    method Predecessors(blocks: seq<Block>, i: nat) returns (preds: seq<string>)
      ensures preds == Preds(blocks, |blocks|, i)
    {
      hide Arrivals, IndexOf, Successors;
      preds := [];
      for k := 0 to |blocks|
        invariant preds == Preds(blocks, k, i)
      {
        var targets := Successors(blocks[k]);
        ghost var before := preds;
        NoArrivals(blocks, targets, blocks[k].name, i);
        for m := 0 to |targets|
          invariant preds == before + Arrivals(blocks, targets[..m], blocks[k].name, i)
        {
          OneMoreArrival(blocks, targets, m, blocks[k].name, i);
          if IndexOf(blocks, targets[m]) == Some(i) {
            preds := preds + [blocks[k].name];
          }
        }
        assert targets[..|targets|] == targets;
      }
    }

    method IncomingValues(names: seq<Block>, blocks: seq<Block>, preds: seq<string>)
        returns (incoming: seq<(string, string)>)
      requires |names| == |blocks|
      ensures incoming == IncomingOf(func.name, names, blocks, preds)
    {
      incoming := [];
      for k := 0 to |preds|
        invariant incoming == IncomingOf(func.name, names, blocks, preds[..k])
      {
        assert preds[..k + 1][..k] == preds[..k];
        var pi := IndexOf(names, preds[k]);
        if pi.Some? {
          var v := LastDef(func.name, blocks[pi.value].code);
          if v.Some? {
            incoming := incoming + [(v.value, blocks[pi.value].name)];
          }
        }
      }
      assert preds[..|preds|] == preds;
    }

    method Rewrite(code: seq<Instr>, incoming: seq<(string, string)>, dest: string) returns (r: seq<Instr>)
      ensures r == RewrittenAll(func.name, incoming, dest, code)
    {
      r := [];
      for k := 0 to |code|
        invariant r == RewrittenAll(func.name, incoming, dest, code[..k])
      {
        assert code[..k + 1][..k] == code[..k];
        r := r + [Rewritten(func.name, incoming, dest, code[k])];
      }
      assert code[..|code|] == code;
    }

    /** The whole pass, in place. */
    method InsertPhiNodes()
      modifies this
      ensures func == PhisInserted(old(func))
    {
      hide Blocks, Preds, IncomingOf, RewrittenAll, Split, PhiDest, AllSame;
      var names := SplitBlocks();
      var blocks := names;
      for i := 0 to |names|
        invariant |blocks| == |names| && blocks == ProcessedTo(func.name, names, i) && func == old(func)
      {
        var preds := Predecessors(names, i);
        if |preds| <= 1 {
          continue;
        }
        var incoming := IncomingValues(names, blocks, preds);
        if incoming == [] || AllSame(incoming) {
          continue;
        }
        if blocks[i].code == [] {
          assert blocks[i := blocks[i]] == blocks;
          continue;
        }
        var dest := PhiDest(func.name, i);
        var code: seq<Instr>;
        if blocks[i].code[0].Label? {
          code := Rewrite([blocks[i].code[0], Phi(dest, I64, incoming)] + blocks[i].code[1..], incoming, dest);
        } else {
          code := Rewrite([Label(blocks[i].name), Phi(dest, I64, incoming)] + blocks[i].code, incoming, dest);
        }
        blocks := blocks[i := Block(blocks[i].name, code)];
      }
      var out: seq<Instr> := [];
      for i := 0 to |blocks|
        invariant out + Flatten(blocks[i..]) == Flatten(blocks) && func == old(func)
      {
        FlattenStep(blocks, i);
        assert out + (blocks[i].code + Flatten(blocks[i + 1..])) == out + blocks[i].code + Flatten(blocks[i + 1..]);
        out := out + blocks[i].code;
      }
      assert blocks[|blocks|..] == [] && Flatten(blocks[|blocks|..]) == [];
      func := func.(body := out);
    }

    /** Collects the function's own temporaries, then rewrites every instruction, in place. */
    method RenameTemps()
      modifies this
      ensures func == Renamed(old(func))
    {
      hide RenameInstr, IsCandidate;
      var defs: seq<string> := [];
      for k := 0 to |func.body|
        invariant defs == Defs(func.name, func.body[..k]) && func == old(func)
      {
        assert func.body[..k + 1][..k] == func.body[..k];
        var d := Collected(func.body[k]);
        if d.Some? && IsCandidate(func.name, d.value) && d.value !in defs {
          defs := defs + [d.value];
        }
      }
      assert func.body[..|func.body|] == func.body;
      var body := func.body;
      for k := 0 to |body|
        invariant |body| == |func.body| && func == old(func)
        invariant forall j | 0 <= j < |body| ::
          body[j] == if j < k then RenameInstr(defs, func.body[j]) else func.body[j]
      {
        body := body[k := RenameInstr(defs, body[k])];
      }
      assert body == RenameCode(defs, func.body);
      func := func.(body := body);
    }
  }
}
