/** The two-way diamonds the small lowerings emit: how phi insertion changes them and how
    they run. */
module Diamonds {
  import opened Names
  import opened Ir
  import opened Ssa
  import opened PhiInsertion
  import opened LowerFnCorrect

  // ----- Shape -----

  // Code that leaves a value in an operand.
  datatype Piece = Piece(code: seq<Instr>, operand: string)

  /** Branch on `cond` after `pre`; each side computes its piece; the merge picks by phi. */
  datatype Diamond = Diamond(pre: seq<Instr>, cond: string, inverted: bool, thenP: Piece, elseP: Piece, res: string,
                             thenBB: string, elseBB: string, mergeBB: string)

  function Pairs(d: Diamond): seq<(string, string)> {
    [(d.thenP.operand, d.thenBB), (d.elseP.operand, d.elseBB)]
  }

  function Branch(d: Diamond): Instr {
    if d.inverted then BrCond(d.cond, d.elseBB, d.thenBB) else BrCond(d.cond, d.thenBB, d.elseBB)
  }

  function ArmBlock(name: string, p: Piece, merge: string): Block {
    Block(name, [Label(name)] + (p.code + [Br(merge)]))
  }

  // `extra` stands where phi insertion puts its phi.
  function MergeBlock(d: Diamond, extra: seq<Instr>): Block {
    Block(d.mergeBB, [Label(d.mergeBB)] + (extra + [Phi(d.res, I64, Pairs(d)), Ret(Some(d.res))]))
  }

  function BlocksOf(d: Diamond, extra: seq<Instr>): seq<Block> {
    [Block("entry", d.pre + [Branch(d)]), ArmBlock(d.thenBB, d.thenP, d.mergeBB),
      ArmBlock(d.elseBB, d.elseP, d.mergeBB), MergeBlock(d, extra)]
  }

  function CodeOf(d: Diamond, extra: seq<Instr>): seq<Instr> {
    Flatten(BlocksOf(d, extra))
  }

  // At most one instruction, which computes a value.
  predicate AtMostOne(code: seq<Instr>) {
    |code| <= 1 && forall k | 0 <= k < |code| :: code[k].ConstI64? || code[k].Arith?
  }

  ghost predicate PieceGood(fname: string, p: Piece) {
    AtMostOne(p.code) && (p.code != [] ==> Collected(p.code[0]) == Some(p.operand) && IsCandidate(fname, p.operand))
  }

  ghost predicate Good(fname: string, d: Diamond) {
    && AtMostOne(d.pre) && PieceGood(fname, d.thenP) && PieceGood(fname, d.elseP)
    && (d.thenP.code != [] && d.elseP.code != [] ==> d.thenP.operand != d.elseP.operand)
    && d.thenBB != d.elseBB && d.thenBB != d.mergeBB && d.elseBB != d.mergeBB
    && d.thenBB != "entry" && d.elseBB != "entry" && d.mergeBB != "entry"
  }

  // ----- Splitting a diamond -----

  ghost predicate NoLabels(code: seq<Instr>) {
    forall k | 0 <= k < |code| :: !code[k].Label?
  }

  lemma {:induction false} SplitSkips(code: seq<Instr>, rest: seq<Instr>, name: string, cur: seq<Instr>)
    requires NoLabels(code)
    ensures Split(code + rest, name, cur) == Split(rest, name, cur + code)
    decreases |code|
  {
    if code == [] {
      assert code + rest == rest && cur + code == cur;
    } else {
      assert (code + rest)[1..] == code[1..] + rest;
      SplitSkips(code[1..], rest, name, cur + [code[0]]);
      assert cur + [code[0]] + code[1..] == cur + code;
    }
  }

  ghost predicate Headed(b: Block) {
    b.code != [] && b.code[0] == Label(b.name) && NoLabels(b.code[1..])
  }

  /** Blocks that each start with their own label, and hold no other, are found again. */
  lemma {:induction false} SplitFlatten(blocks: seq<Block>, name: string, cur: seq<Instr>)
    requires forall b | b in blocks :: Headed(b)
    ensures Split(Flatten(blocks), name, cur) == [Block(name, cur)] + blocks
  {
    if blocks != [] {
      var b, rest := blocks[0], blocks[1..];
      assert Headed(b);
      var body := b.code[1..];
      var code := Flatten(blocks);
      assert code[0] == Label(b.name) && code[1..] == body + Flatten(rest);
      SplitSkips(body, Flatten(rest), b.name, [b.code[0]]);
      assert [b.code[0]] + body == b.code;
      SplitFlatten(rest, b.name, b.code);
      assert [b] + rest == blocks;
    }
  }

  lemma ArmHeaded(name: string, p: Piece, merge: string)
    requires AtMostOne(p.code)
    ensures Headed(ArmBlock(name, p, merge))
  {
    assert ArmBlock(name, p, merge).code[1..] == p.code + [Br(merge)];
  }

  lemma DiamondBlocks(fname: string, d: Diamond)
    requires Good(fname, d)
    ensures Blocks(CodeOf(d, [])) == BlocksOf(d, [])
  {
    var bs := BlocksOf(d, []);
    DiamondHead(fname, d);
    hide Split, Flatten, AtMostOne, NoLabels, BlocksOf, CodeOf, Headed, PieceGood;
    SplitSkips(bs[0].code, Flatten(bs[1..]), "entry", []);
    assert [] + bs[0].code == bs[0].code;
    SplitFlatten(bs[1..], "entry", bs[0].code);
    assert bs == [bs[0]] + bs[1..];
  }

  lemma DiamondHead(fname: string, d: Diamond)
    requires Good(fname, d)
    ensures var bs := BlocksOf(d, []);
      && bs[0].name == "entry" && NoLabels(bs[0].code) && CodeOf(d, []) == bs[0].code + Flatten(bs[1..])
      && forall b | b in bs[1..] :: Headed(b)
  {
    ArmHeaded(d.thenBB, d.thenP, d.mergeBB);
    ArmHeaded(d.elseBB, d.elseP, d.mergeBB);
    var bs := BlocksOf(d, []);
    assert bs[3].code[1..] == [Phi(d.res, I64, Pairs(d)), Ret(Some(d.res))];
    assert Headed(bs[3]);
    hide Flatten, Headed, ArmBlock, MergeBlock;
    assert bs[1..] == [bs[1], bs[2], bs[3]];
  }

  // ----- What phi insertion does to it -----

  lemma FourNames(bs: seq<Block>, name: string)
    requires |bs| == 4
    ensures IndexOf(bs, name) ==
            if bs[3].name == name then Some(3) else if bs[2].name == name then Some(2)
            else if bs[1].name == name then Some(1) else if bs[0].name == name then Some(0) else None
  {
    var a, b, c := bs[..3], bs[..3][..2], bs[..3][..2][..1];
    assert IndexOf(c, name) == if c[0].name == name then Some(0) else None by { assert c[..0] == []; }
    assert IndexOf(b, name) == if b[1].name == name then Some(1) else IndexOf(c, name);
    assert IndexOf(a, name) == if a[2].name == name then Some(2) else IndexOf(b, name);
  }

  lemma OneArrival(bs: seq<Block>, t: string, from: string, i: nat)
    ensures Arrivals(bs, [t], from, i) == if IndexOf(bs, t) == Some(i) then [from] else []
  {
    assert [t][..0] == [];
  }

  lemma TwoArrivals(bs: seq<Block>, t: string, u: string, from: string, i: nat)
    ensures Arrivals(bs, [t, u], from, i) ==
            (if IndexOf(bs, t) == Some(i) then [from] else []) + (if IndexOf(bs, u) == Some(i) then [from] else [])
  {
    assert [t, u][..1] == [t];
    OneArrival(bs, t, from, i);
  }

  // The shape of a two-way branch that joins again.
  ghost predicate Joins(bs: seq<Block>, t: string, e: string, m: string) {
    && |bs| == 4 && bs[0].name == "entry" && bs[1].name == t && bs[2].name == e && bs[3].name == m
    && t != e && t != m && e != m && t != "entry" && e != "entry" && m != "entry"
    && (Successors(bs[0]) == [t, e] || Successors(bs[0]) == [e, t])
    && Successors(bs[1]) == [m] && Successors(bs[2]) == [m] && Successors(bs[3]) == []
  }

  lemma JoinIndex(bs: seq<Block>, t: string, e: string, m: string)
    requires Joins(bs, t, e, m)
    ensures IndexOf(bs, t) == Some(1) && IndexOf(bs, e) == Some(2) && IndexOf(bs, m) == Some(3)
  {
    hide IndexOf, Successors;
    FourNames(bs, t);
    FourNames(bs, e);
    FourNames(bs, m);
  }

  lemma JoinArrivals(bs: seq<Block>, t: string, e: string, m: string, i: nat)
    requires Joins(bs, t, e, m) && i < 4
    ensures Arrivals(bs, Successors(bs[0]), "entry", i) == if i == 1 || i == 2 then ["entry"] else []
    ensures Arrivals(bs, Successors(bs[1]), t, i) == if i == 3 then [t] else []
    ensures Arrivals(bs, Successors(bs[2]), e, i) == if i == 3 then [e] else []
    ensures Arrivals(bs, Successors(bs[3]), m, i) == []
  {
    JoinIndex(bs, t, e, m);
    NoArrivals(bs, m, i);
    hide Arrivals, IndexOf, Successors;
    OneArrival(bs, m, t, i);
    OneArrival(bs, m, e, i);
    if Successors(bs[0]) == [t, e] {
      TwoArrivals(bs, t, e, "entry", i);
    } else {
      TwoArrivals(bs, e, t, "entry", i);
    }
  }

  lemma JoinPreds(bs: seq<Block>, t: string, e: string, m: string, i: nat)
    requires Joins(bs, t, e, m) && i < 4
    ensures Preds(bs, 4, i) == if i == 0 then [] else if i == 3 then [t, e] else ["entry"]
  {
    PredsUnfolded(bs, i);
    JoinArrivals(bs, t, e, m, i);
    hide Preds, Arrivals, IndexOf, Successors;
  }

  lemma DiamondJoins(fname: string, d: Diamond)
    requires Good(fname, d)
    ensures Joins(BlocksOf(d, []), d.thenBB, d.elseBB, d.mergeBB)
  {
    hide AtMostOne, PieceGood;
    var bs := BlocksOf(d, []);
    ArmSuccessors(d.thenBB, d.thenP, d.mergeBB);
    ArmSuccessors(d.elseBB, d.elseP, d.mergeBB);
    assert Successors(bs[0]) == [Branch(d).ifTrue, Branch(d).ifFalse];
    assert Successors(bs[3]) == [];
  }

  lemma ArmSuccessors(name: string, p: Piece, merge: string)
    ensures Successors(ArmBlock(name, p, merge)) == [merge]
  {
  }

  lemma DiamondPreds(fname: string, d: Diamond, i: nat)
    requires Good(fname, d) && i < 4
    ensures Preds(BlocksOf(d, []), 4, i) == if i == 0 then [] else if i == 3 then [d.thenBB, d.elseBB] else ["entry"]
  {
    hide Good, BlocksOf, Joins, Preds;
    DiamondJoins(fname, d);
    JoinPreds(BlocksOf(d, []), d.thenBB, d.elseBB, d.mergeBB, i);
  }

  lemma NoArrivals(bs: seq<Block>, from: string, i: nat)
    ensures Arrivals(bs, [], from, i) == []
  {
  }

  lemma PredsUnfolded(bs: seq<Block>, i: nat)
    requires |bs| == 4
    ensures Preds(bs, 4, i) ==
            Arrivals(bs, Successors(bs[0]), bs[0].name, i) + Arrivals(bs, Successors(bs[1]), bs[1].name, i)
            + Arrivals(bs, Successors(bs[2]), bs[2].name, i) + Arrivals(bs, Successors(bs[3]), bs[3].name, i)
  {
    hide Arrivals, Successors;
    assert Preds(bs, 1, i) == Preds(bs, 0, i) + Arrivals(bs, Successors(bs[0]), bs[0].name, i);
    assert Preds(bs, 2, i) == Preds(bs, 1, i) + Arrivals(bs, Successors(bs[1]), bs[1].name, i);
    assert Preds(bs, 3, i) == Preds(bs, 2, i) + Arrivals(bs, Successors(bs[2]), bs[2].name, i);
  }

  lemma DefSkipped(fname: string, front: seq<Instr>, i: Instr)
    requires Collected(i) == None
    ensures LastDef(fname, front + [i]) == LastDef(fname, front)
  {
    hide IsCandidate;
    assert (front + [i])[..|front + [i]| - 1] == front;
  }

  lemma ArmLastDef(fname: string, name: string, p: Piece, merge: string)
    requires PieceGood(fname, p)
    ensures LastDef(fname, ArmBlock(name, p, merge).code) == if p.code == [] then None else Some(p.operand)
  {
    hide IsCandidate;
    var code, front := ArmBlock(name, p, merge).code, [Label(name)] + p.code;
    assert code == front + [Br(merge)];
    DefSkipped(fname, front, Br(merge));
    if p.code == [] {
      DefSkipped(fname, [], Label(name));
      assert front == [] + [Label(name)];
    } else {
      assert front[|front| - 1] == p.code[0];
    }
  }

  /** The phi the pass adds: only when both sides compute a temporary of their own. */
  function ExtraPhi(fname: string, d: Diamond): seq<Instr> {
    if d.thenP.code != [] && d.elseP.code != [] then [Phi(PhiDest(fname, 3), I64, Pairs(d))] else []
  }

  lemma DiamondIncoming(fname: string, d: Diamond)
    requires Good(fname, d)
    ensures IncomingOf(fname, BlocksOf(d, []), BlocksOf(d, []), [d.thenBB, d.elseBB]) ==
            (if d.thenP.code == [] then [] else [(d.thenP.operand, d.thenBB)])
            + (if d.elseP.code == [] then [] else [(d.elseP.operand, d.elseBB)])
  {
    hide IndexOf, LastDef;
    var bs := BlocksOf(d, []);
    var both := [d.thenBB, d.elseBB];
    FourNames(bs, d.thenBB);
    FourNames(bs, d.elseBB);
    ArmLastDef(fname, d.thenBB, d.thenP, d.mergeBB);
    ArmLastDef(fname, d.elseBB, d.elseP, d.mergeBB);
    hide PieceGood, ArmBlock;
    assert both[..1] == [d.thenBB] && both[..1][..0] == [];
    assert IncomingOf(fname, bs, bs, []) == [];
    assert IncomingOf(fname, bs, bs, both[..1]) == if d.thenP.code == [] then [] else [(d.thenP.operand, d.thenBB)];
  }

  lemma {:induction false} RewrittenSame(fname: string, incoming: seq<(string, string)>, dest: string, code: seq<Instr>)
    requires forall k | 0 <= k < |code| :: code[k].Label? || code[k].Phi? || code[k].Ret?
    ensures RewrittenAll(fname, incoming, dest, code) == code
  {
    if code != [] {
      RewrittenSame(fname, incoming, dest, code[..|code| - 1]);
    }
  }

  lemma MergeWithPhi(fname: string, d: Diamond, dest: string)
    ensures WithPhi(fname, MergeBlock(d, []), Pairs(d), dest) == MergeBlock(d, [Phi(dest, I64, Pairs(d))])
  {
    hide RewrittenAll, Pairs;
    var m := MergeBlock(d, []);
    var code := [m.code[0], Phi(dest, I64, Pairs(d))] + m.code[1..];
    RewrittenSame(fname, Pairs(d), dest, code);
    assert code == MergeBlock(d, [Phi(dest, I64, Pairs(d))]).code;
  }

  lemma MergeProcessed(fname: string, d: Diamond)
    requires Good(fname, d)
    ensures Processed(fname, BlocksOf(d, []), BlocksOf(d, []), 3) == BlocksOf(d, ExtraPhi(fname, d))
  {
    hide Preds, IncomingOf, WithPhi, PieceGood, PhiDest, ArmBlock, MergeBlock;
    var bs := BlocksOf(d, []);
    DiamondPreds(fname, d, 3);
    DiamondIncoming(fname, d);
    if d.thenP.code != [] && d.elseP.code != [] {
      var incoming := Pairs(d);
      assert IncomingOf(fname, bs, bs, [d.thenBB, d.elseBB]) == incoming;
      assert !AllSame(incoming) by { assert incoming[0].0 != incoming[0 + 1].0; }
      MergeWithPhi(fname, d, PhiDest(fname, 3));
      assert bs[3 := MergeBlock(d, ExtraPhi(fname, d))] == BlocksOf(d, ExtraPhi(fname, d));
    }
  }

  /** Phi insertion leaves a diamond a diamond, with at most one phi more in its merge. */
  lemma DiamondPhis(fname: string, d: Diamond)
    requires Good(fname, d)
    ensures Flatten(ProcessedTo(fname, Blocks(CodeOf(d, [])), |Blocks(CodeOf(d, []))|)) == CodeOf(d, ExtraPhi(fname, d))
  {
    DiamondBlocks(fname, d);
    var bs := BlocksOf(d, []);
    DiamondPreds(fname, d, 0);
    DiamondPreds(fname, d, 1);
    DiamondPreds(fname, d, 2);
    MergeProcessed(fname, d);
    hide Preds, IncomingOf, WithPhi, Good, Blocks, BlocksOf, CodeOf;
    assert |bs| == 4 by { FourBlocks(d, []); }
    assert ProcessedTo(fname, bs, 1) == bs;
    assert ProcessedTo(fname, bs, 2) == bs;
    assert ProcessedTo(fname, bs, 3) == bs;
    assert ProcessedTo(fname, bs, 4) == BlocksOf(d, ExtraPhi(fname, d));
    assert Flatten(BlocksOf(d, ExtraPhi(fname, d))) == CodeOf(d, ExtraPhi(fname, d)) by { Flat(d, ExtraPhi(fname, d)); }
  }

  lemma FourBlocks(d: Diamond, extra: seq<Instr>)
    ensures |BlocksOf(d, extra)| == 4
  {
  }

  lemma Flat(d: Diamond, extra: seq<Instr>)
    ensures Flatten(BlocksOf(d, extra)) == CodeOf(d, extra)
  {
  }

  // ----- Running a diamond -----

  datatype Flow = Goes(env: map<string, int>) | Traps | Sticks

  // What a straight piece of code does to the temporaries.
  function FlowOf(code: seq<Instr>, env: map<string, int>): Flow {
    if code == [] then Goes(env)
    else
      match code[0]
      case ConstI64(dest, v) => Goes(env[dest := v])
      case Arith(op, dest, a, b) =>
        (match (Operand(env, a), Operand(env, b))
         case (Some(x), Some(y)) =>
           (match Compute(op, x, y)
            case Some(v) => Goes(env[dest := v])
            case None => Traps)
         case _ => Sticks)
      case _ => Sticks
  }

  lemma StraightRun(code: seq<Instr>, oracle: Oracle, off: nat, part: seq<Instr>, frame: Frame, trace: seq<Event>)
    requires AtMostOne(part) && CodeAt(code, off, part)
    ensures var end := Steps(code, oracle, Running(off, frame, trace), |part|);
      match FlowOf(part, frame.env)
      case Goes(env) => end == Running(off + |part|, frame.(env := env), trace)
      case Traps => end == Trapped(trace)
      case Sticks => true
  {
    hide Steps, Operand, Compute;
    if part == [] {
      Zero(code, oracle, Running(off, frame, trace));
    } else {
      CodeAtFirst(code, off, part);
      One(code, oracle, Running(off, frame, trace));
    }
  }

  // Skipping a stretch that has no such label.
  lemma {:induction false} FindPast(a: seq<Instr>, b: seq<Instr>, name: string)
    requires forall k | 0 <= k < |a| :: a[k] != Label(name)
    ensures FindLabel(a + b, name) == |a| + FindLabel(b, name)
  {
    if a == [] {
      assert a + b == b;
    } else {
      assert (a + b)[1..] == a[1..] + b;
      FindPast(a[1..], b, name);
    }
  }

  // Where the four blocks start.
  ghost predicate Laid(d: Diamond, extra: seq<Instr>, code: seq<Instr>, t: nat, e: nat, m: nat) {
    && CodeAt(code, 0, d.pre) && |d.pre| < |code| && code[|d.pre|] == Branch(d)
    && CodeAt(code, t, [Label(d.thenBB)] + (d.thenP.code + [Br(d.mergeBB)]))
    && CodeAt(code, e, [Label(d.elseBB)] + (d.elseP.code + [Br(d.mergeBB)]))
    && CodeAt(code, m, [Label(d.mergeBB)] + (extra + [Phi(d.res, I64, Pairs(d)), Ret(Some(d.res))]))
    && FindLabel(code, d.thenBB) == t && FindLabel(code, d.elseBB) == e && FindLabel(code, d.mergeBB) == m
  }

  lemma FlattenFour(a: Block, b: Block, c: Block, e: Block)
    ensures Flatten([a, b, c, e]) == a.code + (b.code + (c.code + e.code))
  {
    assert [a, b, c, e][1..] == [b, c, e] && [b, c, e][1..] == [c, e] && [c, e][1..] == [e] && [e][1..] == [];
    assert Flatten([e]) == e.code + Flatten([]) == e.code;
    assert Flatten([c, e]) == c.code + Flatten([e]);
    assert Flatten([b, c, e]) == b.code + Flatten([c, e]);
  }

  lemma DiamondParts(fname: string, d: Diamond, extra: seq<Instr>)
    requires Good(fname, d)
    ensures var bs := BlocksOf(d, extra);
      NoLabels(bs[0].code) && NoLabels(bs[1].code[1..]) && NoLabels(bs[2].code[1..])
      && CodeOf(d, extra) == bs[0].code + (bs[1].code + (bs[2].code + bs[3].code))
  {
    var bs := BlocksOf(d, extra);
    FlattenFour(bs[0], bs[1], bs[2], bs[3]);
    assert bs[1].code[1..] == d.thenP.code + [Br(d.mergeBB)];
    assert bs[2].code[1..] == d.elseP.code + [Br(d.mergeBB)];
  }

  lemma DiamondLaid(fname: string, d: Diamond, extra: seq<Instr>) returns (t: nat, e: nat, m: nat)
    requires Good(fname, d)
    ensures Laid(d, extra, CodeOf(d, extra), t, e, m)
  {
    hide FindLabel, CodeAt, CodeOf, NoLabels, AtMostOne, PieceGood;
    DiamondParts(fname, d, extra);
    var bs := BlocksOf(d, extra);
    var w, x, y, z := bs[0].code, bs[1].code, bs[2].code, bs[3].code;
    t, e, m := |w|, |w| + |x|, |w| + |x| + |y|;
    LabelsFound(w, x, y, z, d.thenBB, d.elseBB, d.mergeBB);
    FourParts(CodeOf(d, extra), w, x, y, z);
    CodeAtSplit(CodeOf(d, extra), 0, d.pre, [Branch(d)]);
    CodeAtFirst(CodeOf(d, extra), |d.pre|, [Branch(d)]);
  }

  // The three labels of a diamond are found at the heads of their blocks.
  lemma LabelsFound(w: seq<Instr>, x: seq<Instr>, y: seq<Instr>, z: seq<Instr>, a: string, b: string, c: string)
    requires NoLabels(w) && x != [] && x[0] == Label(a) && NoLabels(x[1..])
    requires y != [] && y[0] == Label(b) && NoLabels(y[1..]) && z != [] && z[0] == Label(c)
    requires a != b && a != c && b != c
    ensures var code := w + (x + (y + z));
      FindLabel(code, a) == |w| && FindLabel(code, b) == |w| + |x| && FindLabel(code, c) == |w| + |x| + |y|
  {
    hide FindLabel, NoLabels;
    SkipEntry(w, x + (y + z), a);
    HeadFound(x, y + z, a);
    SkipEntry(w, x + (y + z), b);
    SecondSpot(x, y, z, a, b);
    SkipEntry(w, x + (y + z), c);
    ThirdSpot(x, y, z, a, b, c);
  }

  lemma FourParts(code: seq<Instr>, w: seq<Instr>, x: seq<Instr>, y: seq<Instr>, z: seq<Instr>)
    requires code == w + (x + (y + z))
    ensures CodeAt(code, 0, w) && CodeAt(code, |w|, x) && CodeAt(code, |w| + |x|, y) && CodeAt(code, |w| + |x| + |y|, z)
  {
    WholeCode(code);
    hide CodeAt;
    CodeAtSplit(code, 0, w, x + (y + z));
    CodeAtSplit(code, |w|, x, y + z);
    CodeAtSplit(code, |w| + |x|, y, z);
  }

  // A block that starts with its label has no other.
  lemma OtherLabel(x: seq<Instr>, a: string, name: string)
    requires x != [] && x[0] == Label(a) && NoLabels(x[1..]) && name != a
    ensures forall k | 0 <= k < |x| :: x[k] != Label(name)
  {
    forall k | 0 <= k < |x|
      ensures x[k] != Label(name)
    {
      assert k > 0 ==> x[k] == x[1..][k - 1];
    }
  }

  lemma HeadFound(x: seq<Instr>, rest: seq<Instr>, a: string)
    requires x != [] && x[0] == Label(a)
    ensures FindLabel(x + rest, a) == 0
  {
  }

  lemma NoneLabelled(w: seq<Instr>, a: string)
    requires NoLabels(w)
    ensures forall k | 0 <= k < |w| :: w[k] != Label(a)
  {
  }

  // Over a block to what follows it.
  lemma SkipBlock(x: seq<Instr>, rest: seq<Instr>, a: string, name: string)
    requires x != [] && x[0] == Label(a) && NoLabels(x[1..]) && name != a
    ensures FindLabel(x + rest, name) == |x| + FindLabel(rest, name)
  {
    hide FindLabel;
    OtherLabel(x, a, name);
    hide NoLabels;
    FindPast(x, rest, name);
  }

  lemma SkipEntry(w: seq<Instr>, rest: seq<Instr>, name: string)
    requires NoLabels(w)
    ensures FindLabel(w + rest, name) == |w| + FindLabel(rest, name)
  {
    hide FindLabel;
    NoneLabelled(w, name);
    hide NoLabels;
    FindPast(w, rest, name);
  }

  lemma HeadAlone(z: seq<Instr>, c: string)
    requires z != [] && z[0] == Label(c)
    ensures FindLabel(z, c) == 0
  {
  }

  lemma SecondSpot(x: seq<Instr>, y: seq<Instr>, z: seq<Instr>, a: string, b: string)
    requires x != [] && x[0] == Label(a) && NoLabels(x[1..]) && y != [] && y[0] == Label(b) && a != b
    ensures FindLabel(x + (y + z), b) == |x|
  {
    SkipBlock(x, y + z, a, b);
    HeadFound(y, z, b);
    hide FindLabel, NoLabels;
  }

  lemma ThirdSpot(x: seq<Instr>, y: seq<Instr>, z: seq<Instr>, a: string, b: string, c: string)
    requires x != [] && x[0] == Label(a) && NoLabels(x[1..]) && y != [] && y[0] == Label(b) && NoLabels(y[1..])
    requires z != [] && z[0] == Label(c) && a != c && b != c
    ensures FindLabel(x + (y + z), c) == |x| + |y|
  {
    SkipBlock(x, y + z, a, c);
    SkipBlock(y, z, b, c);
    HeadAlone(z, c);
    hide FindLabel, NoLabels;
  }

  // The side taken when the condition has this value.
  function Taken(d: Diamond, c: int): Piece {
    if (c != 0) != d.inverted then d.thenP else d.elseP
  }

  function TakenBB(d: Diamond, c: int): string {
    if (c != 0) != d.inverted then d.thenBB else d.elseBB
  }

  // From the entry to the first instruction of the side taken.
  lemma RunToArm(d: Diamond, extra: seq<Instr>, code: seq<Instr>, oracle: Oracle, frame: Frame, trace: seq<Event>,
                 t: nat, e: nat, m: nat, env1: map<string, int>, c: int) returns (n: nat, frame1: Frame)
    requires AtMostOne(d.pre) && Laid(d, extra, code, t, e, m)
    requires FlowOf(d.pre, frame.env) == Goes(env1) && Operand(env1, d.cond) == Some(c)
    ensures Steps(code, oracle, Running(0, frame, trace), n) ==
            Running((if TakenBB(d, c) == d.thenBB && Taken(d, c) == d.thenP && (c != 0) != d.inverted then t else e)
              + 1, frame1, trace)
    ensures frame1 == frame.(env := env1, prev := frame.block, block := TakenBB(d, c))
  {
    hide Steps, Operand, FindLabel, FlowOf, AtMostOne;
    var start := Running(0, frame, trace);
    StraightRun(code, oracle, 0, d.pre, frame, trace);
    var at := Running(|d.pre|, frame.(env := env1), trace);
    assert Steps(code, oracle, start, |d.pre|) == at;
    var p := if (c != 0) != d.inverted then t else e;
    One(code, oracle, at);
    var there := Running(p, frame.(env := env1), trace);
    assert p < |code| by {
      CodeAtFirst(code, t, [Label(d.thenBB)] + (d.thenP.code + [Br(d.mergeBB)]));
      CodeAtFirst(code, e, [Label(d.elseBB)] + (d.elseP.code + [Br(d.mergeBB)]));
    }
    assert Step(code, oracle, at) == there;
    Then(code, oracle, start, |d.pre|, at, 1, there);
    CodeAtFirst(code, p, [Label(TakenBB(d, c))] + (Taken(d, c).code + [Br(d.mergeBB)]));
    One(code, oracle, there);
    frame1 := frame.(env := env1, prev := frame.block, block := TakenBB(d, c));
    Then(code, oracle, start, |d.pre| + 1, there, 1, Running(p + 1, frame1, trace));
    n := |d.pre| + 2;
  }

  // From the end of a side to the first instruction of the merge.
  lemma RunToMerge(d: Diamond, extra: seq<Instr>, code: seq<Instr>, oracle: Oracle, pc: nat, frame: Frame,
      trace: seq<Event>,
                   t: nat, e: nat, m: nat)
    requires Laid(d, extra, code, t, e, m) && pc < |code| && code[pc] == Br(d.mergeBB)
    ensures Steps(code, oracle, Running(pc, frame, trace), 2) ==
            Running(m + 1, frame.(prev := frame.block, block := d.mergeBB), trace)
  {
    hide Steps, FindLabel, CodeAt;
    CodeAtFirst(code, m, [Label(d.mergeBB)] + (extra + [Phi(d.res, I64, Pairs(d)), Ret(Some(d.res))]));
    var start, c1 := Running(pc, frame, trace), Running(m, frame, trace);
    One(code, oracle, start);
    One(code, oracle, c1);
    Then(code, oracle, start, 1, c1, 1, Running(m + 1, frame.(prev := frame.block, block := d.mergeBB), trace));
  }

  // A phi that picks s gives its value to dest.
  lemma RunPhi(code: seq<Instr>, oracle: Oracle, pc: nat, frame: Frame, trace: seq<Event>, dest: string,
      pairs: seq<(string, string)>, s: string, v: int)
    requires pc < |code| && code[pc] == Phi(dest, I64, pairs) && Incoming(pairs, frame.prev) == Some(s)
      && Operand(frame.env, s) == Some(v)
    ensures Steps(code, oracle, Running(pc, frame, trace), 1)
      == Running(pc + 1, frame.(env := frame.env[dest := v]), trace)
    ensures dest != s ==> Operand(frame.env[dest := v], s) == Some(v)
    ensures !IsInteger(dest) ==> Operand(frame.env[dest := v], dest) == Some(v)
  {
    hide Steps, Incoming, IsInteger;
    One(code, oracle, Running(pc, frame, trace));
  }

  // The merge itself, after its label.
  lemma RunReturn(d: Diamond, code: seq<Instr>, oracle: Oracle, pc: nat, frame: Frame, trace: seq<Event>, s: string,
      v: int)
    requires CodeAt(code, pc, [Phi(d.res, I64, Pairs(d)), Ret(Some(d.res))])
    requires Incoming(Pairs(d), frame.prev) == Some(s) && Operand(frame.env, s) == Some(v) && !IsInteger(d.res)
    ensures Steps(code, oracle, Running(pc, frame, trace), 2) == Returned(Some(v), trace)
  {
    hide Steps, Incoming, IsInteger, Operand, CodeAt, Pairs;
    CodeAtPair(code, pc, [Phi(d.res, I64, Pairs(d)), Ret(Some(d.res))]);
    RunPhi(code, oracle, pc, frame, trace, d.res, Pairs(d), s, v);
    var frame1 := frame.(env := frame.env[d.res := v]);
    One(code, oracle, Running(pc + 1, frame1, trace));
    Then(code, oracle, Running(pc, frame, trace), 1, Running(pc + 1, frame1, trace), 1, Returned(Some(v), trace));
  }

  // From the end of a side, through the merge, to the return.
  lemma RunMerge(d: Diamond, extra: seq<Instr>, code: seq<Instr>, oracle: Oracle, pc: nat, frame: Frame,
      trace: seq<Event>,
                 t: nat, e: nat, m: nat, c: int, v: int) returns (n: nat)
    requires Laid(d, extra, code, t, e, m) && d.thenBB != d.elseBB
    requires extra == []
      || (|extra| == 1 && extra[0].Phi? && extra[0].ty == I64 && extra[0].pairs == Pairs(d)
      && extra[0].dest != Taken(d, c).operand)
    requires pc < |code| && code[pc] == Br(d.mergeBB) && frame.block == TakenBB(d, c)
    requires Operand(frame.env, Taken(d, c).operand) == Some(v) && !IsInteger(d.res)
    ensures Steps(code, oracle, Running(pc, frame, trace), n) == Returned(Some(v), trace)
  {
    hide Steps, Step, FindLabel, CodeAt, IsInteger, Operand, Incoming, Pairs, Laid;
    RunToMerge(d, extra, code, oracle, pc, frame, trace, t, e, m);
    MergeAt(d, extra, code, t, e, m);
    var s := Taken(d, c).operand;
    Picks(d, c);
    hide Taken, TakenBB;
    var frame1 := frame.(prev := frame.block, block := d.mergeBB);
    var start, c1 := Running(pc, frame, trace), Running(m + 1, frame1, trace);
    var more := RunRest(d, extra, code, oracle, m + 1, frame1, trace, s, v);
    Then(code, oracle, start, 2, c1, more, Returned(Some(v), trace));
    n := 2 + more;
  }

  lemma MergeAt(d: Diamond, extra: seq<Instr>, code: seq<Instr>, t: nat, e: nat, m: nat)
    requires Laid(d, extra, code, t, e, m)
    ensures CodeAt(code, m + 1, extra) && CodeAt(code, m + 1 + |extra|, [Phi(d.res, I64, Pairs(d)), Ret(Some(d.res))])
  {
    hide CodeAt, FindLabel, Pairs;
    var tail := [Phi(d.res, I64, Pairs(d)), Ret(Some(d.res))];
    CodeAtSplit(code, m, [Label(d.mergeBB)], extra + tail);
    CodeAtSplit(code, m + 1, extra, tail);
  }

  // The extra phi, if there is one, and the merge proper.
  lemma RunRest(d: Diamond, extra: seq<Instr>, code: seq<Instr>, oracle: Oracle, pc: nat, frame: Frame,
      trace: seq<Event>,
                s: string, v: int) returns (n: nat)
    requires CodeAt(code, pc, extra) && CodeAt(code, pc + |extra|, [Phi(d.res, I64, Pairs(d)), Ret(Some(d.res))])
    requires extra == []
      || (|extra| == 1 && extra[0].Phi? && extra[0].ty == I64 && extra[0].pairs == Pairs(d) && extra[0].dest != s)
    requires Incoming(Pairs(d), frame.prev) == Some(s) && Operand(frame.env, s) == Some(v) && !IsInteger(d.res)
    ensures Steps(code, oracle, Running(pc, frame, trace), n) == Returned(Some(v), trace)
  {
    hide Steps, Step, CodeAt, IsInteger, Operand, Incoming, Pairs;
    if extra == [] {
      RunReturn(d, code, oracle, pc, frame, trace, s, v);
      n := 2;
    } else {
      CodeAtFirst(code, pc, extra);
      RunPhi(code, oracle, pc, frame, trace, extra[0].dest, Pairs(d), s, v);
      var frame1 := frame.(env := frame.env[extra[0].dest := v]);
      RunReturn(d, code, oracle, pc + 1, frame1, trace, s, v);
      Then(code, oracle, Running(pc, frame, trace), 1, Running(pc + 1, frame1, trace), 2, Returned(Some(v), trace));
      n := 3;
    }
  }

  lemma Picks(d: Diamond, c: int)
    requires d.thenBB != d.elseBB
    ensures Incoming(Pairs(d), TakenBB(d, c)) == Some(Taken(d, c).operand)
  {
    assert Pairs(d)[1..] == [(d.elseP.operand, d.elseBB)];
  }

  /** A diamond returns the value of the side its condition takes, or traps where that side
      traps, with or without the extra phi. */
  lemma DiamondRuns(fname: string, d: Diamond, extra: seq<Instr>, oracle: Oracle, frame: Frame, trace: seq<Event>,
                    env1: map<string, int>, c: int, v: int) returns (n: nat)
    requires Good(fname, d) && !IsInteger(d.res)
    requires extra == [] || (|extra| == 1 && extra[0].Phi? && extra[0].ty == I64 && extra[0].pairs == Pairs(d)
                             && extra[0].dest != d.thenP.operand && extra[0].dest != d.elseP.operand)
    requires FlowOf(d.pre, frame.env) == Goes(env1) && Operand(env1, d.cond) == Some(c)
    requires var flow := FlowOf(Taken(d, c).code, env1);
      flow == Traps || (flow.Goes? && Operand(flow.env, Taken(d, c).operand) == Some(v))
    ensures Steps(CodeOf(d, extra), oracle, Running(0, frame, trace), n) ==
            if FlowOf(Taken(d, c).code, env1).Traps? then Trapped(trace) else Returned(Some(v), trace)
  {
    hide Steps, Operand, FindLabel, FlowOf, CodeOf, IsInteger, CodeAt, Laid, Good, Pairs;
    var code := CodeOf(d, extra);
    var t, e, m := DiamondLaid(fname, d, extra);
    GoodParts(fname, d);
    var n1, frame1 := RunToArm(d, extra, code, oracle, frame, trace, t, e, m, env1, c);
    var p, arm := (if (c != 0) != d.inverted then t else e), Taken(d, c);
    var start := Running(0, frame, trace);
    assert Steps(code, oracle, start, n1) == Running(p + 1, frame1, trace);
    ArmAt(d, extra, code, t, e, m, c);
    StraightRun(code, oracle, p + 1, arm.code, frame1, trace);
    var flow := FlowOf(arm.code, env1);
    n := n1 + |arm.code|;
    if flow.Traps? {
      Then(code, oracle, start, n1, Running(p + 1, frame1, trace), |arm.code|, Trapped(trace));
    } else {
      var frame2 := frame1.(env := flow.env);
      var pc := p + 1 + |arm.code|;
      Then(code, oracle, start, n1, Running(p + 1, frame1, trace), |arm.code|, Running(pc, frame2, trace));
      var k := RunMerge(d, extra, code, oracle, pc, frame2, trace, t, e, m, c, v);
      Then(code, oracle, start, n, Running(pc, frame2, trace), k, Returned(Some(v), trace));
      n := n + k;
    }
  }

  lemma GoodParts(fname: string, d: Diamond)
    requires Good(fname, d)
    ensures AtMostOne(d.pre) && AtMostOne(d.thenP.code) && AtMostOne(d.elseP.code) && d.thenBB != d.elseBB
  {
  }

  // The side taken sits between its label and its branch to the merge.
  lemma ArmAt(d: Diamond, extra: seq<Instr>, code: seq<Instr>, t: nat, e: nat, m: nat, c: int)
    requires Laid(d, extra, code, t, e, m)
    ensures var p, arm := (if (c != 0) != d.inverted then t else e), Taken(d, c);
      CodeAt(code, p + 1, arm.code) && p + 1 + |arm.code| < |code| && code[p + 1 + |arm.code|] == Br(d.mergeBB)
  {
    hide CodeAt, FindLabel;
    var p, arm := (if (c != 0) != d.inverted then t else e), Taken(d, c);
    CodeAtSplit(code, p, [Label(TakenBB(d, c))], arm.code + [Br(d.mergeBB)]);
    CodeAtSplit(code, p + 1, arm.code, [Br(d.mergeBB)]);
    CodeAtFirst(code, p + 1 + |arm.code|, [Br(d.mergeBB)]);
  }
}
