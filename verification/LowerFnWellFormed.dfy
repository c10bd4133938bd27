/** Lowered code is always well formed: a verifier for the IR, and the proof that it accepts
    whatever the lowering emits. */
module LowerFnWellFormed {
  import opened Names
  import opened Ir
  import opened LowerFn
  import S = Source

  // ----- Labels and branch targets -----

  ghost predicate LabelsUnique(code: seq<Instr>) {
    forall i, j | 0 <= i < j < |code| && code[i].Label? && code[j].Label? :: code[i].name != code[j].name
  }

  function Targets(i: Instr): set<string> {
    match i
    case Br(t) => {t}
    case BrCond(_, t, f) => {t, f}
    case _ => {}
  }

  ghost predicate TargetsExist(code: seq<Instr>, whole: seq<Instr>) {
    forall i, t | 0 <= i < |code| && t in Targets(code[i]) :: Label(t) in whole
  }

  // Labels of `code` carry counters from ks, each at most once.
  ghost predicate OwnsLabels(fname: string, code: seq<Instr>, ks: set<nat>) {
    && (forall i | 0 <= i < |code| && code[i].Label? :: exists kind, k {:trigger LabelName(fname, kind, k)} ::
      k in ks && code[i].name == LabelName(fname, kind, k))
    && LabelsUnique(code)
  }

  function Range(lo: nat, hi: nat): (r: set<nat>)
    ensures forall k: nat :: k in r <==> lo <= k < hi
    decreases hi - lo
  {
    if lo >= hi then {} else {lo} + Range(lo + 1, hi)
  }

  lemma OwnOne(fname: string, kind: string, k: nat)
    ensures OwnsLabels(fname, [Label(LabelName(fname, kind, k))], {k})
  {
  }

  lemma OwnJoin(fname: string, a: seq<Instr>, ks: set<nat>, b: seq<Instr>, ls: set<nat>)
    requires OwnsLabels(fname, a, ks) && OwnsLabels(fname, b, ls) && ks !! ls
    ensures OwnsLabels(fname, a + b, ks + ls)
  {
    hide LabelName;
    forall i, j | 0 <= i < |a| && 0 <= j < |b| && a[i].Label? && b[j].Label?
      ensures a[i].name != b[j].name
    {
      var kind1, k :| k in ks && a[i].name == LabelName(fname, kind1, k);
      var kind2, l :| l in ls && b[j].name == LabelName(fname, kind2, l);
      if a[i].name == b[j].name {
        LabelNameInjective(fname, kind1, k, kind2, l);
      }
    }
    forall i | 0 <= i < |a + b| && (a + b)[i].Label?
      ensures exists kind, k {:trigger LabelName(fname, kind, k)} ::
        k in ks + ls && (a + b)[i].name == LabelName(fname, kind, k)
    {
      if i < |a| {
        var kind, k :| k in ks && a[i].name == LabelName(fname, kind, k);
      } else {
        var kind, k :| k in ls && b[i - |a|].name == LabelName(fname, kind, k);
      }
    }
  }

  lemma OwnWeaken(fname: string, code: seq<Instr>, ks: set<nat>, ls: set<nat>)
    requires OwnsLabels(fname, code, ks) && ks <= ls
    ensures OwnsLabels(fname, code, ls)
  {
  }

  ghost predicate Straight(code: seq<Instr>) {
    forall i | 0 <= i < |code| :: !code[i].Label? && Targets(code[i]) == {}
  }

  lemma {:induction false} ExprStraight(e: S.Expr, slots: map<string, string>, t: nat)
    requires LoweredExpr(e, slots, t).Some?
    ensures Straight(LoweredExpr(e, slots, t).value.code)
    decreases e, 1
  {
    match e
    case Grouping(inner) => ExprStraight(inner, slots, t);
    case Unary(_, right) => ExprStraight(right, slots, t);
    case Binary(left, _, right) =>
      ExprStraight(left, slots, t);
      ExprStraight(right, slots, LoweredExpr(left, slots, t).value.nextTmp);
    case Call(_, args) => ArgsStraight(args, slots, t);
    case _ =>
  }

  lemma {:induction false} ArgsStraight(args: seq<S.Expr>, slots: map<string, string>, t: nat)
    requires LoweredArgs(args, slots, t).Some?
    ensures Straight(LoweredArgs(args, slots, t).value.code)
    decreases args, 0
  {
    if args != [] {
      ArgsStraight(args[..|args| - 1], slots, t);
      ExprStraight(args[|args| - 1], slots, LoweredArgs(args[..|args| - 1], slots, t).value.nextTmp);
    }
  }

  ghost predicate LabelsGood(fname: string, st: State, part: StmtCode) {
    && st.nextLbl <= part.state.nextLbl
    && OwnsLabels(fname, part.code, Range(st.nextLbl, part.state.nextLbl))
    && TargetsExist(part.code, part.code)
  }

  lemma StraightLabels(fname: string, code: seq<Instr>, n: nat)
    requires Straight(code)
    ensures OwnsLabels(fname, code, Range(n, n)) && TargetsExist(code, code)
  {
  }

  lemma {:induction false} StmtLabels(fname: string, s: S.Stmt, st: State)
    requires LoweredStmt(fname, s, st).Some?
    ensures LabelsGood(fname, st, LoweredStmt(fname, s, st).value)
    decreases s, 1
  {
    hide OwnsLabels, TargetsExist, LoweredExpr, LabelName, IfCode, WhileCode;
    if st.terminated {
      StraightLabels(fname, [], st.nextLbl);
    } else {
      match s
      case Block(stmts) => SeqLabels(fname, stmts, st);
      case Let(_, init) =>
        ExprStraight(init, st.slots, st.nextTmp);
        StraightLabels(fname, LoweredStmt(fname, s, st).value.code, st.nextLbl);
      case Expression(e) =>
        ExprStraight(e, st.slots, st.nextTmp);
        StraightLabels(fname, LoweredStmt(fname, s, st).value.code, st.nextLbl);
      case Return(value) =>
        if value.Some? {
          ExprStraight(value.value, st.slots, st.nextTmp);
        }
        StraightLabels(fname, LoweredStmt(fname, s, st).value.code, st.nextLbl);
      case If(cond, thenBranch, elseBranch) =>
        var c := LoweredExpr(cond, st.slots, st.nextTmp).value;
        ExprStraight(cond, st.slots, st.nextTmp);
        var st1 := st.(nextTmp := c.nextTmp, nextLbl := st.nextLbl + if elseBranch.Some? then 3 else 2);
        StmtLabels(fname, thenBranch, st1);
        var t := LoweredStmt(fname, thenBranch, st1).value;
        var st2 := t.state.(terminated := false);
        if elseBranch.Some? {
          StmtLabels(fname, elseBranch.value, st2);
          var e := LoweredStmt(fname, elseBranch.value, st2).value;
          IfLabels(fname, c, t, Some(e), st.nextLbl, st1.nextLbl, t.state.nextLbl, e.state.nextLbl);
        } else {
          IfLabels(fname, c, t, None, st.nextLbl, st1.nextLbl, t.state.nextLbl, t.state.nextLbl);
        }
      case While(cond, body) =>
        var c := LoweredExpr(cond, st.slots, st.nextTmp).value;
        ExprStraight(cond, st.slots, st.nextTmp);
        var st1 := st.(nextTmp := c.nextTmp, nextLbl := st.nextLbl + 3);
        StmtLabels(fname, body, st1);
        WhileLabels(fname, c, LoweredStmt(fname, body, st1).value, st.nextLbl,
          LoweredStmt(fname, body, st1).value.state.nextLbl);
    }
  }

  lemma {:induction false} SeqLabels(fname: string, stmts: seq<S.Stmt>, st: State)
    requires LoweredSeq(fname, stmts, st).Some?
    ensures LabelsGood(fname, st, LoweredSeq(fname, stmts, st).value)
    decreases stmts, 0
  {
    hide OwnsLabels, LoweredStmt;
    if stmts == [] {
      StraightLabels(fname, [], st.nextLbl);
    } else {
      StmtLabels(fname, stmts[0], st);
      var h := LoweredStmt(fname, stmts[0], st).value;
      SeqLabels(fname, stmts[1..], h.state);
      var r := LoweredSeq(fname, stmts[1..], h.state).value;
      OwnJoin(fname, h.code, Range(st.nextLbl, h.state.nextLbl), r.code, Range(h.state.nextLbl, r.state.nextLbl));
      OwnWeaken(fname, h.code + r.code, Range(st.nextLbl, h.state.nextLbl) + Range(h.state.nextLbl, r.state.nextLbl),
                Range(st.nextLbl, r.state.nextLbl));
    }
  }

  lemma IfLabels(fname: string, c: ExprCode, t: StmtCode, e: Option<StmtCode>, n: nat, lo: nat, mid: nat, hi: nat)
    requires Straight(c.code) && lo == n + (if e.Some? then 3 else 2) && lo <= mid <= hi
    requires OwnsLabels(fname, t.code, Range(lo, mid)) && TargetsExist(t.code, t.code)
    requires e.Some? ==> OwnsLabels(fname, e.value.code, Range(mid, hi)) && TargetsExist(e.value.code, e.value.code)
    ensures var thenBB, mergeBB := LabelName(fname, "then", n), LabelName(fname, "merge", n + 1);
      var elseBB := if e.Some? then LabelName(fname, "else", n + 2) else mergeBB;
      var code := IfCode(c, t, e, thenBB, elseBB, mergeBB);
      OwnsLabels(fname, code, Range(n, hi)) && TargetsExist(code, code)
  {
    hide LabelName, TargetsExist, Targets;
    var thenBB, mergeBB := LabelName(fname, "then", n), LabelName(fname, "merge", n + 1);
    var elseBB := if e.Some? then LabelName(fname, "else", n + 2) else mergeBB;
    var test, join, elseCode := [BrCond(c.operand, thenBB, elseBB), Label(thenBB)],
      BranchTo(t.state.terminated, mergeBB), ElseCode(e, elseBB, mergeBB);
    OwnOne(fname, "merge", n + 1);
    var r1 := elseCode + [Label(mergeBB)];
    var k0 := if e.Some? then {n + 2} + Range(mid, hi) else {};
    if e.Some? {
      OwnOne(fname, "else", n + 2);
      assert OwnsLabels(fname, BranchTo(e.value.state.terminated, mergeBB), {});
      OwnJoin(fname, e.value.code, Range(mid, hi), BranchTo(e.value.state.terminated, mergeBB), {});
      OwnJoin(fname, [Label(elseBB)], {n + 2}, e.value.code + BranchTo(e.value.state.terminated, mergeBB),
        Range(mid, hi) + {});
      OwnWeaken(fname, elseCode, {n + 2} + (Range(mid, hi) + {}), k0);
    }
    OwnJoin(fname, elseCode, k0, [Label(mergeBB)], {n + 1});
    assert OwnsLabels(fname, join, {});
    OwnJoin(fname, join, {}, r1, k0 + {n + 1});
    OwnJoin(fname, t.code, Range(lo, mid), join + r1, {} + (k0 + {n + 1}));
    TestLabels(fname, c, thenBB, elseBB, "then", n);
    OwnJoin(fname, test, {n}, t.code + (join + r1), Range(lo, mid) + ({} + (k0 + {n + 1})));
    OwnJoin(fname, c.code, {}, test + (t.code + (join + r1)), {n} + (Range(lo, mid) + ({} + (k0 + {n + 1}))));
    var code := IfCode(c, t, e, thenBB, elseBB, mergeBB);
    OwnWeaken(fname, code, {} + ({n} + (Range(lo, mid) + ({} + (k0 + {n + 1})))), Range(n, hi));
    IfTargets(c, t, e, thenBB, elseBB, mergeBB);
  }

  lemma TestLabels(fname: string, c: ExprCode, yes: string, no: string, kind: string, k: nat)
    requires Straight(c.code) && yes == LabelName(fname, kind, k)
    ensures OwnsLabels(fname, c.code, {}) && OwnsLabels(fname, [BrCond(c.operand, yes, no), Label(yes)], {k})
  {
  }

  lemma TargetsJoin(a: seq<Instr>, b: seq<Instr>, whole: seq<Instr>)
    requires TargetsExist(a, whole) && TargetsExist(b, whole)
    ensures TargetsExist(a + b, whole)
  {
  }

  // Code that is closed under its own targets stays so inside a longer listing.
  lemma TargetsWiden(a: seq<Instr>, whole: seq<Instr>)
    requires TargetsExist(a, a) && forall i | i in a :: i in whole
    ensures TargetsExist(a, whole)
  {
  }

  lemma IfTargets(c: ExprCode, t: StmtCode, e: Option<StmtCode>, thenBB: string, elseBB: string, mergeBB: string)
    requires Straight(c.code) && TargetsExist(t.code, t.code) && (e.Some? ==> TargetsExist(e.value.code, e.value.code))
    requires e.None? ==> elseBB == mergeBB
    ensures var code := IfCode(c, t, e, thenBB, elseBB, mergeBB); TargetsExist(code, code)
  {
    var code := IfCode(c, t, e, thenBB, elseBB, mergeBB);
    var test, join, elseCode := [BrCond(c.operand, thenBB, elseBB), Label(thenBB)],
      BranchTo(t.state.terminated, mergeBB), ElseCode(e, elseBB, mergeBB);
    assert Label(mergeBB) in code && Label(thenBB) in code && Label(elseBB) in code by {
      assert Label(mergeBB) in [Label(mergeBB)] && Label(thenBB) in test;
      if e.Some? {
        assert Label(elseBB) in elseCode;
      }
    }
    assert TargetsExist(test, code) && TargetsExist(join, code) && TargetsExist([Label(elseBB)], code);
    assert TargetsExist([Label(mergeBB)], code) && TargetsExist(c.code, code);
    assert e.Some? ==> TargetsExist(BranchTo(e.value.state.terminated, mergeBB), code);
    hide TargetsExist, Targets, Straight, BranchTo;
    TargetsWiden(t.code, code);
    if e.Some? {
      TargetsWiden(e.value.code, code);
      TargetsJoin(e.value.code, BranchTo(e.value.state.terminated, mergeBB), code);
      TargetsJoin([Label(elseBB)], e.value.code + BranchTo(e.value.state.terminated, mergeBB), code);
    }
    TargetsJoin(elseCode, [Label(mergeBB)], code);
    TargetsJoin(join, elseCode + [Label(mergeBB)], code);
    TargetsJoin(t.code, join + (elseCode + [Label(mergeBB)]), code);
    TargetsJoin(test, t.code + (join + (elseCode + [Label(mergeBB)])), code);
    TargetsJoin(c.code, test + (t.code + (join + (elseCode + [Label(mergeBB)]))), code);
  }

  lemma WhileLabels(fname: string, c: ExprCode, b: StmtCode, n: nat, hi: nat)
    requires Straight(c.code) && n + 3 <= hi
    requires OwnsLabels(fname, b.code, Range(n + 3, hi)) && TargetsExist(b.code, b.code)
    ensures var code := WhileCode(c, b, LabelName(fname, "while_head", n), LabelName(fname, "while_body", n + 1),
      LabelName(fname, "while_exit", n + 2));
      OwnsLabels(fname, code, Range(n, hi)) && TargetsExist(code, code)
  {
    hide LabelName;
    var headBB, bodyBB, exitBB := LabelName(fname, "while_head", n), LabelName(fname, "while_body", n + 1),
      LabelName(fname, "while_exit", n + 2);
    var head, test, back := [Br(headBB), Label(headBB)], [BrCond(c.operand, bodyBB, exitBB), Label(bodyBB)],
      BranchTo(b.state.terminated, headBB);
    OwnOne(fname, "while_exit", n + 2);
    assert OwnsLabels(fname, back, {}) && OwnsLabels(fname, head, {n});
    OwnJoin(fname, back, {}, [Label(exitBB)], {n + 2});
    OwnJoin(fname, b.code, Range(n + 3, hi), back + [Label(exitBB)], {} + {n + 2});
    TestLabels(fname, c, bodyBB, exitBB, "while_body", n + 1);
    OwnJoin(fname, test, {n + 1}, b.code + (back + [Label(exitBB)]), Range(n + 3, hi) + ({} + {n + 2}));
    OwnJoin(fname, c.code, {}, test + (b.code + (back + [Label(exitBB)])),
      {n + 1} + (Range(n + 3, hi) + ({} + {n + 2})));
    var r := c.code + (test + (b.code + (back + [Label(exitBB)])));
    OwnJoin(fname, head, {n}, r, {} + ({n + 1} + (Range(n + 3, hi) + ({} + {n + 2}))));
    var code := WhileCode(c, b, headBB, bodyBB, exitBB);
    OwnWeaken(fname, code, {n} + ({} + ({n + 1} + (Range(n + 3, hi) + ({} + {n + 2})))), Range(n, hi));
    WhileTargets(c, b, headBB, bodyBB, exitBB);
  }

  lemma WhileTargets(c: ExprCode, b: StmtCode, headBB: string, bodyBB: string, exitBB: string)
    requires Straight(c.code) && TargetsExist(b.code, b.code)
    ensures var code := WhileCode(c, b, headBB, bodyBB, exitBB); TargetsExist(code, code)
  {
    var code := WhileCode(c, b, headBB, bodyBB, exitBB);
    var head, test, back := [Br(headBB), Label(headBB)], [BrCond(c.operand, bodyBB, exitBB), Label(bodyBB)],
      BranchTo(b.state.terminated, headBB);
    assert Label(headBB) in code && Label(bodyBB) in code && Label(exitBB) in code by {
      assert Label(headBB) in head && Label(bodyBB) in test && Label(exitBB) in [Label(exitBB)];
    }
    TargetsWiden(b.code, code);
    TargetsJoin(back, [Label(exitBB)], code);
    TargetsJoin(b.code, back + [Label(exitBB)], code);
    TargetsJoin(test, b.code + (back + [Label(exitBB)]), code);
    TargetsJoin(c.code, test + (b.code + (back + [Label(exitBB)])), code);
    TargetsJoin(head, c.code + (test + (b.code + (back + [Label(exitBB)]))), code);
  }

  // ----- Blocks, temporaries and slots -----

  predicate IsTerminator(i: Instr) {
    i.Br? || i.BrCond? || i.Ret? || i.Deopt?
  }

  function Uses(i: Instr): set<string> {
    match i
    case Arith(_, _, a, b) => {a, b}
    case ICmp(_, _, a, b) => {a, b}
    case Call(_, _, args) => set a | a in args
    case Store(_, val) => {val}
    case BrCond(cond, _, _) => {cond}
    case Phi(_, _, pairs) => set p | p in pairs :: p.0
    case Ret(Some(v)) => {v}
    case _ => {}
  }

  function Dest(i: Instr): Option<string> {
    match i
    case ConstI64(d, _) => Some(d)
    case Arith(_, d, _, _) => Some(d)
    case ICmp(d, _, _, _) => Some(d)
    case Call(d, _, _) => Some(d)
    case Load(d, _) => Some(d)
    case Phi(d, _, _) => Some(d)
    case _ => None
  }

  function Cells(i: Instr): set<string> {
    match i
    case Load(_, slot) => {slot}
    case Store(slot, _) => {slot}
    case _ => {}
  }

  // u is a literal, a parameter, or was defined at an earlier place of the same block.
  ghost predicate Available(code: seq<Instr>, params: set<string>, i: nat, u: string)
    requires i <= |code|
  {
    || IsInteger(u)
    || u in params
    || exists j :: 0 <= j < i && Dest(code[j]) == Some(u) && forall k | j < k < i :: !code[k].Label?
  }

  // A temporary is defined once.
  ghost predicate DefinedOnce(code: seq<Instr>) {
    forall i, j | 0 <= i < j < |code| && Dest(code[i]).Some? :: Dest(code[i]) != Dest(code[j])
  }

  // A temporary is used only after its definition, in the same block.
  ghost predicate UsedInBlock(code: seq<Instr>, params: set<string>) {
    forall i, u | 0 <= i < |code| && u in Uses(code[i]) :: Available(code, params, i, u)
  }

  // The slots come first, each once, and every access names one of them.
  ghost predicate SlotsFirst(code: seq<Instr>) {
    && (forall i, j | 0 <= i < j < |code| && code[j].Alloca? :: code[i].Alloca? && code[i] != code[j])
    && (forall i, c | 0 <= i < |code| && c in Cells(code[i]) :: Alloca(c) in code)
  }

  // Terminators are exactly the instructions before a label, so no block is fallen into.
  ghost predicate BlocksClosed(code: seq<Instr>) {
    forall i | 0 <= i < |code| - 1 :: IsTerminator(code[i]) <==> code[i + 1].Label?
  }

  /** Blocks end in exactly one terminator and are never fallen into; a temporary is defined
      once and used only later in its own block; the slots come first, each once. */
  ghost predicate WellFormed(f: Function) {
    var params := set p | p in f.params :: p.0;
    && f.body != [] && IsTerminator(f.body[|f.body| - 1])
    && LabelsUnique(f.body) && TargetsExist(f.body, f.body) && BlocksClosed(f.body)
    && DefinedOnce(f.body) && UsedInBlock(f.body, params) && SlotsFirst(f.body)
  }

  // One pass that checks all of it, from the first instruction to the last.
  datatype Scan = Scan(open: bool, entry: bool, local: set<string>, ever: set<string>, declared: set<string>)

  predicate Allowed(params: set<string>, local: set<string>, uses: set<string>) {
    forall u | u in uses :: IsInteger(u) || u in params || u in local
  }

  function ScanInstr(params: set<string>, i: Instr, s: Scan): Option<Scan> {
    if i.Label? then
      if s.open then None else Some(s.(open := true, entry := false, local := {}))
    else if !s.open || !Allowed(params, s.local, Uses(i)) || !(Cells(i) <= s.declared) then None
    else if i.Alloca? then
      if !s.entry || i.slot in s.declared then None else Some(s.(declared := s.declared + {i.slot}))
    else if IsTerminator(i) then Some(s.(open := false, entry := false))
    else
      match Dest(i)
      case None => Some(s.(entry := false))
      case Some(d) =>
        if d in s.ever then None
        else Some(s.(entry := false, local := s.local + {d}, ever := s.ever + {d}))
  }

  function ScanCode(params: set<string>, code: seq<Instr>, s: Scan): Option<Scan> {
    if code == [] then Some(s)
    else
      match ScanCode(params, code[..|code| - 1], s)
      case None => None
      case Some(s') => ScanInstr(params, code[|code| - 1], s')
  }

  const Fresh: Scan := Scan(true, true, {}, {}, {})

  // What the scanner's state says about the code it has read.
  ghost predicate ScanSays(code: seq<Instr>, s: Scan) {
    && (s.open <==> code == [] || !IsTerminator(code[|code| - 1]))
    && (forall u :: u in s.ever <==> exists j :: 0 <= j < |code| && Dest(code[j]) == Some(u))
    && (forall u | u in s.local :: exists j ::
      0 <= j < |code| && Dest(code[j]) == Some(u) && forall k | j < k < |code| :: !code[k].Label?)
    && (forall c :: c in s.declared <==> Alloca(c) in code)
    && (s.entry ==> forall i | 0 <= i < |code| :: code[i].Alloca?)
  }

  lemma SaysEver(front: seq<Instr>, i: Instr, ever: set<string>)
    requires forall u :: u in ever <==> exists j :: 0 <= j < |front| && Dest(front[j]) == Some(u)
    ensures forall u :: u in ever || Dest(i) == Some(u) <==>
                        exists j :: 0 <= j < |front + [i]| && Dest((front + [i])[j]) == Some(u)
  {
    hide Dest;
    var code := front + [i];
    forall u
      ensures u in ever || Dest(i) == Some(u) <==> exists j :: 0 <= j < |code| && Dest(code[j]) == Some(u)
    {
      if u in ever {
        var j :| 0 <= j < |front| && Dest(front[j]) == Some(u);
        assert Dest(code[j]) == Some(u);
      }
      if Dest(i) == Some(u) {
        assert Dest(code[|front|]) == Some(u);
      }
      if j :| 0 <= j < |code| && Dest(code[j]) == Some(u) {
        assert j < |front| ==> code[j] == front[j];
      }
    }
  }

  lemma SaysLocal(front: seq<Instr>, i: Instr, local: set<string>)
    requires forall u | u in local :: exists j ::
      0 <= j < |front| && Dest(front[j]) == Some(u) && forall k | j < k < |front| :: !front[k].Label?
    requires !i.Label?
    ensures var code := front + [i];
      forall u | u in local || Dest(i) == Some(u) ::
        exists j :: 0 <= j < |code| && Dest(code[j]) == Some(u) && forall k | j < k < |code| :: !code[k].Label?
  {
    hide Dest;
    var code := front + [i];
    forall u | u in local || Dest(i) == Some(u)
      ensures exists j :: 0 <= j < |code| && Dest(code[j]) == Some(u) && forall k | j < k < |code| :: !code[k].Label?
    {
      if u in local {
        var j :| 0 <= j < |front| && Dest(front[j]) == Some(u) && forall k | j < k < |front| :: !front[k].Label?;
        assert Dest(code[j]) == Some(u);
      } else {
        assert Dest(code[|front|]) == Some(u);
      }
    }
  }

  lemma SaysStep(params: set<string>, front: seq<Instr>, i: Instr, s: Scan)
    requires ScanSays(front, s) && ScanInstr(params, i, s).Some?
    ensures ScanSays(front + [i], ScanInstr(params, i, s).value)
  {
    hide Allowed, Uses, Cells;
    SaysEver(front, i, s.ever);
    if i.Label? {
      assert ScanInstr(params, i, s).value.local == {};
    } else {
      SaysLocal(front, i, s.local);
      SaysKinds(front, i, s);
    }
  }

  // Allocas and openness, one instruction on.
  lemma SaysKinds(front: seq<Instr>, i: Instr, s: Scan)
    requires ScanSays(front, s)
    ensures forall c :: c in s.declared || i == Alloca(c) <==> Alloca(c) in front + [i]
    ensures s.entry && i.Alloca? ==> forall k | 0 <= k < |front + [i]| :: (front + [i])[k].Alloca?
  {
    hide Dest;
  }

  lemma UsesStep(params: set<string>, front: seq<Instr>, i: Instr, s: Scan)
    requires ScanSays(front, s) && ScanInstr(params, i, s).Some?
    requires UsedInBlock(front, params)
    ensures UsedInBlock(front + [i], params)
  {
    var code := front + [i];
    forall k, u | 0 <= k < |code| && u in Uses(code[k])
      ensures Available(code, params, k, u)
    {
      if k < |front| {
        assert Available(front, params, k, u);
        if !IsInteger(u) && u !in params {
          var j :| 0 <= j < k && Dest(front[j]) == Some(u) && forall m | j < m < k :: !front[m].Label?;
          assert Dest(code[j]) == Some(u);
        }
      } else if u in s.local {
        var j :| 0 <= j < |front| && Dest(front[j]) == Some(u) && forall m | j < m < |front| :: !front[m].Label?;
        assert Dest(code[j]) == Some(u);
      }
    }
  }

  lemma DefinedStep(params: set<string>, front: seq<Instr>, i: Instr, s: Scan)
    requires ScanSays(front, s) && DefinedOnce(front) && ScanInstr(params, i, s).Some?
    ensures DefinedOnce(front + [i])
  {
    hide Uses, Allowed, Cells;
  }

  lemma SlotsStep(params: set<string>, front: seq<Instr>, i: Instr, s: Scan)
    requires ScanSays(front, s) && SlotsFirst(front) && ScanInstr(params, i, s).Some?
    ensures SlotsFirst(front + [i])
  {
    hide Uses, Allowed, Dest;
    var code := front + [i];
    forall k, c | 0 <= k < |code| && c in Cells(code[k])
      ensures Alloca(c) in code
    {
      assert Alloca(c) in front;
    }
  }

  lemma ClosedStep(params: set<string>, front: seq<Instr>, i: Instr, s: Scan)
    requires ScanSays(front, s) && BlocksClosed(front) && ScanInstr(params, i, s).Some?
    ensures BlocksClosed(front + [i])
  {
    hide Uses, Allowed, Dest, Cells;
  }

  lemma {:induction false} ScanSound(params: set<string>, code: seq<Instr>)
    requires ScanCode(params, code, Fresh).Some?
    ensures ScanSays(code, ScanCode(params, code, Fresh).value)
    ensures BlocksClosed(code) && DefinedOnce(code) && UsedInBlock(code, params) && SlotsFirst(code)
  {
    hide ScanSays, ScanInstr, BlocksClosed, DefinedOnce, UsedInBlock, SlotsFirst;
    if code == [] {
      ScanStart(params);
    } else {
      var front, i := code[..|code| - 1], code[|code| - 1];
      ScanSound(params, front);
      assert code == front + [i];
      var s := ScanCode(params, front, Fresh).value;
      SaysStep(params, front, i, s);
      ClosedStep(params, front, i, s);
      DefinedStep(params, front, i, s);
      UsesStep(params, front, i, s);
      SlotsStep(params, front, i, s);
    }
  }

  lemma ScanStart(params: set<string>)
    ensures ScanSays([], Fresh) && BlocksClosed([]) && DefinedOnce([]) && UsedInBlock([], params) && SlotsFirst([])
  {
  }

  // ----- The scanner accepts lowered code -----

  lemma {:induction false} ScanJoin(params: set<string>, a: seq<Instr>, b: seq<Instr>, s: Scan)
    requires ScanCode(params, a, s).Some?
    ensures ScanCode(params, a + b, s) == ScanCode(params, b, ScanCode(params, a, s).value)
  {
    if b == [] {
      assert a + b == a;
    } else {
      assert (a + b)[..|a + b| - 1] == a + b[..|b| - 1];
      ScanJoin(params, a, b[..|b| - 1], s);
    }
  }

  lemma ScanOne(params: set<string>, i: Instr, s: Scan)
    ensures ScanCode(params, [i], s) == ScanInstr(params, i, s)
  {
    assert [i][..0] == [];
  }

  ghost predicate EverBelow(s: Scan, t: nat) {
    forall u | u in s.ever :: exists k: nat {:trigger TmpName(k)} :: k < t && u == TmpName(k)
  }

  // From s the scanner reaches s' inside the same block, having seen temporaries below t only.
  ghost predicate SameBlock(s: Scan, s': Scan, t: nat) {
    s'.open && s'.declared == s.declared && s.local <= s'.local && EverBelow(s', t)
  }

  lemma NewTmpIsFresh(s: Scan, t: nat)
    requires EverBelow(s, t)
    ensures TmpName(t) !in s.ever
    ensures forall l, e, o :: EverBelow(Scan(o, e, l, s.ever + {TmpName(t)}, s.declared), t + 1)
  {
    if TmpName(t) in s.ever {
      var k: nat :| k < t && TmpName(t) == TmpName(k);
      TmpNameInjective(t, k);
    }
  }

  // One more instruction in the block, defining temporary t from operands at hand.
  lemma ScanDefine(params: set<string>, code: seq<Instr>, i: Instr, s: Scan, m: Scan, t: nat) returns (s': Scan)
    requires ScanCode(params, code, s) == Some(m) && SameBlock(s, m, t)
    requires !i.Label? && !i.Alloca? && !IsTerminator(i) && Dest(i) == Some(TmpName(t))
    requires Allowed(params, m.local, Uses(i)) && Cells(i) <= m.declared
    ensures ScanCode(params, code + [i], s) == Some(s') && SameBlock(s, s', t + 1) && TmpName(t) in s'.local
  {
    NewTmpIsFresh(m, t);
    ScanJoin(params, code, [i], s);
    ScanOne(params, i, m);
    s' := m.(entry := false, local := m.local + {TmpName(t)}, ever := m.ever + {TmpName(t)});
  }

  ghost predicate Declares(s: Scan, vars: set<string>) {
    forall x | x in vars :: SlotName(x) in s.declared
  }

  lemma {:induction false} ExprScan(params: set<string>, e: S.Expr, slots: map<string, string>, t: nat, s: Scan)
      returns (s': Scan)
    requires LoweredExpr(e, slots, t).Some? && s.open && EverBelow(s, t)
    requires SlotsNamed(slots) && Declares(s, slots.Keys)
    ensures var c := LoweredExpr(e, slots, t).value;
      && ScanCode(params, c.code, s) == Some(s') && SameBlock(s, s', c.nextTmp)
      && (IsInteger(c.operand) || c.operand in s'.local)
    decreases e, 1
  {
    hide ScanCode, ScanInstr, EverBelow, BinaryInstr;
    var c := LoweredExpr(e, slots, t).value;
    ScanNothing(params, s);
    s' := s;
    match e
    case IntLit(n) => IntRoundTrip(n);
    case BoolLit(b) =>
    case Variable(x) => s' := ScanDefine(params, [], c.code[0], s, s, t); assert [] + [c.code[0]] == c.code;
    case Grouping(inner) => s' := ExprScan(params, inner, slots, t, s);
    case Unary(_, right) =>
      var r := LoweredExpr(right, slots, t).value;
      s' := ExprScan(params, right, slots, t, s);
      s' := ScanDefine(params, r.code, Arith(Sub, TmpName(r.nextTmp), "0", r.operand), s, s', r.nextTmp);
    case Binary(left, op, right) =>
      var l := LoweredExpr(left, slots, t).value;
      var r := LoweredExpr(right, slots, l.nextTmp).value;
      var m := ExprScan(params, left, slots, t, s);
      s' := ExprScan(params, right, slots, l.nextTmp, m);
      ScanJoin(params, l.code, r.code, s);
      var i := BinaryInstr(op, TmpName(r.nextTmp), l.operand, r.operand).value;
      BinaryParts(op, TmpName(r.nextTmp), l.operand, r.operand);
      s' := ScanDefine(params, l.code + r.code, i, s, s', r.nextTmp);
    case Call(callee, args) =>
      var a := LoweredArgs(args, slots, t).value;
      s' := ArgsScan(params, args, slots, t, s);
      s' := ScanDefine(params, a.code, Ir.Call(TmpName(a.nextTmp), callee.name, a.operands), s, s', a.nextTmp);
    case OtherExpr =>
  }

  lemma ScanNothing(params: set<string>, s: Scan)
    ensures ScanCode(params, [], s) == Some(s)
  {
  }

  lemma BinaryParts(op: string, dest: string, l: string, r: string)
    requires BinaryInstr(op, dest, l, r).Some?
    ensures var i := BinaryInstr(op, dest, l, r).value;
      !i.Label? && !i.Alloca? && !IsTerminator(i) && Dest(i) == Some(dest) && Uses(i) == {l, r} && Cells(i) == {}
  {
  }

  lemma {:induction false} ArgsScan(params: set<string>, args: seq<S.Expr>, slots: map<string, string>, t: nat, s: Scan)
      returns (s': Scan)
    requires LoweredArgs(args, slots, t).Some? && s.open && EverBelow(s, t)
    requires SlotsNamed(slots) && Declares(s, slots.Keys)
    ensures var c := LoweredArgs(args, slots, t).value;
      && ScanCode(params, c.code, s) == Some(s') && SameBlock(s, s', c.nextTmp)
      && (forall o | o in c.operands :: IsInteger(o) || o in s'.local)
    decreases args, 0
  {
    hide ScanCode, ScanInstr, EverBelow;
    s' := s;
    ScanNothing(params, s);
    if args != [] {
      var a := LoweredArgs(args[..|args| - 1], slots, t).value;
      var m := ArgsScan(params, args[..|args| - 1], slots, t, s);
      s' := ExprScan(params, args[|args| - 1], slots, a.nextTmp, m);
      ScanJoin(params, a.code, LoweredExpr(args[|args| - 1], slots, a.nextTmp).value.code, s);
    }
  }

  // The scan of a lowered statement: its block stays open exactly when `terminated` is unset.
  ghost predicate StmtScanned(params: set<string>, part: StmtCode, s: Scan, s': Scan) {
    && ScanCode(params, part.code, s) == Some(s')
    && s'.open == !part.state.terminated && s'.declared == s.declared && EverBelow(s', part.state.nextTmp)
  }

  lemma ScanAppend(params: set<string>, a: seq<Instr>, b: seq<Instr>, s: Scan, m: Scan, s': Scan)
    requires ScanCode(params, a, s) == Some(m) && ScanCode(params, b, m) == Some(s')
    ensures ScanCode(params, a + b, s) == Some(s')
  {
    ScanJoin(params, a, b, s);
  }

  // Jump to a label if the block is still open; either way it is closed afterwards.
  lemma ScanBranch(params: set<string>, terminated: bool, target: string, s: Scan) returns (s': Scan)
    requires s.open == !terminated
    ensures ScanCode(params, BranchTo(terminated, target), s) == Some(s')
    ensures !s'.open && s'.declared == s.declared && s'.ever == s.ever
  {
    s' := if terminated then s else s.(open := false, entry := false);
    if !terminated {
      ScanOne(params, Br(target), s);
    }
  }

  lemma ScanLabel(params: set<string>, name: string, s: Scan) returns (s': Scan)
    requires !s.open
    ensures ScanCode(params, [Label(name)], s) == Some(s') && s' == s.(open := true, entry := false, local := {})
  {
    ScanOne(params, Label(name), s);
    s' := s.(open := true, entry := false, local := {});
  }

  // A conditional branch and the label it falls into.
  lemma ScanTest(params: set<string>, cond: string, yes: string, no: string, s: Scan) returns (s': Scan)
    requires s.open && (IsInteger(cond) || cond in s.local)
    ensures ScanCode(params, [BrCond(cond, yes, no), Label(yes)], s) == Some(s')
    ensures s'.open && s'.declared == s.declared && s'.ever == s.ever
  {
    ScanOne(params, BrCond(cond, yes, no), s);
    var m := s.(open := false, entry := false);
    s' := ScanLabel(params, yes, m);
    ScanAppend(params, [BrCond(cond, yes, no)], [Label(yes)], s, m, s');
    assert [BrCond(cond, yes, no)] + [Label(yes)] == [BrCond(cond, yes, no), Label(yes)];
  }

  lemma {:induction false} StmtScan(params: set<string>, fname: string, s: S.Stmt, st: State, z: Scan)
      returns (z': Scan)
    requires Consistent(st.allocas, st.slots) && LoweredStmt(fname, s, st).Some?
    requires z.open == !st.terminated && EverBelow(z, st.nextTmp)
      && Declares(z, LoweredStmt(fname, s, st).value.state.slots.Keys)
    ensures StmtScanned(params, LoweredStmt(fname, s, st).value, z, z')
    decreases s, 2
  {
    hide ScanCode, ScanInstr, EverBelow, LoweredExpr, Consistent;
    ConsistentNames(st.allocas, st.slots);
    z' := z;
    ScanNothing(params, z);
    if !st.terminated {
      var part := LoweredStmt(fname, s, st).value;
      match s
      case Block(stmts) => z' := SeqScan(params, fname, stmts, st, z);
      case Let(pattern, init) =>
        var v := LoweredExpr(init, st.slots, st.nextTmp).value;
        StmtShape(fname, s, st);
        ConsistentNames(part.state.allocas, part.state.slots);
        z' := ExprScan(params, init, st.slots, st.nextTmp, z);
        z' := ScanLast(params, v.code, Store(part.state.slots[pattern.name], v.operand), z, z', v.nextTmp);
      case Expression(e) => z' := ExprScan(params, e, st.slots, st.nextTmp, z);
      case Return(None) =>
        EverAgain(z, st.nextTmp);
        z' := ScanLast(params, [], Ret(Some("0")), z, z, st.nextTmp);
        assert [] + [Ret(Some("0"))] == part.code;
      case Return(Some(e)) =>
        var v := LoweredExpr(e, st.slots, st.nextTmp).value;
        z' := ExprScan(params, e, st.slots, st.nextTmp, z);
        z' := ScanLast(params, v.code, Ret(Some(v.operand)), z, z', v.nextTmp);
      case If(_, _, _) => z' := IfScan(params, fname, s, st, z);
      case While(_, _) => z' := WhileScan(params, fname, s, st, z);
      case Match(_, _) =>
      case OtherStmt =>
    }
  }

  lemma EverAgain(z: Scan, t: nat)
    requires EverBelow(z, t)
    ensures forall o, e, l, d :: EverBelow(Scan(o, e, l, z.ever, d), t)
  {
  }

  // A store or a return at the end of a stretch of one block.
  lemma ScanLast(params: set<string>, code: seq<Instr>, i: Instr, s: Scan, m: Scan, t: nat) returns (s': Scan)
    requires ScanCode(params, code, s) == Some(m) && SameBlock(s, m, t)
    requires i.Store? || i.Ret?
    requires Allowed(params, m.local, Uses(i)) && Cells(i) <= m.declared
    ensures ScanCode(params, code + [i], s) == Some(s') && s'.open == i.Store? && s'.declared == s.declared
      && EverBelow(s', t)
  {
    ScanJoin(params, code, [i], s);
    ScanOne(params, i, m);
    s' := m.(entry := false, open := i.Store?);
  }

  lemma {:induction false} SeqScan(params: set<string>, fname: string, stmts: seq<S.Stmt>, st: State, z: Scan)
      returns (z': Scan)
    requires Consistent(st.allocas, st.slots) && LoweredSeq(fname, stmts, st).Some?
    requires z.open == !st.terminated && EverBelow(z, st.nextTmp)
      && Declares(z, LoweredSeq(fname, stmts, st).value.state.slots.Keys)
    ensures StmtScanned(params, LoweredSeq(fname, stmts, st).value, z, z')
    decreases stmts, 0
  {
    hide ScanCode, ScanInstr, EverBelow, LoweredStmt, Consistent;
    z' := z;
    ScanNothing(params, z);
    if stmts != [] {
      var h := LoweredStmt(fname, stmts[0], st).value;
      StmtShape(fname, stmts[0], st);
      SeqShape(fname, stmts[1..], h.state);
      var m := StmtScan(params, fname, stmts[0], st, z);
      z' := SeqScan(params, fname, stmts[1..], h.state, m);
      ScanAppend(params, h.code, LoweredSeq(fname, stmts[1..], h.state).value.code, z, m, z');
    }
  }

  lemma {:induction false} IfScan(params: set<string>, fname: string, s: S.Stmt, st: State, z: Scan) returns (z': Scan)
    requires s.If? && !st.terminated && Consistent(st.allocas, st.slots) && LoweredStmt(fname, s, st).Some?
    requires z.open && EverBelow(z, st.nextTmp) && Declares(z, LoweredStmt(fname, s, st).value.state.slots.Keys)
    ensures StmtScanned(params, LoweredStmt(fname, s, st).value, z, z')
    decreases s, 1
  {
    hide ScanCode, ScanInstr, EverBelow, LoweredStmt, LoweredExpr, BranchTo, Consistent;
    ConsistentNames(st.allocas, st.slots);
    var p := IfLayout(fname, s, st);
    StmtShape(fname, s.thenBranch, p.thenState);
    if p.elsePart.Some? {
      StmtShape(fname, s.elseBranch.value, p.elseState);
    }
    var z1 := ExprScan(params, s.cond, st.slots, st.nextTmp, z);
    var z2 := ScanTest(params, p.cond.operand, p.thenBB, p.elseBB, z1);
    EverAgain(z1, p.cond.nextTmp);
    var z3 := StmtScan(params, fname, s.thenBranch, p.thenState, z2);
    var z4 := ScanBranch(params, p.thenPart.state.terminated, p.mergeBB, z3);
    EverAgain(z3, p.thenPart.state.nextTmp);
    var z5 := ElseScan(params, fname, s.elseBranch, p.elseState, p.elsePart, p.elseBB, p.mergeBB, z4);
    z' := ScanLabel(params, p.mergeBB, z5);
    EverAgain(z5, if p.elsePart.Some? then p.elsePart.value.state.nextTmp else p.elseState.nextTmp);
    var elseCode, join := ElseCode(p.elsePart, p.elseBB, p.mergeBB), BranchTo(p.thenPart.state.terminated, p.mergeBB);
    ScanAppend(params, elseCode, [Label(p.mergeBB)], z4, z5, z');
    ScanAppend(params, join, elseCode + [Label(p.mergeBB)], z3, z4, z');
    ScanAppend(params, p.thenPart.code, join + (elseCode + [Label(p.mergeBB)]), z2, z3, z');
    var test := [BrCond(p.cond.operand, p.thenBB, p.elseBB), Label(p.thenBB)];
    ScanAppend(params, test, p.thenPart.code + (join + (elseCode + [Label(p.mergeBB)])), z1, z2, z');
    ScanAppend(params, p.cond.code, test + (p.thenPart.code + (join + (elseCode + [Label(p.mergeBB)]))), z, z1, z');
  }

  lemma {:induction false} ElseScan(
    params: set<string>, fname: string, branch: Option<S.Stmt>, st: State, e: Option<StmtCode>, elseBB: string,
      mergeBB: string,
    z: Scan) returns (z': Scan)
    requires e.Some? == branch.Some? && (e.Some? ==> LoweredStmt(fname, branch.value, st) == e)
    requires Consistent(st.allocas, st.slots) && !st.terminated
    requires !z.open && EverBelow(z, st.nextTmp)
      && Declares(z, if e.Some? then e.value.state.slots.Keys else st.slots.Keys)
    ensures ScanCode(params, ElseCode(e, elseBB, mergeBB), z) == Some(z')
    ensures !z'.open && z'.declared == z.declared
    ensures EverBelow(z', if e.Some? then e.value.state.nextTmp else st.nextTmp)
    decreases branch, 3
  {
    hide ScanCode, ScanInstr, EverBelow, LoweredStmt, BranchTo, Consistent;
    z' := z;
    ScanNothing(params, z);
    if e.Some? {
      var z1 := ScanLabel(params, elseBB, z);
      EverAgain(z, st.nextTmp);
      var z2 := StmtScan(params, fname, branch.value, st, z1);
      z' := ScanBranch(params, e.value.state.terminated, mergeBB, z2);
      EverAgain(z2, e.value.state.nextTmp);
      ScanAppend(params, e.value.code, BranchTo(e.value.state.terminated, mergeBB), z1, z2, z');
      ScanAppend(params, [Label(elseBB)], e.value.code + BranchTo(e.value.state.terminated, mergeBB), z, z1, z');
    }
  }

  lemma {:induction false} WhileScan(params: set<string>, fname: string, s: S.Stmt, st: State, z: Scan)
      returns (z': Scan)
    requires s.While? && !st.terminated && Consistent(st.allocas, st.slots) && LoweredStmt(fname, s, st).Some?
    requires z.open && EverBelow(z, st.nextTmp) && Declares(z, LoweredStmt(fname, s, st).value.state.slots.Keys)
    ensures StmtScanned(params, LoweredStmt(fname, s, st).value, z, z')
    decreases s, 1
  {
    hide ScanCode, ScanInstr, EverBelow, LoweredStmt, LoweredExpr, BranchTo, Consistent;
    ConsistentNames(st.allocas, st.slots);
    var p := WhileLayout(fname, s, st);
    StmtShape(fname, s.body, p.bodyState);
    var z0 := ScanBranch(params, false, p.headBB, z);
    var z1 := ScanLabel(params, p.headBB, z0);
    EverAgain(z, st.nextTmp);
    var z2 := ExprScan(params, s.cond, st.slots, st.nextTmp, z1);
    var z3 := ScanTest(params, p.cond.operand, p.bodyBB, p.exitBB, z2);
    EverAgain(z2, p.cond.nextTmp);
    var z4 := StmtScan(params, fname, s.body, p.bodyState, z3);
    var z5 := ScanBranch(params, p.body.state.terminated, p.headBB, z4);
    EverAgain(z4, p.body.state.nextTmp);
    z' := ScanLabel(params, p.exitBB, z5);
    var back, test := BranchTo(p.body.state.terminated, p.headBB),
      [BrCond(p.cond.operand, p.bodyBB, p.exitBB), Label(p.bodyBB)];
    ScanAppend(params, back, [Label(p.exitBB)], z4, z5, z');
    ScanAppend(params, p.body.code, back + [Label(p.exitBB)], z3, z4, z');
    ScanAppend(params, test, p.body.code + (back + [Label(p.exitBB)]), z2, z3, z');
    var rest := test + (p.body.code + (back + [Label(p.exitBB)]));
    ScanAppend(params, p.cond.code, rest, z1, z2, z');
    ScanAppend(params, [Label(p.headBB)], p.cond.code + rest, z0, z1, z');
    BranchToOpen(p.headBB);
    ScanAppend(params, [Br(p.headBB)], [Label(p.headBB)] + (p.cond.code + rest), z, z0, z');
    assert [Br(p.headBB)] + ([Label(p.headBB)] + (p.cond.code + rest)) == [Br(p.headBB), Label(p.headBB)]
      + (p.cond.code + rest);
  }
}
