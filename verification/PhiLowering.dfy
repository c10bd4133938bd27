/** The small lowerings tried before the general one: a single returned operation, a two-way
    `if`, a two-arm `match`; the last two through phi insertion and renaming. */
module PhiLowering {
  import opened Names
  import opened Ir
  import opened Ssa
  import opened PhiInsertion
  import opened Diamonds
  import opened AotSubset
  import S = Source
  import LowerFn
  import LowerFnTheorem
  import LowererObject

  // ----- What is emitted -----

  function LocalTmp(fname: string, k: nat): string {
    LocalPrefix(fname) + Decimal(k)
  }

  function OpOf(op: string): Option<ArithOp> {
    if op == "+" then Some(Add)
    else if op == "-" then Some(Sub)
    else if op == "*" then Some(Mul)
    else if op == "/" then Some(Div)
    else None
  }

  // A block of one statement stands for that statement.
  function Unwrapped(s: S.Stmt): S.Stmt {
    if s.Block? && |s.stmts| == 1 then Unwrapped(s.stmts[0]) else s
  }

  /** The code of `return e` for a literal, an operation on two variables or, in a match arm, a
      variable; k temporaries are taken already. */
  function ReturnPiece(fname: string, s: S.Stmt, k: nat, variables: bool): Option<Piece> {
    match s
    case Return(Some(IntLit(n))) => Some(Piece([ConstI64(LocalTmp(fname, k), n)], LocalTmp(fname, k)))
    case Return(Some(Variable(x))) => if variables then Some(Piece([], x)) else None
    case Return(Some(Binary(Variable(l), op, Variable(r)))) =>
      (match OpOf(op)
       case Some(o) => Some(Piece([Arith(o, LocalTmp(fname, k), l, r)], LocalTmp(fname, k)))
       case None => None)
    case _ => None
  }

  // The two arms, and how many temporaries are taken after them.
  datatype Arms = Arms(thenP: Piece, elseP: Piece, taken: nat)

  function TwoArms(fname: string, s: S.Stmt, t: S.Stmt, k: nat, variables: bool): Option<Arms> {
    match ReturnPiece(fname, s, k, variables)
    case None => None
    case Some(p) =>
      (match ReturnPiece(fname, t, k + |p.code|, variables)
       case None => None
       case Some(q) => Some(Arms(p, q, k + |p.code| + |q.code|)))
  }

  function IfDiamond(f: S.FunctionDecl): Option<Diamond> {
    if !f.body.Block? || |f.body.stmts| != 1 || !f.body.stmts[0].If? then None
    else
      var s := f.body.stmts[0];
      if (!s.cond.Variable? && !s.cond.BoolLit?) || s.elseBranch.None? then None
      else
        var tmp := LocalTmp(f.name, 0);
        var pre := if s.cond.BoolLit? then [ConstI64(tmp, if s.cond.b then 1 else 0)] else [];
        var cond := if s.cond.BoolLit? then tmp else s.cond.name;
        match TwoArms(f.name, Unwrapped(s.thenBranch), Unwrapped(s.elseBranch.value), |pre|, false)
        case None => None
        case Some(a) =>
          var base := LowerFn.StripAt(f.name);
          Some(Diamond(pre, cond, false, a.thenP, a.elseP, LocalTmp(f.name, a.taken), base + "_then", base + "_else",
            base + "_merge"))
  }

  function MatchDiamond(f: S.FunctionDecl): Option<Diamond> {
    if !f.body.Block? || |f.body.stmts| != 1 || !f.body.stmts[0].Match? then None
    else
      var s := f.body.stmts[0];
      if |s.arms| != 2 || !s.subject.Variable? || s.arms[0].pattern.OtherPattern? then None
      else
        match TwoArms(f.name, s.arms[0].body, s.arms[1].body, 0, true)
        case None => None
        case Some(a) =>
          var base := LowerFn.StripAt(f.name);
          var x, cmp := s.subject.name, LocalTmp(f.name, a.taken);
          var p := s.arms[0].pattern;
          if p.IntPattern? then
            Some(Diamond([Arith(Sub, cmp, x, IntText(p.n))], cmp, true, a.thenP, a.elseP, LocalTmp(f.name, a.taken + 1),
                         base + "_case0", base + "_case1", base + "_merge"))
          else
            Some(Diamond([], x, false, a.thenP, a.elseP, LocalTmp(f.name, a.taken), base + "_case0", base + "_case1",
              base + "_merge"))
  }

  function Emitted(f: S.FunctionDecl, code: seq<Instr>): Function {
    Function(f.name, LowerFn.TypedParams(f.params), Some(I64), code)
  }

  // A diamond after both passes.
  function Finished(f: S.FunctionDecl, d: Diamond): Function {
    Renamed(PhisInserted(Emitted(f, CodeOf(d, []))))
  }

  function OperandText(e: S.Expr): Option<string> {
    match e
    case Variable(x) => Some(x)
    case IntLit(n) => Some(IntText(n))
    case _ => None
  }

  function OperandTexts(es: seq<S.Expr>): Option<seq<string>> {
    if es == [] then Some([])
    else
      match (OperandTexts(es[..|es| - 1]), OperandText(es[|es| - 1]))
      case (Some(ts), Some(t)) => Some(ts + [t])
      case _ => None
  }

  // The expression a plain body returns, one grouping taken off.
  function PlainReturn(body: S.Stmt): Option<S.Expr> {
    var s := if body.Block? && |body.stmts| == 1 then body.stmts[0] else body;
    match s
    case Return(Some(Grouping(inner))) => if inner.Binary? then Some(inner) else None
    case Return(Some(e)) => Some(e)
    case _ => None
  }

  function PlainInstr(fname: string, e: S.Expr): Option<Instr> {
    match e
    case Binary(left, op, right) =>
      (match (OperandText(left), OpOf(op), OperandText(right))
       case (Some(l), Some(o), Some(r)) => Some(Arith(o, LocalTmp(fname, 0), l, r))
       case _ => None)
    case Call(Variable(callee), args) =>
      (match OperandTexts(args)
       case Some(ts) => Some(Ir.Call(LocalTmp(fname, 0), callee, ts))
       case None => None)
    case _ => None
  }

  function LoweredPlain(f: S.FunctionDecl): Option<Function> {
    match PlainReturn(f.body)
    case None => None
    case Some(e) =>
      (match PlainInstr(f.name, e)
       case None => None
       case Some(i) => Some(Emitted(f, [i, Ret(Some(LocalTmp(f.name, 0)))])))
  }

  /** The dispatcher: the first lowering that accepts the function. */
  function LoweredStmt(f: S.FunctionDecl): Option<Function> {
    if LoweredPlain(f).Some? then LoweredPlain(f)
    else if IfDiamond(f).Some? then Some(Finished(f, IfDiamond(f).value))
    else if MatchDiamond(f).Some? then Some(Finished(f, MatchDiamond(f).value))
    else LowerFn.LoweredFunction(f)
  }

  // ----- Which functions are taken -----

  lemma PieceTaken(fname: string, s: S.Stmt, k: nat, variables: bool)
    ensures ReturnPiece(fname, s, k, variables).Some? <==> SmallReturn(s, variables)
  {
    hide LocalTmp;
  }

  lemma {:induction false} BranchTaken(s: S.Stmt)
    ensures SmallReturn(Unwrapped(s), false) <==> SmallBranch(s)
  {
    if s.Block? && |s.stmts| == 1 {
      BranchTaken(s.stmts[0]);
    }
  }

  lemma ArmsTaken(fname: string, s: S.Stmt, t: S.Stmt, k: nat, variables: bool)
    ensures TwoArms(fname, s, t, k, variables).Some? <==> SmallReturn(s, variables) && SmallReturn(t, variables)
  {
    hide ReturnPiece, SmallReturn;
    PieceTaken(fname, s, k, variables);
    var p := ReturnPiece(fname, s, k, variables);
    if p.Some? {
      PieceTaken(fname, t, k + |p.value.code|, variables);
    }
  }

  lemma {:induction false} AtomsTaken(es: seq<S.Expr>)
    ensures OperandTexts(es).Some? <==> forall i | 0 <= i < |es| :: IsAtom(es[i])
  {
    hide IntText;
    if es != [] {
      var front := es[..|es| - 1];
      AtomsTaken(front);
      assert forall i | 0 <= i < |front| :: front[i] == es[i];
      if forall i | 0 <= i < |front| :: IsAtom(front[i]) {
        assert forall i | 0 <= i < |es| - 1 :: IsAtom(front[i]) && front[i] == es[i];
      } else {
        var i :| 0 <= i < |front| && !IsAtom(front[i]);
        assert !IsAtom(es[i]);
      }
    }
  }

  lemma InstrTaken(fname: string, e: S.Expr)
    ensures PlainInstr(fname, e).Some? && !e.Grouping? <==> PlainExpr(e) && !e.Grouping?
  {
    hide LocalTmp, IntText, OperandTexts;
    if e.Call? {
      AtomsTaken(e.args);
    }
  }

  lemma PlainTaken(f: S.FunctionDecl)
    ensures LoweredPlain(f).Some? <==> PlainForm(f)
  {
    hide PlainInstr, LocalTmp, PlainExpr;
    var s := if f.body.Block? && |f.body.stmts| == 1 then f.body.stmts[0] else f.body;
    if s.Return? && s.value.Some? {
      var e := s.value.value;
      assert s == S.Return(Some(e)) && (f.body.Block? ==> f.body.stmts == [s]);
      assert f.body in [S.Return(Some(e)), S.Block([S.Return(Some(e))])];
      InstrTaken(f.name, if e.Grouping? then e.inner else e);
      if e.Grouping? {
        GroupingTaken(f.name, e);
      }
    }
    if PlainForm(f) {
      var e :| PlainExpr(e) && f.body in [S.Return(Some(e)), S.Block([S.Return(Some(e))])];
      assert s == S.Return(Some(e));
    }
  }

  // A grouped operation is taken as the operation; nothing else that is grouped is taken.
  lemma GroupingTaken(fname: string, e: S.Expr)
    requires e.Grouping?
    ensures PlainExpr(e) <==> e.inner.Binary? && PlainExpr(e.inner)
    ensures PlainInstr(fname, e).None?
  {
  }

  lemma IfTaken(f: S.FunctionDecl)
    ensures IfDiamond(f).Some? <==> IfForm(f)
  {
    hide TwoArms, LocalTmp, SmallReturn, SmallBranch;
    if f.body.Block? && |f.body.stmts| == 1 && f.body.stmts[0].If? && f.body.stmts[0].elseBranch.Some? {
      var s := f.body.stmts[0];
      var t, e := s.thenBranch, s.elseBranch.value;
      BranchTaken(t);
      BranchTaken(e);
      ArmsTaken(f.name, Unwrapped(t), Unwrapped(e), if s.cond.BoolLit? then 1 else 0, false);
      assert f.body == S.Block([S.If(s.cond, t, Some(e))]);
    }
  }

  lemma MatchTaken(f: S.FunctionDecl)
    ensures MatchDiamond(f).Some? <==> MatchForm(f)
  {
    hide TwoArms, LocalTmp, SmallReturn, IntText;
    if f.body.Block? && |f.body.stmts| == 1 && f.body.stmts[0].Match? && |f.body.stmts[0].arms| == 2
       && f.body.stmts[0].subject.Variable? {
      var s := f.body.stmts[0];
      ArmsTaken(f.name, s.arms[0].body, s.arms[1].body, 0, true);
      assert s.arms == [s.arms[0], s.arms[1]];
      assert f.body == S.Block([S.Match(S.Variable(s.subject.name), [s.arms[0], s.arms[1]])]);
    }
  }

  /** The dispatcher takes exactly the small forms and the subset of the general lowering, and
      what it emits has the function's own name, parameters and type. */
  lemma DispatcherTakesExactly(f: S.FunctionDecl)
    ensures LoweredStmt(f).Some? <==> PlainForm(f) || IfForm(f) || MatchForm(f) || Lowerable(f)
    ensures LoweredStmt(f).Some? ==> SameHeader(f, LoweredStmt(f).value)
  {
    hide LoweredPlain, IfDiamond, MatchDiamond, LowerFn.LoweredFunction, PlainForm, IfForm, MatchForm, Lowerable,
      CodeOf, RenameCode, Defs, Blocks, ProcessedTo, Flatten;
    PlainTaken(f);
    IfTaken(f);
    MatchTaken(f);
    TakenExactly(f);
    PlainHeaded(f);
  }

  lemma PlainHeaded(f: S.FunctionDecl)
    ensures LoweredPlain(f).Some? ==> SameHeader(f, LoweredPlain(f).value)
  {
    hide PlainInstr, PlainReturn, LocalTmp;
  }

  // ----- Names -----

  // How the source spells a name.
  predicate IsName(s: string) {
    s != "" && s[0] != '%' && s[0] != '-' && !IsDigit(s[0])
  }

  lemma LocalTmpIsCandidate(fname: string, k: nat)
    ensures IsCandidate(fname, LocalTmp(fname, k)) && !IsInteger(LocalTmp(fname, k)) && !IsName(LocalTmp(fname, k))
  {
    var base, s := LowerFn.StripAt(fname), LocalTmp(fname, k);
    assert s[1 + |base|] == '_';
    if |base| > 0 {
      assert s[2..][|base| - 1] == '_';
    } else {
      assert s[1] == '_';
    }
  }

  lemma LocalTmpInjective(fname: string, j: nat, k: nat)
    requires LocalTmp(fname, j) == LocalTmp(fname, k)
    ensures j == k
  {
    var p := LocalPrefix(fname);
    assert LocalTmp(fname, j)[|p|..] == Decimal(j) && LocalTmp(fname, k)[|p|..] == Decimal(k);
    DecimalRoundTrip(j);
    DecimalRoundTrip(k);
  }

  lemma PhiDestApart(fname: string, k: nat)
    requires k < 10
    ensures PhiDest(fname, 3) != LocalTmp(fname, k) && !IsName(PhiDest(fname, 3)) && !IsInteger(PhiDest(fname, 3))
    ensures forall j: nat :: PhiDest(fname, 3) != TmpName(j)
  {
    assert |Decimal(3)| == 1 && |Decimal(k)| == 1;
    assert |PhiDest(fname, 3)| == |LocalTmp(fname, k)| + 4;
    forall j: nat
      ensures PhiDest(fname, 3) != TmpName(j)
    {
      assert PhiDest(fname, 3)[1] == 'p' && TmpName(j)[1] == 't';
    }
  }

  lemma ArmLabels(base: string)
    ensures base + "_then" != base + "_else" && base + "_then" != base + "_merge" && base + "_else" != base + "_merge"
    ensures base + "_then" != "entry" && base + "_else" != "entry" && base + "_merge" != "entry"
    ensures base + "_case0" != base + "_case1" && base + "_case0" != base + "_merge"
      && base + "_case1" != base + "_merge"
    ensures base + "_case0" != "entry" && base + "_case1" != "entry"
  {
    var n := |base|;
    assert (base + "_then")[n + 1] == 't' && (base + "_else")[n + 1] == 'e' && (base + "_merge")[n + 1] == 'm';
    assert (base + "_case0")[n + 1] == 'c' && (base + "_case1")[n + 1] == 'c' && (base + "_case0")[n + 5] == '0'
      && (base + "_case1")[n + 5] == '1';
    assert (base + "_then")[n] == '_' && (base + "_then")[|base + "_then"| - 1] == 'n'
      && (base + "_else")[|base + "_else"| - 1] == 'e';
    assert (base + "_merge")[|base + "_merge"| - 1] == 'e' && "entry"[4] == 'y';
    assert (base + "_case0")[|base + "_case0"| - 1] == '0' && (base + "_case1")[|base + "_case1"| - 1] == '1';
  }

  // ----- The emitted diamonds are well shaped -----

  lemma PieceIsGood(fname: string, s: S.Stmt, k: nat, variables: bool)
    requires ReturnPiece(fname, s, k, variables).Some?
    ensures var p := ReturnPiece(fname, s, k, variables).value;
      PieceGood(fname, p) && (p.code != [] ==> p.operand == LocalTmp(fname, k))
  {
    hide LocalTmp, IsCandidate;
    LocalTmpIsCandidate(fname, k);
  }

  lemma ArmsAreGood(fname: string, s: S.Stmt, t: S.Stmt, k: nat, variables: bool)
    requires TwoArms(fname, s, t, k, variables).Some?
    ensures var a := TwoArms(fname, s, t, k, variables).value;
      PieceGood(fname, a.thenP) && PieceGood(fname, a.elseP) && k <= a.taken <= k + 2
      && (a.thenP.code != [] && a.elseP.code != [] ==> a.thenP.operand != a.elseP.operand)
  {
    hide ReturnPiece, LocalTmp;
    var p := ReturnPiece(fname, s, k, variables).value;
    PieceIsGood(fname, s, k, variables);
    PieceIsGood(fname, t, k + |p.code|, variables);
    if p.code != [] && LocalTmp(fname, k) == LocalTmp(fname, k + |p.code|) {
      LocalTmpInjective(fname, k, k + |p.code|);
    }
  }

  lemma IfDiamondGood(f: S.FunctionDecl)
    requires IfDiamond(f).Some?
    ensures Good(f.name, IfDiamond(f).value) && !IsInteger(IfDiamond(f).value.res)
  {
    hide TwoArms, PieceGood, LocalTmp;
    var s := f.body.stmts[0];
    ArmsAreGood(f.name, Unwrapped(s.thenBranch), Unwrapped(s.elseBranch.value), |IfDiamond(f).value.pre|, false);
    ArmLabels(LowerFn.StripAt(f.name));
    LocalTmpIsCandidate(f.name,
      TwoArms(f.name, Unwrapped(s.thenBranch), Unwrapped(s.elseBranch.value), |IfDiamond(f).value.pre|,
      false).value.taken);
  }

  lemma MatchDiamondGood(f: S.FunctionDecl)
    requires MatchDiamond(f).Some?
    ensures Good(f.name, MatchDiamond(f).value) && !IsInteger(MatchDiamond(f).value.res)
  {
    hide TwoArms, PieceGood, LocalTmp;
    var s := f.body.stmts[0];
    ArmsAreGood(f.name, s.arms[0].body, s.arms[1].body, 0, true);
    ArmLabels(LowerFn.StripAt(f.name));
    var taken := TwoArms(f.name, s.arms[0].body, s.arms[1].body, 0, true).value.taken;
    LocalTmpIsCandidate(f.name, taken);
    LocalTmpIsCandidate(f.name, taken + 1);
  }

  // ----- Meaning of the pieces -----

  // The temporaries hold the parameters as the store does.
  ghost predicate Holds(params: seq<string>, env: map<string, int>, store: S.Store) {
    forall x | x in params :: IsName(x) && x in env && env[x] == S.Read(store, x)
  }

  // Every variable of an expression is a parameter.
  predicate Known(e: S.Expr, params: seq<string>)
    decreases e, 1
  {
    match e
    case Variable(x) => x in params
    case Grouping(inner) => Known(inner, params)
    case Unary(_, right) => Known(right, params)
    case Binary(left, _, right) => Known(left, params) && Known(right, params)
    case Call(_, args) => AllKnown(args, params)
    case _ => true
  }

  predicate AllKnown(es: seq<S.Expr>, params: seq<string>)
    decreases es, 0
  {
    es == [] || (AllKnown(es[..|es| - 1], params) && Known(es[|es| - 1], params))
  }

  predicate ReturnKnown(s: S.Stmt, params: seq<string>) {
    s.Return? && s.value.Some? ==> Known(s.value.value, params)
  }

  lemma NameOperand(params: seq<string>, env: map<string, int>, store: S.Store, x: string)
    requires Holds(params, env, store) && x in params
    ensures Operand(env, x) == Some(S.Read(store, x))
  {
  }

  /** A piece computes the value its statement returns, or traps with it. */
  lemma PieceMeans(fname: string, s: S.Stmt, k: nat, variables: bool, params: seq<string>, env: map<string, int>,
      store: S.Store,
                   trace: S.Trace, oracle: Oracle, fuel: nat)
    requires ReturnPiece(fname, s, k, variables).Some? && ReturnKnown(s, params) && Holds(params, env, store)
    ensures var p := ReturnPiece(fname, s, k, variables).value;
      match S.Exec(s, store, trace, oracle, fuel)
      case Done(v, trace') => trace' == trace && FlowOf(p.code, env).Goes?
        && Operand(FlowOf(p.code, env).env, p.operand) == Some(v)
      case Fault(trace') => trace' == trace && FlowOf(p.code, env) == Traps
      case _ => false
  {
    LocalTmpIsCandidate(fname, k);
    hide LocalTmp, IsCandidate, IsInteger, Operand;
    TmpOperand(env, LocalTmp(fname, k));
    match s
    case Return(Some(IntLit(n))) =>
    case Return(Some(Variable(x))) =>
      NameOperand(params, env, store, x);
    case Return(Some(Binary(Variable(l), op, Variable(r)))) =>
      assert Known(S.Variable(l), params) && Known(S.Variable(r), params);
      NameOperand(params, env, store, l);
      NameOperand(params, env, store, r);
      assert S.Eval(S.Variable(l), store, trace, oracle) == S.Val(S.Read(store, l), trace);
      assert S.Eval(S.Variable(r), store, trace, oracle) == S.Val(S.Read(store, r), trace);
      OpMeans(op, S.Read(store, l), S.Read(store, r), trace);
  }

  lemma TmpOperand(env: map<string, int>, t: string)
    requires !IsInteger(t)
    ensures forall v: int {:trigger env[t := v]} :: Operand(env[t := v], t) == Some(v)
  {
  }

  lemma OpMeans(op: string, a: int, b: int, trace: S.Trace)
    requires OpOf(op).Some?
    ensures S.Apply(op, a, b, trace) == match Compute(OpOf(op).value, a, b) case Some(v) => S.Val(v, trace)
      case None => S.Trap(trace)
  {
  }

  // ----- Meaning of the statements around them -----

  lemma SingleIsItself(s: S.Stmt, store: S.Store, trace: S.Trace, oracle: Oracle, fuel: nat)
    ensures S.Exec(S.Block([s]), store, trace, oracle, fuel) == S.Exec(s, store, trace, oracle, fuel)
  {
    assert [s][1..] == [] && [s] != [];
    var o := S.Exec(s, store, trace, oracle, fuel);
    if o.Next? {
      assert S.ExecSeq([], o.store, o.trace, oracle, fuel) == o;
    }
    assert S.ExecSeq([s], store, trace, oracle, fuel) == o;
  }

  lemma {:induction false} UnwrappedMeans(s: S.Stmt, store: S.Store, trace: S.Trace, oracle: Oracle, fuel: nat)
    ensures S.Exec(Unwrapped(s), store, trace, oracle, fuel) == S.Exec(s, store, trace, oracle, fuel)
    decreases s
  {
    hide S.Exec;
    if s.Block? && |s.stmts| == 1 {
      SingleIsItself(s.stmts[0], store, trace, oracle, fuel);
      assert s.stmts == [s.stmts[0]];
      UnwrappedMeans(s.stmts[0], store, trace, oracle, fuel);
    }
  }

  lemma EntryHolds(f: S.FunctionDecl, args: seq<int>)
    requires |args| == |f.params| && forall p | p in f.params :: IsName(p)
    ensures Holds(f.params, BindParams(LowerFn.TypedParams(f.params), args), S.BindArgs(f.params, args))
  {
    LowerFnTheorem.BindingsAgree(f.params, args);
  }

  lemma HoldsMore(params: seq<string>, env: map<string, int>, store: S.Store, t: string, v: int)
    requires Holds(params, env, store) && !IsName(t)
    ensures Holds(params, env[t := v], store)
  {
  }

  // ----- Through both passes -----

  // How a run that has ended stands to the source's outcome.
  ghost predicate EndsAs(outcome: S.Outcome, end: Config) {
    match outcome
    case Done(v, trace) => end == Returned(Some(v), trace)
    case Fault(trace) => end == Trapped(trace)
    case _ => false
  }

  ghost predicate NameKept(fname: string, code: seq<Instr>, s: string) {
    IsName(s) || IsInteger(s) || s == PhiDest(fname, 3)
      || (IsCandidate(fname, s) && exists i :: i in code && Collected(i) == Some(s))
  }

  /** The two passes keep the run of a diamond whose names are temporaries of its own, source
      names, numbers and the inserted phi's. */
  lemma PassesKeepRuns(f: S.FunctionDecl, d: Diamond, args: seq<int>, oracle: Oracle, n: nat)
    requires Good(f.name, d) && |args| == |f.params| && forall p | p in f.params :: IsName(p)
    requires var code := CodeOf(d, ExtraPhi(f.name, d));
      forall k, s | 0 <= k < |code| && s in Mentioned(code[k]) :: NameKept(f.name, code, s)
    requires var code := CodeOf(d, ExtraPhi(f.name, d)); forall k | 0 <= k < |code| :: !code[k].Load? && !code[k].Store?
    requires !Steps(CodeOf(d, ExtraPhi(f.name, d)), oracle, Entry(Emitted(f, []), args), n).Running?
    ensures Steps(Finished(f, d).body, oracle, Entry(Finished(f, d), args), n)
      == Steps(CodeOf(d, ExtraPhi(f.name, d)), oracle, Entry(Emitted(f, []), args), n)
  {
    hide CodeOf, Steps, Mentioned, Good, ExtraPhi, Blocks, Flatten, ProcessedTo;
    var code := CodeOf(d, ExtraPhi(f.name, d));
    var g := Emitted(f, code);
    DiamondPhis(f.name, d);
    assert PhisInserted(Emitted(f, CodeOf(d, []))) == g;
    NamesStayApart(f, code);
    RenamePreservesRuns(g, args, oracle, n);
  }

  lemma NamesStayApart(f: S.FunctionDecl, code: seq<Instr>)
    requires forall p | p in f.params :: IsName(p)
    requires forall k, s | 0 <= k < |code| && s in Mentioned(code[k]) :: NameKept(f.name, code, s)
    requires forall k | 0 <= k < |code| :: !code[k].Load? && !code[k].Store?
    ensures NewNamesFree(Emitted(f, code)) && Admissible(Emitted(f, code))
  {
    hide Mentioned, IsCandidate, Collected;
    var g := Emitted(f, code);
    var defs := Defs(g.name, g.body);
    DefsAre(g.name, g.body);
    forall d | d in defs
      ensures d != "" && d[0] == '%'
    {
      CandidateStarts(g.name, d);
    }
    hide Defs;
    forall s, k: nat | s in NamesOf(g) && s !in defs && k < |defs|
      ensures s != TmpName(k)
    {
      PhiDestApart(f.name, 0);
      hide PhiDest, TmpName;
      if p :| p in g.params && p.0 == s {
        assert IsName(s) by { ParamIsName(f, p); }
      } else {
        var i :| 0 <= i < |g.body| && s in Mentioned(g.body[i]);
        assert NameKept(f.name, code, s);
      }
      NameIsNotTmp(s, k);
    }
    forall p | p in g.params
      ensures p.0 !in defs
    {
      ParamIsName(f, p);
    }
  }

  lemma NameIsNotTmp(s: string, k: nat)
    ensures IsName(s) || IsInteger(s) ==> s != TmpName(k)
  {
    TmpNameIsNotInteger(k);
  }

  lemma CandidateStarts(fname: string, s: string)
    requires IsCandidate(fname, s)
    ensures s != "" && s[0] == '%'
  {
  }

  lemma ParamIsName(f: S.FunctionDecl, p: (string, Type))
    requires (forall x | x in f.params :: IsName(x)) && p in LowerFn.TypedParams(f.params)
    ensures IsName(p.0)
  {
    var i :| 0 <= i < |f.params| && LowerFn.TypedParams(f.params)[i] == p;
    assert f.params[i] in f.params;
  }

  // ----- The names in a diamond -----

  // Source names, numbers, or the temporary the instruction itself defines.
  ghost predicate PartNamed(fname: string, part: seq<Instr>) {
    forall i, s | i in part && s in Mentioned(i) ::
      IsName(s) || IsInteger(s) || (IsCandidate(fname, s) && Collected(i) == Some(s))
  }

  ghost predicate ResultNamed(fname: string, part: seq<Instr>, s: string) {
    IsName(s) || (IsCandidate(fname, s) && exists i :: i in part && Collected(i) == Some(s))
  }

  ghost predicate DiamondNamed(fname: string, d: Diamond) {
    && PartNamed(fname, d.pre) && ResultNamed(fname, d.pre, d.cond)
    && PartNamed(fname, d.thenP.code) && ResultNamed(fname, d.thenP.code, d.thenP.operand)
    && PartNamed(fname, d.elseP.code) && ResultNamed(fname, d.elseP.code, d.elseP.operand)
    && IsCandidate(fname, d.res)
  }

  lemma InDiamond(d: Diamond, extra: seq<Instr>, i: Instr)
    ensures i in CodeOf(d, extra) <==>
            i in d.pre || i in d.thenP.code || i in d.elseP.code || i in extra
            || i in [Branch(d), Label(d.thenBB), Label(d.elseBB), Br(d.mergeBB), Label(d.mergeBB),
              Phi(d.res, I64, Pairs(d)), Ret(Some(d.res))]
  {
    var bs := BlocksOf(d, extra);
    FlattenFour(bs[0], bs[1], bs[2], bs[3]);
  }

  lemma ResultKept(fname: string, part: seq<Instr>, code: seq<Instr>, s: string)
    requires ResultNamed(fname, part, s) && forall i | i in part :: i in code
    ensures NameKept(fname, code, s)
  {
  }

  lemma PartKept(fname: string, part: seq<Instr>, code: seq<Instr>, i: Instr, s: string)
    requires PartNamed(fname, part) && i in part && i in code && s in Mentioned(i)
    ensures NameKept(fname, code, s)
  {
    hide Mentioned, Collected, IsCandidate;
  }

  lemma DiamondNamesKept(fname: string, d: Diamond, i: Instr, s: string)
    requires DiamondNamed(fname, d) && i in CodeOf(d, ExtraPhi(fname, d)) && s in Mentioned(i)
    ensures NameKept(fname, CodeOf(d, ExtraPhi(fname, d)), s)
  {
    hide CodeOf, PartNamed, ResultNamed, IsCandidate, IsInteger, IsName, PhiDest, NameKept;
    var code := CodeOf(d, ExtraPhi(fname, d));
    forall x
      ensures x in d.pre || x in d.thenP.code || x in d.elseP.code ==> x in code
    {
      InDiamond(d, ExtraPhi(fname, d), x);
    }
    InDiamond(d, ExtraPhi(fname, d), i);
    InDiamond(d, ExtraPhi(fname, d), Phi(d.res, I64, Pairs(d)));
    if i in d.pre {
      PartKept(fname, d.pre, code, i, s);
    } else if i in d.thenP.code {
      PartKept(fname, d.thenP.code, code, i, s);
    } else if i in d.elseP.code {
      PartKept(fname, d.elseP.code, code, i, s);
    } else if s == d.cond {
      ResultKept(fname, d.pre, code, s);
    } else if s == d.thenP.operand {
      ResultKept(fname, d.thenP.code, code, s);
    } else if s == d.elseP.operand {
      ResultKept(fname, d.elseP.code, code, s);
    } else {
      assert s == d.res || s == PhiDest(fname, 3);
      OwnKept(fname, code, s, Phi(d.res, I64, Pairs(d)));
    }
  }

  lemma OwnKept(fname: string, code: seq<Instr>, s: string, i: Instr)
    requires i in code && (s == PhiDest(fname, 3) || (IsCandidate(fname, s) && Collected(i) == Some(s)))
    ensures NameKept(fname, code, s)
  {
  }

  lemma DiamondNoMemory(fname: string, d: Diamond, i: Instr)
    requires Good(fname, d) && i in CodeOf(d, ExtraPhi(fname, d))
    ensures !i.Load? && !i.Store?
  {
    hide CodeOf, IsCandidate;
    InDiamond(d, ExtraPhi(fname, d), i);
  }

  // The passes, for a diamond with such names.
  lemma FinishedRuns(f: S.FunctionDecl, d: Diamond, args: seq<int>, oracle: Oracle, n: nat)
    requires Good(f.name, d) && DiamondNamed(f.name, d) && |args| == |f.params| && forall p | p in f.params :: IsName(p)
    requires !Steps(CodeOf(d, ExtraPhi(f.name, d)), oracle, Entry(Emitted(f, []), args), n).Running?
    ensures Steps(Finished(f, d).body, oracle, Entry(Finished(f, d), args), n)
      == Steps(CodeOf(d, ExtraPhi(f.name, d)), oracle, Entry(Emitted(f, []), args), n)
  {
    hide CodeOf, Steps, Mentioned, Good, ExtraPhi, DiamondNamed, NameKept, Finished;
    var code := CodeOf(d, ExtraPhi(f.name, d));
    forall k, s | 0 <= k < |code| && s in Mentioned(code[k])
      ensures NameKept(f.name, code, s)
    {
      DiamondNamesKept(f.name, d, code[k], s);
    }
    forall k | 0 <= k < |code|
      ensures !code[k].Load? && !code[k].Store?
    {
      DiamondNoMemory(f.name, d, code[k]);
    }
    PassesKeepRuns(f, d, args, oracle, n);
  }

  lemma PieceNamed(fname: string, s: S.Stmt, k: nat, variables: bool, params: seq<string>)
    requires ReturnPiece(fname, s, k, variables).Some? && ReturnKnown(s, params) && forall x | x in params :: IsName(x)
    ensures var p := ReturnPiece(fname, s, k, variables).value;
      PartNamed(fname, p.code) && ResultNamed(fname, p.code, p.operand)
  {
    LocalTmpIsCandidate(fname, k);
    hide LocalTmp, IsCandidate, IsName, IsInteger;
    var p := ReturnPiece(fname, s, k, variables).value;
    match s
    case Return(Some(IntLit(n))) =>
      assert p.code[0] in p.code;
    case Return(Some(Variable(x))) =>
    case Return(Some(Binary(Variable(l), op, Variable(r)))) =>
      assert p.code[0] in p.code;
      assert Known(S.Variable(l), params) && Known(S.Variable(r), params);
  }

  /** A diamond whose condition and sides mean what the source means does what the source
      does, through both passes. */
  lemma DiamondMeans(f: S.FunctionDecl, d: Diamond, args: seq<int>, oracle: Oracle, env1: map<string, int>, c: int,
      outcome: S.Outcome) returns (n: nat)
    requires Good(f.name, d) && DiamondNamed(f.name, d) && !IsInteger(d.res) && |args| == |f.params|
      && forall p | p in f.params :: IsName(p)
    requires FlowOf(d.pre, BindParams(LowerFn.TypedParams(f.params), args)) == Goes(env1)
      && Operand(env1, d.cond) == Some(c)
    requires var flow := FlowOf(Taken(d, c).code, env1);
      match outcome
      case Done(v, trace) => trace == [] && flow.Goes? && Operand(flow.env, Taken(d, c).operand) == Some(v)
      case Fault(trace) => trace == [] && flow == Traps
      case _ => false
    requires ExtraPhi(f.name, d) != [] ==>
      PhiDest(f.name, 3) != d.thenP.operand && PhiDest(f.name, 3) != d.elseP.operand
    ensures EndsAs(outcome, Steps(Finished(f, d).body, oracle, Entry(Finished(f, d), args), n))
  {
    hide CodeOf, Steps, Good, DiamondNamed, FlowOf, Operand, IsInteger, Finished, PhiDest, IsName;
    var extra := ExtraPhi(f.name, d);
    var frame := Entry(Emitted(f, []), args).frame;
    n := DiamondRuns(f.name, d, extra, oracle, frame, [], env1, c, if outcome.Done? then outcome.value else 0);
    FinishedRuns(f, d, args, oracle, n);
  }

  // ----- The two-way if -----

  /** Everything a function mentions is a parameter. */
  predicate IfKnown(f: S.FunctionDecl) {
    f.body.Block? && |f.body.stmts| == 1 && f.body.stmts[0].If? && f.body.stmts[0].elseBranch.Some?
    && Known(f.body.stmts[0].cond, f.params)
    && ReturnKnown(Unwrapped(f.body.stmts[0].thenBranch), f.params)
    && ReturnKnown(Unwrapped(f.body.stmts[0].elseBranch.value), f.params)
  }

  lemma CondNamed(f: S.FunctionDecl)
    requires IfDiamond(f).Some? && IfKnown(f) && forall p | p in f.params :: IsName(p)
    ensures var d := IfDiamond(f).value; PartNamed(f.name, d.pre) && ResultNamed(f.name, d.pre, d.cond)
  {
    hide TwoArms, LocalTmp, IsName, IsInteger, IsCandidate;
    LocalTmpIsCandidate(f.name, 0);
    var d := IfDiamond(f).value;
    if d.pre != [] {
      assert d.pre[0] in d.pre;
    }
  }

  lemma ArmsNamed(fname: string, s: S.Stmt, t: S.Stmt, k: nat, variables: bool, params: seq<string>)
    requires TwoArms(fname, s, t, k, variables).Some? && ReturnKnown(s, params) && ReturnKnown(t, params)
      && forall x | x in params :: IsName(x)
    ensures var a := TwoArms(fname, s, t, k, variables).value;
      PartNamed(fname, a.thenP.code) && ResultNamed(fname, a.thenP.code, a.thenP.operand)
      && PartNamed(fname, a.elseP.code) && ResultNamed(fname, a.elseP.code, a.elseP.operand)
    ensures var a := TwoArms(fname, s, t, k, variables).value;
      a.thenP.code != [] && a.elseP.code != [] && k < 8 ==>
        PhiDest(fname, 3) != a.thenP.operand && PhiDest(fname, 3) != a.elseP.operand
  {
    hide ReturnPiece, ReturnKnown, PartNamed, ResultNamed, LocalTmp, PhiDest;
    var p := ReturnPiece(fname, s, k, variables).value;
    PieceNamed(fname, s, k, variables, params);
    PieceNamed(fname, t, k + |p.code|, variables, params);
    PieceIsGood(fname, s, k, variables);
    PieceIsGood(fname, t, k + |p.code|, variables);
    if k < 8 {
      PhiDestApart(fname, k);
      PhiDestApart(fname, k + |p.code|);
    }
  }

  lemma IfCond(f: S.FunctionDecl, args: seq<int>) returns (env1: map<string, int>, c: int)
    requires IfDiamond(f).Some? && IfKnown(f) && |args| == |f.params| && forall p | p in f.params :: IsName(p)
    ensures var d, store := IfDiamond(f).value, S.BindArgs(f.params, args);
      FlowOf(d.pre, BindParams(LowerFn.TypedParams(f.params), args)) == Goes(env1) && Operand(env1, d.cond) == Some(c)
      && Holds(f.params, env1, store)
      && forall oracle, trace :: S.Eval(f.body.stmts[0].cond, store, trace, oracle) == S.Val(c, trace)
  {
    hide TwoArms, LocalTmp, IsName, IsInteger;
    EntryHolds(f, args);
    LocalTmpIsCandidate(f.name, 0);
    var d, store, env := IfDiamond(f).value, S.BindArgs(f.params, args),
      BindParams(LowerFn.TypedParams(f.params), args);
    if d.pre == [] {
      NameOperand(f.params, env, store, d.cond);
      env1, c := env, S.Read(store, d.cond);
    } else {
      c := S.Truth(f.body.stmts[0].cond.b);
      env1 := env[LocalTmp(f.name, 0) := c];
      HoldsMore(f.params, env, store, LocalTmp(f.name, 0), c);
    }
  }

  // A function of one statement ends as that statement does, with 0 when it runs to its end.
  lemma BodyIsStatement(f: S.FunctionDecl, args: seq<int>, oracle: Oracle, fuel: nat)
    requires |args| == |f.params| && f.body.Block? && |f.body.stmts| == 1
    ensures S.RunFunction(f, args, oracle, fuel) ==
            match S.Exec(f.body.stmts[0], S.BindArgs(f.params, args), [], oracle, fuel)
            case Next(_, tr) => S.Done(0, tr)
            case other => other
  {
    hide S.Exec;
    assert f.body == S.Block([f.body.stmts[0]]);
    SingleIsItself(f.body.stmts[0], S.BindArgs(f.params, args), [], oracle, fuel);
  }

  // The names of the emitted diamond, and its arms.
  lemma IfNamed(f: S.FunctionDecl) returns (a: Arms)
    requires IfDiamond(f).Some? && IfKnown(f) && forall p | p in f.params :: IsName(p)
    ensures var s, d := f.body.stmts[0], IfDiamond(f).value;
      DiamondNamed(f.name, d) && d.thenP == a.thenP && d.elseP == a.elseP && !d.inverted
      && TwoArms(f.name, Unwrapped(s.thenBranch), Unwrapped(s.elseBranch.value), |d.pre|, false) == Some(a)
      && (ExtraPhi(f.name, d) != [] ==> PhiDest(f.name, 3) != d.thenP.operand && PhiDest(f.name, 3) != d.elseP.operand)
  {
    hide TwoArms, PartNamed, ResultNamed, LocalTmp, IsName, IsCandidate, PhiDest, ReturnKnown, Known, Unwrapped;
    var s, d := f.body.stmts[0], IfDiamond(f).value;
    a := TwoArms(f.name, Unwrapped(s.thenBranch), Unwrapped(s.elseBranch.value), |d.pre|, false).value;
    CondNamed(f);
    ArmsNamed(f.name, Unwrapped(s.thenBranch), Unwrapped(s.elseBranch.value), |d.pre|, false, f.params);
    LocalTmpIsCandidate(f.name, a.taken);
  }

  lemma IfTakes(f: S.FunctionDecl, store: S.Store, oracle: Oracle, fuel: nat, c: int)
    requires IfKnown(f) && S.Eval(f.body.stmts[0].cond, store, [], oracle) == S.Val(c, [])
    ensures var s := f.body.stmts[0];
      S.Exec(s, store, [], oracle, fuel) ==
      S.Exec(if c != 0 then Unwrapped(s.thenBranch) else Unwrapped(s.elseBranch.value), store, [], oracle, fuel)
  {
    var s := f.body.stmts[0];
    var branch := if c != 0 then s.thenBranch else s.elseBranch.value;
    assert S.Exec(s, store, [], oracle, fuel) == S.Exec(branch, store, [], oracle, fuel);
    UnwrappedMeans(branch, store, [], oracle, fuel);
  }

  /** The phi path preserves the meaning of a two-way `if`: the code returns the source's
      result, or traps with it. */
  lemma IfPreservesMeaning(f: S.FunctionDecl, args: seq<int>, oracle: Oracle, fuel: nat) returns (n: nat)
    requires IfDiamond(f).Some? && IfKnown(f) && |args| == |f.params| && forall p | p in f.params :: IsName(p)
    ensures EndsAs(S.RunFunction(f, args, oracle, fuel),
      Steps(Finished(f, IfDiamond(f).value).body, oracle, Entry(Finished(f, IfDiamond(f).value), args), n))
  {
    hide S.Exec, S.Eval, S.RunFunction, Good, DiamondNamed, IfDiamond, FlowOf, Operand, Finished, Unwrapped, Holds,
      PhiDest, IsInteger, IsName, TwoArms;
    var s, d, store := f.body.stmts[0], IfDiamond(f).value, S.BindArgs(f.params, args);
    var env1, c := IfCond(f, args);
    var a := IfNamed(f);
    IfDiamondGood(f);
    IfTakes(f, store, oracle, fuel, c);
    ArmMeans(f.name, Unwrapped(s.thenBranch), Unwrapped(s.elseBranch.value), |d.pre|, false, f.params, env1, store,
      oracle, fuel, c != 0);
    BodyIsStatement(f, args, oracle, fuel);
    n := DiamondMeans(f, d, args, oracle, env1, c, S.Exec(s, store, [], oracle, fuel));
  }

  // The piece of either arm means that arm.
  lemma ArmMeans(fname: string, s: S.Stmt, t: S.Stmt, k: nat, variables: bool, params: seq<string>, env: map<string,
      int>, store: S.Store,
                 oracle: Oracle, fuel: nat, first: bool)
    requires TwoArms(fname, s, t, k, variables).Some? && ReturnKnown(s, params) && ReturnKnown(t, params)
      && Holds(params, env, store)
    ensures var a := TwoArms(fname, s, t, k, variables).value;
      var p := if first then a.thenP else a.elseP;
      match S.Exec(if first then s else t, store, [], oracle, fuel)
      case Done(v, trace') => trace' == [] && FlowOf(p.code, env).Goes?
        && Operand(FlowOf(p.code, env).env, p.operand) == Some(v)
      case Fault(trace') => trace' == [] && FlowOf(p.code, env) == Traps
      case _ => false
  {
    hide ReturnPiece, ReturnKnown, S.Exec, FlowOf, Operand, Holds;
    var p := ReturnPiece(fname, s, k, variables).value;
    if first {
      PieceMeans(fname, s, k, variables, params, env, store, [], oracle, fuel);
    } else {
      PieceMeans(fname, t, k + |p.code|, variables, params, env, store, [], oracle, fuel);
    }
  }

  // ----- The two-arm match -----

  predicate MatchKnown(f: S.FunctionDecl) {
    f.body.Block? && |f.body.stmts| == 1 && f.body.stmts[0].Match? && |f.body.stmts[0].arms| == 2
    && Known(f.body.stmts[0].subject, f.params)
    && ReturnKnown(f.body.stmts[0].arms[0].body, f.params) && ReturnKnown(f.body.stmts[0].arms[1].body, f.params)
  }

  /** Whether the emitted code takes the first arm for the value x: a number is compared, any
      other pattern is taken for true numbers. */
  predicate CodeTakesFirst(p: S.Pattern, x: int) {
    if p.IntPattern? then x == p.n else x != 0
  }

  lemma MatchNamed(f: S.FunctionDecl) returns (a: Arms)
    requires MatchDiamond(f).Some? && MatchKnown(f) && forall p | p in f.params :: IsName(p)
    ensures var s, d := f.body.stmts[0], MatchDiamond(f).value;
      DiamondNamed(f.name, d) && d.thenP == a.thenP && d.elseP == a.elseP
      && TwoArms(f.name, s.arms[0].body, s.arms[1].body, 0, true) == Some(a)
      && (ExtraPhi(f.name, d) != [] ==> PhiDest(f.name, 3) != d.thenP.operand && PhiDest(f.name, 3) != d.elseP.operand)
  {
    var s, d := f.body.stmts[0], MatchDiamond(f).value;
    assert s.subject.name in f.params;
    MatchPreNamed(f);
    hide TwoArms, PartNamed, ResultNamed, LocalTmp, IsName, IsCandidate, PhiDest, ReturnKnown, Known;
    a := TwoArms(f.name, s.arms[0].body, s.arms[1].body, 0, true).value;
    ArmsNamed(f.name, s.arms[0].body, s.arms[1].body, 0, true, f.params);
    LocalTmpIsCandidate(f.name, a.taken);
    LocalTmpIsCandidate(f.name, a.taken + 1);
  }

  lemma MatchPreNamed(f: S.FunctionDecl)
    requires MatchDiamond(f).Some? && MatchKnown(f) && forall p | p in f.params :: IsName(p)
    ensures var d := MatchDiamond(f).value; PartNamed(f.name, d.pre) && ResultNamed(f.name, d.pre, d.cond)
  {
    hide TwoArms, LocalTmp, IsName, IsInteger, IsCandidate;
    var s, d := f.body.stmts[0], MatchDiamond(f).value;
    assert s.subject.name in f.params;
    LocalTmpIsCandidate(f.name, TwoArms(f.name, s.arms[0].body, s.arms[1].body, 0, true).value.taken);
    if d.pre != [] {
      IntRoundTrip(s.arms[0].pattern.n);
      assert d.pre[0] in d.pre;
    }
  }

  // Subtracting the literal gives 0 exactly on the literal.
  lemma WrapZero(x: int, n: int)
    requires IsI64(x) && IsI64(n)
    ensures Wrap(x - n) == 0 <==> x == n
  {
  }

  lemma MatchCond(f: S.FunctionDecl, args: seq<int>) returns (env1: map<string, int>, c: int, x: int)
    requires MatchDiamond(f).Some? && MatchKnown(f) && |args| == |f.params| && forall p | p in f.params :: IsName(p)
    requires f.body.stmts[0].arms[0].pattern.IntPattern? ==>
      IsI64(f.body.stmts[0].arms[0].pattern.n) && forall v | v in args :: IsI64(v)
    ensures var d, store := MatchDiamond(f).value, S.BindArgs(f.params, args);
      FlowOf(d.pre, BindParams(LowerFn.TypedParams(f.params), args)) == Goes(env1) && Operand(env1, d.cond) == Some(c)
      && Holds(f.params, env1, store) && x == S.Read(store, f.body.stmts[0].subject.name)
      && ((c != 0) != d.inverted <==> CodeTakesFirst(f.body.stmts[0].arms[0].pattern, x))
  {
    hide TwoArms, LocalTmp, IsName, IsInteger, Wrap;
    EntryHolds(f, args);
    var s, d, store, env := f.body.stmts[0], MatchDiamond(f).value, S.BindArgs(f.params, args),
      BindParams(LowerFn.TypedParams(f.params), args);
    x := S.Read(store, s.subject.name);
    assert s.subject.name in f.params;
    NameOperand(f.params, env, store, s.subject.name);
    var p := s.arms[0].pattern;
    if p.IntPattern? {
      var t := LocalTmp(f.name, TwoArms(f.name, s.arms[0].body, s.arms[1].body, 0, true).value.taken);
      LocalTmpIsCandidate(f.name, TwoArms(f.name, s.arms[0].body, s.arms[1].body, 0, true).value.taken);
      IntRoundTrip(p.n);
      BoundIsArgument(f.params, args, s.subject.name);
      c := Wrap(x - p.n);
      WrapZero(x, p.n);
      env1 := env[t := c];
      HoldsMore(f.params, env, store, t, c);
    } else {
      env1, c := env, x;
    }
  }

  lemma {:induction false} BoundIsArgument(params: seq<string>, args: seq<int>, x: string)
    requires |params| == |args| && x in params
    ensures S.Read(S.BindArgs(params, args), x) in args
  {
    if x != params[|params| - 1] {
      assert params == params[..|params| - 1] + [params[|params| - 1]];
      BoundIsArgument(params[..|params| - 1], args[..|args| - 1], x);
    }
  }

  /** What the code for a two-arm match does, whatever the second pattern and the guards: it
      runs the first arm when its test holds and otherwise the second. */
  lemma MatchRuns(f: S.FunctionDecl, args: seq<int>, oracle: Oracle, fuel: nat) returns (n: nat, x: int)
    requires MatchDiamond(f).Some? && MatchKnown(f) && |args| == |f.params| && forall p | p in f.params :: IsName(p)
    requires f.body.stmts[0].arms[0].pattern.IntPattern? ==>
      IsI64(f.body.stmts[0].arms[0].pattern.n) && forall v | v in args :: IsI64(v)
    ensures x == S.Read(S.BindArgs(f.params, args), f.body.stmts[0].subject.name)
    ensures var arms := f.body.stmts[0].arms;
      var outcome := S.Exec(if CodeTakesFirst(arms[0].pattern, x) then arms[0].body
        else arms[1].body, S.BindArgs(f.params, args), [], oracle, fuel);
      EndsAs(outcome,
        Steps(Finished(f, MatchDiamond(f).value).body, oracle, Entry(Finished(f, MatchDiamond(f).value), args), n))
  {
    hide S.Exec, Good, DiamondNamed, MatchDiamond, FlowOf, Operand, Finished, Holds, PhiDest, IsInteger, IsName,
      TwoArms;
    var s, d, store := f.body.stmts[0], MatchDiamond(f).value, S.BindArgs(f.params, args);
    var env1, c;
    env1, c, x := MatchCond(f, args);
    var a := MatchNamed(f);
    MatchDiamondGood(f);
    var first := CodeTakesFirst(s.arms[0].pattern, x);
    ArmMeans(f.name, s.arms[0].body, s.arms[1].body, 0, true, f.params, env1, store, oracle, fuel, first);
    n := DiamondMeans(f, d, args, oracle, env1, c,
      S.Exec(if first then s.arms[0].body else s.arms[1].body, store, [], oracle, fuel));
  }

  /** A number, then a wildcard, neither guarded. */
  predicate NumberThenRest(f: S.FunctionDecl) {
    MatchKnown(f) && f.body.stmts[0].arms[0].pattern.IntPattern? && f.body.stmts[0].arms[1].pattern.Wildcard?
    && f.body.stmts[0].arms[0].guard.None? && f.body.stmts[0].arms[1].guard.None?
  }

  /** Neither arm guarded. */
  predicate Unguarded(f: S.FunctionDecl) {
    MatchKnown(f) && !f.body.stmts[0].arms[1].pattern.OtherPattern?
    && f.body.stmts[0].arms[0].guard.None? && f.body.stmts[0].arms[1].guard.None?
  }

  // The source takes the first arm that matches, with what its pattern binds, if one does.
  lemma MatchTakes(f: S.FunctionDecl, store: S.Store, oracle: Oracle, fuel: nat)
    requires Unguarded(f) && f.body.stmts[0].subject.Variable?
    ensures var s := f.body.stmts[0];
      var x := S.Read(store, s.subject.name);
      S.Exec(s, store, [], oracle, fuel) ==
      match S.Matches(s.arms[0].pattern, x, store)
      case Some(bound) => S.Exec(s.arms[0].body, bound, [], oracle, fuel)
      case None =>
        match S.Matches(s.arms[1].pattern, x, store)
        case Some(bound) => S.Exec(s.arms[1].body, bound, [], oracle, fuel)
        case None => S.Next(store, [])
  {
    var s := f.body.stmts[0];
    var x := S.Read(store, s.subject.name);
    assert S.Eval(s.subject, store, [], oracle) == S.Val(x, []);
    assert s.arms == [s.arms[0], s.arms[1]] && s.arms[1..] == [s.arms[1]] && s.arms[1..][1..] == [];
    assert S.Exec(s, store, [], oracle, fuel) == S.ExecArms(s.arms, x, store, [], oracle, fuel);
    hide S.Exec, S.Matches;
    ArmTried(s.arms[0], x, store, oracle, fuel);
    ArmTried(s.arms[1], x, store, oracle, fuel);
    assert S.ExecArms([], x, store, [], oracle, fuel) == S.Next(store, []);
    var second := S.ExecArms([s.arms[1]], x, store, [], oracle, fuel);
    assert second == match S.Matches(s.arms[1].pattern, x, store)
                     case Some(bound) => S.Exec(s.arms[1].body, bound, [], oracle, fuel)
                     case None => S.Next(store, []);
  }

  lemma ArmTried(arm: S.Arm, x: int, store: S.Store, oracle: Oracle, fuel: nat)
    requires arm.guard.None?
    ensures S.TryArm(arm, x, store, [], oracle, fuel) ==
            match S.Matches(arm.pattern, x, store)
            case Some(bound) => Some((true, S.Exec(arm.body, bound, [], oracle, fuel), []))
            case None => Some((false, S.Wrong, []))
  {
    hide S.Exec, S.Matches;
  }

  /** Which arm the code picks is the source's choice for every number pattern; for `true` on
      0 and 1 only; for `false` never; for a wildcard or a name on numbers other than 0. */
  predicate RightArm(p: S.Pattern, x: int) {
    match p
    case IntPattern(_) => true
    case BoolPattern(b) => b && (x == 0 || x == 1)
    case _ => x != 0
  }

  lemma ChoiceExact(p: S.Pattern, x: int, store: S.Store)
    requires !p.OtherPattern?
    ensures (CodeTakesFirst(p, x) <==> S.Matches(p, x, store).Some?) <==> RightArm(p, x)
  {
  }

  // The number an arm returns; None if it divides by zero.
  function ArmResult(s: S.Stmt, store: S.Store): Option<int> {
    match s
    case Return(Some(IntLit(n))) => Some(n)
    case Return(Some(Variable(x))) => Some(S.Read(store, x))
    case Return(Some(Binary(Variable(l), op, Variable(r)))) =>
      if OpOf(op).Some? then Compute(OpOf(op).value, S.Read(store, l), S.Read(store, r)) else None
    case _ => None
  }

  function OutcomeOf(r: Option<int>): S.Outcome {
    match r
    case Some(v) => S.Done(v, [])
    case None => S.Fault([])
  }

  lemma ArmEnds(fname: string, s: S.Stmt, k: nat, variables: bool, store: S.Store, oracle: Oracle, fuel: nat)
    requires ReturnPiece(fname, s, k, variables).Some?
    ensures S.Exec(s, store, [], oracle, fuel) == OutcomeOf(ArmResult(s, store))
  {
    hide LocalTmp, Compute;
    match s
    case Return(Some(IntLit(n))) =>
    case Return(Some(Variable(x))) =>
    case Return(Some(Binary(Variable(l), op, Variable(r)))) =>
      assert S.Eval(S.Variable(l), store, [], oracle) == S.Val(S.Read(store, l), []);
      assert S.Eval(S.Variable(r), store, [], oracle) == S.Val(S.Read(store, r), []);
      OpMeans(op, S.Read(store, l), S.Read(store, r), []);
  }

  // The store in which the source runs the first arm, if it does.
  function Bound(p: S.Pattern, x: int, store: S.Store): S.Store {
    match S.Matches(p, x, store)
    case Some(bound) => bound
    case None => store
  }

  /** Where the code is right. It picks the arm the source picks, and a name that arm's pattern
      binds changes nothing in it; when the source picks neither, the code's second arm gives
      0; or the code picks the other arm and both give the same. */
  predicate MatchFaithful(f: S.FunctionDecl, args: seq<int>)
    requires MatchKnown(f) && f.body.stmts[0].subject.Variable? && |args| == |f.params|
  {
    var s, store := f.body.stmts[0], S.BindArgs(f.params, args);
    var p, q, x := s.arms[0].pattern, s.arms[1].pattern, S.Read(store, s.subject.name);
    var first := ArmResult(s.arms[0].body, Bound(p, x, store));
    var second := if S.Matches(q, x, store).Some? then ArmResult(s.arms[1].body, Bound(q, x, store)) else Some(0);
    if RightArm(p, x) then
      if CodeTakesFirst(p, x) then first == ArmResult(s.arms[0].body, store)
      else second == ArmResult(s.arms[1].body, store)
    else
      if CodeTakesFirst(p, x) then second == ArmResult(s.arms[0].body, store)
      else first == ArmResult(s.arms[1].body, store)
  }

  /** With a wildcard second and no names bound that is: the right arm, or both the same. */
  lemma FaithfulBeforeRest(f: S.FunctionDecl, args: seq<int>)
    requires MatchKnown(f) && f.body.stmts[0].subject.Variable? && |args| == |f.params|
    requires f.body.stmts[0].arms[1].pattern.Wildcard?
    requires var p := f.body.stmts[0].arms[0].pattern; p.IntPattern? || p.BoolPattern? || p.Wildcard?
    ensures var s, store := f.body.stmts[0], S.BindArgs(f.params, args);
      MatchFaithful(f, args) <==>
      RightArm(s.arms[0].pattern, S.Read(store, s.subject.name))
      || ArmResult(s.arms[0].body, store) == ArmResult(s.arms[1].body, store)
  {
    hide ArmResult;
  }

  // What the source's match gives.
  function MatchOutcome(f: S.FunctionDecl, store: S.Store): S.Outcome
    requires MatchKnown(f) && f.body.stmts[0].subject.Variable?
  {
    var s := f.body.stmts[0];
    var p, q, x := s.arms[0].pattern, s.arms[1].pattern, S.Read(store, s.subject.name);
    if S.Matches(p, x, store).Some? then OutcomeOf(ArmResult(s.arms[0].body, Bound(p, x, store)))
    else if S.Matches(q, x, store).Some? then OutcomeOf(ArmResult(s.arms[1].body, Bound(q, x, store)))
    else S.Next(store, [])
  }

  lemma MatchGives(f: S.FunctionDecl, store: S.Store, oracle: Oracle, fuel: nat)
    requires MatchDiamond(f).Some? && Unguarded(f)
    ensures S.Exec(f.body.stmts[0], store, [], oracle, fuel) == MatchOutcome(f, store)
    ensures forall b | b in f.body.stmts[0].arms ::
      S.Exec(b.body, store, [], oracle, fuel) == OutcomeOf(ArmResult(b.body, store))
  {
    var s := f.body.stmts[0];
    var p, q, x := s.arms[0].pattern, s.arms[1].pattern, S.Read(store, s.subject.name);
    assert TwoArms(f.name, s.arms[0].body, s.arms[1].body, 0, true).Some?;
    var k := |ReturnPiece(f.name, s.arms[0].body, 0, true).value.code|;
    hide S.Exec, ReturnPiece, MatchDiamond, ArmResult;
    MatchTakes(f, store, oracle, fuel);
    ArmEnds(f.name, s.arms[0].body, 0, true, Bound(p, x, store), oracle, fuel);
    ArmEnds(f.name, s.arms[1].body, k, true, Bound(q, x, store), oracle, fuel);
    ArmEnds(f.name, s.arms[0].body, 0, true, store, oracle, fuel);
    ArmEnds(f.name, s.arms[1].body, k, true, store, oracle, fuel);
  }

  lemma ResultsDecide(f: S.FunctionDecl, args: seq<int>, oracle: Oracle, fuel: nat)
    requires MatchDiamond(f).Some? && Unguarded(f) && |args| == |f.params|
    ensures var s, store := f.body.stmts[0], S.BindArgs(f.params, args);
      var first := CodeTakesFirst(s.arms[0].pattern, S.Read(store, s.subject.name));
      S.RunFunction(f, args, oracle, fuel)
        == S.Exec(if first then s.arms[0].body else s.arms[1].body, store, [], oracle, fuel)
      <==> MatchFaithful(f, args)
  {
    var s, store := f.body.stmts[0], S.BindArgs(f.params, args);
    var p, x := s.arms[0].pattern, S.Read(store, s.subject.name);
    assert !p.OtherPattern?;
    hide S.Exec, S.RunFunction, MatchDiamond, ArmResult;
    BodyIsStatement(f, args, oracle, fuel);
    MatchGives(f, store, oracle, fuel);
    ChoiceExact(p, x, store);
    assert s.arms[0] in s.arms && s.arms[1] in s.arms;
  }

  /** An unguarded two-arm match through both passes ends as the source does if and only if the
      code picks the arm the source picks, or what it picks gives the same. */
  lemma MatchEndsExactly(f: S.FunctionDecl, args: seq<int>, oracle: Oracle, fuel: nat) returns (n: nat)
    requires MatchDiamond(f).Some? && Unguarded(f) && |args| == |f.params| && forall p | p in f.params :: IsName(p)
    requires f.body.stmts[0].arms[0].pattern.IntPattern? ==>
      IsI64(f.body.stmts[0].arms[0].pattern.n) && forall v | v in args :: IsI64(v)
    ensures !Steps(Finished(f, MatchDiamond(f).value).body, oracle, Entry(Finished(f, MatchDiamond(f).value), args),
      n).Running?
    ensures EndsAs(S.RunFunction(f, args, oracle, fuel),
      Steps(Finished(f, MatchDiamond(f).value).body, oracle, Entry(Finished(f, MatchDiamond(f).value), args), n))
            <==> MatchFaithful(f, args)
  {
    var x;
    assert f.body.stmts[0].subject.Variable?;
    hide S.Exec, S.RunFunction, Finished, IsName, Steps, MatchFaithful;
    ResultsDecide(f, args, oracle, fuel);
    n, x := MatchRuns(f, args, oracle, fuel);
  }

  lemma NumberIsFaithful(f: S.FunctionDecl, args: seq<int>)
    requires NumberThenRest(f) && f.body.stmts[0].subject.Variable? && |args| == |f.params|
    ensures MatchFaithful(f, args)
  {
    hide ArmResult;
  }

  /** The phi path preserves the meaning of a match on a number and a wildcard. */
  lemma MatchPreservesMeaning(f: S.FunctionDecl, args: seq<int>, oracle: Oracle, fuel: nat) returns (n: nat)
    requires MatchDiamond(f).Some? && NumberThenRest(f) && |args| == |f.params| && forall p | p in f.params :: IsName(p)
    requires IsI64(f.body.stmts[0].arms[0].pattern.n) && forall v | v in args :: IsI64(v)
    ensures EndsAs(S.RunFunction(f, args, oracle, fuel),
      Steps(Finished(f, MatchDiamond(f).value).body, oracle, Entry(Finished(f, MatchDiamond(f).value), args), n))
  {
    assert f.body.stmts[0].subject.Variable?;
    hide S.RunFunction, Finished, IsName, Steps, MatchFaithful;
    n := MatchEndsExactly(f, args, oracle, fuel);
    NumberIsFaithful(f, args);
  }

  // match x { case false: return 1; case _: return 2 }
  function FalseFirst(): S.FunctionDecl {
    S.FunctionDecl("f", ["x"], S.Block([S.Match(S.Variable("x"),
      [S.Arm(S.BoolPattern(false), None, S.Return(Some(S.IntLit(1)))),
        S.Arm(S.Wildcard, None, S.Return(Some(S.IntLit(2))))])]))
  }

  lemma FalseFirstTaken()
    ensures var f := FalseFirst();
      && MatchDiamond(f).Some? && MatchKnown(f) && IsName("x") && LoweredPlain(f).None? && IfDiamond(f).None?
      && S.BindArgs(f.params, [0]) == map["x" := 0]
  {
    var f := FalseFirst();
    assert f.params[..0] == [];
  }

  /** A match on `false` takes the wrong arm: for x = 0 the source returns 1, the code 2. */
  lemma FalsePatternIsInverted(oracle: Oracle) returns (n: nat)
    ensures var f := FalseFirst();
      && S.RunFunction(f, [0], oracle, 0) == S.Done(1, [])
      && LoweredStmt(f).Some? && |LoweredStmt(f).value.params| == 1
      && Steps(LoweredStmt(f).value.body, oracle, Entry(LoweredStmt(f).value, [0]), n) == Returned(Some(2), [])
  {
    hide MatchDiamond, LoweredPlain, IfDiamond, MatchKnown, IsName, S.BindArgs;
    FalseFirstTaken();
    var f := FalseFirst();
    var s, store := f.body.stmts[0], map["x" := 0];
    assert S.Eval(s.subject, store, [], oracle) == S.Val(0, []);
    assert S.TryArm(s.arms[0], 0, store, [], oracle, 0) == Some((true, S.Done(1, []), []));
    assert S.Exec(s, store, [], oracle, 0) == S.Done(1, []);
    BodyIsStatement(f, [0], oracle, 0);
    var x;
    n, x := MatchRuns(f, [0], oracle, 0);
    assert S.Exec(s.arms[1].body, store, [], oracle, 0) == S.Done(2, []);
  }

  // ----- The plain form -----

  predicate PlainKnown(f: S.FunctionDecl) {
    PlainReturn(f.body).Some? && Known(PlainReturn(f.body).value, f.params)
  }

  lemma TextMeans(e: S.Expr, params: seq<string>, env: map<string, int>, store: S.Store, trace: S.Trace, oracle: Oracle)
    requires OperandText(e).Some? && Known(e, params) && Holds(params, env, store)
    ensures S.Eval(e, store, trace, oracle).Val? && S.Eval(e, store, trace, oracle).trace == trace
    ensures Operand(env, OperandText(e).value) == Some(S.Eval(e, store, trace, oracle).value)
  {
    match e
    case Variable(x) => NameOperand(params, env, store, x);
    case IntLit(n) => IntRoundTrip(n);
  }

  lemma {:induction false} TextsMean(es: seq<S.Expr>, params: seq<string>, env: map<string, int>, store: S.Store,
      trace: S.Trace, oracle: Oracle)
    requires OperandTexts(es).Some? && AllKnown(es, params) && Holds(params, env, store)
    ensures var vs := S.EvalArgs(es, store, trace, oracle);
      vs.Vals? && vs.trace == trace && Operands(env, OperandTexts(es).value) == Some(vs.values)
  {
    hide Operand, Holds, OperandText, S.Eval, Known;
    if es != [] {
      var front, last := es[..|es| - 1], es[|es| - 1];
      TextsMean(front, params, env, store, trace, oracle);
      TextMeans(last, params, env, store, trace, oracle);
      var ts := OperandTexts(es).value;
      assert ts[..|ts| - 1] == OperandTexts(front).value;
    }
  }

  // The one instruction of a plain body.
  lemma PlainStep(fname: string, e: S.Expr, params: seq<string>, code: seq<Instr>, oracle: Oracle, frame: Frame,
      store: S.Store)
    requires PlainInstr(fname, e).Some? && Known(e, params) && Holds(params, frame.env, store)
    requires code != [] && code[0] == PlainInstr(fname, e).value
    ensures var next := Step(code, oracle, Running(0, frame, []));
      match S.Eval(e, store, [], oracle)
      case Val(v, trace) => next == Running(1, frame.(env := frame.env[LocalTmp(fname, 0) := v]), trace)
      case Trap(trace) => next == Trapped(trace)
      case NoValue => false
  {
    hide Operand, Operands, Holds, LocalTmp, OperandText, OperandTexts, Compute;
    match e
    case Binary(left, op, right) =>
      TextMeans(left, params, frame.env, store, [], oracle);
      TextMeans(right, params, frame.env, store, [], oracle);
      OpMeans(op, S.Eval(left, store, [], oracle).value, S.Eval(right, store, [], oracle).value, []);
    case Call(Variable(callee), args) =>
      TextsMean(args, params, frame.env, store, [], oracle);
  }

  lemma PlainBody(f: S.FunctionDecl, store: S.Store, oracle: Oracle, fuel: nat)
    requires PlainReturn(f.body).Some?
    ensures S.Exec(f.body, store, [], oracle, fuel) ==
            match S.Eval(PlainReturn(f.body).value, store, [], oracle)
            case Val(v, trace) => S.Done(v, trace)
            case Trap(trace) => S.Fault(trace)
            case NoValue => S.Wrong
  {
    var s := if f.body.Block? && |f.body.stmts| == 1 then f.body.stmts[0] else f.body;
    if f.body.Block? {
      assert f.body == S.Block([s]);
      SingleIsItself(s, store, [], oracle, fuel);
    }
    assert S.Exec(s, store, [], oracle, fuel) == S.Exec(f.body, store, [], oracle, fuel);
    var e := s.value.value;
    if e.Grouping? && e.inner.Binary? {
      assert S.Eval(e, store, [], oracle) == S.Eval(e.inner, store, [], oracle);
    }
  }

  /** A plain function returns what its operation computes, or traps with it. */
  lemma PlainPreservesMeaning(f: S.FunctionDecl, args: seq<int>, oracle: Oracle, fuel: nat)
    requires LoweredPlain(f).Some? && PlainKnown(f) && |args| == |f.params| && forall p | p in f.params :: IsName(p)
    ensures EndsAs(S.RunFunction(f, args, oracle, fuel),
      Steps(LoweredPlain(f).value.body, oracle, Entry(LoweredPlain(f).value, args), 2))
  {
    hide S.Exec, S.Eval, Holds, PlainInstr, Known, PlainReturn, LocalTmp, Step;
    var g, store, e := LoweredPlain(f).value, S.BindArgs(f.params, args), PlainReturn(f.body).value;
    EntryHolds(f, args);
    PlainBody(f, store, oracle, fuel);
    var c := Entry(g, args);
    PlainStep(f.name, e, f.params, g.body, oracle, c.frame, store);
    var c1 := Step(g.body, oracle, c);
    TwoSteps(g.body, oracle, c);
    var r := S.Eval(e, store, [], oracle);
    if r.Val? {
      LocalTmpIsCandidate(f.name, 0);
      ReturnStep(g.body, oracle, c1, LocalTmp(f.name, 0), r.value);
    } else {
      HaltedStep(g.body, oracle, c1);
    }
  }

  lemma TwoSteps(code: seq<Instr>, oracle: Oracle, c: Config)
    ensures Steps(code, oracle, c, 2) == Step(code, oracle, Step(code, oracle, c))
  {
    assert Steps(code, oracle, Step(code, oracle, c), 1)
      == Steps(code, oracle, Step(code, oracle, Step(code, oracle, c)), 0);
  }

  lemma HaltedStep(code: seq<Instr>, oracle: Oracle, c: Config)
    requires !c.Running?
    ensures Step(code, oracle, c) == c
  {
  }

  lemma ReturnStep(code: seq<Instr>, oracle: Oracle, c: Config, s: string, v: int)
    requires c.Running? && c.pc < |code| && code[c.pc] == Ret(Some(s)) && !IsInteger(s) && s in c.frame.env
      && c.frame.env[s] == v
    ensures Step(code, oracle, c) == Returned(Some(v), c.trace)
  {
  }

  // ----- The dispatcher -----

  /** Where the dispatcher is faithful: whatever the general lowering takes, and of the small
      forms those that mention parameters only; a match, on the arguments where it picks the
      right arm or what it picks gives the same. */
  predicate Supported(f: S.FunctionDecl, args: seq<int>)
    requires |args| == |f.params|
  {
    if LoweredPlain(f).Some? then PlainKnown(f)
    else if IfDiamond(f).Some? then IfKnown(f)
    else if MatchDiamond(f).Some? then
      var p := f.body.stmts[0].arms[0].pattern;
      Unguarded(f) && (p.IntPattern? ==> IsI64(p.n)) && MatchFaithful(f, args)
    else true
  }

  predicate TakenSmall(f: S.FunctionDecl) {
    LoweredPlain(f).Some? || IfDiamond(f).Some? || MatchDiamond(f).Some?
  }

  lemma SmallEnds(f: S.FunctionDecl, args: seq<int>, oracle: Oracle, fuel: nat) returns (n: nat)
    requires TakenSmall(f) && |args| == |f.params| && Supported(f, args) && (forall p | p in f.params :: IsName(p))
      && forall v | v in args :: IsI64(v)
    ensures LoweredStmt(f).Some? && |LoweredStmt(f).value.params| == |f.params|
    ensures EndsAs(S.RunFunction(f, args, oracle, fuel),
      Steps(LoweredStmt(f).value.body, oracle, Entry(LoweredStmt(f).value, args), n))
  {
    hide LoweredPlain, IfDiamond, MatchDiamond, PlainKnown, IfKnown, Unguarded, MatchFaithful, S.RunFunction, Steps,
      IsName, EndsAs;
    if LoweredPlain(f).Some? {
      PlainPreservesMeaning(f, args, oracle, fuel);
      PlainParams(f);
      n := 2;
    } else if IfDiamond(f).Some? {
      n := IfPreservesMeaning(f, args, oracle, fuel);
    } else {
      n := MatchEndsExactly(f, args, oracle, fuel);
    }
  }

  lemma PlainParams(f: S.FunctionDecl)
    requires LoweredPlain(f).Some?
    ensures LoweredPlain(f).value.params == LowerFn.TypedParams(f.params)
  {
  }

  /** The whole path from a function to its IR preserves meaning: the code returns a value, or
      traps, after the same calls, exactly when the source does. */
  lemma DispatcherPreservesMeaning(f: S.FunctionDecl, args: seq<int>, oracle: Oracle)
    requires LoweredStmt(f).Some? && |args| == |f.params| && Supported(f, args)
    requires (forall p | p in f.params :: IsName(p)) && forall v | v in args :: IsI64(v)
    ensures |LoweredStmt(f).value.params| == |args|
    ensures forall v, trace ::
      LowerFnTheorem.SourceEnds(f, args, oracle, S.Done(v, trace)) <==>
        LowerFnTheorem.IrEnds(LoweredStmt(f).value, args, oracle, Returned(Some(v), trace))
    ensures forall trace ::
      LowerFnTheorem.SourceEnds(f, args, oracle, S.Fault(trace)) <==>
        LowerFnTheorem.IrEnds(LoweredStmt(f).value, args, oracle, Trapped(trace))
  {
    hide LoweredStmt, Supported, S.RunFunction, Steps, LowerFn.LoweredFunction, IsName;
    if TakenSmall(f) {
      hide TakenSmall;
      var g := LoweredStmt(f).value;
      var n0 := SmallEnds(f, args, oracle, 0);
      forall fuel: nat
        ensures EndsAs(S.RunFunction(f, args, oracle, fuel), Steps(g.body, oracle, Entry(g, args), n0))
      {
        var n := SmallEnds(f, args, oracle, fuel);
        HaltsOnce(g.body, oracle, Entry(g, args), n0, n);
      }
      forall m: nat | !Steps(g.body, oracle, Entry(g, args), m).Running?
        ensures Steps(g.body, oracle, Entry(g, args), m) == Steps(g.body, oracle, Entry(g, args), n0)
      {
        HaltsOnce(g.body, oracle, Entry(g, args), n0, m);
      }
      assert LowerFnTheorem.IrEnds(g, args, oracle, Steps(g.body, oracle, Entry(g, args), n0));
      assert LowerFnTheorem.SourceEnds(f, args, oracle, S.RunFunction(f, args, oracle, 0));
    } else {
      GeneralCase(f);
      LowerFnTheorem.LoweringPreservesMeaning(f, args, oracle);
    }
  }

  lemma GeneralCase(f: S.FunctionDecl)
    requires !TakenSmall(f)
    ensures LoweredStmt(f) == LowerFn.LoweredFunction(f)
    ensures forall p: string | IsName(p) :: !IsInteger(p)
  {
    hide LoweredPlain, IfDiamond, MatchDiamond, LowerFn.LoweredFunction;
  }

  /** The two paths agree wherever both accept: the small form and the general form return the
      same value, or trap, after the same calls. */
  lemma PathsAgree(f: S.FunctionDecl, args: seq<int>, oracle: Oracle)
    requires TakenSmall(f) && LowerFn.LoweredFunction(f).Some? && |args| == |f.params| && Supported(f, args)
    requires (forall p | p in f.params :: IsName(p)) && forall v | v in args :: IsI64(v)
    ensures LoweredStmt(f).Some? && |LoweredStmt(f).value.params| == |args|
      && |LowerFn.LoweredFunction(f).value.params| == |args|
    ensures forall v, trace ::
      LowerFnTheorem.IrEnds(LoweredStmt(f).value, args, oracle, Returned(Some(v), trace)) <==>
      LowerFnTheorem.IrEnds(LowerFn.LoweredFunction(f).value, args, oracle, Returned(Some(v), trace))
    ensures forall trace ::
      LowerFnTheorem.IrEnds(LoweredStmt(f).value, args, oracle, Trapped(trace)) <==>
      LowerFnTheorem.IrEnds(LowerFn.LoweredFunction(f).value, args, oracle, Trapped(trace))
  {
    hide LoweredStmt, Supported, TakenSmall, LowerFn.LoweredFunction, IsName, LowerFnTheorem.IrEnds,
      LowerFnTheorem.SourceEnds;
    var _ := SmallEnds(f, args, oracle, 0);
    NamesAreNotNumbers();
    DispatcherPreservesMeaning(f, args, oracle);
    LowerFnTheorem.LoweringPreservesMeaning(f, args, oracle);
  }

  lemma NamesAreNotNumbers()
    ensures forall p: string | IsName(p) :: !IsInteger(p)
  {
  }

  // ----- The passes as they run -----

  method LowerPlain(f: S.FunctionDecl) returns (r: Option<Function>)
    ensures r == LoweredPlain(f)
    ensures r.Some? <==> PlainForm(f)
    ensures r.Some? ==> SameHeader(f, r.value)
  {
    hide PlainForm, SameHeader;
    PlainTaken(f);
    PlainHeaded(f);
    var e := PlainReturn(f.body);
    if e.None? {
      return None;
    }
    var i := PlainInstr(f.name, e.value);
    if i.None? {
      return None;
    }
    r := Some(Emitted(f, [i.value, Ret(Some(LocalTmp(f.name, 0)))]));
  }

  // Pushes the blocks of a diamond behind what is there already.
  method PushDiamond(pre: seq<Instr>, d: Diamond) returns (body: seq<Instr>)
    requires pre == d.pre
    ensures body == CodeOf(d, [])
  {
    body := pre;
    body := body + [Branch(d)];
    body := body + [Label(d.thenBB)];
    body := body + d.thenP.code;
    body := body + [Br(d.mergeBB)];
    body := body + [Label(d.elseBB)];
    body := body + d.elseP.code;
    body := body + [Br(d.mergeBB)];
    body := body + [Label(d.mergeBB)];
    body := body + [Phi(d.res, I64, Pairs(d))];
    body := body + [Ret(Some(d.res))];
    var bs := BlocksOf(d, []);
    FlattenFour(bs[0], bs[1], bs[2], bs[3]);
    assert [Label(d.mergeBB)] + ([] + [Phi(d.res, I64, Pairs(d)), Ret(Some(d.res))]) == [Label(d.mergeBB)]
      + [Phi(d.res, I64, Pairs(d))] + [Ret(Some(d.res))];
  }

  method LowerIfFunction(f: S.FunctionDecl) returns (r: Option<Function>)
    ensures r == match IfDiamond(f) case Some(d) => Some(Emitted(f, CodeOf(d, []))) case None => None
    ensures r.Some? <==> IfForm(f)
    ensures r.Some? ==> SameHeader(f, r.value)
  {
    hide CodeOf, ReturnPiece, LocalTmp, IfForm;
    IfTaken(f);
    if !f.body.Block? || |f.body.stmts| != 1 || !f.body.stmts[0].If? {
      return None;
    }
    var s := f.body.stmts[0];
    var nextTemp := 0;
    var cond, pre: seq<Instr>;
    match s.cond {
      case Variable(x) => cond, pre := x, [];
      case BoolLit(b) =>
        cond, pre := LocalTmp(f.name, nextTemp), [ConstI64(LocalTmp(f.name, nextTemp), if b then 1 else 0)];
        nextTemp := nextTemp + 1;
      case _ => return None;
    }
    var thenRes := ReturnPiece(f.name, Unwrapped(s.thenBranch), nextTemp, false);
    if thenRes.None? {
      return None;
    }
    nextTemp := nextTemp + |thenRes.value.code|;
    if s.elseBranch.None? {
      return None;
    }
    var elseRes := ReturnPiece(f.name, Unwrapped(s.elseBranch.value), nextTemp, false);
    if elseRes.None? {
      return None;
    }
    nextTemp := nextTemp + |elseRes.value.code|;
    var base := LowerFn.StripAt(f.name);
    var d := Diamond(pre, cond, false, thenRes.value, elseRes.value, LocalTmp(f.name, nextTemp), base + "_then",
      base + "_else", base + "_merge");
    var body := PushDiamond(pre, d);
    r := Some(Emitted(f, body));
  }

  method LowerMatchFunction(f: S.FunctionDecl) returns (r: Option<Function>)
    ensures r == match MatchDiamond(f) case Some(d) => Some(Emitted(f, CodeOf(d, []))) case None => None
    ensures r.Some? <==> MatchForm(f)
    ensures r.Some? ==> SameHeader(f, r.value)
  {
    hide CodeOf, ReturnPiece, LocalTmp, MatchForm;
    MatchTaken(f);
    if !f.body.Block? || |f.body.stmts| != 1 || !f.body.stmts[0].Match? {
      return None;
    }
    var s := f.body.stmts[0];
    if |s.arms| != 2 || !s.subject.Variable? || s.arms[0].pattern.OtherPattern? {
      return None;
    }
    var nextTemp := 0;
    var thenRes := ReturnPiece(f.name, s.arms[0].body, nextTemp, true);
    if thenRes.None? {
      return None;
    }
    nextTemp := nextTemp + |thenRes.value.code|;
    var elseRes := ReturnPiece(f.name, s.arms[1].body, nextTemp, true);
    if elseRes.None? {
      return None;
    }
    nextTemp := nextTemp + |elseRes.value.code|;
    var pre, cond, inverted := [], s.subject.name, false;
    if s.arms[0].pattern.IntPattern? {
      var cmp := LocalTmp(f.name, nextTemp);
      nextTemp := nextTemp + 1;
      pre, cond, inverted := [Arith(Sub, cmp, s.subject.name, IntText(s.arms[0].pattern.n))], cmp, true;
    }
    var base := LowerFn.StripAt(f.name);
    var d := Diamond(pre, cond, inverted, thenRes.value, elseRes.value, LocalTmp(f.name, nextTemp), base + "_case0",
      base + "_case1", base + "_merge");
    var body := PushDiamond(pre, d);
    r := Some(Emitted(f, body));
  }

  /** `lower_stmt`: tries each form in turn and runs both passes on the phi forms. */
  method LowerStmt(f: S.FunctionDecl) returns (r: Option<Function>)
    ensures r == LoweredStmt(f)
    ensures r.Some? <==> PlainForm(f) || IfForm(f) || MatchForm(f) || Lowerable(f)
    ensures r.Some? ==> SameHeader(f, r.value)
  {
    hide LoweredPlain, IfDiamond, MatchDiamond, LowerFn.LoweredFunction, Renamed, PhisInserted, CodeOf, PlainForm,
      IfForm,
      MatchForm, Lowerable, SameHeader;
    DispatcherTakesExactly(f);
    r := LowerPlain(f);
    if r.Some? {
      return;
    }
    r := LowerIfFunction(f);
    if r.None? {
      r := LowerMatchFunction(f);
    }
    if r.Some? {
      var unit := new Unit(r.value);
      unit.InsertPhiNodes();
      unit.RenameTemps();
      return Some(unit.func);
    }
    r := LowererObject.LowerFunction(f);
  }
}
