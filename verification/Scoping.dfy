/** The interpreter gives every block a scope of its own; the lowering gives a function one
    flat store. Where no block binds a name again that is in scope around it, and names are
    read only where they are bound, both mean the same. */
module Scoping {
  import opened Names
  import opened Source
  import Ir

  // ----- Block scoping -----

  /** The same statements with scoped blocks: what a block binds is gone behind it. */
  function ScopedExec(s: Stmt, store: Store, trace: Trace, oracle: Ir.Oracle, fuel: nat): Outcome
    decreases fuel, s, 1
  {
    match s
    case Block(stmts) =>
      (match ScopedSeq(stmts, store, trace, oracle, fuel)
       case Next(_, tr) => Next(store, tr)
       case other => other)
    case If(cond, thenBranch, elseBranch) =>
      (match Eval(cond, store, trace, oracle)
       case Val(v, tr) =>
         if v != 0 then ScopedExec(thenBranch, store, tr, oracle, fuel)
         else if elseBranch.Some? then ScopedExec(elseBranch.value, store, tr, oracle, fuel)
         else Next(store, tr)
       case Trap(tr) => Fault(tr)
       case NoValue => Wrong)
    case While(cond, body) =>
      if fuel == 0 then OutOfFuel
      else
        (match Eval(cond, store, trace, oracle)
         case Val(v, tr) =>
           if v == 0 then Next(store, tr)
           else
             (match ScopedExec(body, store, tr, oracle, fuel - 1)
              case Next(store', tr') => ScopedExec(s, store', tr', oracle, fuel - 1)
              case other => other)
         case Trap(tr) => Fault(tr)
         case NoValue => Wrong)
    case _ => Exec(s, store, trace, oracle, fuel)
  }

  function ScopedSeq(stmts: seq<Stmt>, store: Store, trace: Trace, oracle: Ir.Oracle, fuel: nat): Outcome
    decreases fuel, stmts, 0
  {
    if stmts == [] then Next(store, trace)
    else
      match ScopedExec(stmts[0], store, trace, oracle, fuel)
      case Next(store', tr') => ScopedSeq(stmts[1..], store', tr', oracle, fuel)
      case other => other
  }

  function ScopedRun(f: FunctionDecl, args: seq<int>, oracle: Ir.Oracle, fuel: nat): Outcome
    requires |args| == |f.params|
  {
    match ScopedExec(f.body, BindArgs(f.params, args), [], oracle, fuel)
    case Next(_, tr) => Done(0, tr)
    case other => other
  }

  // ----- What a program must look like -----

  // Every variable read is among the names.
  predicate Reads(e: Expr, names: set<string>)
    decreases e, 1
  {
    match e
    case Variable(x) => x in names
    case Grouping(inner) => Reads(inner, names)
    case Unary(_, right) => Reads(right, names)
    case Binary(left, _, right) => Reads(left, names) && Reads(right, names)
    case Call(_, args) => AllRead(args, names)
    case _ => true
  }

  predicate AllRead(es: seq<Expr>, names: set<string>)
    decreases es, 0
  {
    es == [] || (AllRead(es[..|es| - 1], names) && Reads(es[|es| - 1], names))
  }

  /** The names bound in the present block after a statement, if it reads bound names only and
      binds none that an enclosing block has bound. */
  function ScopeAfter(s: Stmt, outer: set<string>, here: set<string>): Option<set<string>>
    decreases s, 1
  {
    match s
    case Block(stmts) => if ScopeAfterAll(stmts, outer + here, {}).Some? then Some(here) else None
    case Let(pattern, init) =>
      if (pattern.VariablePattern? || pattern.BindingPattern?) && Reads(init, outer + here) && pattern.name !in outer
      then Some(here + {pattern.name})
      else None
    case Expression(e) => if Reads(e, outer + here) then Some(here) else None
    case Return(None) => Some(here)
    case Return(Some(e)) => if Reads(e, outer + here) then Some(here) else None
    case If(cond, thenBranch, elseBranch) =>
      if !Reads(cond, outer + here) then None
      else
        var t := ScopeAfter(thenBranch, outer, here);
        var e := if elseBranch.Some? then ScopeAfter(elseBranch.value, outer, here) else Some(here);
        if t.Some? && e.Some? then Some(t.value * e.value) else None
    case While(cond, body) =>
      if Reads(cond, outer + here) && ScopeAfter(body, outer, here).Some? then Some(here) else None
    case _ => None
  }

  function ScopeAfterAll(stmts: seq<Stmt>, outer: set<string>, here: set<string>): Option<set<string>>
    decreases stmts, 0
  {
    if stmts == [] then Some(here)
    else
      match ScopeAfter(stmts[0], outer, here)
      case Some(next) => ScopeAfterAll(stmts[1..], outer, next)
      case None => None
  }

  // Behind the outermost block nothing is read, so there parameters may be bound again.
  predicate WellScoped(f: FunctionDecl) {
    var names := set p | p in f.params;
    if f.body.Block? then ScopeAfterAll(f.body.stmts, {}, names).Some? else ScopeAfter(f.body, {}, names).Some?
  }

  // ----- Both stores tell the same -----

  ghost predicate Agree(names: set<string>, flat: Store, scoped: Store) {
    forall x | x in names :: Read(flat, x) == Read(scoped, x)
  }

  lemma {:induction false} EvalAgrees(e: Expr, names: set<string>, flat: Store, scoped: Store, trace: Trace,
      oracle: Ir.Oracle)
    requires Reads(e, names) && Agree(names, flat, scoped)
    ensures Eval(e, flat, trace, oracle) == Eval(e, scoped, trace, oracle)
    decreases e, 1
  {
    hide Agree, Read, Apply;
    match e
    case Variable(x) => assert Read(flat, x) == Read(scoped, x) by { AgreeOn(names, flat, scoped, x); }
    case Grouping(inner) => EvalAgrees(inner, names, flat, scoped, trace, oracle);
    case Unary(_, right) => EvalAgrees(right, names, flat, scoped, trace, oracle);
    case Binary(left, _, right) =>
      EvalAgrees(left, names, flat, scoped, trace, oracle);
      var l := Eval(left, flat, trace, oracle);
      if l.Val? {
        EvalAgrees(right, names, flat, scoped, l.trace, oracle);
      }
    case Call(_, args) => ArgsAgree(args, names, flat, scoped, trace, oracle);
    case _ =>
  }

  lemma AgreeOn(names: set<string>, flat: Store, scoped: Store, x: string)
    requires Agree(names, flat, scoped) && x in names
    ensures Read(flat, x) == Read(scoped, x)
  {
  }

  lemma {:induction false} ArgsAgree(args: seq<Expr>, names: set<string>, flat: Store, scoped: Store, trace: Trace,
      oracle: Ir.Oracle)
    requires AllRead(args, names) && Agree(names, flat, scoped)
    ensures EvalArgs(args, flat, trace, oracle) == EvalArgs(args, scoped, trace, oracle)
    decreases args, 0
  {
    hide Agree, Eval;
    if args != [] {
      ArgsAgree(args[..|args| - 1], names, flat, scoped, trace, oracle);
      var r := EvalArgs(args[..|args| - 1], flat, trace, oracle);
      if r.Vals? {
        EvalAgrees(args[|args| - 1], names, flat, scoped, r.trace, oracle);
      }
    }
  }

  /** What the two runs of a statement have in common: the same end, and stores that agree on
      the names in scope; names of enclosing blocks are as before. */
  ghost predicate Alike(outer: set<string>, here: set<string>, start: Store, flat: Outcome, scoped: Outcome) {
    match flat
    case Next(store, tr) =>
      scoped.Next? && scoped.trace == tr && Agree(outer + here, store, scoped.store) && Agree(outer, start, store)
    case other => scoped == other
  }

  lemma AlikeMore(outer: set<string>, here: set<string>, fewer: set<string>, start: Store, mid: Store, flat: Outcome,
      scoped: Outcome)
    requires Alike(outer, here, mid, flat, scoped) && Agree(outer, start, mid) && fewer <= here
    ensures Alike(outer, fewer, start, flat, scoped)
  {
    hide Read;
  }

  // Scopes only grow.
  lemma {:induction false} ScopeGrows(s: Stmt, outer: set<string>, here: set<string>)
    requires ScopeAfter(s, outer, here).Some?
    ensures here <= ScopeAfter(s, outer, here).value
    decreases s
  {
    hide Reads;
    if s.If? {
      ScopeGrows(s.thenBranch, outer, here);
      if s.elseBranch.Some? {
        ScopeGrows(s.elseBranch.value, outer, here);
      }
    }
  }

  lemma {:induction false} StmtAlike(s: Stmt, outer: set<string>, here: set<string>, flat: Store, scoped: Store,
      trace: Trace, oracle: Ir.Oracle, fuel: nat)
    requires ScopeAfter(s, outer, here).Some? && Agree(outer + here, flat, scoped)
    ensures Alike(outer, ScopeAfter(s, outer, here).value, flat,
      Exec(s, flat, trace, oracle, fuel), ScopedExec(s, scoped, trace, oracle, fuel))
    decreases fuel, s, 1
  {
    hide Eval, Reads;
    match s
    case Block(stmts) =>
      assert outer + here + {} == outer + here;
      SeqAlike(stmts, outer + here, {}, flat, scoped, trace, oracle, fuel);
    case Let(_, init) =>
      EvalAgrees(init, outer + here, flat, scoped, trace, oracle);
    case Expression(e) =>
      EvalAgrees(e, outer + here, flat, scoped, trace, oracle);
    case Return(Some(e)) =>
      EvalAgrees(e, outer + here, flat, scoped, trace, oracle);
    case Return(None) =>
    case If(cond, thenBranch, elseBranch) =>
      BranchAlike(s, outer, here, flat, scoped, trace, oracle, fuel);
    case While(cond, body) =>
      if fuel > 0 {
        LoopAlike(s, outer, here, flat, scoped, trace, oracle, fuel);
      }
  }

  lemma {:induction false} BranchAlike(s: Stmt, outer: set<string>, here: set<string>, flat: Store, scoped: Store,
      trace: Trace, oracle: Ir.Oracle, fuel: nat)
    requires s.If? && ScopeAfter(s, outer, here).Some? && Agree(outer + here, flat, scoped)
    ensures Alike(outer, ScopeAfter(s, outer, here).value, flat,
      Exec(s, flat, trace, oracle, fuel), ScopedExec(s, scoped, trace, oracle, fuel))
    decreases fuel, s, 0
  {
    hide Reads;
    EvalAgrees(s.cond, outer + here, flat, scoped, trace, oracle);
    hide Eval, Alike;
    var v, after := Eval(s.cond, flat, trace, oracle), ScopeAfter(s, outer, here).value;
    ScopeGrows(s, outer, here);
    var same := Next(flat, trace);
    if v.Val? {
      if v.value != 0 {
        StmtAlike(s.thenBranch, outer, here, flat, scoped, v.trace, oracle, fuel);
        AlikeMore(outer, ScopeAfter(s.thenBranch, outer, here).value, after, flat, flat,
          Exec(s.thenBranch, flat, v.trace, oracle, fuel), ScopedExec(s.thenBranch, scoped, v.trace, oracle, fuel));
      } else if s.elseBranch.Some? {
        StmtAlike(s.elseBranch.value, outer, here, flat, scoped, v.trace, oracle, fuel);
        AlikeMore(outer, ScopeAfter(s.elseBranch.value, outer, here).value, after, flat, flat,
          Exec(s.elseBranch.value, flat, v.trace, oracle, fuel),
            ScopedExec(s.elseBranch.value, scoped, v.trace, oracle, fuel));
      } else {
        StayAlike(outer, here, after, flat, scoped, v.trace);
      }
    } else {
      EndAlike(outer, after, flat, Exec(s, flat, trace, oracle, fuel));
    }
  }

  lemma StayAlike(outer: set<string>, here: set<string>, after: set<string>, flat: Store, scoped: Store, trace: Trace)
    requires Agree(outer + here, flat, scoped) && after <= here
    ensures Alike(outer, after, flat, Next(flat, trace), Next(scoped, trace))
  {
    hide Read;
  }

  lemma EndAlike(outer: set<string>, after: set<string>, start: Store, o: Outcome)
    requires !o.Next?
    ensures Alike(outer, after, start, o, o)
  {
  }

  lemma {:induction false} LoopAlike(s: Stmt, outer: set<string>, here: set<string>, flat: Store, scoped: Store,
      trace: Trace, oracle: Ir.Oracle, fuel: nat)
    requires s.While? && ScopeAfter(s, outer, here).Some? && Agree(outer + here, flat, scoped) && fuel > 0
    ensures Alike(outer, ScopeAfter(s, outer, here).value, flat,
      Exec(s, flat, trace, oracle, fuel), ScopedExec(s, scoped, trace, oracle, fuel))
    decreases fuel, s, 0
  {
    hide Reads;
    EvalAgrees(s.cond, outer + here, flat, scoped, trace, oracle);
    hide Eval, Read;
    var v := Eval(s.cond, flat, trace, oracle);
    if v.Val? && v.value != 0 {
      StmtAlike(s.body, outer, here, flat, scoped, v.trace, oracle, fuel - 1);
      ScopeGrows(s.body, outer, here);
      var o, o' := Exec(s.body, flat, v.trace, oracle, fuel - 1), ScopedExec(s.body, scoped, v.trace, oracle, fuel - 1);
      if o.Next? {
        StmtAlike(s, outer, here, o.store, o'.store, o.trace, oracle, fuel - 1);
        AlikeMore(outer, here, here, flat, o.store,
          Exec(s, o.store, o.trace, oracle, fuel - 1), ScopedExec(s, o'.store, o.trace, oracle, fuel - 1));
      }
    }
  }

  lemma {:induction false} SeqAlike(stmts: seq<Stmt>, outer: set<string>, here: set<string>, flat: Store, scoped: Store,
      trace: Trace, oracle: Ir.Oracle, fuel: nat)
    requires ScopeAfterAll(stmts, outer, here).Some? && Agree(outer + here, flat, scoped)
    ensures Alike(outer, ScopeAfterAll(stmts, outer, here).value, flat,
      ExecSeq(stmts, flat, trace, oracle, fuel), ScopedSeq(stmts, scoped, trace, oracle, fuel))
    decreases fuel, stmts, 0
  {
    hide Exec, ScopedExec, ScopeAfter;
    if stmts != [] {
      var next := ScopeAfter(stmts[0], outer, here).value;
      StmtAlike(stmts[0], outer, here, flat, scoped, trace, oracle, fuel);
      var o, o' := Exec(stmts[0], flat, trace, oracle, fuel), ScopedExec(stmts[0], scoped, trace, oracle, fuel);
      if o.Next? {
        SeqAlike(stmts[1..], outer, next, o.store, o'.store, o.trace, oracle, fuel);
        AlikeMore(outer, ScopeAfterAll(stmts[1..], outer, next).value, ScopeAfterAll(stmts[1..], outer, next).value,
          flat, o.store,
          ExecSeq(stmts[1..], o.store, o.trace, oracle, fuel), ScopedSeq(stmts[1..], o'.store, o.trace, oracle, fuel));
      }
    }
  }

  lemma BlockIsSeq(s: Stmt, store: Store, oracle: Ir.Oracle, fuel: nat)
    requires s.Block?
    ensures Exec(s, store, [], oracle, fuel) == ExecSeq(s.stmts, store, [], oracle, fuel)
    ensures ScopedExec(s, store, [], oracle, fuel) ==
      match ScopedSeq(s.stmts, store, [], oracle, fuel) case Next(_, tr) => Next(store, tr) case other => other
  {
  }

  /** A well-scoped function runs the same in the flat store as with scoped blocks: every
      result about the flat semantics is one about the interpreter's. */
  lemma FlatIsScoped(f: FunctionDecl, args: seq<int>, oracle: Ir.Oracle, fuel: nat)
    requires |args| == |f.params| && WellScoped(f)
    ensures RunFunction(f, args, oracle, fuel) == ScopedRun(f, args, oracle, fuel)
  {
    hide Exec, ScopedExec, ScopeAfter;
    var store := BindArgs(f.params, args);
    var names := set p | p in f.params;
    if f.body.Block? {
      BlockIsSeq(f.body, store, oracle, fuel);
      SeqAlike(f.body.stmts, {}, names, store, store, [], oracle, fuel);
    } else {
      StmtAlike(f.body, {}, names, store, store, [], oracle, fuel);
    }
  }

  /** A block that binds a parameter again: the flat store keeps the new value behind it. */
  lemma ShadowingDiffers(f: FunctionDecl, oracle: Ir.Oracle)
    requires f == FunctionDecl("f", ["x"],
      Block([Block([Let(VariablePattern("x"), IntLit(2))]), Return(Some(Variable("x")))]))
    ensures !WellScoped(f) && RunFunction(f, [1], oracle, 0) == Done(2, [])
      && ScopedRun(f, [1], oracle, 0) == Done(1, [])
  {
    var inner, ret := Block([Let(VariablePattern("x"), IntLit(2))]), Return(Some(Variable("x")));
    var lets := inner.stmts;
    assert f.params[..0] == [] && BindArgs(f.params, [1]) == map["x" := 1];
    var store := BindArgs(f.params, [1]);
    assert lets[1..] == [] && f.body.stmts[1..] == [ret] && [ret][1..] == [];
    assert ExecSeq(lets, store, [], oracle, 0) == Next(store["x" := 2], []);
    assert ScopedSeq(lets, store, [], oracle, 0) == Next(store["x" := 2], []);
    assert ExecSeq([ret], store["x" := 2], [], oracle, 0) == Done(2, []);
    assert ScopedSeq([ret], store, [], oracle, 0) == Done(1, []);
    assert "x" in (set p | p in f.params);
    var names := set p | p in f.params;
    assert ScopeAfterAll(lets, {} + names, {}).None?;
    assert ScopeAfter(inner, {}, names).None?;
  }

  // count(n): let i = 0; while i < n { let i = i + 1 }; return i
  function Counting(): Stmt {
    While(Binary(Variable("i"), "<", Variable("n")),
      Block([Let(VariablePattern("i"), Binary(Variable("i"), "+", IntLit(1)))]))
  }

  function CountUp(): FunctionDecl {
    FunctionDecl("count", ["n"], Block([Let(VariablePattern("i"), IntLit(0)), Counting(), Return(Some(Variable("i")))]))
  }

  lemma {:induction false} CountingForever(store: Store, oracle: Ir.Oracle, fuel: nat)
    requires Read(store, "i") < Read(store, "n")
    ensures ScopedExec(Counting(), store, [], oracle, fuel) == OutOfFuel
  {
    if fuel > 0 {
      var body := Counting().body;
      assert body.stmts[1..] == [];
      var step := body.stmts[0];
      var inner := store["i" := Ir.Wrap(Read(store, "i") + 1)];
      assert Eval(Counting().cond, store, [], oracle) == Val(1, []);
      assert ScopedExec(step, store, [], oracle, fuel - 1) == Next(inner, []);
      assert ScopedSeq(body.stmts, store, [], oracle, fuel - 1) == Next(inner, []);
      assert ScopedExec(body, store, [], oracle, fuel - 1) == Next(store, []);
      CountingForever(store, oracle, fuel - 1);
    }
  }

  /** A loop whose block binds its counter again: it counts in the flat store, and runs for
      ever with scoped blocks. */
  lemma CountingDiffers(oracle: Ir.Oracle)
    ensures !WellScoped(CountUp())
    ensures RunFunction(CountUp(), [1], oracle, 2) == Done(1, [])
    ensures forall fuel: nat :: ScopedRun(CountUp(), [1], oracle, fuel) == OutOfFuel
  {
    var f, loop := CountUp(), Counting();
    var stmts := f.body.stmts;
    assert f.params[..0] == [] && BindArgs(f.params, [1]) == map["n" := 1];
    assert "i"[0] != "n"[0];
    var start := map["n" := 1]["i" := 0];
    assert stmts[1..] == [loop, stmts[2]] && stmts[1..][1..] == [stmts[2]] && [stmts[2]][1..] == [];
    CountsOnce(oracle);
    assert Exec(stmts[0], map["n" := 1], [], oracle, 2) == Next(start, []);
    assert ExecSeq([stmts[2]], start["i" := 1], [], oracle, 2) == Done(1, []);
    assert ExecSeq(stmts[1..], start, [], oracle, 2) == Done(1, []);
    assert ExecSeq(stmts, map["n" := 1], [], oracle, 2) == Done(1, []);
    forall fuel: nat
      ensures ScopedRun(f, [1], oracle, fuel) == OutOfFuel
    {
      CountingForever(start, oracle, fuel);
      assert ScopedExec(stmts[0], map["n" := 1], [], oracle, fuel) == Next(start, []);
      assert ScopedSeq(stmts[1..], start, [], oracle, fuel) == OutOfFuel;
      assert ScopedSeq(stmts, map["n" := 1], [], oracle, fuel) == OutOfFuel;
    }
    CountingIsRefused();
  }

  // Twice round is enough to count to 1.
  lemma CountsOnce(oracle: Ir.Oracle)
    ensures var start := map["n" := 1]["i" := 0];
      Exec(Counting(), start, [], oracle, 2) == Next(start["i" := 1], [])
  {
    var loop, start := Counting(), map["n" := 1]["i" := 0];
    var body := loop.body;
    assert "i"[0] != "n"[0] && body.stmts[1..] == [];
    assert Eval(loop.cond, start, [], oracle) == Val(1, []);
    assert Exec(body.stmts[0], start, [], oracle, 1) == Next(start["i" := 1], []);
    assert ExecSeq(body.stmts, start, [], oracle, 1) == Next(start["i" := 1], []);
    assert Exec(body, start, [], oracle, 1) == Next(start["i" := 1], []);
    assert Eval(loop.cond, start["i" := 1], [], oracle) == Val(0, []);
    assert Exec(loop, start["i" := 1], [], oracle, 1) == Next(start["i" := 1], []);
  }

  lemma CountingIsRefused()
    ensures !WellScoped(CountUp())
  {
    var f := CountUp();
    var stmts, names := f.body.stmts, set p | p in f.params;
    assert ScopeAfter(stmts[0], {}, names) == Some(names + {"i"});
    assert "i" in {} + (names + {"i"});
    assert ScopeAfterAll(Counting().body.stmts, {} + (names + {"i"}), {}).None?;
    assert ScopeAfter(Counting().body, {}, names + {"i"}).None?;
    assert ScopeAfter(Counting(), {}, names + {"i"}).None?;
    assert stmts[1..][0] == Counting();
    assert ScopeAfterAll(stmts[1..], {}, names + {"i"}).None?;
  }
}
