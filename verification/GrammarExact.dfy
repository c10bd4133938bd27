/** The converse: whatever is parsed without a diagnostic is a tree of the grammar, spelled by
    exactly the tokens passed. Together with `Grammar`, the parser accepts the grammar. */
module GrammarExact {
  import opened Parser
  import opened Grammar

  /** Parsing does not start at the end just behind a complete operand. */
  predicate Startable(ts: seq<Token>, pos: nat) {
    !AtEnd(ts, pos) || pos == 0 || !IsLeaf(Peek(ts, pos - 1))
  }

  // What a parse that added no diagnostic has read.
  predicate Sound(ts: seq<Token>, pos: nat, depth: nat, level: nat, r: Result) {
    && At(ts, pos, Spelled(r.expr)) && r.pos == pos + |Spelled(r.expr)| && Fits(r.expr, level)
    && Precedence(Peek(ts, r.pos)) <= Tail(r.expr) && depth + Inner(r.expr) <= MAX_DEPTH
  }

  // The items of a list read from pos, and whether a comma follows the last.
  ghost predicate ListSound(ts: seq<Token>, pos: nat, depth: nat, items: seq<Expr>, trailing: bool, end: nat) {
    && At(ts, pos, SpelledItems(items, trailing)) && end == pos + |SpelledItems(items, trailing)|
    && AllFit(items) && (items == [] ==> !trailing) && depth + Nesting(items) <= MAX_DEPTH
  }

  lemma Bounded(t: Token)
    ensures Precedence(t) < CLOSED
  {
  }

  // At the end of the input nothing can be parsed.
  lemma {:induction false} EndFails(ts: seq<Token>, pos: nat, depth: nat, level: nat)
    requires AtEnd(ts, pos) && Startable(ts, pos)
    ensures AtPrecedence(ts, pos, depth, level).errors > 0
    decreases Room(depth), 0
  {
    hide Precedence;
    if depth + 1 <= MAX_DEPTH {
      hide AtPrecedence;
      var p := PrefixAt(ts, pos, depth + 1);
      var t := Taken(ts, pos);
      assert !IsLeaf(t) && Advance(ts, pos) == pos;
      if IsPrefixOp(t) {
        EndFails(ts, pos, depth + 1, UNARY);
      } else if t.LeftBracket? {
        assert ItemsAt(ts, pos, depth + 1, [], RightBracket) == Items([], false, pos, 0);
      } else if t.LeftParen? {
        assert GroupAt(ts, pos, depth + 1).errors == 1;
      }
      assert p.errors > 0;
      FirstIsKept(ts, pos, depth, level);
    }
  }

  lemma FirstIsKept(ts: seq<Token>, pos: nat, depth: nat, level: nat)
    requires depth + 1 <= MAX_DEPTH
    ensures AtPrecedence(ts, pos, depth, level).errors >= PrefixAt(ts, pos, depth + 1).errors
  {
    hide LoopAt, PrefixAt;
  }

  /** Parsing without a diagnostic yields a tree that fits, spelled by the tokens passed. */
  lemma {:induction false} PrecedenceSound(ts: seq<Token>, pos: nat, depth: nat, level: nat)
    requires Startable(ts, pos) && level <= UNARY && AtPrecedence(ts, pos, depth, level).errors == 0
    ensures depth + 1 <= MAX_DEPTH && Sound(ts, pos, depth + 1, level, AtPrecedence(ts, pos, depth, level))
    ensures Precedence(Peek(ts, AtPrecedence(ts, pos, depth, level).pos)) <= level
    decreases Room(depth), 0, 0
  {
    hide PrefixAt, LoopAt, Sound, Precedence, Startable;
    if AtEnd(ts, pos) {
      EndFails(ts, pos, depth, level);
    } else {
      PrefixSound(ts, pos, depth + 1, level);
      LoopSound(ts, pos, PrefixAt(ts, pos, depth + 1), depth + 1, level);
    }
  }

  lemma {:induction false} LoopSound(ts: seq<Token>, pos: nat, left: Result, depth: nat, level: nat)
    requires depth <= MAX_DEPTH && level <= UNARY && Sound(ts, pos, depth, level, left)
      && LoopAt(ts, left, depth, level).errors == 0
    ensures Sound(ts, pos, depth, level, LoopAt(ts, left, depth, level))
    ensures Precedence(Peek(ts, LoopAt(ts, left, depth, level).pos)) <= level
    decreases Room(depth), 3, if left.pos <= |ts| then |ts| - left.pos else 0
  {
    hide InfixAt, Sound, Precedence;
    var op := Peek(ts, left.pos);
    if level < Precedence(op) {
      assert op != Eof by { EofIsLow(); }
      var next := InfixAt(ts, left.(pos := left.pos + 1), op, depth);
      assert next.errors == 0;
      InfixSound(ts, pos, left, op, depth, level);
      LoopSound(ts, pos, next, depth, level);
    }
  }

  lemma {:induction false} InfixSound(ts: seq<Token>, pos: nat, left: Result, op: Token, depth: nat, level: nat)
    requires depth <= MAX_DEPTH && level <= UNARY && Sound(ts, pos, depth, level, left)
    requires Peek(ts, left.pos) == op && level < Precedence(op)
      && InfixAt(ts, left.(pos := left.pos + 1), op, depth).errors == 0
    ensures Sound(ts, pos, depth, level, InfixAt(ts, left.(pos := left.pos + 1), op, depth))
    decreases Room(depth), 2, 1
  {
    if op.LeftParen? {
      CallSound(ts, pos, left, depth, level);
    } else if op.Dot? {
      FieldSound(ts, pos, left, depth, level);
    } else if IsPostfixOp(op) {
      PostfixSound(ts, pos, left, op, depth, level);
    } else {
      BinarySound(ts, pos, left, op, depth, level);
    }
  }

  lemma {:induction false} CallSound(ts: seq<Token>, pos: nat, left: Result, depth: nat, level: nat)
    requires depth <= MAX_DEPTH && level <= UNARY && Sound(ts, pos, depth, level, left)
      && Peek(ts, left.pos) == LeftParen
    requires InfixAt(ts, left.(pos := left.pos + 1), LeftParen, depth).errors == 0
    ensures Sound(ts, pos, depth, level, InfixAt(ts, left.(pos := left.pos + 1), LeftParen, depth))
    decreases Room(depth), 2, 0
  {
    hide ItemsAt, At, SpelledItems;
    var l := ItemsAt(ts, left.pos + 1, depth, [], RightParen);
    var items := ItemsSound(ts, left.pos + 1, depth, [], RightParen);
    BehindNothing(items);
    var inside := SpelledItems(items, l.trailing);
    AtOne(ts, left.pos, LeftParen);
    AtOne(ts, l.pos, RightParen);
    AtSplit(ts, left.pos + 1, inside, [RightParen]);
    AtSplit(ts, left.pos, [LeftParen], inside + [RightParen]);
    AtSplit(ts, pos, Spelled(left.expr), [LeftParen] + (inside + [RightParen]));
    Bounded(Peek(ts, l.pos + 1));
  }

  lemma FieldSound(ts: seq<Token>, pos: nat, left: Result, depth: nat, level: nat)
    requires depth <= MAX_DEPTH && level <= UNARY && Sound(ts, pos, depth, level, left) && Peek(ts, left.pos) == Dot
    requires InfixAt(ts, left.(pos := left.pos + 1), Dot, depth).errors == 0
    ensures Sound(ts, pos, depth, level, InfixAt(ts, left.(pos := left.pos + 1), Dot, depth))
  {
    hide At;
    var name := Peek(ts, left.pos + 1);
    assert name.Ident?;
    AtOne(ts, left.pos, Dot);
    AtOne(ts, left.pos + 1, name);
    AtSplit(ts, left.pos, [Dot], [name]);
    assert [Dot] + [name] == [Dot, name];
    AtSplit(ts, pos, Spelled(left.expr), [Dot, name]);
    Bounded(Peek(ts, left.pos + 2));
  }

  lemma PostfixSound(ts: seq<Token>, pos: nat, left: Result, op: Token, depth: nat, level: nat)
    requires depth <= MAX_DEPTH && level <= UNARY && Sound(ts, pos, depth, level, left)
    requires Peek(ts, left.pos) == op && IsPostfixOp(op) && level < Precedence(op)
    ensures Sound(ts, pos, depth, level, InfixAt(ts, left.(pos := left.pos + 1), op, depth))
  {
    hide At;
    AtOne(ts, left.pos, op);
    AtSplit(ts, pos, Spelled(left.expr), [op]);
    Bounded(Peek(ts, left.pos + 1));
  }

  lemma InfixRead(ts: seq<Token>, left: Result, op: Token, depth: nat)
    requires !op.LeftParen? && !op.Dot? && !IsPostfixOp(op)
    requires InfixAt(ts, left.(pos := left.pos + 1), op, depth).errors == 0
    ensures IsInfixOp(op)
    ensures var x := AtPrecedence(ts, left.pos + 1, depth, Precedence(op));
      InfixAt(ts, left.(pos := left.pos + 1), op, depth) ==
      Result(Infix(left.expr, op, x.expr), x.pos, left.errors + x.errors)
  {
    hide AtPrecedence, ItemsAt, Precedence;
  }

  lemma {:induction false} BinarySound(ts: seq<Token>, pos: nat, left: Result, op: Token, depth: nat, level: nat)
    requires depth <= MAX_DEPTH && level <= UNARY && Sound(ts, pos, depth, level, left) && !op.LeftParen? && !op.Dot?
      && !IsPostfixOp(op)
    requires Peek(ts, left.pos) == op && level < Precedence(op)
      && InfixAt(ts, left.(pos := left.pos + 1), op, depth).errors == 0
    ensures Sound(ts, pos, depth, level, InfixAt(ts, left.(pos := left.pos + 1), op, depth))
    decreases Room(depth), 2, 0
  {
    hide AtPrecedence, Sound, InfixAt, Precedence, Peek;
    InfixRead(ts, left, op, depth);
    PrecedenceSound(ts, left.pos + 1, depth, Precedence(op)) by { InfixStartable(ts, left, op); }
    InfixMade(ts, pos, depth, level, left, op, AtPrecedence(ts, left.pos + 1, depth, Precedence(op)));
  }

  lemma InfixStartable(ts: seq<Token>, left: Result, op: Token)
    requires Peek(ts, left.pos) == op && IsInfixOp(op)
    ensures Startable(ts, left.pos + 1) && Precedence(op) <= UNARY
  {
  }

  // Two sound operands and the operator between them.
  lemma InfixMade(ts: seq<Token>, pos: nat, depth: nat, level: nat, left: Result, op: Token, x: Result)
    requires Sound(ts, pos, depth, level, left) && Peek(ts, left.pos) == op && IsInfixOp(op) && level < Precedence(op)
    requires Sound(ts, left.pos + 1, depth + 1, Precedence(op), x) && Precedence(Peek(ts, x.pos)) <= Precedence(op)
    ensures Sound(ts, pos, depth, level, Result(Infix(left.expr, op, x.expr), x.pos, left.errors + x.errors))
  {
    hide At, Spelled;
    InfixSpelled(left.expr, op, x.expr);
    AtOne(ts, left.pos, op);
    AtSplit(ts, left.pos, [op], Spelled(x.expr));
    AtSplit(ts, pos, Spelled(left.expr), [op] + Spelled(x.expr));
  }

  lemma InfixSpelled(l: Expr, op: Token, r: Expr)
    ensures Spelled(Infix(l, op, r)) == Spelled(l) + ([op] + Spelled(r))
  {
  }

  lemma {:induction false} PrefixSound(ts: seq<Token>, pos: nat, depth: nat, level: nat)
    requires !AtEnd(ts, pos) && depth <= MAX_DEPTH && level <= UNARY && PrefixAt(ts, pos, depth).errors == 0
    ensures Sound(ts, pos, depth, level, PrefixAt(ts, pos, depth))
    decreases Room(depth), 2, 1
  {
    var t := Peek(ts, pos);
    if IsLeaf(t) {
      AtOne(ts, pos, t);
      Bounded(Peek(ts, pos + 1));
    } else if t.LeftBracket? {
      ArraySound(ts, pos, depth, level);
    } else if t.LeftParen? {
      GroupSound(ts, pos, depth, level);
    } else {
      UnarySound(ts, pos, depth, level);
    }
  }

  lemma {:induction false} UnarySound(ts: seq<Token>, pos: nat, depth: nat, level: nat)
    requires IsPrefixOp(Peek(ts, pos)) && depth <= MAX_DEPTH && level <= UNARY && PrefixAt(ts, pos, depth).errors == 0
    ensures Sound(ts, pos, depth, level, PrefixAt(ts, pos, depth))
    decreases Room(depth), 2, 0
  {
    hide AtPrecedence, At, ItemsAt, GroupAt;
    var op := Peek(ts, pos);
    var x := AtPrecedence(ts, pos + 1, depth, UNARY);
    PrecedenceSound(ts, pos + 1, depth, UNARY);
    AtOne(ts, pos, op);
    AtSplit(ts, pos, [op], Spelled(x.expr));
  }

  lemma {:induction false} ArraySound(ts: seq<Token>, pos: nat, depth: nat, level: nat)
    requires Peek(ts, pos) == LeftBracket && depth <= MAX_DEPTH && level <= UNARY
      && PrefixAt(ts, pos, depth).errors == 0
    ensures Sound(ts, pos, depth, level, PrefixAt(ts, pos, depth))
    decreases Room(depth), 2, 0
  {
    hide AtPrecedence, At, ItemsAt, GroupAt, SpelledItems;
    var l := ItemsAt(ts, pos + 1, depth, [], RightBracket);
    var items := ItemsSound(ts, pos + 1, depth, [], RightBracket);
    BehindNothing(items);
    Enclose(ts, pos, LeftBracket, SpelledItems(items, l.trailing), RightBracket);
    Bounded(Peek(ts, l.pos + 1));
  }

  lemma Enclose(ts: seq<Token>, pos: nat, open: Token, inside: seq<Token>, close: Token)
    requires Peek(ts, pos) == open && At(ts, pos + 1, inside) && Peek(ts, pos + 1 + |inside|) == close && open != Eof
      && close != Eof
    ensures At(ts, pos, [open] + (inside + [close]))
  {
    hide At;
    AtOne(ts, pos, open);
    AtOne(ts, pos + 1 + |inside|, close);
    AtSplit(ts, pos + 1, inside, [close]);
    AtSplit(ts, pos, [open], inside + [close]);
  }

  lemma {:induction false} GroupSound(ts: seq<Token>, pos: nat, depth: nat, level: nat)
    requires Peek(ts, pos) == LeftParen && depth <= MAX_DEPTH && level <= UNARY && PrefixAt(ts, pos, depth).errors == 0
    ensures Sound(ts, pos, depth, level, PrefixAt(ts, pos, depth))
    decreases Room(depth), 2, 0
  {
    hide AtPrecedence, At, ItemsAt, SpelledItems;
    if Peek(ts, pos + 1) == RightParen {
      NoItems(false);
      EmptyAt(ts, pos + 1);
      Enclose(ts, pos, LeftParen, SpelledItems([], false), RightParen);
      Bounded(Peek(ts, pos + 2));
    } else {
      var x := AtPrecedence(ts, pos + 1, depth + 1, ASSIGNMENT);
      PrecedenceSound(ts, pos + 1, depth + 1, ASSIGNMENT);
      if Peek(ts, x.pos) == Comma {
        TupleSound(ts, pos, depth, level, x);
      } else {
        GroupingSound(ts, pos, depth, level, x);
      }
    }
  }

  lemma GroupingSound(ts: seq<Token>, pos: nat, depth: nat, level: nat, x: Result)
    requires Peek(ts, pos) == LeftParen && depth + 1 <= MAX_DEPTH && level <= UNARY
    requires !AtEnd(ts, pos + 1) && Peek(ts, pos + 1) != RightParen
      && x == AtPrecedence(ts, pos + 1, depth + 1, ASSIGNMENT) && x.errors == 0
    requires Peek(ts, x.pos) == RightParen && depth + 2 <= MAX_DEPTH && Sound(ts, pos + 1, depth + 2, ASSIGNMENT, x)
    ensures Sound(ts, pos, depth, level, PrefixAt(ts, pos, depth))
  {
    hide AtPrecedence, At, ItemsAt, PrefixAt;
    GroupingRead(ts, pos, depth, x);
    Enclose(ts, pos, LeftParen, Spelled(x.expr), RightParen);
    Bounded(Peek(ts, x.pos + 1));
  }

  lemma EmptyAt(ts: seq<Token>, pos: nat)
    requires pos < |ts|
    ensures At(ts, pos, [])
  {
  }

  lemma {:induction false} TupleSound(ts: seq<Token>, pos: nat, depth: nat, level: nat, x: Result)
    requires Peek(ts, pos) == LeftParen && depth + 1 <= MAX_DEPTH && level <= UNARY
      && PrefixAt(ts, pos, depth).errors == 0
    requires !AtEnd(ts, pos + 1) && Peek(ts, pos + 1) != RightParen
      && x == AtPrecedence(ts, pos + 1, depth + 1, ASSIGNMENT)
    requires Peek(ts, x.pos) == Comma && depth + 2 <= MAX_DEPTH && Sound(ts, pos + 1, depth + 2, ASSIGNMENT, x)
    ensures Sound(ts, pos, depth, level, PrefixAt(ts, pos, depth))
    decreases Room(depth), 1, 0
  {
    hide AtPrecedence, At, ItemsAt, SpelledItems, Spelled, Fits, Inner, AllFit, Nesting;
    var l := ItemsAt(ts, x.pos + 1, depth + 1, [x.expr], RightParen);
    var rest := ItemsSound(ts, x.pos + 1, depth + 1, [x.expr], RightParen);
    var items := [x.expr] + rest;
    BehindIsJoined([x.expr], rest);
    ListJoined(ts, pos + 1, depth + 1, x, rest, rest != [] && l.trailing, l.pos);
    var trailing := if rest == [] then true else l.trailing;
    assert ListSound(ts, pos + 1, depth + 1, items, trailing, l.pos);
    Enclose(ts, pos, LeftParen, SpelledItems(items, trailing), RightParen);
    Bounded(Peek(ts, l.pos + 1));
    TupleMade(ts, pos, depth, level, items, trailing, l.pos);
  }

  lemma TupleMade(ts: seq<Token>, pos: nat, depth: nat, level: nat, items: seq<Expr>, trailing: bool, end: nat)
    requires At(ts, pos, [LeftParen] + (SpelledItems(items, trailing) + [RightParen]))
      && ListSound(ts, pos + 1, depth + 1, items, trailing, end)
    requires |items| == 1 ==> trailing
    ensures Sound(ts, pos, depth, level, Result(Tuple(items, trailing), end + 1, 0))
  {
    hide At, SpelledItems, AllFit, Nesting;
    Bounded(Peek(ts, end + 1));
  }

  // An item, a comma and the rest of a list make a list.
  lemma ListJoined(ts: seq<Token>, pos: nat, depth: nat, x: Result, rest: seq<Expr>, trailing: bool, end: nat)
    requires At(ts, pos, Spelled(x.expr)) && x.pos == pos + |Spelled(x.expr)| && Fits(x.expr, ASSIGNMENT)
      && depth + Need(x.expr) <= MAX_DEPTH
    requires Peek(ts, x.pos) == Comma && ListSound(ts, x.pos + 1, depth, rest, trailing, end)
    ensures ListSound(ts, pos, depth, [x.expr] + rest, if rest == [] then true else trailing, end)
  {
    hide At, SpelledItems, Spelled, AllFit, Fits, Nesting, Inner, Peek;
    var tail := SpelledItems(rest, trailing);
    JoinedSpelled(x.expr, rest, trailing);
    JoinedParts(x.expr, rest);
    AtOne(ts, x.pos, Comma);
    AtSplit(ts, x.pos, [Comma], tail);
    AtSplit(ts, pos, Spelled(x.expr), [Comma] + tail);
  }

  lemma JoinedSpelled(x: Expr, rest: seq<Expr>, trailing: bool)
    requires rest == [] ==> !trailing
    ensures SpelledItems([x] + rest, if rest == [] then true else trailing) ==
            Spelled(x) + ([Comma] + SpelledItems(rest, trailing))
  {
    hide Spelled;
    var items := [x] + rest;
    assert items[0] == x && items[1..] == rest;
    if rest == [] {
      NoItems(trailing);
      assert [Comma] + [] == [Comma];
    }
  }

  lemma JoinedParts(x: Expr, rest: seq<Expr>)
    ensures AllFit([x] + rest) <==> Fits(x, ASSIGNMENT) && AllFit(rest)
    ensures Nesting([x] + rest) == Max(Need(x), Nesting(rest))
  {
    hide Fits, Inner;
    assert ([x] + rest)[0] == x && ([x] + rest)[1..] == rest;
  }

  lemma ListOfOne(ts: seq<Token>, pos: nat, depth: nat, x: Result)
    requires At(ts, pos, Spelled(x.expr)) && x.pos == pos + |Spelled(x.expr)| && Fits(x.expr, ASSIGNMENT)
      && depth + Need(x.expr) <= MAX_DEPTH
    ensures ListSound(ts, pos, depth, [x.expr], false, x.pos)
  {
    hide At, Spelled, Fits, Inner;
    assert SpelledItems([x.expr], false) == Spelled(x.expr) + [] == Spelled(x.expr);
    assert [x.expr][1..] == [] && AllFit([]) && Nesting([]) == 0;
  }

  /** A list read without a diagnostic up to its closing token. */
  lemma {:induction false} ItemsSound(ts: seq<Token>, pos: nat, depth: nat, acc: seq<Expr>, close: Token)
      returns (items: seq<Expr>)
    requires Startable(ts, pos) && depth <= MAX_DEPTH && (close == RightParen || close == RightBracket)
    requires var r := ItemsAt(ts, pos, depth, acc, close); r.errors == 0 && Peek(ts, r.pos) == close
    ensures var r := ItemsAt(ts, pos, depth, acc, close);
      r.items == Behind(acc, items) && ListSound(ts, pos, depth, items, items != [] && r.trailing, r.pos)
        && (items == [] ==> r.trailing == (acc != []))
    decreases Room(depth), 1, if pos <= |ts| then |ts| - pos else 0
  {
    hide AtPrecedence, At, SpelledItems, Spelled, Fits, Inner, Precedence;
    if AtEnd(ts, pos) || Peek(ts, pos) == close {
      items := [];
      NoItems(false);
      EmptyAt(ts, pos);
    } else {
      var x := AtPrecedence(ts, pos, depth, ASSIGNMENT);
      ItemsStep(ts, pos, depth, acc, close);
      hide ListSound, ItemsAt, Behind;
      PrecedenceSound(ts, pos, depth, ASSIGNMENT);
      if Peek(ts, x.pos) == Comma {
        var rest := ItemsSound(ts, x.pos + 1, depth, acc + [x.expr], close);
        items := [x.expr] + rest;
        BehindFirst(acc, x.expr, rest);
        var l := ItemsAt(ts, x.pos + 1, depth, acc + [x.expr], close);
        ListJoined(ts, pos, depth, x, rest, rest != [] && l.trailing, l.pos);
      } else {
        items := [x.expr];
        OneBehind(acc, items);
        ListOfOne(ts, pos, depth, x);
      }
    }
  }

  // ----- Both directions -----

  /** The parser accepts exactly the grammar: it yields a tree without a diagnostic and stops
      right behind its tokens if and only if those tokens spell it, it obeys precedence and
      left association at the level, fits the depth left, and is followed by nothing that
      binds tighter. */
  lemma ParsesExactly(ts: seq<Token>, pos: nat, depth: nat, level: nat, e: Expr)
    requires Startable(ts, pos) && level <= UNARY
    ensures AtPrecedence(ts, pos, depth, level) == Result(e, pos + |Spelled(e)|, 0) <==>
            At(ts, pos, Spelled(e)) && Fits(e, level) && depth + Need(e) <= MAX_DEPTH
            && Precedence(Peek(ts, pos + |Spelled(e)|)) <= level
  {
    hide AtPrecedence, At, Spelled, Fits, Inner, Precedence, Startable;
    if AtPrecedence(ts, pos, depth, level) == Result(e, pos + |Spelled(e)|, 0) {
      PrecedenceSound(ts, pos, depth, level);
    }
    if At(ts, pos, Spelled(e)) && Fits(e, level) && depth + Need(e) <= MAX_DEPTH
      && Precedence(Peek(ts, pos + |Spelled(e)|)) <= level {
      Completes(ts, pos, depth, level, e);
    }
  }

  /** The grammar is unambiguous: two trees that fit at the same place are the same tree. */
  lemma Unambiguous(ts: seq<Token>, pos: nat, depth: nat, level: nat, e: Expr, e': Expr)
    requires level <= UNARY && At(ts, pos, Spelled(e)) && At(ts, pos, Spelled(e')) && Fits(e, level) && Fits(e', level)
    requires depth + Need(e) <= MAX_DEPTH && depth + Need(e') <= MAX_DEPTH
    requires Precedence(Peek(ts, pos + |Spelled(e)|)) <= level && Precedence(Peek(ts, pos + |Spelled(e')|)) <= level
    ensures e == e'
  {
    hide AtPrecedence, At, Spelled, Fits, Inner, Precedence, Peek;
    Completes(ts, pos, depth, level, e);
    Completes(ts, pos, depth, level, e');
  }
}
