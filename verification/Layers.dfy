/** The expression grammar written out layer by layer, each with its own tokens, and the proof that
    it is what the operator-precedence parser accepts. */
module Layers {
  import opened Finite
  import opened Parser
  import opened Grammar
  import opened GrammarExact

  // ----- The layers, from the loosest to the tightest -----

  predicate OrExpr(e: Expr)
    decreases e, 9
  {
    AndExpr(e) || (e.Infix? && e.op == Or && OrExpr(e.left) && AndExpr(e.right))
  }

  predicate AndExpr(e: Expr)
    decreases e, 8
  {
    EqualityExpr(e) || (e.Infix? && e.op == And && AndExpr(e.left) && EqualityExpr(e.right))
  }

  predicate EqualityExpr(e: Expr)
    decreases e, 7
  {
    || ComparisonExpr(e)
    || (e.Infix? && e.op in {EqualEqual, BangEqual} && EqualityExpr(e.left) && ComparisonExpr(e.right))
  }

  predicate ComparisonExpr(e: Expr)
    decreases e, 6
  {
    || SumExpr(e)
    || (e.Infix? && e.op in {Less, LessEqual, Greater, GreaterEqual} && ComparisonExpr(e.left) && SumExpr(e.right))
  }

  predicate SumExpr(e: Expr)
    decreases e, 5
  {
    ProductExpr(e) || (e.Infix? && e.op in {Plus, Minus} && SumExpr(e.left) && ProductExpr(e.right))
  }

  predicate ProductExpr(e: Expr)
    decreases e, 4
  {
    UnaryExpr(e) || (e.Infix? && e.op in {Star, Slash} && ProductExpr(e.left) && UnaryExpr(e.right))
  }

  predicate UnaryExpr(e: Expr)
    decreases e, 3
  {
    PostfixExpr(e) || (e.Prefix? && e.op in {Bang, Minus, Weak, Unowned} && UnaryExpr(e.right))
  }

  // Calls, fields, `!` and `?`, one after another; a type name has no fields.
  predicate PostfixExpr(e: Expr)
    decreases e, 2
  {
    || PrimaryExpr(e)
    || (e.Call? && PostfixExpr(e.callee) && OrExprs(e.args, e.trailing))
    || (e.Field? && PostfixExpr(e.owner) && !StartsWithCapital(e.owner))
    || (e.Postfix? && e.op in {Bang, Question} && PostfixExpr(e.operand))
  }

  predicate StartsWithCapital(e: Expr) {
    e.Leaf? && e.token.Ident? && e.token.name != "" && 'A' <= e.token.name[0] <= 'Z'
  }

  // One item in parentheses is a tuple only with a comma behind it.
  predicate PrimaryExpr(e: Expr)
    decreases e, 1
  {
    match e
    case Leaf(t) => t.Number? || t.Ident? || t.Text? || t in {True, False, NoneValue}
    case Grouping(inner) => OrExpr(inner)
    case Tuple(items, trailing) => OrExprs(items, trailing) && (|items| == 1 ==> trailing)
    case Array(items, trailing) => OrExprs(items, trailing)
    case _ => false
  }

  // A list without items has no comma.
  predicate OrExprs(items: seq<Expr>, trailing: bool)
    decreases items, 0
  {
    (trailing ==> items != []) && forall i | 0 <= i < |items| :: OrExpr(items[i])
  }

  // The tokens that would carry an expression on.
  predicate Continues(t: Token) {
    t in {Or, And, EqualEqual, BangEqual, Less, LessEqual, Greater, GreaterEqual, Plus, Minus, Star, Slash,
      LeftParen, Dot, ColonColon, As, Bang, Question, PipeGreater}
  }

  // ----- Each layer is one level -----

  // The layer read at a level.
  predicate Layer(e: Expr, level: nat) {
    if level <= PIPELINE then OrExpr(e)
    else if level == OR then AndExpr(e)
    else if level == AND then EqualityExpr(e)
    else if level == EQUALITY then ComparisonExpr(e)
    else if level == COMPARISON then SumExpr(e)
    else if level == TERM then ProductExpr(e)
    else UnaryExpr(e)
  }

  // What each layer says of an infix tree.
  lemma TightLayers(l: Expr, op: Token, r: Expr)
    ensures var e := Infix(l, op, r);
      && !UnaryExpr(e)
      && (ProductExpr(e) <==> op in {Star, Slash} && ProductExpr(l) && UnaryExpr(r))
      && (SumExpr(e) <==> ProductExpr(e) || (op in {Plus, Minus} && SumExpr(l) && ProductExpr(r)))
  {
    var e := Infix(l, op, r);
    assert !PrimaryExpr(e);
    assert !PostfixExpr(e);
    assert !UnaryExpr(e);
  }

  lemma LooseLayers(l: Expr, op: Token, r: Expr)
    ensures var e := Infix(l, op, r);
      && (ComparisonExpr(e)
          <==> SumExpr(e) || (op in {Less, LessEqual, Greater, GreaterEqual} && ComparisonExpr(l) && SumExpr(r)))
      && (EqualityExpr(e)
          <==> ComparisonExpr(e) || (op in {EqualEqual, BangEqual} && EqualityExpr(l) && ComparisonExpr(r)))
      && (AndExpr(e) <==> EqualityExpr(e) || (op == And && AndExpr(l) && EqualityExpr(r)))
      && (OrExpr(e) <==> AndExpr(e) || (op == Or && OrExpr(l) && AndExpr(r)))
  {
    hide SumExpr;
  }

  // Where an infix tree is found among the layers.
  lemma InfixLayer(l: Expr, op: Token, r: Expr, level: nat)
    requires level <= UNARY
    ensures Layer(Infix(l, op, r), level)
      <==> IsInfixOp(op) && level < Precedence(op) && Layer(l, Precedence(op) - 1) && Layer(r, Precedence(op))
  {
    hide OrExpr, AndExpr, EqualityExpr, ComparisonExpr, SumExpr, ProductExpr, UnaryExpr;
    TightLayers(l, op, r);
    LooseLayers(l, op, r);
  }

  // Anything else is in every layer or in none.
  lemma OtherLayer(e: Expr, level: nat)
    requires !e.Infix? && level <= UNARY
    ensures Layer(e, level) <==> UnaryExpr(e)
  {
    hide UnaryExpr;
    assert ProductExpr(e) <==> UnaryExpr(e);
    assert SumExpr(e) <==> ProductExpr(e);
    assert ComparisonExpr(e) <==> SumExpr(e);
    assert EqualityExpr(e) <==> ComparisonExpr(e);
    assert AndExpr(e) <==> EqualityExpr(e);
  }

  // The open right edge is above the level.
  lemma TailBeyond(e: Expr, level: nat)
    requires Fits(e, level) && level < UNARY
    ensures Tail(e) > level
  {
    match e
    case Prefix(_, x) => TailAbove(x, UNARY);
    case Infix(_, op, r) => TailAbove(r, Precedence(op));
    case _ =>
  }

  // A tree fits a lower level too, and a higher one below its open edge.
  lemma {:induction false} FitsLower(e: Expr, level: nat, m: nat)
    requires Fits(e, m) && level <= m
    ensures Fits(e, level)
    decreases e
  {
    match e
    case Infix(l, _, _) => FitsLower(l, level, m);
    case Call(c, _, _) => FitsLower(c, level, m);
    case Field(o, _) => FitsLower(o, level, m);
    case Postfix(x, _) => FitsLower(x, level, m);
    case _ =>
  }

  lemma {:induction false} FitsHigher(e: Expr, level: nat, m: nat)
    requires Fits(e, level) && m < Tail(e) && m <= UNARY
    ensures Fits(e, m)
    decreases e
  {
    match e
    case Infix(l, _, _) => FitsHigher(l, level, m);
    case Call(c, _, _) => FitsHigher(c, level, m);
    case Field(o, _) => FitsHigher(o, level, m);
    case Postfix(x, _) => FitsHigher(x, level, m);
    case _ =>
  }

  // The left operand of an operator: above its level and open no lower than it.
  lemma LeftFits(l: Expr, level: nat, p: nat)
    requires level < p <= UNARY
    ensures Fits(l, level) && p <= Tail(l) <==> Fits(l, p - 1)
  {
    if Fits(l, p - 1) {
      FitsLower(l, level, p - 1);
      TailBeyond(l, p - 1);
    }
    if Fits(l, level) && p <= Tail(l) {
      FitsHigher(l, level, p - 1);
    }
  }

  // What may be called, have a field or be followed by `!` or `?`.
  lemma OwnerFits(c: Expr, level: nat)
    requires level <= UNARY
    ensures Fits(c, level) && CALL <= Tail(c) <==> Fits(c, UNARY) && !c.Prefix? && !c.Infix?
  {
    if Fits(c, UNARY) {
      FitsLower(c, level, UNARY);
    }
    if Fits(c, level) && CALL <= Tail(c) {
      FitsHigher(c, level, UNARY);
    }
  }

  lemma UnaryAlone(e: Expr)
    ensures PostfixExpr(e) <==> UnaryExpr(e) && !e.Prefix? && !e.Infix?
  {
    if e.Prefix? || e.Infix? {
      assert !PrimaryExpr(e);
    }
    assert e.Infix? ==> !PostfixExpr(e);
  }

  lemma OpenOrClosed(e: Expr, level: nat)
    requires Fits(e, level)
    ensures CALL <= Tail(e) <==> TRY <= Tail(e)
  {
  }

  lemma PrimaryCases(e: Expr)
    requires e.Leaf? || e.Grouping? || e.Tuple? || e.Array? || e.Unsupported?
    ensures UnaryExpr(e) <==> PrimaryExpr(e)
  {
    hide PrimaryExpr;
    assert PostfixExpr(e) <==> PrimaryExpr(e);
  }

  lemma PostfixCases(e: Expr)
    requires e.Call? || e.Field? || e.Postfix?
    ensures UnaryExpr(e) <==> PostfixExpr(e)
    ensures PostfixExpr(e) <==>
      match e
      case Call(c, args, trailing) => PostfixExpr(c) && OrExprs(args, trailing)
      case Field(o, _) => PostfixExpr(o) && !StartsWithCapital(o)
      case Postfix(x, op) => PostfixExpr(x) && op in {Bang, Question}
      case _ => false
  {
    hide OrExprs;
    assert !PrimaryExpr(e);
  }

  /** A tree that obeys precedence at a level is a tree of that level's layer, and the other way
      round. */
  lemma {:induction false} FitsIsLayer(e: Expr, level: nat)
    requires level <= UNARY
    ensures Fits(e, level) <==> Layer(e, level)
    decreases e, 1
  {
    hide Layer, Tail, OrExpr, AndExpr, EqualityExpr, ComparisonExpr, SumExpr, ProductExpr;
    match e
    case Infix(l, op, r) =>
      InfixLayer(l, op, r, level);
      if IsInfixOp(op) && level < Precedence(op) {
        LeftFits(l, level, Precedence(op));
        FitsIsLayer(l, Precedence(op) - 1);
        FitsIsLayer(r, Precedence(op));
      }
    case Prefix(_, x) =>
      OtherLayer(e, level);
      FitsIsLayer(x, UNARY);
      LayerOfUnary(x);
      assert !PrimaryExpr(e);
    case Call(c, args, trailing) =>
      OtherLayer(e, level);
      OwnerIsLayer(c, level);
      ItemsAreLayer(args, trailing);
      PostfixCases(e);
    case Field(o, _) =>
      OtherLayer(e, level);
      OwnerIsLayer(o, level);
      PostfixCases(e);
    case Postfix(x, _) =>
      OtherLayer(e, level);
      OwnerIsLayer(x, level);
      if Fits(x, level) {
        OpenOrClosed(x, level);
      }
      PostfixCases(e);
    case Grouping(x) =>
      OtherLayer(e, level);
      PrimaryCases(e);
      FitsIsLayer(x, ASSIGNMENT);
      LayerOfUnary(x);
    case Tuple(items, trailing) =>
      OtherLayer(e, level);
      PrimaryCases(e);
      ItemsAreLayer(items, trailing);
    case Array(items, trailing) =>
      OtherLayer(e, level);
      PrimaryCases(e);
      ItemsAreLayer(items, trailing);
    case _ =>
      OtherLayer(e, level);
      PrimaryCases(e);
  }

  lemma LayerOfUnary(x: Expr)
    ensures Layer(x, UNARY) == UnaryExpr(x) && Layer(x, ASSIGNMENT) == OrExpr(x)
  {
  }

  lemma {:induction false} OwnerIsLayer(c: Expr, level: nat)
    requires level <= UNARY
    ensures Fits(c, level) && CALL <= Tail(c) <==> PostfixExpr(c)
    decreases c, 2
  {
    OwnerFits(c, level);
    UnaryAlone(c);
    FitsIsLayer(c, UNARY);
    LayerOfUnary(c);
  }

  lemma {:induction false} ItemsAreLayer(items: seq<Expr>, trailing: bool)
    ensures AllFit(items) && ListForm(items, trailing) <==> OrExprs(items, trailing)
    decreases items, 0
  {
    hide Fits, OrExpr;
    if items != [] {
      FitsIsLayer(items[0], ASSIGNMENT);
      LayerOfUnary(items[0]);
      ItemsAreLayer(items[1..], false);
      assert forall i | 0 <= i < |items| - 1 :: items[1..][i] == items[i + 1];
      if OrExpr(items[0]) && OrExprs(items[1..], false) {
        forall i | 0 <= i < |items|
          ensures OrExpr(items[i])
        {
          assert i == 0 || OrExpr(items[1..][i - 1]);
        }
      }
    }
  }

  // ----- The parser accepts the layers -----

  lemma ContinuesAbove(t: Token)
    ensures Precedence(t) <= ASSIGNMENT <==> !Continues(t)
  {
  }

  // A tree of the layered grammar spelled by the tokens at pos, that nests no deeper than 200 and
  // is not carried on by the next token.
  predicate Stands(ts: seq<Token>, pos: nat, depth: nat, t: Expr) {
    At(ts, pos, Spelled(t)) && OrExpr(t) && depth + Need(t) <= 200 && !Continues(Peek(ts, pos + |Spelled(t)|))
  }

  /** At the level of a whole expression the parser yields a tree without a diagnostic, and stops
      right behind its tokens, if and only if the tree is one of the layered grammar and stands
      there. */
  lemma ParsesLayers(ts: seq<Token>, pos: nat, depth: nat, e: Expr)
    requires Startable(ts, pos)
    ensures AtPrecedence(ts, pos, depth, ASSIGNMENT) == Result(e, pos + |Spelled(e)|, 0) <==> Stands(ts, pos, depth, e)
  {
    hide AtPrecedence, At, Spelled, Fits, OrExpr, AndExpr, Inner, Precedence, Startable, Continues;
    ParsesExactly(ts, pos, depth, ASSIGNMENT, e);
    FitsIsLayer(e, ASSIGNMENT);
    LayerOfUnary(e);
    ContinuesAbove(Peek(ts, pos + |Spelled(e)|));
  }

  /** `expression`: gives a tree of the layered grammar that stands at the cursor, stops behind it
      and reports nothing, or reports something if there is none. */
  method ParseExpression(c: Cursor) returns (e: Expr)
    requires c.Valid()
    modifies c`current, c`depth, c`errors
    ensures c.Valid() && c.depth == old(c.depth) && c.errors >= old(c.errors)
    ensures Startable(c.tokens, old(c.current)) ==>
      (c.errors == old(c.errors) <==> exists t :: Stands(c.tokens, old(c.current), c.depth, t))
      && (c.errors == old(c.errors) ==>
        Stands(c.tokens, old(c.current), c.depth, e) && c.current == old(c.current) + |Spelled(e)|)
  {
    ghost var pos, depth, errors := c.current, c.depth, c.errors;
    hide AtPrecedence, At, Spelled, Fits, Inner, Precedence, Startable, Stands;
    e := c.ParsePrecedence(ASSIGNMENT);
    if Startable(c.tokens, pos) {
      if c.errors == errors {
        PrecedenceSound(c.tokens, pos, depth, ASSIGNMENT);
        ParsesLayers(c.tokens, pos, depth, e);
        assert Stands(c.tokens, pos, depth, e);
      }
      forall t | Stands(c.tokens, pos, depth, t)
        ensures c.errors == errors
      {
        ParsesLayers(c.tokens, pos, depth, t);
      }
    }
  }
}
