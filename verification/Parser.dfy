/** Operator-precedence parsing of expressions, with its depth guard and its diagnostics:
    what every parse function computes. */
module Parser {

  // ----- Tokens -----

  datatype Token =
    | Number(text: string) | Ident(name: string) | Text(text: string) | True | False | NoneValue
    | LeftParen | RightParen | LeftBracket | RightBracket | Comma | Dot
    | Bang | Minus | Plus | Star | Slash | EqualEqual | BangEqual | Less | LessEqual | Greater | GreaterEqual
    | And | Or | PipeGreater | Question | As | ColonColon | Weak | Unowned | Other(text: string) | Eof

  const ASSIGNMENT := 1
  const PIPELINE := 2
  const OR := 3
  const AND := 4
  const EQUALITY := 5
  const COMPARISON := 6
  const TERM := 7
  const FACTOR := 8
  const UNARY := 9
  const CALL := 10
  const TRY := 11
  const CLOSED := 12

  function Precedence(t: Token): nat {
    match t
    case PipeGreater => PIPELINE
    case Or => OR
    case And => AND
    case EqualEqual => EQUALITY
    case BangEqual => EQUALITY
    case Less => COMPARISON
    case LessEqual => COMPARISON
    case Greater => COMPARISON
    case GreaterEqual => COMPARISON
    case Plus => TERM
    case Minus => TERM
    case Star => FACTOR
    case Slash => FACTOR
    case LeftParen => CALL
    case Dot => CALL
    case ColonColon => CALL
    case As => CALL
    case Bang => CALL
    case Question => TRY
    case _ => 0
  }

  predicate IsLeaf(t: Token) {
    t.Number? || t.Ident? || t.Text? || t.True? || t.False? || t.NoneValue?
  }

  predicate IsPrefixOp(t: Token) {
    t.Bang? || t.Minus? || t.Weak? || t.Unowned?
  }

  // Operators with an operand on each side.
  predicate IsInfixOp(t: Token) {
    OR <= Precedence(t) <= FACTOR
  }

  predicate IsPostfixOp(t: Token) {
    t.Question? || t.Bang?
  }

  predicate IsTypeName(t: Token) {
    t.Ident? && t.name != "" && 'A' <= t.name[0] <= 'Z'
  }

  // ----- Expressions -----

  /** Infix covers binary and logical operators, Prefix the unary, weak and unowned forms.
      Lists also record whether a comma was written after their last item. */
  datatype Expr =
    | Leaf(token: Token)
    | Grouping(inner: Expr)
    | Tuple(items: seq<Expr>, trailing: bool)
    | Array(items: seq<Expr>, trailing: bool)
    | Prefix(op: Token, right: Expr)
    | Infix(left: Expr, op: Token, right: Expr)
    | Call(callee: Expr, args: seq<Expr>, trailing: bool)
    | Field(owner: Expr, name: string)
    | Postfix(operand: Expr, op: Token)
    | Unsupported

  const MAX_DEPTH: nat := 200

  // ----- The cursor -----

  function Peek(ts: seq<Token>, pos: nat): Token {
    if pos < |ts| then ts[pos] else Eof
  }

  predicate AtEnd(ts: seq<Token>, pos: nat) {
    Peek(ts, pos) == Eof
  }

  function Advance(ts: seq<Token>, pos: nat): (r: nat)
    ensures pos <= r <= pos + 1
  {
    if AtEnd(ts, pos) then pos else pos + 1
  }

  // The token `advance` returns: the one passed, or at the end the one before the cursor.
  function Taken(ts: seq<Token>, pos: nat): Token {
    if !AtEnd(ts, pos) then Peek(ts, pos) else Peek(ts, if pos == 0 then 0 else pos - 1)
  }

  // ----- What the parse functions compute -----

  // The expression, where the cursor ends up, and how many diagnostics were added.
  datatype Result = Result(expr: Expr, pos: nat, errors: nat)

  datatype Items = Items(items: seq<Expr>, trailing: bool, pos: nat, errors: nat)

  // Past the token expected, or one more diagnostic.
  function Consumed(ts: seq<Token>, r: Result, t: Token): (c: Result)
    ensures r.pos <= c.pos <= r.pos + 1 && c.expr == r.expr && r.errors <= c.errors
  {
    if Peek(ts, r.pos) == t && t != Eof then r.(pos := r.pos + 1) else r.(errors := r.errors + 1)
  }

  // Levels of nesting still allowed, counting the current one.
  function Room(depth: nat): nat {
    if depth <= MAX_DEPTH then MAX_DEPTH - depth + 1 else 0
  }

  function AtPrecedence(ts: seq<Token>, pos: nat, depth: nat, prec: nat): (r: Result)
    ensures r.pos >= pos
    decreases Room(depth), 0, 0
  {
    if depth + 1 > MAX_DEPTH then Result(Unsupported, pos, 1)
    else LoopAt(ts, PrefixAt(ts, pos, depth + 1), depth + 1, prec)
  }

  function LoopAt(ts: seq<Token>, left: Result, depth: nat, prec: nat): (r: Result)
    ensures r.pos >= left.pos && r.errors >= left.errors
    decreases Room(depth), 3, if left.pos <= |ts| then |ts| - left.pos else 0
  {
    if prec < Precedence(Peek(ts, left.pos)) then
      LoopAt(ts, InfixAt(ts, left.(pos := left.pos + 1), Peek(ts, left.pos), depth), depth, prec)
    else left
  }

  function PrefixAt(ts: seq<Token>, pos: nat, depth: nat): (r: Result)
    ensures r.pos >= pos
    decreases Room(depth), 2, 0
  {
    var t, next := Taken(ts, pos), Advance(ts, pos);
    if IsLeaf(t) then Result(Leaf(t), next, 0)
    else if t.LeftBracket? then
      var l := ItemsAt(ts, next, depth, [], RightBracket);
      Consumed(ts, Result(Array(l.items, l.trailing), l.pos, l.errors), RightBracket)
    else if t.LeftParen? then GroupAt(ts, next, depth)
    else if IsPrefixOp(t) then
      var x := AtPrecedence(ts, next, depth, UNARY);
      x.(expr := Prefix(t, x.expr))
    else Result(Unsupported, next, 1)
  }

  // After an opening parenthesis: a grouping or a tuple.
  function GroupAt(ts: seq<Token>, pos: nat, depth: nat): (r: Result)
    ensures r.pos >= pos
    decreases Room(depth), 1, 0
  {
    if AtEnd(ts, pos) then Result(Unsupported, pos, 1)
    else if depth + 1 > MAX_DEPTH then Result(Unsupported, pos, 2)
    else if Peek(ts, pos) == RightParen then Result(Tuple([], false), pos + 1, 0)
    else
      var x := AtPrecedence(ts, pos, depth + 1, ASSIGNMENT);
      if Peek(ts, x.pos) == Comma then
        var l := ItemsAt(ts, x.pos + 1, depth + 1, [x.expr], RightParen);
        Consumed(ts, Result(Tuple(l.items, l.trailing), l.pos, x.errors + l.errors), RightParen)
      else Consumed(ts, x.(expr := Grouping(x.expr)), RightParen)
  }

  // `left` stands before the cursor; op has been passed.
  function InfixAt(ts: seq<Token>, left: Result, op: Token, depth: nat): (r: Result)
    ensures r.pos >= left.pos && r.errors >= left.errors
    decreases Room(depth), 2, 0
  {
    if op.LeftParen? then
      var l := ItemsAt(ts, left.pos, depth, [], RightParen);
      Consumed(ts, Result(Call(left.expr, l.items, l.trailing), l.pos, left.errors + l.errors), RightParen)
    else if op.Dot? then
      if !Peek(ts, left.pos).Ident? then left.(expr := Field(left.expr, ""), errors := left.errors + 1)
      else if left.expr.Leaf? && IsTypeName(left.expr.token) then Result(Unsupported, left.pos + 1, left.errors + 1)
      else left.(expr := Field(left.expr, Peek(ts, left.pos).name), pos := left.pos + 1)
    else if IsPostfixOp(op) then left.(expr := Postfix(left.expr, op))
    else if IsInfixOp(op) then
      var x := AtPrecedence(ts, left.pos, depth, Precedence(op));
      Result(Infix(left.expr, op, x.expr), x.pos, left.errors + x.errors)
    else Result(Unsupported, left.pos, left.errors + 1)
  }

  // Items up to the closing token, each followed by a comma or by the end of the list.
  function ItemsAt(ts: seq<Token>, pos: nat, depth: nat, acc: seq<Expr>, close: Token): (r: Items)
    ensures r.pos >= pos
    decreases Room(depth), 1, if pos <= |ts| then |ts| - pos else 0
  {
    if AtEnd(ts, pos) || Peek(ts, pos) == close then Items(acc, acc != [], pos, 0)
    else
      var x := AtPrecedence(ts, pos, depth, ASSIGNMENT);
      if Peek(ts, x.pos) == Comma then
        var l := ItemsAt(ts, x.pos + 1, depth, acc + [x.expr], close);
        l.(errors := x.errors + l.errors)
      else Items(acc + [x.expr], false, x.pos, x.errors)
  }

  // One item read.
  lemma ItemsStep(ts: seq<Token>, pos: nat, depth: nat, acc: seq<Expr>, close: Token)
    requires !AtEnd(ts, pos) && Peek(ts, pos) != close
    ensures var x := AtPrecedence(ts, pos, depth, ASSIGNMENT);
      ItemsAt(ts, pos, depth, acc, close) ==
      if Peek(ts, x.pos) == Comma then
        var l := ItemsAt(ts, x.pos + 1, depth, acc + [x.expr], close); l.(errors := x.errors + l.errors)
      else Items(acc + [x.expr], false, x.pos, x.errors)
  {
    hide AtPrecedence;
  }

  lemma EofIsLow()
    ensures Precedence(Eof) == 0
  {
  }

  // ----- The parser itself -----

  class Cursor {
    const tokens: seq<Token>
    var current: nat
    var depth: nat
    var errors: nat

    constructor (ts: seq<Token>)
      ensures Valid() && current == 0 && depth == 0 && errors == 0
      ensures tokens == if ts != [] && ts[|ts| - 1] == Eof then ts else ts + [Eof]
    {
      tokens := if ts != [] && ts[|ts| - 1] == Eof then ts else ts + [Eof];
      current, depth, errors := 0, 0, 0;
    }

    ghost predicate Valid()
      reads this
    {
      tokens != [] && tokens[|tokens| - 1] == Eof && current < |tokens| && depth <= MAX_DEPTH
    }

    // The cursor after a parse that computes r.
    ghost predicate Reaches(r: Result, before: nat)
      reads this
    {
      Valid() && current == r.pos && errors == before + r.errors
    }

    method PushDepth() returns (ok: bool)
      requires Valid()
      modifies `depth, `errors
      ensures ok <==> old(depth) < MAX_DEPTH
      ensures depth == old(depth) + (if ok then 1 else 0) && errors == old(errors) + (if ok then 0 else 1)
    {
      depth := depth + 1;
      if depth > MAX_DEPTH {
        errors := errors + 1;
        depth := depth - 1;
        return false;
      }
      ok := true;
    }

    method PopDepth()
      modifies `depth
      ensures depth == if old(depth) > 0 then old(depth) - 1 else 0
    {
      if depth > 0 {
        depth := depth - 1;
      }
    }

    method PeekToken() returns (t: Token)
      requires Valid()
      ensures t == Peek(tokens, current)
    {
      t := tokens[current];
    }

    method AdvanceToken() returns (t: Token)
      requires Valid()
      modifies `current
      ensures Valid() && t == Taken(tokens, old(current)) && current == Advance(tokens, old(current))
    {
      if tokens[current] != Eof {
        current := current + 1;
      }
      t := tokens[if current == 0 then 0 else current - 1];
    }

    method Consume(t: Token) returns (ok: bool)
      requires Valid() && t != Eof
      modifies `current, `errors
      ensures Valid() && (ok <==> Peek(tokens, old(current)) == t)
      ensures current == old(current) + (if ok then 1 else 0) && errors == old(errors) + (if ok then 0 else 1)
    {
      if tokens[current] == t {
        current := current + 1;
        return true;
      }
      errors := errors + 1;
      ok := false;
    }

    /** Parses one expression whose operators bind tighter than `prec`, and restores the depth. */
    method ParsePrecedence(prec: nat) returns (e: Expr)
      requires Valid()
      modifies `current, `depth, `errors
      ensures depth == old(depth)
      ensures var r := AtPrecedence(tokens, old(current), old(depth), prec); e == r.expr && Reaches(r, old(errors))
      decreases MAX_DEPTH - depth, 0, 0
    {
      hide PrefixAt, InfixAt, ItemsAt, Precedence;
      EofIsLow();
      var ok := PushDepth();
      if !ok {
        return Unsupported;
      }
      ghost var start := PrefixAt(tokens, current, depth);
      e := ParsePrefix();
      ghost var seen := start;
      while true
        invariant Valid() && depth == old(depth) + 1
        invariant e == seen.expr && current == seen.pos && errors == old(errors) + seen.errors
        invariant LoopAt(tokens, start, depth, prec) == LoopAt(tokens, seen, depth, prec)
        decreases |tokens| - current
      {
        var t := PeekToken();
        if prec >= Precedence(t) {
          break;
        }
        var op := AdvanceToken();
        ghost var k := seen.errors;
        seen := InfixAt(tokens, seen.(pos := current), op, depth);
        e := ParseInfix(e, op, k);
      }
      PopDepth();
    }

    method ParsePrefix() returns (e: Expr)
      requires Valid()
      modifies `current, `depth, `errors
      ensures depth == old(depth)
      ensures var r := PrefixAt(tokens, old(current), old(depth)); e == r.expr && Reaches(r, old(errors))
      decreases MAX_DEPTH - depth, 2, 1
    {
      hide AtPrecedence, ItemsAt, GroupAt;
      var t := AdvanceToken();
      if IsLeaf(t) {
        return Leaf(t);
      }
      if t.LeftBracket? {
        var items, trailing := ParseItems([], RightBracket);
        var _ := Consume(RightBracket);
        return Array(items, trailing);
      }
      if t.LeftParen? {
        e := ParseGroup();
        return;
      }
      if IsPrefixOp(t) {
        var x := ParsePrecedence(UNARY);
        return Prefix(t, x);
      }
      errors := errors + 1;
      e := Unsupported;
    }

    // After an opening parenthesis.
    method ParseGroup() returns (e: Expr)
      requires Valid()
      modifies `current, `depth, `errors
      ensures depth == old(depth)
      ensures var r := GroupAt(tokens, old(current), old(depth)); e == r.expr && Reaches(r, old(errors))
      decreases MAX_DEPTH - depth, 2, 0
    {
      hide AtPrecedence, ItemsAt, LoopAt, PrefixAt, Precedence;
      var p := PeekToken();
      if p.Eof? {
        errors := errors + 1;
        return Unsupported;
      }
      var ok := PushDepth();
      if !ok {
        errors := errors + 1;
        return Unsupported;
      }
      if p == RightParen {
        var _ := AdvanceToken();
        PopDepth();
        return Tuple([], false);
      }
      var x := ParsePrecedence(ASSIGNMENT);
      var c := PeekToken();
      if c == Comma {
        var _ := AdvanceToken();
        var items, trailing := ParseItems([x], RightParen);
        var _ := Consume(RightParen);
        PopDepth();
        return Tuple(items, trailing);
      }
      PopDepth();
      var _ := Consume(RightParen);
      e := Grouping(x);
    }

    method ParseInfix(left: Expr, op: Token, ghost k: nat) returns (e: Expr)
      requires Valid()
      modifies `current, `depth, `errors
      ensures depth == old(depth)
      ensures var r := InfixAt(tokens, Result(left, old(current), k), op, old(depth));
        e == r.expr && Valid() && current == r.pos && errors + k == old(errors) + r.errors
      decreases MAX_DEPTH - depth, 2, 0
    {
      hide AtPrecedence, ItemsAt, IsTypeName;
      if op.LeftParen? {
        var items, trailing := ParseItems([], RightParen);
        var _ := Consume(RightParen);
        return Call(left, items, trailing);
      }
      if op.Dot? {
        var t := PeekToken();
        if !t.Ident? {
          errors := errors + 1;
          return Field(left, "");
        }
        var _ := AdvanceToken();
        if left.Leaf? && IsTypeName(left.token) {
          errors := errors + 1;
          return Unsupported;
        }
        return Field(left, t.name);
      }
      if IsPostfixOp(op) {
        return Postfix(left, op);
      }
      if IsInfixOp(op) {
        var x := ParsePrecedence(Precedence(op));
        return Infix(left, op, x);
      }
      errors := errors + 1;
      e := Unsupported;
    }

    method ParseItems(first: seq<Expr>, close: Token) returns (items: seq<Expr>, trailing: bool)
      requires Valid() && close != Eof
      modifies `current, `depth, `errors
      ensures depth == old(depth)
      ensures var r := ItemsAt(tokens, old(current), old(depth), first, close);
        items == r.items && trailing == r.trailing && Valid() && current == r.pos && errors == old(errors) + r.errors
      decreases MAX_DEPTH - depth, 1, 0
    {
      hide AtPrecedence, ItemsAt;
      items, trailing := first, first != [];
      ghost var start := ItemsAt(tokens, current, depth, first, close);
      while tokens[current] != Eof && tokens[current] != close
        invariant Valid() && depth == old(depth) && trailing == (items != [])
        invariant errors >= old(errors)
        invariant start == Added(ItemsAt(tokens, current, depth, items, close), errors - old(errors))
        decreases |tokens| - current
      {
        ItemsStep(tokens, current, depth, items, close);
        var x := ParsePrecedence(ASSIGNMENT);
        items := items + [x];
        trailing := true;
        if tokens[current] != Comma {
          trailing := false;
          return;
        }
        current := current + 1;
      }
      ItemsEnd(tokens, current, depth, items, close);
    }
  }

  // With that many more diagnostics.
  function Added(l: Items, n: nat): Items {
    l.(errors := l.errors + n)
  }

  lemma ItemsEnd(ts: seq<Token>, pos: nat, depth: nat, acc: seq<Expr>, close: Token)
    requires AtEnd(ts, pos) || Peek(ts, pos) == close
    ensures ItemsAt(ts, pos, depth, acc, close) == Items(acc, acc != [], pos, 0)
  {
  }
}
