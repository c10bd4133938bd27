/** What the expression parser accepts, exactly: the trees that obey precedence and left
    association and fit the depth budget, spelled as their tokens. */
module Grammar {
  import opened Finite
  import opened Parser

  // ----- Spelling -----

  function Spelled(e: Expr): seq<Token>
    decreases e, 1
  {
    match e
    case Leaf(t) => [t]
    case Grouping(x) => [LeftParen] + (Spelled(x) + [RightParen])
    case Tuple(items, trailing) => [LeftParen] + (SpelledItems(items, trailing) + [RightParen])
    case Array(items, trailing) => [LeftBracket] + (SpelledItems(items, trailing) + [RightBracket])
    case Prefix(op, x) => [op] + Spelled(x)
    case Infix(l, op, r) => Spelled(l) + ([op] + Spelled(r))
    case Call(c, args, trailing) => Spelled(c) + ([LeftParen] + (SpelledItems(args, trailing) + [RightParen]))
    case Field(o, name) => Spelled(o) + [Dot, Ident(name)]
    case Postfix(x, op) => Spelled(x) + [op]
    case Unsupported => []
  }

  function SpelledItems(items: seq<Expr>, trailing: bool): seq<Token>
    decreases items, 0
  {
    if items == [] then []
    else if |items| == 1 then Spelled(items[0]) + (if trailing then [Comma] else [])
    else Spelled(items[0]) + ([Comma] + SpelledItems(items[1..], trailing))
  }

  // ----- Precedence and association -----

  /** The lowest level at which an expression's right edge is still open: an operator that
      binds tighter than this would be taken into it. */
  function Tail(e: Expr): nat {
    match e
    case Prefix(_, x) => Min(UNARY, Tail(x))
    case Infix(_, op, r) => Min(Precedence(op), Tail(r))
    case _ => CLOSED
  }

  predicate ListForm(items: seq<Expr>, trailing: bool) {
    items == [] ==> !trailing
  }

  /** The tree obeys precedence and left association at a level: each operator binds tighter
      than the level, no tighter than the open right edge before it, and looser than the
      operators of its right operand. */
  predicate Fits(e: Expr, level: nat)
    decreases e, 1
  {
    match e
    case Leaf(t) => IsLeaf(t)
    case Grouping(x) => Fits(x, ASSIGNMENT)
    case Tuple(items, trailing) => AllFit(items) && ListForm(items, trailing) && (|items| == 1 ==> trailing)
    case Array(items, trailing) => AllFit(items) && ListForm(items, trailing)
    case Prefix(op, x) => IsPrefixOp(op) && Fits(x, UNARY)
    case Infix(l, op, r) =>
      IsInfixOp(op) && level < Precedence(op) <= Tail(l) && Fits(l, level) && Fits(r, Precedence(op))
    case Call(c, args, trailing) => level < CALL <= Tail(c) && Fits(c, level) && AllFit(args)
      && ListForm(args, trailing)
    case Field(o, name) => level < CALL <= Tail(o) && Fits(o, level) && !(o.Leaf? && IsTypeName(o.token))
    case Postfix(x, op) => IsPostfixOp(op) && level < Precedence(op) <= Tail(x) && Fits(x, level)
    case Unsupported => false
  }

  predicate AllFit(items: seq<Expr>)
    decreases items, 0
  {
    items == [] || (Fits(items[0], ASSIGNMENT) && AllFit(items[1..]))
  }

  // ----- Depth -----

  function Max(a: nat, b: nat): nat {
    if a < b then b else a
  }

  // Levels of nesting below the call that parses the expression.
  function Inner(e: Expr): nat
    decreases e, 1
  {
    match e
    case Grouping(x) => 2 + Inner(x)
    case Tuple(items, _) => 1 + Nesting(items)
    case Array(items, _) => Nesting(items)
    case Prefix(_, x) => 1 + Inner(x)
    case Infix(l, _, r) => Max(Inner(l), 1 + Inner(r))
    case Call(c, args, _) => Max(Inner(c), Nesting(args))
    case Field(o, _) => Inner(o)
    case Postfix(x, _) => Inner(x)
    case _ => 0
  }

  function Nesting(items: seq<Expr>): nat
    decreases items, 0
  {
    if items == [] then 0 else Max(1 + Inner(items[0]), Nesting(items[1..]))
  }

  /** The depth an expression needs to be parsed. */
  function Need(e: Expr): nat {
    1 + Inner(e)
  }

  // ----- Tokens in place -----

  predicate At(ts: seq<Token>, pos: nat, part: seq<Token>) {
    pos + |part| <= |ts| && ts[pos..pos + |part|] == part
  }

  lemma AtSplit(ts: seq<Token>, pos: nat, a: seq<Token>, b: seq<Token>)
    ensures At(ts, pos, a + b) <==> At(ts, pos, a) && At(ts, pos + |a|, b)
  {
    if At(ts, pos, a + b) {
      var whole := ts[pos..pos + |a + b|];
      assert whole[..|a|] == a && whole[|a|..] == b;
    }
    if At(ts, pos, a) && At(ts, pos + |a|, b) {
      assert ts[pos..pos + |a + b|] == ts[pos..pos + |a|] + ts[pos + |a|..pos + |a| + |b|];
    }
  }

  lemma AtOne(ts: seq<Token>, pos: nat, t: Token)
    requires t != Eof
    ensures At(ts, pos, [t]) <==> Peek(ts, pos) == t
  {
    if pos < |ts| {
      assert ts[pos..pos + 1] == [ts[pos]];
    }
  }

  // No tree starts with a closing token, a comma or the end.
  lemma {:induction false} FirstToken(e: Expr, level: nat)
    requires Fits(e, level)
    ensures Spelled(e) != []
    ensures var t := Spelled(e)[0]; t != RightParen && t != RightBracket && t != Comma && t != Eof
    decreases e
  {
    match e
    case Infix(l, _, _) => FirstToken(l, level);
    case Call(c, _, _) => FirstToken(c, level);
    case Field(o, _) => FirstToken(o, level);
    case Postfix(x, _) => FirstToken(x, level);
    case _ =>
  }

  lemma FirstPeek(ts: seq<Token>, pos: nat, e: Expr, level: nat)
    requires Fits(e, level) && At(ts, pos, Spelled(e))
    ensures var t := Peek(ts, pos); t != RightParen && t != RightBracket && t != Comma && t != Eof
  {
    FirstToken(e, level);
    assert ts[pos] == ts[pos..pos + |Spelled(e)|][0];
  }

  // ----- Every tree of the grammar is parsed back -----

  // What follows may not be taken into the tree.
  predicate Follows(ts: seq<Token>, pos: nat, e: Expr) {
    Precedence(Peek(ts, pos)) <= Tail(e)
  }

  lemma {:induction false} TailAbove(e: Expr, level: nat)
    requires Fits(e, level) && level <= UNARY
    ensures Tail(e) >= level
    decreases e
  {
    match e
    case Prefix(_, x) => TailAbove(x, UNARY);
    case Infix(_, op, r) => TailAbove(r, Precedence(op));
    case _ =>
  }

  // The tree stands at pos and may be parsed there at a level.
  predicate Ready(ts: seq<Token>, pos: nat, depth: nat, level: nat, e: Expr) {
    && At(ts, pos, Spelled(e)) && Fits(e, level) && level <= UNARY && depth + Inner(e) <= MAX_DEPTH
    && Follows(ts, pos + |Spelled(e)|, e)
  }

  /** Parsing the tree's tokens, then whatever operators follow, is the same as going on from
      the tree itself. */
  predicate Passes(ts: seq<Token>, pos: nat, depth: nat, level: nat, e: Expr) {
    LoopAt(ts, PrefixAt(ts, pos, depth), depth, level) == LoopAt(ts, Result(e, pos + |Spelled(e)|, 0), depth, level)
  }

  lemma Closers()
    ensures Precedence(RightParen) == 0 && Precedence(RightBracket) == 0 && Precedence(Comma) == 0
  {
  }

  // The tree is what is parsed at pos, up to its last token.
  predicate Yields(ts: seq<Token>, pos: nat, r: Result, e: Expr) {
    r == Result(e, pos + |Spelled(e)|, 0)
  }

  lemma {:induction false} Reaches(ts: seq<Token>, pos: nat, depth: nat, level: nat, e: Expr)
    requires Ready(ts, pos, depth, level, e)
    ensures Passes(ts, pos, depth, level, e)
    decreases e, 2
  {
    hide Ready, Passes;
    match e
    case Infix(_, _, _) => ReachesInfix(ts, pos, depth, level, e);
    case Call(_, _, _) => ReachesCall(ts, pos, depth, level, e);
    case Field(_, _) => ReachesField(ts, pos, depth, level, e);
    case Postfix(_, _) => ReachesPostfix(ts, pos, depth, level, e);
    case Unsupported => NeverReady(ts, pos, depth, level);
    case _ =>
      PrefixIs(ts, pos, depth, level, e);
      PassesAtOnce(ts, pos, depth, level, e);
  }

  lemma NeverReady(ts: seq<Token>, pos: nat, depth: nat, level: nat)
    ensures !Ready(ts, pos, depth, level, Unsupported)
  {
  }

  lemma PassesAtOnce(ts: seq<Token>, pos: nat, depth: nat, level: nat, e: Expr)
    requires Yields(ts, pos, PrefixAt(ts, pos, depth), e)
    ensures Passes(ts, pos, depth, level, e)
  {
    hide LoopAt, PrefixAt, Spelled;
  }

  // The left part passes, and one step of the loop makes the whole.
  lemma PassesOn(ts: seq<Token>, pos: nat, depth: nat, level: nat, l: Expr, op: Token, e: Expr)
    requires Passes(ts, pos, depth, level, l) && Peek(ts, pos + |Spelled(l)|) == op && level < Precedence(op)
    requires Yields(ts, pos, InfixAt(ts, Result(l, pos + |Spelled(l)| + 1, 0), op, depth), e)
    ensures Passes(ts, pos, depth, level, e)
  {
    hide PrefixAt, InfixAt, Spelled, Precedence;
  }

  // The tokens of an infix tree in place.
  lemma InfixPlaced(ts: seq<Token>, pos: nat, l: Expr, op: Token, r: Expr)
    requires At(ts, pos, Spelled(Infix(l, op, r))) && op != Eof
    ensures var mid := pos + |Spelled(l)|;
      At(ts, pos, Spelled(l)) && Peek(ts, mid) == op && At(ts, mid + 1, Spelled(r))
      && pos + |Spelled(Infix(l, op, r))| == mid + 1 + |Spelled(r)|
  {
    hide At;
    var mid := pos + |Spelled(l)|;
    AtSplit(ts, pos, Spelled(l), [op] + Spelled(r));
    AtSplit(ts, mid, [op], Spelled(r));
    AtOne(ts, mid, op);
  }

  lemma InfixParts(l: Expr, op: Token, r: Expr, level: nat)
    requires Fits(Infix(l, op, r), level)
    ensures IsInfixOp(op) && level < Precedence(op) <= Tail(l) && Precedence(op) <= UNARY && op != Eof
    ensures Fits(l, level) && Fits(r, Precedence(op))
    ensures Tail(Infix(l, op, r)) <= Precedence(op) && Tail(Infix(l, op, r)) <= Tail(r)
    ensures Inner(Infix(l, op, r)) >= Inner(l) && Inner(Infix(l, op, r)) >= 1 + Inner(r)
  {
  }

  // What an infix tree is made of, ready at its places.
  lemma InfixReady(ts: seq<Token>, pos: nat, depth: nat, level: nat, e: Expr)
    requires e.Infix? && Ready(ts, pos, depth, level, e)
    ensures Ready(ts, pos, depth, level, e.left) && IsInfixOp(e.op) && level < Precedence(e.op)
    ensures Peek(ts, pos + |Spelled(e.left)|) == e.op && |Spelled(e)| == |Spelled(e.left)| + 1 + |Spelled(e.right)|
  {
    hide At, Spelled, Fits, Inner, Tail, IsInfixOp, Precedence, Peek, Ready, Follows;
    var l, op, r := e.left, e.op, e.right;
    ReadyParts(ts, pos, depth, level, e);
    assert e == Infix(l, op, r);
    InfixParts(l, op, r, level);
    InfixPlaced(ts, pos, l, op, r);
    MakeReady(ts, pos, depth, level, l);
  }

  lemma ReadyParts(ts: seq<Token>, pos: nat, depth: nat, level: nat, e: Expr)
    requires Ready(ts, pos, depth, level, e)
    ensures At(ts, pos, Spelled(e)) && Fits(e, level) && level <= UNARY && depth + Inner(e) <= MAX_DEPTH
    ensures Precedence(Peek(ts, pos + |Spelled(e)|)) <= Tail(e)
  {
  }

  lemma MakeReady(ts: seq<Token>, pos: nat, depth: nat, level: nat, e: Expr)
    requires At(ts, pos, Spelled(e)) && Fits(e, level) && level <= UNARY && depth + Inner(e) <= MAX_DEPTH
    requires Precedence(Peek(ts, pos + |Spelled(e)|)) <= Tail(e)
    ensures Ready(ts, pos, depth, level, e)
  {
  }

  lemma RightReady(ts: seq<Token>, pos: nat, depth: nat, level: nat, e: Expr)
    requires e.Infix? && Ready(ts, pos, depth, level, e)
    ensures var right := pos + |Spelled(e.left)| + 1;
      At(ts, right, Spelled(e.right)) && Fits(e.right, Precedence(e.op)) && Precedence(e.op) <= UNARY
        && depth + Need(e.right) <= MAX_DEPTH
      && Precedence(Peek(ts, right + |Spelled(e.right)|)) <= Precedence(e.op)
  {
    hide At, Spelled, Fits, Inner, Tail, IsInfixOp, Precedence, Peek, Ready, Follows;
    var l, op, r := e.left, e.op, e.right;
    ReadyParts(ts, pos, depth, level, e);
    assert e == Infix(l, op, r);
    InfixParts(l, op, r, level);
    InfixPlaced(ts, pos, l, op, r);
  }

  lemma InfixYields(ts: seq<Token>, pos: nat, depth: nat, e: Expr)
    requires e.Infix? && IsInfixOp(e.op) && pos + |Spelled(e)| == pos + |Spelled(e.left)| + 1 + |Spelled(e.right)|
    requires Yields(ts, pos + |Spelled(e.left)| + 1,
      AtPrecedence(ts, pos + |Spelled(e.left)| + 1, depth, Precedence(e.op)), e.right)
    ensures Yields(ts, pos, InfixAt(ts, Result(e.left, pos + |Spelled(e.left)| + 1, 0), e.op, depth), e)
  {
    hide AtPrecedence, ItemsAt, Spelled;
  }

  lemma {:induction false} ReachesInfix(ts: seq<Token>, pos: nat, depth: nat, level: nat, e: Expr)
    requires e.Infix? && Ready(ts, pos, depth, level, e)
    ensures Passes(ts, pos, depth, level, e)
    decreases e, 1
  {
    hide AtPrecedence, PrefixAt, InfixAt, LoopAt, Spelled, Ready, Passes, Yields, Peek, Precedence, IsInfixOp;
    InfixReady(ts, pos, depth, level, e);
    RightReady(ts, pos, depth, level, e);
    Reaches(ts, pos, depth, level, e.left);
    Completes(ts, pos + |Spelled(e.left)| + 1, depth, Precedence(e.op), e.right);
    InfixYields(ts, pos, depth, e);
    PassesOn(ts, pos, depth, level, e.left, e.op, e);
  }

  // A call in place: its callee ready, its arguments between parentheses.
  lemma CallReady(ts: seq<Token>, pos: nat, depth: nat, level: nat, e: Expr)
    requires e.Call? && Ready(ts, pos, depth, level, e)
    ensures var mid, inside := pos + |Spelled(e.callee)|, SpelledItems(e.args, e.trailing);
      Ready(ts, pos, depth, level, e.callee) && Peek(ts, mid) == LeftParen && level < CALL
      && At(ts, mid + 1, inside) && Peek(ts, mid + 1 + |inside|) == RightParen
      && pos + |Spelled(e)| == mid + 1 + |inside| + 1
      && AllFit(e.args) && (e.args == [] ==> !e.trailing) && depth + Nesting(e.args) <= MAX_DEPTH
  {
    hide At, SpelledItems;
    var mid, inside := pos + |Spelled(e.callee)|, SpelledItems(e.args, e.trailing);
    AtSplit(ts, pos, Spelled(e.callee), [LeftParen] + (inside + [RightParen]));
    Enclosed(ts, mid, LeftParen, inside, RightParen);
  }

  lemma CallYields(ts: seq<Token>, pos: nat, depth: nat, e: Expr)
    requires e.Call? && e.args == [] ==> !e.trailing
    requires e.Call? && var mid, inside := pos + |Spelled(e.callee)|, SpelledItems(e.args, e.trailing);
      ItemsAt(ts, mid + 1, depth, [], RightParen) == Items(e.args, e.trailing, mid + 1 + |inside|, 0)
      && Peek(ts, mid + 1 + |inside|) == RightParen && pos + |Spelled(e)| == mid + 1 + |inside| + 1
    ensures Yields(ts, pos, InfixAt(ts, Result(e.callee, pos + |Spelled(e.callee)| + 1, 0), LeftParen, depth), e)
  {
    hide ItemsAt, Spelled, SpelledItems;
  }

  lemma {:induction false} ReachesCall(ts: seq<Token>, pos: nat, depth: nat, level: nat, e: Expr)
    requires e.Call? && Ready(ts, pos, depth, level, e)
    ensures Passes(ts, pos, depth, level, e)
    decreases e, 1
  {
    hide AtPrecedence, PrefixAt, InfixAt, ItemsAt, LoopAt, Spelled, SpelledItems, Ready, Passes, Yields, Peek, At,
      AllFit, Nesting;
    CallReady(ts, pos, depth, level, e);
    Reaches(ts, pos, depth, level, e.callee);
    ItemsComplete(ts, pos + |Spelled(e.callee)| + 1, depth, [], e.args, e.trailing, RightParen);
    BehindNothing(e.args);
    CallYields(ts, pos, depth, e);
    PassesOn(ts, pos, depth, level, e.callee, LeftParen, e);
  }

  lemma {:induction false} ReachesField(ts: seq<Token>, pos: nat, depth: nat, level: nat, e: Expr)
    requires e.Field? && Ready(ts, pos, depth, level, e)
    ensures Passes(ts, pos, depth, level, e)
    decreases e, 1
  {
    hide At, PrefixAt, LoopAt, Passes;
    var mid := pos + |Spelled(e.owner)|;
    AtSplit(ts, pos, Spelled(e.owner), [Dot, Ident(e.name)]);
    assert [Dot, Ident(e.name)] == [Dot] + [Ident(e.name)];
    AtSplit(ts, mid, [Dot], [Ident(e.name)]);
    AtOne(ts, mid, Dot);
    AtOne(ts, mid + 1, Ident(e.name));
    Reaches(ts, pos, depth, level, e.owner);
    PassesOn(ts, pos, depth, level, e.owner, Dot, e);
  }

  lemma {:induction false} ReachesPostfix(ts: seq<Token>, pos: nat, depth: nat, level: nat, e: Expr)
    requires e.Postfix? && Ready(ts, pos, depth, level, e)
    ensures Passes(ts, pos, depth, level, e)
    decreases e, 1
  {
    hide At, PrefixAt, LoopAt, Passes;
    var mid := pos + |Spelled(e.operand)|;
    AtSplit(ts, pos, Spelled(e.operand), [e.op]);
    AtOne(ts, mid, e.op);
    Reaches(ts, pos, depth, level, e.operand);
    PassesOn(ts, pos, depth, level, e.operand, e.op, e);
  }

  // Something between an opening token and its closing token.
  lemma Enclosed(ts: seq<Token>, pos: nat, open: Token, inside: seq<Token>, close: Token)
    requires At(ts, pos, [open] + (inside + [close])) && open != Eof && close != Eof
    ensures Peek(ts, pos) == open && At(ts, pos + 1, inside) && Peek(ts, pos + 1 + |inside|) == close
  {
    hide At;
    AtSplit(ts, pos, [open], inside + [close]);
    AtSplit(ts, pos + 1, inside, [close]);
    AtOne(ts, pos, open);
    AtOne(ts, pos + 1 + |inside|, close);
  }

  // A form that starts with a token of its own.
  lemma {:induction false} PrefixIs(ts: seq<Token>, pos: nat, depth: nat, level: nat, e: Expr)
    requires Ready(ts, pos, depth, level, e) && (e.Leaf? || e.Grouping? || e.Tuple? || e.Array? || e.Prefix?)
    ensures Yields(ts, pos, PrefixAt(ts, pos, depth), e)
    decreases e, 1
  {
    match e
    case Leaf(t) => AtOne(ts, pos, t);
    case Grouping(_) => GroupingIs(ts, pos, depth, level, e);
    case Tuple(_, _) => TupleIs(ts, pos, depth, level, e);
    case Array(_, _) => ArrayIs(ts, pos, depth, level, e);
    case Prefix(_, _) => UnaryIs(ts, pos, depth, level, e);
  }

  // What the code computes for a prefix operator, and for a grouping.
  lemma UnaryRead(ts: seq<Token>, pos: nat, depth: nat)
    requires IsPrefixOp(Peek(ts, pos)) && depth <= MAX_DEPTH
    ensures var x := AtPrecedence(ts, pos + 1, depth, UNARY);
      PrefixAt(ts, pos, depth) == x.(expr := Prefix(Peek(ts, pos), x.expr))
  {
    hide AtPrecedence, ItemsAt, GroupAt;
  }

  lemma GroupingRead(ts: seq<Token>, pos: nat, depth: nat, x: Result)
    requires depth + 1 <= MAX_DEPTH && Peek(ts, pos) == LeftParen && !AtEnd(ts, pos + 1)
    requires Peek(ts, pos + 1) != RightParen && AtPrecedence(ts, pos + 1, depth + 1, ASSIGNMENT) == x
    requires Peek(ts, x.pos) == RightParen
    ensures PrefixAt(ts, pos, depth) == Result(Grouping(x.expr), x.pos + 1, x.errors)
  {
    hide AtPrecedence, ItemsAt;
  }

  lemma UnaryReady(ts: seq<Token>, pos: nat, depth: nat, level: nat, e: Expr)
    requires e.Prefix? && Ready(ts, pos, depth, level, e)
    ensures Peek(ts, pos) == e.op && IsPrefixOp(e.op) && pos + |Spelled(e)| == pos + 1 + |Spelled(e.right)|
    ensures At(ts, pos + 1, Spelled(e.right)) && Fits(e.right, UNARY) && depth + Need(e.right) <= MAX_DEPTH
    ensures Precedence(Peek(ts, pos + 1 + |Spelled(e.right)|)) <= UNARY
  {
    assert Tail(e) <= UNARY && Precedence(Peek(ts, pos + |Spelled(e)|)) <= Tail(e);
    hide At, Precedence, Inner, Tail;
    assert Inner(e) == 1 + Inner(e.right);
    AtSplit(ts, pos, [e.op], Spelled(e.right));
    AtOne(ts, pos, e.op);
  }

  lemma {:induction false} UnaryIs(ts: seq<Token>, pos: nat, depth: nat, level: nat, e: Expr)
    requires e.Prefix? && Ready(ts, pos, depth, level, e)
    ensures Yields(ts, pos, PrefixAt(ts, pos, depth), e)
    decreases e, 0
  {
    hide PrefixAt, AtPrecedence, At, Ready, Spelled, Fits, Inner, Precedence, IsPrefixOp, Peek;
    UnaryReady(ts, pos, depth, level, e);
    UnaryRead(ts, pos, depth);
    Completes(ts, pos + 1, depth, UNARY, e.right);
  }

  lemma GroupingReady(ts: seq<Token>, pos: nat, depth: nat, level: nat, e: Expr)
    requires e.Grouping? && Ready(ts, pos, depth, level, e)
    ensures Peek(ts, pos) == LeftParen && At(ts, pos + 1, Spelled(e.inner)) && Fits(e.inner, ASSIGNMENT)
    ensures Peek(ts, pos + 1 + |Spelled(e.inner)|) == RightParen && depth + 1 + Need(e.inner) <= MAX_DEPTH
    ensures pos + |Spelled(e)| == pos + 1 + |Spelled(e.inner)| + 1
  {
    hide At;
    Enclosed(ts, pos, LeftParen, Spelled(e.inner), RightParen);
  }

  lemma {:induction false} GroupingIs(ts: seq<Token>, pos: nat, depth: nat, level: nat, e: Expr)
    requires e.Grouping? && Ready(ts, pos, depth, level, e)
    ensures Yields(ts, pos, PrefixAt(ts, pos, depth), e)
    decreases e, 0
  {
    hide PrefixAt, AtPrecedence, At, Ready, Spelled, Fits, Inner, Precedence, Peek;
    GroupingReady(ts, pos, depth, level, e);
    Closers();
    FirstPeek(ts, pos + 1, e.inner, ASSIGNMENT);
    Completes(ts, pos + 1, depth + 1, ASSIGNMENT, e.inner);
    GroupingRead(ts, pos, depth, AtPrecedence(ts, pos + 1, depth + 1, ASSIGNMENT));
  }

  lemma {:induction false} ArrayIs(ts: seq<Token>, pos: nat, depth: nat, level: nat, e: Expr)
    requires e.Array? && Ready(ts, pos, depth, level, e)
    ensures Yields(ts, pos, PrefixAt(ts, pos, depth), e)
    decreases e, 0
  {
    hide AtPrecedence, ItemsAt, GroupAt, At, SpelledItems;
    Enclosed(ts, pos, LeftBracket, SpelledItems(e.items, e.trailing), RightBracket);
    ItemsComplete(ts, pos + 1, depth, [], e.items, e.trailing, RightBracket);
    BehindNothing(e.items);
  }

  // The first item of a list and what stands behind it.
  function AfterFirst(items: seq<Expr>, trailing: bool): seq<Token>
    requires items != []
  {
    if |items| > 1 then [Comma] + SpelledItems(items[1..], trailing) else if trailing then [Comma] else []
  }

  // A comma follows the first item.
  predicate CommaAfter(items: seq<Expr>, trailing: bool) {
    |items| > 1 || (|items| == 1 && trailing)
  }

  // A comma and the rest of the list, if there is either.
  lemma TailPlaced(ts: seq<Token>, at: nat, items: seq<Expr>, trailing: bool)
    requires CommaAfter(items, trailing) && At(ts, at, AfterFirst(items, trailing))
    ensures Peek(ts, at) == Comma && At(ts, at + 1, SpelledItems(items[1..], RestTrailing(items, trailing)))
    ensures |AfterFirst(items, trailing)| == 1 + |SpelledItems(items[1..], RestTrailing(items, trailing))|
  {
    var rest := SpelledItems(items[1..], RestTrailing(items, trailing));
    assert AfterFirst(items, trailing) == [Comma] + rest;
    hide At, SpelledItems, AfterFirst, Peek;
    AtSplit(ts, at, [Comma], rest);
    AtOne(ts, at, Comma);
  }

  lemma ItemsSpelled(items: seq<Expr>, trailing: bool)
    requires items != []
    ensures SpelledItems(items, trailing) == Spelled(items[0]) + AfterFirst(items, trailing)
  {
    hide Spelled;
  }

  // The first item in place, and what stands behind it.
  lemma HeadPlaced(ts: seq<Token>, pos: nat, items: seq<Expr>, trailing: bool)
    requires items != [] && At(ts, pos, SpelledItems(items, trailing))
    ensures At(ts, pos, Spelled(items[0])) && At(ts, pos + |Spelled(items[0])|, AfterFirst(items, trailing))
    ensures |SpelledItems(items, trailing)| == |Spelled(items[0])| + |AfterFirst(items, trailing)|
  {
    hide At, Spelled, SpelledItems, AfterFirst;
    ItemsSpelled(items, trailing);
    AtSplit(ts, pos, Spelled(items[0]), AfterFirst(items, trailing));
  }

  // The last item, with nothing behind it.
  lemma LastPlaced(items: seq<Expr>, trailing: bool)
    requires items != [] && !CommaAfter(items, trailing)
    ensures |items| == 1 && !trailing && SpelledItems(items, trailing) == Spelled(items[0])
  {
    hide Spelled;
  }

  lemma FirstStarts(ts: seq<Token>, pos: nat, items: seq<Expr>, trailing: bool)
    requires items != [] && AllFit(items) && At(ts, pos, SpelledItems(items, trailing))
    ensures Peek(ts, pos) != RightParen && Peek(ts, pos) != RightBracket && !AtEnd(ts, pos)
  {
    assert Fits(items[0], ASSIGNMENT);
    hide Fits, At, Spelled, SpelledItems, AfterFirst;
    HeadPlaced(ts, pos, items, trailing);
    FirstPeek(ts, pos, items[0], ASSIGNMENT);
  }

  // Where the rest of a list starts, when a comma follows its first item.
  function RestAt(pos: nat, items: seq<Expr>): nat
    requires items != []
  {
    pos + |Spelled(items[0])| + 1
  }

  function RestTrailing(items: seq<Expr>, trailing: bool): bool {
    |items| > 1 && trailing
  }

  lemma RestPlaced(ts: seq<Token>, pos: nat, items: seq<Expr>, trailing: bool)
    requires At(ts, pos, SpelledItems(items, trailing)) && CommaAfter(items, trailing)
    ensures Peek(ts, RestAt(pos, items) - 1) == Comma
    ensures At(ts, RestAt(pos, items), SpelledItems(items[1..], RestTrailing(items, trailing)))
    ensures pos + |SpelledItems(items, trailing)| ==
            RestAt(pos, items) + |SpelledItems(items[1..], RestTrailing(items, trailing))|
  {
    hide Spelled, SpelledItems, AfterFirst, Peek, At;
    HeadPlaced(ts, pos, items, trailing);
    TailPlaced(ts, pos + |Spelled(items[0])|, items, trailing);
  }

  // The items behind those read already, one by one.
  function Behind(acc: seq<Expr>, items: seq<Expr>): seq<Expr>
    decreases |items|
  {
    if items == [] then acc else Behind(acc + [items[0]], items[1..])
  }

  lemma {:induction false} BehindIsJoined(acc: seq<Expr>, items: seq<Expr>)
    ensures Behind(acc, items) == acc + items
    decreases |items|
  {
    if items == [] {
      assert acc + items == acc;
    } else {
      BehindIsJoined(acc + [items[0]], items[1..]);
      assert acc + [items[0]] + items[1..] == acc + items;
    }
  }

  lemma OneBehind(acc: seq<Expr>, items: seq<Expr>)
    requires |items| == 1
    ensures Behind(acc, items) == acc + [items[0]]
  {
    assert items[1..] == [];
  }

  lemma BehindFirst(acc: seq<Expr>, x: Expr, rest: seq<Expr>)
    ensures Behind(acc, [x] + rest) == Behind(acc + [x], rest)
  {
    assert ([x] + rest)[1..] == rest;
  }

  lemma BehindNothing(items: seq<Expr>)
    ensures Behind([], items) == items
  {
    BehindIsJoined([], items);
    assert [] + items == items;
  }

  lemma TupleReady(ts: seq<Token>, pos: nat, depth: nat, level: nat, e: Expr)
    requires e.Tuple? && Ready(ts, pos, depth, level, e)
    ensures var inside := SpelledItems(e.items, e.trailing);
      Peek(ts, pos) == LeftParen && At(ts, pos + 1, inside) && Peek(ts, pos + 1 + |inside|) == RightParen
      && pos + |Spelled(e)| == pos + 1 + |inside| + 1
      && AllFit(e.items) && (e.items == [] ==> !e.trailing) && (|e.items| == 1 ==> e.trailing)
        && depth + 1 + Nesting(e.items) <= MAX_DEPTH
  {
    hide At, SpelledItems;
    Enclosed(ts, pos, LeftParen, SpelledItems(e.items, e.trailing), RightParen);
  }

  // What the code computes once the first item and its comma are read.
  lemma TupleRead(ts: seq<Token>, pos: nat, depth: nat, x: Result, l: Items)
    requires depth + 1 <= MAX_DEPTH && Peek(ts, pos) == LeftParen
    requires !AtEnd(ts, pos + 1) && Peek(ts, pos + 1) != RightParen
      && AtPrecedence(ts, pos + 1, depth + 1, ASSIGNMENT) == x
    requires Peek(ts, x.pos) == Comma && ItemsAt(ts, x.pos + 1, depth + 1, [x.expr], RightParen) == l
      && Peek(ts, l.pos) == RightParen
    ensures PrefixAt(ts, pos, depth) == Result(Tuple(l.items, l.trailing), l.pos + 1, x.errors + l.errors)
  {
    hide AtPrecedence, ItemsAt;
  }

  lemma {:induction false} TupleIs(ts: seq<Token>, pos: nat, depth: nat, level: nat, e: Expr)
    requires e.Tuple? && Ready(ts, pos, depth, level, e)
    ensures Yields(ts, pos, PrefixAt(ts, pos, depth), e)
    decreases e, 0
  {
    hide AtPrecedence, ItemsAt, At, SpelledItems, Spelled, Fits, AllFit, Inner, Nesting, Ready;
    TupleReady(ts, pos, depth, level, e);
    if e.items == [] {
      NoItems(e.trailing);
    } else {
      hide PrefixAt, AfterFirst;
      TupleItems(ts, pos, depth, e.items, e.trailing);
    }
  }

  lemma {:induction false} TupleItems(ts: seq<Token>, pos: nat, depth: nat, items: seq<Expr>, trailing: bool)
    requires items != [] && AllFit(items) && (|items| == 1 ==> trailing) && depth + 1 + Nesting(items) <= MAX_DEPTH
    requires Peek(ts, pos) == LeftParen && At(ts, pos + 1, SpelledItems(items, trailing))
    requires Peek(ts, pos + 1 + |SpelledItems(items, trailing)|) == RightParen
    ensures PrefixAt(ts, pos, depth) == Result(Tuple(items, trailing), pos + 1 + |SpelledItems(items, trailing)| + 1, 0)
    decreases items, 5
  {
    Closers();
    hide AtPrecedence, ItemsAt, At, SpelledItems, Spelled, Fits, AllFit, Inner, Nesting, PrefixAt, Peek, Precedence,
      AfterFirst;
    FirstParsed(ts, pos + 1, depth + 1, items, trailing);
    RestPlaced(ts, pos + 1, items, trailing);
    MoreItems(ts, pos + 1, depth + 1, [], items, trailing, RightParen);
    BehindNothing(items);
    assert [] + [items[0]] == [items[0]];
    TupleRead(ts, pos, depth, Result(items[0], pos + 1 + |Spelled(items[0])|, 0),
      Items(items, trailing, pos + 1 + |SpelledItems(items, trailing)|, 0));
  }

  lemma NoItems(trailing: bool)
    ensures SpelledItems([], trailing) == []
  {
  }

  /** Printing then parsing: the tokens of a tree that fits, followed by anything that binds
      no tighter than the level, parse to that tree, end exactly behind it and add no
      diagnostic. */
  lemma {:induction false} Completes(ts: seq<Token>, pos: nat, depth: nat, level: nat, e: Expr)
    requires At(ts, pos, Spelled(e)) && Fits(e, level) && level <= UNARY && depth + Need(e) <= MAX_DEPTH
    requires Precedence(Peek(ts, pos + |Spelled(e)|)) <= level
    ensures Yields(ts, pos, AtPrecedence(ts, pos, depth, level), e)
    decreases e, 3
  {
    hide AtPrecedence, PrefixAt, InfixAt, LoopAt, At, Spelled, Fits, Inner, Tail, Precedence, Peek, Ready, Passes;
    TailAbove(e, level);
    MakeReady(ts, pos, depth + 1, level, e);
    Reaches(ts, pos, depth + 1, level, e);
    LoopEnds(ts, pos, depth, level, e);
  }

  // The loop stops behind the tree.
  lemma LoopEnds(ts: seq<Token>, pos: nat, depth: nat, level: nat, e: Expr)
    requires depth + 1 <= MAX_DEPTH && Passes(ts, pos, depth + 1, level, e)
      && Precedence(Peek(ts, pos + |Spelled(e)|)) <= level
    ensures Yields(ts, pos, AtPrecedence(ts, pos, depth, level), e)
  {
    hide PrefixAt, InfixAt, Spelled, Precedence, Peek;
  }

  // What is known of the first item of a list that may be parsed.
  lemma FirstReady(ts: seq<Token>, pos: nat, depth: nat, items: seq<Expr>, trailing: bool)
    requires items != [] && AllFit(items) && At(ts, pos, SpelledItems(items, trailing))
      && depth + Nesting(items) <= MAX_DEPTH
    requires Precedence(Peek(ts, pos + |SpelledItems(items, trailing)|)) == 0
    ensures At(ts, pos, Spelled(items[0])) && Fits(items[0], ASSIGNMENT) && depth + Need(items[0]) <= MAX_DEPTH
    ensures Precedence(Peek(ts, pos + |Spelled(items[0])|)) == 0
  {
    hide At, Spelled, SpelledItems, AfterFirst, Fits, AllFit, Inner, Nesting, Peek, Precedence;
    ItemsParts(items);
    Closers();
    HeadPlaced(ts, pos, items, trailing);
    if CommaAfter(items, trailing) {
      RestPlaced(ts, pos, items, trailing);
    } else {
      LastPlaced(items, trailing);
    }
  }

  lemma {:induction false} FirstParsed(ts: seq<Token>, pos: nat, depth: nat, items: seq<Expr>, trailing: bool)
    requires items != [] && AllFit(items) && At(ts, pos, SpelledItems(items, trailing))
      && depth + Nesting(items) <= MAX_DEPTH
    requires Precedence(Peek(ts, pos + |SpelledItems(items, trailing)|)) == 0
    ensures AtPrecedence(ts, pos, depth, ASSIGNMENT) == Result(items[0], pos + |Spelled(items[0])|, 0)
    ensures Peek(ts, pos) != RightParen && Peek(ts, pos) != RightBracket && !AtEnd(ts, pos)
    decreases items, 2
  {
    hide AtPrecedence, At, SpelledItems, Spelled, Fits, AllFit, Inner, Nesting, Peek, Precedence;
    FirstReady(ts, pos, depth, items, trailing);
    FirstStarts(ts, pos, items, trailing);
    Completes(ts, pos, depth, ASSIGNMENT, items[0]);
  }

  // The rest of a list, whose earlier items are in acc.
  lemma {:induction false} ItemsComplete(ts: seq<Token>, pos: nat, depth: nat, acc: seq<Expr>, items: seq<Expr>,
      trailing: bool, close: Token)
    requires At(ts, pos, SpelledItems(items, trailing)) && AllFit(items) && depth + Nesting(items) <= MAX_DEPTH
    requires (close == RightParen || close == RightBracket) && Peek(ts, pos + |SpelledItems(items, trailing)|) == close
    requires items == [] ==> !trailing
    ensures ItemsAt(ts, pos, depth, acc, close) ==
            Items(Behind(acc, items), if items == [] then acc != []
              else trailing, pos + |SpelledItems(items, trailing)|, 0)
    decreases items, 4
  {
    hide AtPrecedence, At, SpelledItems, AllFit, Nesting, Spelled, Fits, Inner, AfterFirst, Precedence;
    if items == [] {
      NoItems(trailing);
    } else {
      hide ItemsAt, Behind;
      Closers();
      FirstParsed(ts, pos, depth, items, trailing);
      ItemsStep(ts, pos, depth, acc, close);
      if CommaAfter(items, trailing) {
        RestPlaced(ts, pos, items, trailing);
        MoreItems(ts, pos, depth, acc, items, trailing, close);
      } else {
        LastComplete(ts, pos, depth, acc, items, close);
      }
    }
  }

  // Nothing follows the last item but the closing token.
  lemma LastComplete(ts: seq<Token>, pos: nat, depth: nat, acc: seq<Expr>, items: seq<Expr>, close: Token)
    requires items != [] && !CommaAfter(items, false) && (close == RightParen || close == RightBracket)
    requires Peek(ts, pos + |SpelledItems(items, false)|) == close
    ensures |items| == 1 && Peek(ts, pos + |Spelled(items[0])|) != Comma
    ensures Behind(acc, items) == acc + [items[0]] && |SpelledItems(items, false)| == |Spelled(items[0])|
  {
    hide Spelled, SpelledItems, Behind;
    LastPlaced(items, false);
    OneBehind(acc, items);
  }

  lemma {:induction false} MoreItems(ts: seq<Token>, pos: nat, depth: nat, acc: seq<Expr>, items: seq<Expr>,
      trailing: bool, close: Token)
    requires CommaAfter(items, trailing)
    requires At(ts, pos, SpelledItems(items, trailing)) && AllFit(items) && depth + Nesting(items) <= MAX_DEPTH
    requires (close == RightParen || close == RightBracket) && Peek(ts, pos + |SpelledItems(items, trailing)|) == close
    ensures ItemsAt(ts, pos + |Spelled(items[0])| + 1, depth, acc + [items[0]], close) ==
            Items(Behind(acc, items), trailing, pos + |SpelledItems(items, trailing)|, 0)
    decreases items, 3
  {
    hide ItemsAt, At, SpelledItems, AllFit, Nesting, Spelled, Fits, Inner, AfterFirst, Peek;
    var x, rest := items[0], items[1..];
    RestPlaced(ts, pos, items, trailing);
    ItemsParts(items);
    ItemsComplete(ts, RestAt(pos, items), depth, acc + [x], rest, RestTrailing(items, trailing), close);
  }

  lemma ItemsParts(items: seq<Expr>)
    requires items != [] && AllFit(items)
    ensures Fits(items[0], ASSIGNMENT) && AllFit(items[1..])
    ensures Nesting(items) >= Need(items[0]) && Nesting(items) >= Nesting(items[1..])
  {
  }
}
