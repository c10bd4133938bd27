/** Source-map mappings: Base64 VLQ digits, segments relative to the one before, lines
    separated by semicolons; and the decoder the format prescribes, which undoes it. */
module SourceMap {
  import opened Names
  import Finite

  // ----- Base64 digits -----

  // A-Z, a-z, 0-9, + and /.
  function DigitOf(v: nat): (c: char)
    requires v < 64
  {
    if v < 26 then 'A' + v as char
    else if v < 52 then 'a' + (v - 26) as char
    else if v < 62 then '0' + (v - 52) as char
    else if v == 62 then '+'
    else '/'
  }

  function ValueOf(c: char): Option<nat> {
    if 'A' <= c <= 'Z' then Some((c - 'A') as nat)
    else if 'a' <= c <= 'z' then Some((c - 'a') as nat + 26)
    else if '0' <= c <= '9' then Some((c - '0') as nat + 52)
    else if c == '+' then Some(62)
    else if c == '/' then Some(63)
    else None
  }

  lemma DigitRoundTrip(v: nat)
    requires v < 64
    ensures ValueOf(DigitOf(v)) == Some(v) && DigitOf(v) != ';' && DigitOf(v) != ','
  {
  }

  // ----- Variable-length quantities -----

  const HALF := 0x4000_0000
  const TWO31 := 0x8000_0000
  const TWO32 := 0x1_0000_0000

  // A 32-bit register.
  function Wrap32(n: int): int {
    (n + TWO31) % TWO32 - TWO31
  }

  /** The register the digits are taken from: the magnitude shifted left, the sign in the
      lowest bit. */
  function Register(n: int): int {
    if n < 0 then Wrap32(-n * 2) + 1 else Wrap32(n * 2)
  }

  // The digits of a register, lowest five bits first; all but the last carry bit 0x20.
  function Digits(v: nat): string {
    if v < 32 then [DigitOf(v)] else [DigitOf(v % 32 + 32)] + Digits(v / 32)
  }

  // Five bits off the right, the sign kept.
  function Shifted(v: int, k: nat): int
    decreases k
  {
    if k == 0 then v else Shifted(v / 32, k - 1)
  }

  lemma SmallRegister(n: int)
    requires -HALF < n < HALF
    ensures Register(n) == if n < 0 then -n * 2 + 1 else n * 2
  {
  }

  // After some number of rounds nothing is left.
  ghost predicate RunsEmpty(v: int) {
    exists k: nat :: Shifted(v, k) == 0
  }

  // The digit loop for a number comes to its end.
  ghost predicate LoopEnds(n: int) {
    RunsEmpty(Register(n))
  }

  /** Below 2^30 the register runs empty and the loop ends; from 2^30 on its top bit is set,
      shifting never empties it and the loop does not end. */
  lemma {:induction false} LoopEndsExactlyBelowHalf(n: int)
    requires -TWO31 < n < TWO31
    ensures LoopEnds(n) <==> -HALF < n < HALF
  {
    if -HALF < n < HALF {
      SmallRegister(n);
      ShiftsOut(Register(n));
    } else {
      assert Register(n) < 0;
      forall k: nat
        ensures Shifted(Register(n), k) != 0
      {
        StaysNegative(Register(n), k);
      }
    }
  }

  /** At 2^30 the digits never end. */
  lemma HalfNeverEnds()
    ensures !LoopEnds(HALF)
  {
    LoopEndsExactlyBelowHalf(HALF);
  }

  lemma {:induction false} ShiftsOut(v: int)
    requires v >= 0
    ensures RunsEmpty(v)
  {
    if v == 0 {
      assert Shifted(v, 0) == 0;
    } else {
      ShiftsOut(v / 32);
      var k: nat :| Shifted(v / 32, k) == 0;
      assert Shifted(v, k + 1) == 0;
    }
  }

  lemma {:induction false} StaysNegative(v: int, k: nat)
    requires v < 0
    ensures Shifted(v, k) < 0
    decreases k
  {
    if k > 0 {
      StaysNegative(v / 32, k - 1);
    }
  }

  function Vlq(n: int): string
    requires -HALF < n < HALF
  {
    SmallRegister(n);
    Digits(Register(n))
  }

  // ----- Decoding -----

  // The register at the front of s and what follows its last digit.
  function Collected(s: string): (r: Option<(nat, string)>)
    ensures r.Some? ==> |r.value.1| < |s|
  {
    if s == "" then None
    else
      match ValueOf(s[0])
      case None => None
      case Some(d) =>
        if d < 32 then Some((d, s[1..]))
        else
          (match Collected(s[1..])
           case None => None
           case Some((v, rest)) => Some((v * 32 + (d - 32), rest)))
  }

  /** Base64 VLQ decoding as ECMA-426 has it, section "Base64 VLQ"; a lone sign bit stands for
      the least 32-bit integer. */
  function Decoded(s: string): (r: Option<(int, string)>)
    ensures r.Some? ==> |r.value.1| < |s|
  {
    match Collected(s)
    case None => None
    case Some((v, rest)) =>
      if v % 2 == 0 then Some((v / 2, rest))
      else if v == 1 then Some((-TWO31, rest))
      else Some((-(v / 2), rest))
  }

  lemma {:induction false} DigitsCollected(v: nat, rest: string)
    ensures Collected(Digits(v) + rest) == Some((v, rest))
  {
    hide ValueOf, DigitOf;
    if v < 32 {
      DigitRoundTrip(v);
      assert ([DigitOf(v)] + rest)[1..] == rest;
    } else {
      DigitRoundTrip(v % 32 + 32);
      DigitsCollected(v / 32, rest);
      var head := [DigitOf(v % 32 + 32)];
      assert head + Digits(v / 32) + rest == head + (Digits(v / 32) + rest);
      assert (head + (Digits(v / 32) + rest))[1..] == Digits(v / 32) + rest;
    }
  }

  /** Every integer is recovered from its digits, whatever follows them. */
  lemma VlqRoundTrip(n: int, rest: string)
    requires -HALF < n < HALF
    ensures Decoded(Vlq(n) + rest) == Some((n, rest))
  {
    SmallRegister(n);
    DigitsCollected(Register(n), rest);
  }

  lemma {:induction false} FirstDigit(v: nat)
    ensures Digits(v) != "" && Digits(v)[0] != ';' && Digits(v)[0] != ','
  {
    DigitRoundTrip(if v < 32 then v else v % 32 + 32);
  }

  // ----- Mappings -----

  datatype Mapping = Mapping(genLine: nat, genCol: nat, srcLine: nat, srcCol: nat)

  // Positions a signed 32-bit integer holds.
  predicate Fits(m: Mapping) {
    m.genCol < TWO31 && m.srcLine < TWO31 && m.srcCol < TWO31
  }

  // Less than 2^30 away from the position before.
  predicate Near(m: Mapping, genCol: nat, srcLine: nat, srcCol: nat) {
    Fits(m) && -HALF < m.genCol - genCol < HALF && -HALF < m.srcLine - srcLine < HALF
      && -HALF < m.srcCol - srcCol < HALF
  }

  /** Each mapping is near the one before it; the generated column counts anew on each line. */
  predicate Chained(ms: seq<Mapping>, line: nat, genCol: nat, srcLine: nat, srcCol: nat) {
    ms == [] ||
    (ms[0].genLine >= line && Near(ms[0], if ms[0].genLine == line then genCol else 0, srcLine, srcCol)
     && Chained(ms[1..], ms[0].genLine, ms[0].genCol, ms[0].srcLine, ms[0].srcCol))
  }

  // All positions small.
  predicate Small(m: Mapping) {
    m.genCol < HALF && m.srcLine < HALF && m.srcCol < HALF
  }

  lemma {:induction false} SmallIsChained(ms: seq<Mapping>, line: nat, genCol: nat, srcLine: nat, srcCol: nat)
    requires Ordered(ms) && (forall m | m in ms :: Small(m) && m.genLine >= line)
    requires genCol < HALF && srcLine < HALF && srcCol < HALF
    ensures Chained(ms, line, genCol, srcLine, srcCol)
  {
    if ms != [] {
      forall m | m in ms[1..]
        ensures m.genLine >= ms[0].genLine
      {
        var i :| 0 <= i < |ms[1..]| && ms[1..][i] == m;
        assert Before(ms[0], ms[i + 1]);
      }
      SmallIsChained(ms[1..], ms[0].genLine, ms[0].genCol, ms[0].srcLine, ms[0].srcCol);
    }
  }

  predicate Before(a: Mapping, b: Mapping) {
    a.genLine < b.genLine || (a.genLine == b.genLine && a.genCol <= b.genCol)
  }

  predicate Ordered(ms: seq<Mapping>) {
    forall i, j | 0 <= i < j < |ms| :: Before(ms[i], ms[j])
  }

  // Behind everything that is not after it.
  function Inserted(ms: seq<Mapping>, m: Mapping): seq<Mapping> {
    if ms == [] then [m] else if Before(ms[0], m) then [ms[0]] + Inserted(ms[1..], m) else [m] + ms
  }

  // By generated position; equal positions keep their order.
  function Sorted(ms: seq<Mapping>): seq<Mapping> {
    if ms == [] then [] else Inserted(Sorted(ms[..|ms| - 1]), ms[|ms| - 1])
  }

  // The mappings of one generated position, in order.
  function Of(ms: seq<Mapping>, line: nat, col: nat): seq<Mapping> {
    if ms == [] then []
    else (if ms[0].genLine == line && ms[0].genCol == col then [ms[0]] else []) + Of(ms[1..], line, col)
  }

  /** They are the mappings of that position, picked in the order they stand. */
  lemma {:induction false} OfByPosition(ms: seq<Mapping>, line: nat, col: nat) returns (at: seq<nat>)
    ensures Finite.Ascending(at) && forall i: nat :: i in at <==>
      i < |ms| && ms[i].genLine == line && ms[i].genCol == col
    ensures |Of(ms, line, col)| == |at|
    ensures forall k | 0 <= k < |at| :: at[k] < |ms| && Of(ms, line, col)[k] == ms[at[k]]
  {
    if ms == [] {
      at := [];
    } else {
      var rest := OfByPosition(ms[1..], line, col);
      var first := ms[0].genLine == line && ms[0].genCol == col;
      Finite.OneInFront(rest, first);
      Finite.PickedInFront(ms, Of(ms[1..], line, col), rest, first);
      at := Finite.InFront(rest, first);
    }
  }

  lemma OfStep(m: Mapping, ms: seq<Mapping>, line: nat, col: nat)
    ensures Of([m] + ms, line, col) == (if m.genLine == line && m.genCol == col then [m] else []) + Of(ms, line, col)
  {
    assert ([m] + ms)[1..] == ms;
  }

  lemma {:induction false} OfAppend(ms: seq<Mapping>, m: Mapping, line: nat, col: nat)
    ensures Of(ms + [m], line, col) == Of(ms, line, col) + (if m.genLine == line && m.genCol == col then [m] else [])
  {
    if ms == [] {
      assert [] + [m] == [m] + [];
      OfStep(m, [], line, col);
    } else {
      hide Of;
      assert ms + [m] == [ms[0]] + (ms[1..] + [m]) && ms == [ms[0]] + ms[1..];
      OfStep(ms[0], ms[1..] + [m], line, col);
      OfStep(ms[0], ms[1..], line, col);
      OfAppend(ms[1..], m, line, col);
    }
  }

  lemma {:induction false} OfLater(ms: seq<Mapping>, line: nat, col: nat)
    requires forall x | x in ms :: x.genLine > line || (x.genLine == line && x.genCol > col)
    ensures Of(ms, line, col) == []
  {
    if ms != [] {
      OfLater(ms[1..], line, col);
    }
  }

  lemma {:induction false} InsertedOrdered(ms: seq<Mapping>, m: Mapping)
    requires Ordered(ms)
    ensures Ordered(Inserted(ms, m)) && forall x :: x in Inserted(ms, m) <==> x == m || x in ms
  {
    if ms != [] && Before(ms[0], m) {
      var rest := Inserted(ms[1..], m);
      InsertedOrdered(ms[1..], m);
      assert ms == [ms[0]] + ms[1..];
      forall i | 0 <= i < |rest|
        ensures Before(ms[0], rest[i])
      {
        assert rest[i] in rest;
      }
    }
  }

  lemma {:induction false} InsertedCount(ms: seq<Mapping>, m: Mapping)
    ensures multiset(Inserted(ms, m)) == multiset(ms) + multiset{m}
  {
    if ms != [] {
      assert ms == [ms[0]] + ms[1..];
      InsertedCount(ms[1..], m);
    }
  }

  /** Sorting only rearranges, into lines and within a line into columns. */
  lemma {:induction false} SortedRearranges(ms: seq<Mapping>)
    ensures multiset(Sorted(ms)) == multiset(ms)
    ensures var s := Sorted(ms);
      forall i, j | 0 <= i < j < |s| ::
        s[i].genLine < s[j].genLine || (s[i].genLine == s[j].genLine && s[i].genCol <= s[j].genCol)
  {
    if ms != [] {
      var front, last := ms[..|ms| - 1], ms[|ms| - 1];
      assert ms == front + [last];
      SortedRearranges(front);
      InsertedCount(Sorted(front), last);
    }
    SortedIs(ms, 0, 0);
  }

  lemma {:induction false} InsertedIs(ms: seq<Mapping>, m: Mapping, line: nat, col: nat)
    requires Ordered(ms)
    ensures Of(Inserted(ms, m), line, col) == Of(ms, line, col)
      + (if m.genLine == line && m.genCol == col then [m] else [])
  {
    hide Of;
    if ms == [] {
      OfStep(m, [], line, col);
      OfNothing(line, col);
      assert [m] + [] == [m];
    } else if Before(ms[0], m) {
      var x, rest := ms[0], ms[1..];
      assert Inserted(ms, m) == [x] + Inserted(rest, m);
      OrderedTail(ms);
      hide Inserted, Ordered, Before;
      assert ms == [x] + rest;
      InsertedIs(rest, m, line, col);
      OfStep(x, rest, line, col);
      OfStep(x, Inserted(rest, m), line, col);
    } else {
      OfStep(m, ms, line, col);
      if m.genLine == line && m.genCol == col {
        AllAfter(ms, m);
        OfLater(ms, line, col);
      }
    }
  }

  lemma OfNothing(line: nat, col: nat)
    ensures Of([], line, col) == []
  {
  }

  lemma OrderedTail(ms: seq<Mapping>)
    requires ms != [] && Ordered(ms)
    ensures Ordered(ms[1..])
  {
  }

  lemma AllAfter(ms: seq<Mapping>, m: Mapping)
    requires ms != [] && Ordered(ms) && !Before(ms[0], m)
    ensures forall x | x in ms :: x.genLine > m.genLine || (x.genLine == m.genLine && x.genCol > m.genCol)
  {
    forall i | 0 <= i < |ms|
      ensures i == 0 || Before(ms[0], ms[i])
    {
    }
  }

  /** The sorted mappings are in generated-position order, and at each position they are the
      mappings added there, in the order they were added. */
  lemma {:induction false} SortedIs(ms: seq<Mapping>, line: nat, col: nat)
    ensures Ordered(Sorted(ms)) && forall x :: x in Sorted(ms) <==> x in ms
    ensures Of(Sorted(ms), line, col) == Of(ms, line, col)
  {
    if ms != [] {
      var front, last := ms[..|ms| - 1], ms[|ms| - 1];
      SortedIs(front, line, col);
      InsertedIs(Sorted(front), last, line, col);
      InsertedOrdered(Sorted(front), last);
      assert ms == front + [last];
      OfAppend(front, last, line, col);
    }
  }

  /** All digit loops the encoder runs over these mappings, four for each, come to their end. */
  ghost predicate EncoderEnds(ms: seq<Mapping>, line: nat, genCol: nat, srcLine: nat, srcCol: nat) {
    ms == [] ||
    (var m := ms[0];
     && LoopEnds(m.genCol - if m.genLine == line then genCol else 0) && LoopEnds(0)
     && LoopEnds(m.srcLine - srcLine) && LoopEnds(m.srcCol - srcCol)
     && EncoderEnds(ms[1..], m.genLine, m.genCol, m.srcLine, m.srcCol))
  }

  lemma {:induction false} EndsWhenChained(ms: seq<Mapping>, line: nat, genCol: nat, srcLine: nat, srcCol: nat)
    requires Ordered(ms) && (forall m | m in ms :: Fits(m) && m.genLine >= line)
    requires genCol < TWO31 && srcLine < TWO31 && srcCol < TWO31
    ensures EncoderEnds(ms, line, genCol, srcLine, srcCol) <==> Chained(ms, line, genCol, srcLine, srcCol)
  {
    if ms != [] {
      var m := ms[0];
      assert m in ms;
      forall x | x in ms[1..]
        ensures x.genLine >= m.genLine
      {
        var i :| 0 <= i < |ms[1..]| && ms[1..][i] == x;
        assert Before(ms[0], ms[i + 1]);
      }
      EndsWhenChained(ms[1..], m.genLine, m.genCol, m.srcLine, m.srcCol);
      hide LoopEnds, Ordered;
      var from := if m.genLine == line then genCol else 0;
      LoopEndsExactlyBelowHalf(m.genCol - from);
      LoopEndsExactlyBelowHalf(0);
      LoopEndsExactlyBelowHalf(m.srcLine - srcLine);
      LoopEndsExactlyBelowHalf(m.srcCol - srcCol);
    }
  }

  /** Encoding mappings with positions below 2^31 ends if and only if, in generated order, each
      is less than 2^30 away from the one before. */
  lemma EncodingEndsExactlyWhenChained(mappings: seq<Mapping>)
    requires forall m | m in mappings :: Fits(m)
    ensures EncoderEnds(Sorted(mappings), 0, 0, 0, 0) <==> Chained(Sorted(mappings), 0, 0, 0, 0)
  {
    hide Sorted, Ordered, Chained, EncoderEnds;
    SortedIs(mappings, 0, 0);
    EndsWhenChained(Sorted(mappings), 0, 0, 0, 0);
  }

  function Segment(m: Mapping, genCol: nat, srcLine: nat, srcCol: nat): string
    requires Near(m, genCol, srcLine, srcCol)
  {
    Vlq(m.genCol - genCol) + (Vlq(0) + (Vlq(m.srcLine - srcLine) + Vlq(m.srcCol - srcCol)))
  }

  /** The text of ordered mappings, after those that left the cursor on this line with these
      positions; `first` when the line has no segment yet. */
  function Encoded(ms: seq<Mapping>, line: nat, genCol: nat, srcLine: nat, srcCol: nat, first: bool): string
    requires Chained(ms, line, genCol, srcLine, srcCol)
    decreases |ms|, if ms == [] then 0 else ms[0].genLine - line
  {
    if ms == [] then ""
    else if ms[0].genLine > line then
      ";" + Encoded(ms, line + 1, 0, srcLine, srcCol, true)
    else
      (if first then "" else ",") + (Segment(ms[0], genCol, srcLine, srcCol)
        + Encoded(ms[1..], line, ms[0].genCol, ms[0].srcLine, ms[0].srcCol, false))
  }

  lemma OneDigit(n: int)
    requires -16 < n < 16
    ensures Vlq(n) == [DigitOf(if n < 0 then -n * 2 + 1 else n * 2)]
  {
    hide DigitOf;
    SmallRegister(n);
  }

  lemma TwoDigits(n: int)
    requires 16 <= n < 512
    ensures Vlq(n) == [DigitOf(n * 2 % 32 + 32), DigitOf(n * 2 / 32)]
  {
    hide DigitOf;
    SmallRegister(n);
    assert Digits(n * 2 / 32) == [DigitOf(n * 2 / 32)];
  }

  lemma DigitsSpelled()
    ensures Vlq(0) == "A" && Vlq(1) == "C" && Vlq(-1) == "D" && Vlq(16) == "gB" && Vlq(5) == "K"
  {
    hide Vlq;
    OneDigit(0);
    OneDigit(1);
    OneDigit(-1);
    OneDigit(5);
    TwoDigits(16);
  }

  lemma SegmentsSpelled()
    ensures Segment(Mapping(0, 0, 0, 0), 0, 0, 0) == "AAAA" && Segment(Mapping(0, 16, 1, 1), 0, 0, 0) == "gBACC"
    ensures Segment(Mapping(1, 5, 1, 0), 0, 1, 1) == "KAAD"
  {
    hide Vlq;
    DigitsSpelled();
  }

  // One segment and what follows it on the line.
  lemma EncodedStep(m: Mapping, rest: seq<Mapping>, genCol: nat, srcLine: nat, srcCol: nat, first: bool)
    requires Chained([m] + rest, m.genLine, genCol, srcLine, srcCol)
    ensures Near(m, genCol, srcLine, srcCol) && Chained(rest, m.genLine, m.genCol, m.srcLine, m.srcCol)
    ensures Encoded([m] + rest, m.genLine, genCol, srcLine, srcCol, first) == (if first then "" else ",")
      + (Segment(m, genCol, srcLine, srcCol) + Encoded(rest, m.genLine, m.genCol, m.srcLine, m.srcCol, false))
  {
    hide Segment, Near;
    assert ([m] + rest)[1..] == rest;
  }

  // Three mappings, on two lines.
  function ThreeMappings(): seq<Mapping> {
    [Mapping(0, 0, 0, 0), Mapping(0, 16, 1, 1), Mapping(1, 5, 1, 0)]
  }

  lemma ThreeAreChained()
    ensures Chained(ThreeMappings(), 0, 0, 0, 0)
  {
    var ms := ThreeMappings();
    assert ms[1..][1..][1..] == [];
    assert Chained(ms[1..][1..], 0, 16, 1, 1);
    assert Chained(ms[1..], 0, 0, 0, 0);
  }

  lemma LastSpelled()
    ensures var c := Mapping(1, 5, 1, 0);
      Chained([c], 0, 16, 1, 1) && Encoded([c], 0, 16, 1, 1, false) == ";KAAD"
  {
    hide Vlq, Segment;
    SegmentsSpelled();
    var c := Mapping(1, 5, 1, 0);
    assert [c] + [] == [c];
    assert Chained([c], 1, 0, 1, 1);
    EncodedStep(c, [], 0, 1, 1, true);
    assert Encoded([c], 1, 0, 1, 1, true) == "KAAD";
  }

  /** The digits of the repository's own tests; and three mappings on two lines, each segment relative
      to the one before and the column anew on each line. */
  lemma MappingsSpelled()
    ensures Vlq(0) == "A" && Vlq(1) == "C" && Vlq(16) == "gB" && Vlq(-1) == "D"
    ensures Chained(ThreeMappings(), 0, 0, 0, 0) && Encoded(ThreeMappings(), 0, 0, 0, 0, true) == "AAAA,gBACC;KAAD"
  {
    hide Vlq, Segment, Near, Chained, Encoded;
    DigitsSpelled();
    SegmentsSpelled();
    ThreeAreChained();
    LastSpelled();
    var a, b, c := Mapping(0, 0, 0, 0), Mapping(0, 16, 1, 1), Mapping(1, 5, 1, 0);
    assert [a] + [b, c] == ThreeMappings() && [b] + [c] == [b, c];
    EncodedStep(a, [b, c], 0, 0, 0, true);
    EncodedStep(b, [c], 0, 0, 0, false);
  }

  /** Reading mappings back: positions are sums of what was read, the generated column anew on
      each line. None for anything malformed. */
  function DecodedMappings(s: string, line: nat, genCol: int, source: int, srcLine: int,
      srcCol: int): Option<seq<Mapping>>
    decreases |s|
  {
    if s == "" then Some([])
    else if s[0] == ';' then DecodedMappings(s[1..], line + 1, 0, source, srcLine, srcCol)
    else if s[0] == ',' then DecodedMappings(s[1..], line, genCol, source, srcLine, srcCol)
    else
      match Decoded(s)
      case None => None
      case Some((a, s1)) =>
        (match Decoded(s1)
         case None => None
         case Some((b, s2)) =>
           (match Decoded(s2)
            case None => None
            case Some((c, s3)) =>
              (match Decoded(s3)
               case None => None
               case Some((d, s4)) =>
                 if s4 != "" && s4[0] != ',' && s4[0] != ';' then None
                 else if genCol + a < 0 || source + b != 0 || srcLine + c < 0 || srcCol + d < 0 then None
                 else
                   (match DecodedMappings(s4, line, genCol + a, source + b, srcLine + c, srcCol + d)
                    case None => None
                    case Some(ms) => Some([Mapping(line, genCol + a, srcLine + c, srcCol + d)] + ms)))))
  }

  lemma SegmentDecoded(m: Mapping, genCol: nat, srcLine: nat, srcCol: nat, rest: string)
    requires Near(m, genCol, srcLine, srcCol)
    ensures var s := Segment(m, genCol, srcLine, srcCol) + rest;
      s != "" && s[0] != ';' && s[0] != ','
      && Decoded(s).Some? && Decoded(s).value.0 == m.genCol - genCol
      && Decoded(Decoded(s).value.1).Some? && Decoded(Decoded(s).value.1).value.0 == 0
      && Decoded(Decoded(Decoded(s).value.1).value.1).Some?
        && Decoded(Decoded(Decoded(s).value.1).value.1).value.0 == m.srcLine - srcLine
      && Decoded(Decoded(Decoded(Decoded(s).value.1).value.1).value.1) == Some((m.srcCol - srcCol, rest))
  {
    hide Decoded, Register, Digits;
    var a, b, c, d := Vlq(m.genCol - genCol), Vlq(0), Vlq(m.srcLine - srcLine), Vlq(m.srcCol - srcCol);
    var s := Segment(m, genCol, srcLine, srcCol) + rest;
    assert s == a + (b + (c + (d + rest)));
    VlqRoundTrip(m.genCol - genCol, b + (c + (d + rest)));
    VlqRoundTrip(0, c + (d + rest));
    VlqRoundTrip(m.srcLine - srcLine, d + rest);
    VlqRoundTrip(m.srcCol - srcCol, rest);
    FirstDigit(Register(m.genCol - genCol)) by { SmallRegister(m.genCol - genCol); }
  }

  lemma {:induction false} NextIsSeparator(ms: seq<Mapping>, line: nat, genCol: nat, srcLine: nat, srcCol: nat)
    requires Chained(ms, line, genCol, srcLine, srcCol)
    ensures var s := Encoded(ms, line, genCol, srcLine, srcCol, false); s == "" || s[0] == ',' || s[0] == ';'
  {
    hide Segment;
  }

  /** Decoding the text of ordered mappings yields them, with absolute positions. */
  lemma {:induction false} EncodedDecodes(ms: seq<Mapping>, line: nat, genCol: nat, srcLine: nat, srcCol: nat,
      first: bool)
    requires Chained(ms, line, genCol, srcLine, srcCol)
    ensures DecodedMappings(Encoded(ms, line, genCol, srcLine, srcCol, first), line, genCol, 0, srcLine, srcCol)
      == Some(ms)
    decreases |ms|, if ms == [] then 0 else ms[0].genLine - line
  {
    hide Decoded, Segment;
    if ms != [] {
      var m := ms[0];
      if m.genLine > line {
        EncodedDecodes(ms, line + 1, 0, srcLine, srcCol, true);
        var s := Encoded(ms, line + 1, 0, srcLine, srcCol, true);
        assert (";" + s)[1..] == s;
      } else {
        var rest := Encoded(ms[1..], line, m.genCol, m.srcLine, m.srcCol, false);
        EncodedDecodes(ms[1..], line, m.genCol, m.srcLine, m.srcCol, false);
        NextIsSeparator(ms[1..], line, m.genCol, m.srcLine, m.srcCol);
        var s := Segment(m, genCol, srcLine, srcCol) + rest;
        SegmentDecoded(m, genCol, srcLine, srcCol, rest);
        OneSegment(m, line, genCol, srcLine, srcCol, rest, ms[1..]);
        assert [m] + ms[1..] == ms;
        if first {
          assert "" + s == s;
        } else {
          assert ("," + s)[1..] == s;
        }
      }
    }
  }

  lemma OneSegment(m: Mapping, line: nat, genCol: nat, srcLine: nat, srcCol: nat, rest: string, ms: seq<Mapping>)
    requires Near(m, genCol, srcLine, srcCol) && m.genLine == line
    requires rest == "" || rest[0] == ',' || rest[0] == ';'
    requires DecodedMappings(rest, line, m.genCol, 0, m.srcLine, m.srcCol) == Some(ms)
    ensures DecodedMappings(Segment(m, genCol, srcLine, srcCol) + rest, line, genCol, 0, srcLine, srcCol)
      == Some([m] + ms)
  {
    hide Decoded, Segment;
    SegmentDecoded(m, genCol, srcLine, srcCol, rest);
  }

  // ----- The builder -----

  method EncodeVlq(n: int) returns (out: string)
    requires -HALF < n < HALF
    ensures out == Vlq(n)
  {
    SmallRegister(n);
    var v: int := if n < 0 then Wrap32(-n * 2) + 1 else Wrap32(n * 2);
    out := "";
    while true
      invariant v >= 0 && out + Digits(v) == Vlq(n)
      decreases v
    {
      var digit := v % 32;
      ghost var before := v;
      v := v / 32;
      if v > 0 {
        digit := digit + 32;
      }
      assert out + Digits(before) == out + [DigitOf(digit)] + if v == 0 then "" else Digits(v);
      out := out + [DigitOf(digit)];
      if v == 0 {
        break;
      }
    }
  }

  // The segments of one line, behind what is written already.
  method EncodeLine(sorted: seq<Mapping>, start: nat, line: nat, srcLine: nat, srcCol: nat, written: string,
      ghost whole: string)
    returns (result: string, idx: nat, prevSrcLine: nat, prevSrcCol: nat)
    requires start <= |sorted| && Ordered(sorted) && Chained(sorted[start..], line, 0, srcLine, srcCol)
    requires whole == written + Encoded(sorted[start..], line, 0, srcLine, srcCol, true)
    ensures start <= idx <= |sorted| && Chained(sorted[idx..], line + 1, 0, prevSrcLine, prevSrcCol)
    ensures idx == |sorted| ==> result == whole
    ensures idx > start ==> sorted[idx - 1].genLine == line
    ensures idx < |sorted| ==>
      whole == result + Left(sorted, idx, line + 1, prevSrcLine, prevSrcCol) && sorted[|sorted| - 1].genLine > line
  {
    hide Encoded, Segment, Vlq, Ordered, Left, Chained;
    result, idx, prevSrcLine, prevSrcCol := written, start, srcLine, srcCol;
    var prevGenCol: nat, first := 0, true;
    while idx < |sorted| && sorted[idx].genLine == line
      invariant start <= idx <= |sorted| && Chained(sorted[idx..], line, prevGenCol, prevSrcLine, prevSrcCol)
      invariant whole == result + Encoded(sorted[idx..], line, prevGenCol, prevSrcLine, prevSrcCol, first)
      invariant idx > start ==> sorted[idx - 1].genLine == line
      decreases |sorted| - idx
    {
      var m := sorted[idx];
      NextSegment(sorted, idx, line, prevGenCol, prevSrcLine, prevSrcCol, first);
      ghost var before := result;
      if !first {
        result := result + ",";
      }
      first := false;
      var a := EncodeVlq(Wrap32(m.genCol) - prevGenCol);
      var b := EncodeVlq(0);
      var c := EncodeVlq(Wrap32(m.srcLine) - prevSrcLine);
      var d := EncodeVlq(Wrap32(m.srcCol) - prevSrcCol);
      ghost var rest := Encoded(sorted[idx + 1..], line, m.genCol, m.srcLine, m.srcCol, false);
      Joined(result, a, b, c, d, rest, m, prevGenCol, prevSrcLine, prevSrcCol);
      Comma(before, result, Segment(m, prevGenCol, prevSrcLine, prevSrcCol) + rest);
      result := result + a;
      result := result + b;
      result := result + c;
      result := result + d;
      prevGenCol := Wrap32(m.genCol);
      prevSrcLine := Wrap32(m.srcLine);
      prevSrcCol := Wrap32(m.srcCol);
      idx := idx + 1;
    }
    LineDone(sorted, idx, line, prevGenCol, prevSrcLine, prevSrcCol, first);
  }

  class SourceMapBuilder {
    var mappings: seq<Mapping>

    constructor ()
      ensures mappings == []
    {
      mappings := [];
    }

    method Add(genLine: nat, genCol: nat, srcLine: nat, srcCol: nat)
      modifies this
      ensures mappings == old(mappings) + [Mapping(genLine, genCol, srcLine, srcCol)]
    {
      mappings := mappings + [Mapping(genLine, genCol, srcLine, srcCol)];
    }

    /** The mappings text: a decoder gets back every mapping added, in generated order. */
    method EncodeMappings() returns (result: string)
      requires Chained(Sorted(mappings), 0, 0, 0, 0)
      ensures DecodedMappings(result, 0, 0, 0, 0, 0) == Some(Sorted(mappings))
    {
      hide Encoded, DecodedMappings, Segment, Vlq, Left, Sorted, Of, Ordered, Chained;
      SortedIs(mappings, 0, 0);
      if mappings == [] {
        NothingEncoded();
        return "";
      }
      var sorted := Sorted(mappings);
      assert mappings[0] in sorted;
      var maxLine := sorted[|sorted| - 1].genLine;
      result := "";
      var prevSrcLine: nat, prevSrcCol: nat, idx: nat := 0, 0, 0;
      assert sorted[0..] == sorted;
      ghost var whole := Encoded(sorted, 0, 0, 0, 0, true);
      NewLine(sorted, 0, 0, 0, 0, result);
      for genLine := 0 to maxLine + 1
        invariant idx <= |sorted| && Chained(sorted[idx..], genLine, 0, prevSrcLine, prevSrcCol)
        invariant genLine <= maxLine ==>
          idx < |sorted| && whole == result + Left(sorted, idx, genLine, prevSrcLine, prevSrcCol)
        invariant genLine == maxLine + 1 ==> idx == |sorted| && result == whole
      {
        NewLine(sorted, idx, genLine, prevSrcLine, prevSrcCol, result);
        if genLine > 0 {
          result := result + ";";
        }
        result, idx, prevSrcLine,
          prevSrcCol := EncodeLine(sorted, idx, genLine, prevSrcLine, prevSrcCol, result, whole);
      }
      EncodedDecodes(sorted, 0, 0, 0, 0, true);
    }
  }

  // What remains when a line is about to start: its semicolon is still to come, except on the first.
  function Left(sorted: seq<Mapping>, idx: nat, line: nat, srcLine: nat, srcCol: nat): string
    requires idx <= |sorted| && Chained(sorted[idx..], line, 0, srcLine, srcCol)
  {
    (if line > 0 then ";" else "") + Encoded(sorted[idx..], line, 0, srcLine, srcCol, true)
  }

  lemma NothingEncoded()
    ensures DecodedMappings("", 0, 0, 0, 0, 0) == Some([]) && Sorted([]) == []
  {
  }

  lemma NewLine(sorted: seq<Mapping>, idx: nat, line: nat, srcLine: nat, srcCol: nat, written: string)
    requires idx <= |sorted| && Chained(sorted[idx..], line, 0, srcLine, srcCol)
    ensures written + Left(sorted, idx, line, srcLine, srcCol) ==
            (if line > 0 then written + ";" else written) + Encoded(sorted[idx..], line, 0, srcLine, srcCol, true)
  {
    hide Encoded;
  }

  lemma NextSegment(sorted: seq<Mapping>, idx: nat, line: nat, genCol: nat, srcLine: nat, srcCol: nat, first: bool)
    requires idx < |sorted| && Chained(sorted[idx..], line, genCol, srcLine, srcCol) && sorted[idx].genLine == line
    ensures var m := sorted[idx];
      Near(m, genCol, srcLine, srcCol) && Chained(sorted[idx + 1..], line, m.genCol, m.srcLine, m.srcCol)
      && Wrap32(m.genCol) == m.genCol && Wrap32(m.srcLine) == m.srcLine && Wrap32(m.srcCol) == m.srcCol
    ensures var m := sorted[idx];
      Encoded(sorted[idx..], line, genCol, srcLine, srcCol, first) ==
      (if first then "" else ",")
        + (Segment(m, genCol, srcLine, srcCol) + Encoded(sorted[idx + 1..], line, m.genCol, m.srcLine, m.srcCol, false))
  {
    hide Segment;
    assert sorted[idx..][0] == sorted[idx] && sorted[idx..][1..] == sorted[idx + 1..];
  }

  lemma Joined(s: string, a: string, b: string, c: string, d: string, rest: string, m: Mapping, genCol: nat,
      srcLine: nat, srcCol: nat)
    requires Near(m, genCol, srcLine, srcCol)
    requires a == Vlq(m.genCol - genCol) && b == Vlq(0) && c == Vlq(m.srcLine - srcLine) && d == Vlq(m.srcCol - srcCol)
    ensures s + (Segment(m, genCol, srcLine, srcCol) + rest) == s + a + b + c + d + rest
  {
    hide Vlq;
  }

  lemma Comma(start: string, s: string, tail: string)
    ensures s == start ==> start + ("" + tail) == s + tail
    ensures s == start + "," ==> start + ("," + tail) == s + tail
  {
  }

  lemma LineDone(sorted: seq<Mapping>, idx: nat, line: nat, genCol: nat, srcLine: nat, srcCol: nat, first: bool)
    requires Ordered(sorted) && idx <= |sorted| && Chained(sorted[idx..], line, genCol, srcLine, srcCol)
    requires idx < |sorted| ==> sorted[idx].genLine != line
    ensures Chained(sorted[idx..], line + 1, 0, srcLine, srcCol)
    ensures idx == |sorted| ==> Encoded(sorted[idx..], line, genCol, srcLine, srcCol, first) == ""
    ensures idx < |sorted| ==>
      Encoded(sorted[idx..], line, genCol, srcLine, srcCol, first) == Left(sorted, idx, line + 1, srcLine, srcCol)
    ensures idx < |sorted| ==> sorted[|sorted| - 1].genLine > line
  {
    if idx < |sorted| {
      assert sorted[idx..][0] == sorted[idx];
      assert idx < |sorted| - 1 ==> Before(sorted[idx], sorted[|sorted| - 1]);
    }
  }
}
