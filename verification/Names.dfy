/** Spelling of the names the lowering passes invent: decimal numbers, temporaries,
    stack slots and labels, and the facts that keep them apart. */
module Names {

  datatype Option<+T> = None | Some(value: T)

  predicate IsDigit(c: char) {
    '0' <= c <= '9'
  }

  predicate AllDigits(s: string) {
    forall i | 0 <= i < |s| :: IsDigit(s[i])
  }

  function DigitChar(d: nat): char
    requires d < 10
  {
    '0' + d as char
  }

  // Decimal spelling of a natural number, most significant digit first.
  function Decimal(n: nat): string {
    if n < 10 then [DigitChar(n)] else Decimal(n / 10) + [DigitChar(n % 10)]
  }

  function ParseDecimal(s: string): nat
    requires AllDigits(s)
  {
    if s == "" then 0 else 10 * ParseDecimal(s[..|s| - 1]) + (s[|s| - 1] - '0') as nat
  }

  // Integer literals as they appear in operand position.
  predicate IsInteger(s: string) {
    s != "" && (if s[0] == '-' then |s| > 1 && AllDigits(s[1..]) else AllDigits(s))
  }

  function IntText(n: int): string {
    if n < 0 then "-" + Decimal(-n) else Decimal(n)
  }

  function ParseInt(s: string): int
    requires IsInteger(s)
  {
    if s[0] == '-' then 0 - ParseDecimal(s[1..]) else ParseDecimal(s)
  }

  lemma {:induction false} DecimalRoundTrip(n: nat)
    ensures Decimal(n) != "" && AllDigits(Decimal(n)) && ParseDecimal(Decimal(n)) == n
  {
    if n < 10 {
      assert Decimal(n)[..0] == "";
    } else {
      DecimalRoundTrip(n / 10);
      assert Decimal(n)[..|Decimal(n)| - 1] == Decimal(n / 10);
    }
  }

  lemma IntRoundTrip(n: int)
    ensures IsInteger(IntText(n)) && ParseInt(IntText(n)) == n
  {
    DecimalRoundTrip(if n < 0 then -n else n);
    if n < 0 {
      assert IntText(n)[1..] == Decimal(-n);
    }
  }

  // `%t<k>`: the k-th temporary.
  function TmpName(k: nat): string {
    "%t" + Decimal(k)
  }

  // `%<name>.addr`: the stack slot of a source variable.
  function SlotName(name: string): string {
    "%" + name + ".addr"
  }

  // `<fname>_<kind>_<k>`: the k-th label.
  function LabelName(fname: string, kind: string, k: nat): string {
    fname + "_" + kind + "_" + Decimal(k)
  }

  lemma TmpNameInjective(j: nat, k: nat)
    requires TmpName(j) == TmpName(k)
    ensures j == k
  {
    assert TmpName(j)[2..] == Decimal(j) && TmpName(k)[2..] == Decimal(k);
    DecimalRoundTrip(j);
    DecimalRoundTrip(k);
  }

  lemma TmpNameIsNotInteger(k: nat)
    ensures !IsInteger(TmpName(k))
  {
    assert TmpName(k)[0] == '%';
  }

  lemma SlotNameInjective(x: string, y: string)
    requires SlotName(x) == SlotName(y)
    ensures x == y
  {
    assert SlotName(x)[1..|SlotName(x)| - 5] == x;
    assert SlotName(y)[1..|SlotName(y)| - 5] == y;
  }

  // In `head_<k>` the last underscore is the one before the counter.
  lemma LabelTail(head: string, k: nat)
    ensures (head + "_" + Decimal(k))[|head|] == '_'
    ensures forall i | |head| < i < |head| + 1 + |Decimal(k)| :: (head + "_" + Decimal(k))[i] != '_'
    ensures (head + "_" + Decimal(k))[|head| + 1..] == Decimal(k)
  {
    DecimalRoundTrip(k);
    assert forall i | 0 <= i < |Decimal(k)| :: (head + "_" + Decimal(k))[|head| + 1 + i] == Decimal(k)[i];
  }

  /** Two labels of one function are equal only when their counters are: the counter is
      the digit run after the last underscore, whatever the function name or kind is. */
  lemma LabelNameInjective(fname: string, kind1: string, j: nat, kind2: string, k: nat)
    requires LabelName(fname, kind1, j) == LabelName(fname, kind2, k)
    ensures j == k
  {
    var h1, h2 := fname + "_" + kind1, fname + "_" + kind2;
    LabelTail(h1, j);
    LabelTail(h2, k);
    assert |h1| == |h2|;
    DecimalRoundTrip(j);
    DecimalRoundTrip(k);
  }
}
