/** Well-formed text is what encoding Unicode scalar values gives (RFC 3629, section 3). */
module Utf8 {
  import opened Codec

  predicate Scalar(c: nat) {
    c < 0xD800 || 0xE000 <= c < 0x11_0000
  }

  // The octets of one scalar value.
  function Octets(c: nat): (s: seq<byte>)
    requires Scalar(c)
    ensures s != []
  {
    if c < 0x80 then [c]
    else if c < 0x800 then [0xC0 + c / 0x40, 0x80 + c % 0x40]
    else if c < 0x1_0000 then [0xE0 + c / 0x1000, 0x80 + c / 0x40 % 0x40, 0x80 + c % 0x40]
    else [0xF0 + c / 0x4_0000, 0x80 + c / 0x1000 % 0x40, 0x80 + c / 0x40 % 0x40, 0x80 + c % 0x40]
  }

  predicate AllScalar(cs: seq<nat>) {
    forall c | c in cs :: Scalar(c)
  }

  function TextOf(cs: seq<nat>): seq<byte>
    requires AllScalar(cs)
  {
    if cs == [] then [] else Octets(cs[0]) + TextOf(cs[1..])
  }

  // The scalar value at the front of well-formed text.
  function First(s: seq<byte>): int
    requires CharLength(s) > 0
  {
    var b := (i: nat) => if i < |s| then s[i] as int else 0;
    if b(0) < 0x80 then b(0)
    else if b(0) < 0xE0 then (b(0) - 0xC0) * 0x40 + (b(1) - 0x80)
    else if b(0) < 0xF0 then (b(0) - 0xE0) * 0x1000 + (b(1) - 0x80) * 0x40 + (b(2) - 0x80)
    else (b(0) - 0xF0) * 0x4_0000 + (b(1) - 0x80) * 0x1000 + (b(2) - 0x80) * 0x40 + (b(3) - 0x80)
  }

  lemma TwoDigits(x: nat, y: nat)
    requires y < 0x40
    ensures (x * 0x40 + y) / 0x40 == x && (x * 0x40 + y) % 0x40 == y
  {
  }

  lemma ThreeDigits(w: nat, x: nat, y: nat)
    requires x < 0x40 && y < 0x40
    ensures var c := w * 0x1000 + x * 0x40 + y; c / 0x1000 == w && c / 0x40 % 0x40 == x && c % 0x40 == y
  {
    TwoDigits(w * 0x40 + x, y);
    TwoDigits(w, x);
  }

  lemma FourDigits(v: nat, w: nat, x: nat, y: nat)
    requires w < 0x40 && x < 0x40 && y < 0x40
    ensures var c := v * 0x4_0000 + w * 0x1000 + x * 0x40 + y;
      c / 0x4_0000 == v && c / 0x1000 % 0x40 == w && c / 0x40 % 0x40 == x && c % 0x40 == y
  {
    ThreeDigits(v * 0x40 + w, x, y);
    TwoDigits(v, w);
  }

  lemma FirstOfTwo(s: seq<byte>)
    requires CharLength(s) > 0 && 0xC2 <= s[0] < 0xE0
    ensures First(s) >= 0 && Scalar(First(s)) && Octets(First(s)) == s[..CharLength(s)]
  {
    TwoDigits(s[0] - 0xC0, s[1] - 0x80);
  }

  lemma FirstOfThree(s: seq<byte>)
    requires CharLength(s) > 0 && 0xE0 <= s[0] < 0xF0
    ensures First(s) >= 0 && Scalar(First(s)) && Octets(First(s)) == s[..CharLength(s)]
  {
    ThreeDigits(s[0] - 0xE0, s[1] - 0x80, s[2] - 0x80);
  }

  lemma FirstOfFour(s: seq<byte>)
    requires CharLength(s) > 0 && 0xF0 <= s[0]
    ensures First(s) >= 0 && Scalar(First(s)) && Octets(First(s)) == s[..CharLength(s)]
  {
    FourDigits(s[0] - 0xF0, s[1] - 0x80, s[2] - 0x80, s[3] - 0x80);
  }

  lemma FirstIs(s: seq<byte>)
    requires CharLength(s) > 0
    ensures First(s) >= 0 && Scalar(First(s)) && Octets(First(s)) == s[..CharLength(s)]
  {
    if s[0] < 0x80 {
      assert First(s) == s[0];
    } else if s[0] < 0xE0 {
      FirstOfTwo(s);
    } else if s[0] < 0xF0 {
      FirstOfThree(s);
    } else {
      FirstOfFour(s);
    }
  }

  lemma OctetsFound(c: nat, rest: seq<byte>)
    requires Scalar(c)
    ensures CharLength(Octets(c) + rest) == |Octets(c)|
  {
  }

  /** Text is well formed exactly when it is the octets of some scalar values, one after another. */
  lemma {:induction false} WellFormedExactly(s: seq<byte>)
    ensures IsUtf8(s) <==> exists cs :: AllScalar(cs) && TextOf(cs) == s
    decreases |s|
  {
    if IsUtf8(s) {
      var _ := Scalars(s);
    }
    if cs :| AllScalar(cs) && TextOf(cs) == s {
      TextIsWellFormed(cs);
    }
  }

  lemma OneMoreScalar(c: nat, cs: seq<nat>)
    requires Scalar(c) && AllScalar(cs)
    ensures AllScalar([c] + cs) && TextOf([c] + cs) == Octets(c) + TextOf(cs)
  {
    hide Octets;
    assert ([c] + cs)[1..] == cs;
  }

  lemma {:induction false} Scalars(s: seq<byte>) returns (cs: seq<nat>)
    requires IsUtf8(s)
    ensures AllScalar(cs) && TextOf(cs) == s
    decreases |s|
  {
    hide First, Octets, CharLength, Scalar;
    cs := [];
    if s != [] {
      var n := CharLength(s);
      cs := Scalars(s[n..]);
      FirstIs(s);
      hide IsUtf8, AllScalar, TextOf;
      OneMoreScalar(First(s), cs);
      cs := [First(s)] + cs;
      assert s == s[..n] + s[n..];
    }
  }

  lemma {:induction false} TextIsWellFormed(cs: seq<nat>)
    requires AllScalar(cs)
    ensures IsUtf8(TextOf(cs))
  {
    if cs != [] {
      TextIsWellFormed(cs[1..]);
      OctetsFound(cs[0], TextOf(cs[1..]));
      hide Octets, CharLength;
      var s := TextOf(cs);
      assert s[|Octets(cs[0])|..] == TextOf(cs[1..]);
    }
  }
}
