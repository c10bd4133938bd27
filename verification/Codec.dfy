/** The binary form of run-time values: a tag, then lengths and contents, little-endian. */
module Codec {
  type byte = b: nat | b < 256

  // ----- Values -----

  /** Text is held as its UTF-8 bytes, a float as its 64 bits. A map's entries stand in the
      order its table is walked. Other is any value the format has no tag for. */
  datatype Value =
    | Int(n: int)
    | Float(bits: nat)
    | Str(text: seq<byte>)
    | Bool(b: bool)
    | Some(inner: Value)
    | Nothing
    | Array(items: seq<Value>)
    | Map(entries: seq<Entry>)
    | Set(items: seq<Value>)
    | Buffer(bytes: seq<byte>)
    | Struct(name: seq<byte>, entries: seq<Entry>)
    | Enum(name: seq<byte>, variant: seq<byte>, values: seq<Value>)
    | Tuple(items: seq<Value>)
    | Other

  datatype Entry = Entry(key: seq<byte>, value: Value)

  // ----- Well-formed text -----

  function Continuation(s: seq<byte>, i: nat): bool {
    i < |s| && 0x80 <= s[i] < 0xC0
  }

  // The length of the UTF-8 sequence s starts with (Unicode Standard, table 3-7), or 0.
  function CharLength(s: seq<byte>): (n: nat)
    ensures n <= |s|
  {
    if s == [] then 0
    else if s[0] < 0x80 then 1
    else if 0xC2 <= s[0] < 0xE0 && Continuation(s, 1) then 2
    else if 0xE0 <= s[0] < 0xF0 && Continuation(s, 1) && Continuation(s, 2)
            && (s[0] == 0xE0 ==> s[1] >= 0xA0) && (s[0] == 0xED ==> s[1] < 0xA0) then 3
    else if 0xF0 <= s[0] < 0xF5 && Continuation(s, 1) && Continuation(s, 2) && Continuation(s, 3)
            && (s[0] == 0xF0 ==> s[1] >= 0x90) && (s[0] == 0xF4 ==> s[1] < 0x90) then 4
    else 0
  }

  predicate IsUtf8(s: seq<byte>)
    decreases |s|
  {
    s == [] || (CharLength(s) > 0 && IsUtf8(s[CharLength(s)..]))
  }

  // ----- Numbers -----

  const WORD: nat := 0x1_0000_0000
  const LONG: nat := 0x1_0000_0000_0000_0000

  function Le(n: nat, k: nat): (s: seq<byte>)
    ensures |s| == k
  {
    if k == 0 then [] else [n % 256] + Le(n / 256, k - 1)
  }

  function FromLe(s: seq<byte>): nat {
    if s == [] then 0 else s[0] + 256 * FromLe(s[1..])
  }

  function Pow(k: nat): (p: nat)
    ensures p >= 1
  {
    if k == 0 then 1 else 256 * Pow(k - 1)
  }

  lemma {:induction false} LeRoundTrip(n: nat, k: nat)
    requires n < Pow(k)
    ensures FromLe(Le(n, k)) == n
  {
    if k > 0 {
      LeRoundTrip(n / 256, k - 1);
      assert Le(n, k)[1..] == Le(n / 256, k - 1);
    }
  }

  lemma {:induction false} FromLeBound(s: seq<byte>)
    ensures FromLe(s) < Pow(|s|)
  {
    if s != [] {
      FromLeBound(s[1..]);
    }
  }

  lemma WordPow()
    ensures Pow(4) == WORD && Pow(8) == LONG
  {
    assert Pow(2) == 65536;
    assert Pow(4) == WORD;
    assert Pow(6) == WORD * 65536;
  }

  // A count written as u32: only its low 32 bits.
  function Count(n: nat): seq<byte> {
    Le(n % WORD, 4)
  }

  function Unsigned(n: int): nat {
    n % LONG
  }

  function Signed(n: nat): int {
    if n < LONG / 2 then n else n - LONG
  }

  // ----- Encoding -----

  function Counted(s: seq<byte>): seq<byte> {
    Count(|s|) + s
  }

  function Encoded(v: Value): seq<byte>
    decreases v, 1
  {
    match v
    case Int(n) => [1] + Le(Unsigned(n), 8)
    case Float(bits) => [2] + Le(bits, 8)
    case Str(s) => [3] + Counted(s)
    case Bool(b) => [4, if b then 1 else 0]
    case Some(inner) => [5] + Encoded(inner)
    case Nothing => [6]
    case Array(items) => [7] + (Count(|items|) + EncodedAll(items))
    case Map(entries) => [8] + (Count(|entries|) + EncodedEntries(entries))
    case Set(items) => [9] + (Count(|items|) + EncodedAll(items))
    case Buffer(bytes) => [10] + Counted(bytes)
    case Struct(name, entries) => [11] + (Counted(name) + (Count(|entries|) + EncodedEntries(entries)))
    case Enum(name, variant, values) =>
      [12] + (Counted(name) + (Counted(variant) + (Count(|values|) + EncodedAll(values))))
    case Tuple(items) => [13] + (Count(|items|) + EncodedAll(items))
    case Other => []
  }

  function EncodedAll(vs: seq<Value>): seq<byte>
    decreases vs, 0
  {
    if vs == [] then [] else Encoded(vs[0]) + EncodedAll(vs[1..])
  }

  function EncodedEntries(es: seq<Entry>): seq<byte>
    decreases es, 0
  {
    if es == [] then [] else Counted(es[0].key) + (Encoded(es[0].value) + EncodedEntries(es[1..]))
  }

  // ----- The bytes themselves -----

  lemma FourBytes(n: nat)
    requires n < 0x100
    ensures Count(n) == [n, 0, 0, 0]
  {
    assert Le(0, 1) == [0];
    assert Le(0, 2) == [0, 0];
    assert Le(0, 3) == [0, 0, 0];
  }

  lemma EightBytes(n: nat)
    requires n < 0x1_0000
    ensures Le(n, 8) == [n % 0x100, n / 0x100, 0, 0, 0, 0, 0, 0]
  {
    FourBytes(0);
    assert Le(0, 4) == [0, 0, 0, 0];
    assert Le(0, 5) == [0, 0, 0, 0, 0];
    assert Le(0, 6) == [0, 0, 0, 0, 0, 0];
    assert Le(n / 0x100, 7) == [n / 0x100] + Le(0, 6);
  }

  lemma Alone(v: Value, e: Entry)
    ensures EncodedAll([v]) == Encoded(v)
    ensures EncodedEntries([e]) == Counted(e.key) + Encoded(e.value)
  {
    hide Encoded, Counted;
    assert [v][1..] == [] && [e][1..] == [];
    assert Encoded(v) + [] == Encoded(v) && Encoded(e.value) + [] == Encoded(e.value);
  }

  lemma NumbersSpelled(n: nat)
    requires n < 0x1_0000
    ensures Encoded(Int(n)) == [1, n % 0x100, n / 0x100, 0, 0, 0, 0, 0, 0]
    ensures Encoded(Float(n)) == [2, n % 0x100, n / 0x100, 0, 0, 0, 0, 0, 0]
  {
    hide Le;
    EightBytes(n);
    assert Unsigned(n) == n;
  }

  lemma TextSpelled(c: byte, d: byte)
    ensures Counted([c]) == [1, 0, 0, 0, c] && Encoded(Str([c])) == [3, 1, 0, 0, 0, c]
    ensures Encoded(Buffer([c, d])) == [10, 2, 0, 0, 0, c, d]
  {
    hide Count;
    FourBytes(1);
    FourBytes(2);
  }

  lemma ListsSpelled()
    ensures Encoded(Nothing) == [6] && Encoded(Some(Nothing)) == [5, 6]
    ensures Encoded(Array([Nothing])) == [7, 1, 0, 0, 0, 6]
    ensures Encoded(Set([Nothing])) == [9, 1, 0, 0, 0, 6]
    ensures Encoded(Tuple([Nothing])) == [13, 1, 0, 0, 0, 6]
  {
    hide Count, EncodedAll;
    FourBytes(1);
    assert Encoded(Nothing) == [6];
    Alone(Nothing, Entry([], Nothing));
  }

  lemma TableSpelled(c: byte)
    ensures EncodedEntries([Entry([c], Nothing)]) == [1, 0, 0, 0, c, 6]
    ensures Encoded(Map([Entry([c], Nothing)])) == [8, 1, 0, 0, 0, 1, 0, 0, 0, c, 6]
  {
    hide Count, EncodedEntries, Counted;
    FourBytes(1);
    TextSpelled(c, c);
    ListsSpelled();
    Alone(Nothing, Entry([c], Nothing));
  }

  lemma NamedSpelled(c: byte, d: byte)
    ensures Encoded(Struct([c], [Entry([d], Nothing)])) == [11, 1, 0, 0, 0, c, 1, 0, 0, 0, 1, 0, 0, 0, d, 6]
    ensures Encoded(Enum([c], [d], [Nothing])) == [12, 1, 0, 0, 0, c, 1, 0, 0, 0, d, 1, 0, 0, 0, 6]
  {
    hide Count, EncodedEntries, EncodedAll, Counted;
    FourBytes(1);
    TextSpelled(c, d);
    TextSpelled(d, c);
    TableSpelled(d);
    ListsSpelled();
    Alone(Nothing, Entry([], Nothing));
  }

  /** The tag of each kind of value and what stands behind it, on values with short parts. */
  lemma EncodingsSpelled(n: nat, c: byte, d: byte)
    requires n < 0x1_0000
    ensures Encoded(Int(n)) == [1, n % 0x100, n / 0x100, 0, 0, 0, 0, 0, 0]
    ensures Encoded(Float(n)) == [2, n % 0x100, n / 0x100, 0, 0, 0, 0, 0, 0]
    ensures Encoded(Str([c])) == [3, 1, 0, 0, 0, c]
    ensures Encoded(Bool(false)) == [4, 0] && Encoded(Bool(true)) == [4, 1]
    ensures Encoded(Some(Nothing)) == [5, 6] && Encoded(Nothing) == [6]
    ensures Encoded(Array([Nothing])) == [7, 1, 0, 0, 0, 6]
    ensures Encoded(Map([Entry([c], Nothing)])) == [8, 1, 0, 0, 0, 1, 0, 0, 0, c, 6]
    ensures Encoded(Set([Nothing])) == [9, 1, 0, 0, 0, 6]
    ensures Encoded(Buffer([c, d])) == [10, 2, 0, 0, 0, c, d]
    ensures Encoded(Struct([c], [Entry([d], Nothing)])) == [11, 1, 0, 0, 0, c, 1, 0, 0, 0, 1, 0, 0, 0, d, 6]
    ensures Encoded(Enum([c], [d], [Nothing])) == [12, 1, 0, 0, 0, c, 1, 0, 0, 0, d, 1, 0, 0, 0, 6]
    ensures Encoded(Tuple([Nothing])) == [13, 1, 0, 0, 0, 6]
  {
    assert Encoded(Bool(false)) == [4, 0] && Encoded(Bool(true)) == [4, 1];
    hide Encoded;
    NumbersSpelled(n);
    TextSpelled(c, d);
    ListsSpelled();
    TableSpelled(c);
    NamedSpelled(c, d);
  }

  /** The values the format covers. */
  predicate Serialisable(v: Value)
    decreases v, 1
  {
    match v
    case Some(inner) => Serialisable(inner)
    case Array(items) => AllSerialisable(items)
    case Map(entries) => EntriesSerialisable(entries)
    case Set(items) => AllSerialisable(items)
    case Struct(_, entries) => EntriesSerialisable(entries)
    case Enum(_, _, values) => AllSerialisable(values)
    case Tuple(items) => AllSerialisable(items)
    case Other => false
    case _ => true
  }

  predicate AllSerialisable(vs: seq<Value>)
    decreases vs, 0
  {
    vs == [] || (Serialisable(vs[0]) && AllSerialisable(vs[1..]))
  }

  predicate EntriesSerialisable(es: seq<Entry>)
    decreases es, 0
  {
    es == [] || (Serialisable(es[0].value) && EntriesSerialisable(es[1..]))
  }

  /** What every value is by its type: integers fit their width, text is UTF-8, no key twice. */
  ghost predicate Typed(v: Value)
    decreases v, 1
  {
    match v
    case Int(n) => -(LONG / 2) <= n < LONG / 2
    case Float(bits) => bits < LONG
    case Str(s) => IsUtf8(s)
    case Some(inner) => Typed(inner)
    case Array(items) => AllTyped(items)
    case Map(entries) => EntriesTyped(entries) && DistinctKeys(entries)
    case Set(items) => AllTyped(items)
    case Struct(name, entries) => IsUtf8(name) && EntriesTyped(entries) && DistinctKeys(entries)
    case Enum(name, variant, values) => IsUtf8(name) && IsUtf8(variant) && AllTyped(values)
    case Tuple(items) => AllTyped(items)
    case _ => true
  }

  ghost predicate AllTyped(vs: seq<Value>)
    decreases vs, 0
  {
    vs == [] || (Typed(vs[0]) && AllTyped(vs[1..]))
  }

  ghost predicate EntriesTyped(es: seq<Entry>)
    decreases es, 0
  {
    es == [] || (IsUtf8(es[0].key) && Typed(es[0].value) && EntriesTyped(es[1..]))
  }

  ghost predicate DistinctKeys(es: seq<Entry>) {
    forall i, j | 0 <= i < j < |es| :: es[i].key != es[j].key
  }

  /** Every length in the value fits 32 bits. */
  ghost predicate Sized(v: Value)
    decreases v, 1
  {
    match v
    case Str(s) => |s| < WORD
    case Some(inner) => Sized(inner)
    case Array(items) => |items| < WORD && AllSized(items)
    case Map(entries) => |entries| < WORD && EntriesSized(entries)
    case Set(items) => |items| < WORD && AllSized(items)
    case Buffer(bytes) => |bytes| < WORD
    case Struct(name, entries) => |name| < WORD && |entries| < WORD && EntriesSized(entries)
    case Enum(name, variant, values) => |name| < WORD && |variant| < WORD && |values| < WORD && AllSized(values)
    case Tuple(items) => |items| < WORD && AllSized(items)
    case _ => true
  }

  ghost predicate AllSized(vs: seq<Value>)
    decreases vs, 0
  {
    vs == [] || (Sized(vs[0]) && AllSized(vs[1..]))
  }

  ghost predicate EntriesSized(es: seq<Entry>)
    decreases es, 0
  {
    es == [] || (|es[0].key| < WORD && Sized(es[0].value) && EntriesSized(es[1..]))
  }

  // ----- Decoding -----

  datatype Read<T> = Got(value: T, rest: seq<byte>) | Failed

  function Exactly(n: nat, input: seq<byte>): (r: Read<seq<byte>>)
    ensures r.Got? ==> |r.value| == n && input == r.value + r.rest
  {
    if n <= |input| then Got(input[..n], input[n..]) else Failed
  }

  function Number(k: nat, input: seq<byte>): (r: Read<nat>)
    ensures r.Got? ==> |r.rest| + k == |input|
  {
    match Exactly(k, input)
    case Got(s, rest) => Got(FromLe(s), rest)
    case Failed => Failed
  }

  function Bytes(input: seq<byte>): (r: Read<seq<byte>>)
    ensures r.Got? ==> |r.rest| < |input|
  {
    match Number(4, input)
    case Got(n, rest) => Exactly(n, rest)
    case Failed => Failed
  }

  function Text(input: seq<byte>): (r: Read<seq<byte>>)
    ensures r.Got? ==> |r.rest| < |input|
  {
    match Bytes(input)
    case Got(s, rest) => if IsUtf8(s) then Got(s, rest) else Failed
    case Failed => Failed
  }

  // A table takes the last value given for a key.
  function Inserted(es: seq<Entry>, e: Entry): seq<Entry> {
    if es == [] then [e]
    else if es[0].key == e.key then [e] + es[1..]
    else [es[0]] + Inserted(es[1..], e)
  }

  lemma DistinctTail(es: seq<Entry>)
    requires es != [] && DistinctKeys(es)
    ensures DistinctKeys(es[1..]) && forall x | x in es[1..] :: x.key != es[0].key
  {
  }

  lemma DistinctCons(e: Entry, es: seq<Entry>)
    requires DistinctKeys(es) && forall x | x in es :: x.key != e.key
    ensures DistinctKeys([e] + es)
  {
  }

  lemma Cons(x: Entry, e: Entry, es: seq<Entry>)
    ensures x in [e] + es <==> x == e || x in es
  {
  }

  /** A key given again gets the new value; every other key keeps its own. */
  lemma {:induction false} InsertedReplaces(es: seq<Entry>, e: Entry)
    requires DistinctKeys(es)
    ensures DistinctKeys(Inserted(es, e))
    ensures forall x :: x in Inserted(es, e) <==> x == e || (x in es && x.key != e.key)
  {
    if es != [] {
      var head, rest := es[0], es[1..];
      DistinctTail(es);
      assert es == [head] + rest;
      if head.key != e.key {
        InsertedReplaces(rest, e);
      }
      var r := if head.key == e.key then rest else Inserted(rest, e);
      var first := if head.key == e.key then e else head;
      assert Inserted(es, e) == [first] + r;
      hide DistinctKeys, Inserted;
      DistinctCons(first, r);
      forall x
        ensures x in [first] + r <==> x == e || (x in es && x.key != e.key)
      {
        Cons(x, first, r);
        Cons(x, head, rest);
      }
    }
  }

  function Decoded(input: seq<byte>): (r: Read<Value>)
    ensures r.Got? ==> |r.rest| < |input|
    decreases |input|, 0, 0
  {
    if input == [] then Failed
    else
      var rest := input[1..];
      match input[0]
      case 1 => (match Number(8, rest) case Got(n, rest') => Got(Int(Signed(n)), rest') case Failed => Failed)
      case 2 => (match Number(8, rest) case Got(n, rest') => Got(Float(n), rest') case Failed => Failed)
      case 3 => (match Text(rest) case Got(s, rest') => Got(Str(s), rest') case Failed => Failed)
      case 4 => (match Exactly(1, rest) case Got(b, rest') => Got(Bool(b[0] != 0), rest') case Failed => Failed)
      case 5 => (match Decoded(rest) case Got(v, rest') => Got(Some(v), rest') case Failed => Failed)
      case 6 => Got(Nothing, rest)
      case 7 => (match DecodedList(rest) case Got(vs, rest') => Got(Array(vs), rest') case Failed => Failed)
      case 8 => (match DecodedTable(rest) case Got(es, rest') => Got(Map(es), rest') case Failed => Failed)
      case 9 => (match DecodedList(rest) case Got(vs, rest') => Got(Set(vs), rest') case Failed => Failed)
      case 10 => (match Bytes(rest) case Got(s, rest') => Got(Buffer(s), rest') case Failed => Failed)
      case 11 =>
        (match Text(rest)
         case Got(name, rest1) =>
           (match DecodedTable(rest1) case Got(es, rest') => Got(Struct(name, es), rest') case Failed => Failed)
         case Failed => Failed)
      case 12 =>
        (match Text(rest)
         case Got(name, rest1) =>
           (match Text(rest1)
            case Got(variant, rest2) =>
              (match DecodedList(rest2)
               case Got(vs, rest') => Got(Enum(name, variant, vs), rest')
               case Failed => Failed)
            case Failed => Failed)
         case Failed => Failed)
      case 13 => (match DecodedList(rest) case Got(vs, rest') => Got(Tuple(vs), rest') case Failed => Failed)
      case _ => Failed
  }

  // A count, then that many values.
  function DecodedList(input: seq<byte>): (r: Read<seq<Value>>)
    ensures r.Got? ==> |r.rest| < |input|
    decreases |input|, 1, 0
  {
    match Number(4, input)
    case Got(n, rest) => DecodedAll(n, [], rest)
    case Failed => Failed
  }

  // Up to n more values behind those already read.
  function DecodedAll(n: nat, acc: seq<Value>, input: seq<byte>): (r: Read<seq<Value>>)
    ensures r.Got? ==> |r.rest| <= |input|
    decreases |input|, 1, n
  {
    if n == 0 then Got(acc, input)
    else
      match Decoded(input)
      case Got(v, rest) => DecodedAll(n - 1, acc + [v], rest)
      case Failed => Failed
  }

  function DecodedTable(input: seq<byte>): (r: Read<seq<Entry>>)
    ensures r.Got? ==> |r.rest| < |input|
    decreases |input|, 1, 0
  {
    match Number(4, input)
    case Got(n, rest) => DecodedEntries(n, [], rest)
    case Failed => Failed
  }

  function DecodedEntries(n: nat, acc: seq<Entry>, input: seq<byte>): (r: Read<seq<Entry>>)
    ensures r.Got? ==> |r.rest| <= |input|
    decreases |input|, 1, n
  {
    if n == 0 then Got(acc, input)
    else
      match Text(input)
      case Failed => Failed
      case Got(key, rest) =>
        (match Decoded(rest)
         case Got(v, rest') => DecodedEntries(n - 1, Inserted(acc, Entry(key, v)), rest')
         case Failed => Failed)
  }

  // ----- Round trip -----

  lemma ExactlyTakes(s: seq<byte>, rest: seq<byte>)
    ensures Exactly(|s|, s + rest) == Got(s, rest)
  {
  }

  lemma NumberTakes(n: nat, k: nat, rest: seq<byte>)
    requires n < Pow(k)
    ensures Number(k, Le(n, k) + rest) == Got(n, rest)
  {
    LeRoundTrip(n, k);
    ExactlyTakes(Le(n, k), rest);
  }

  lemma CountTakes(n: nat, rest: seq<byte>)
    requires n < WORD
    ensures Number(4, Count(n) + rest) == Got(n, rest)
  {
    WordPow();
    NumberTakes(n, 4, rest);
  }

  lemma BytesTake(s: seq<byte>, rest: seq<byte>)
    requires |s| < WORD
    ensures Bytes(Counted(s) + rest) == Got(s, rest)
    ensures IsUtf8(s) ==> Text(Counted(s) + rest) == Got(s, rest)
  {
    hide Exactly, Number, IsUtf8;
    assert Counted(s) + rest == Count(|s|) + (s + rest);
    CountTakes(|s|, s + rest);
    ExactlyTakes(s, rest);
  }

  lemma SignedRoundTrip(n: int)
    requires -(LONG / 2) <= n < LONG / 2
    ensures Unsigned(n) < LONG && Signed(Unsigned(n)) == n
  {
    if n < 0 {
      assert (n + LONG) % LONG == n % LONG;
    }
  }

  // A fresh key goes to the end of the table.
  lemma {:induction false} InsertedFresh(es: seq<Entry>, e: Entry)
    requires forall i | 0 <= i < |es| :: es[i].key != e.key
    ensures Inserted(es, e) == es + [e]
  {
    if es != [] {
      InsertedFresh(es[1..], e);
      assert es == [es[0]] + es[1..];
    }
  }

  // Behind a tag, the rest is what comes after it.
  lemma TagTakes(tag: byte, body: seq<byte>, rest: seq<byte>)
    ensures [tag] + body + rest == [tag] + (body + rest)
    ensures ([tag] + body + rest)[0] == tag && ([tag] + body + rest)[1..] == body + rest
  {
    assert [tag] + body + rest == [tag] + (body + rest);
  }

  /** Decoding what was encoded gives the value back and leaves exactly what followed it. */
  lemma {:induction false} RoundTrip(v: Value, rest: seq<byte>)
    requires Serialisable(v) && Typed(v) && Sized(v)
    ensures Decoded(Encoded(v) + rest) == Got(v, rest)
    decreases v, 2
  {
    hide IsUtf8, Number, Bytes, Text, Exactly, DecodedList, DecodedTable, EncodedAll, EncodedEntries, Counted, Count,
      DistinctKeys;
    match v
    case Int(n) =>
      SignedRoundTrip(n);
      WordPow();
      TagTakes(1, Le(Unsigned(n), 8), rest);
      NumberTakes(Unsigned(n), 8, rest);
    case Float(bits) =>
      WordPow();
      TagTakes(2, Le(bits, 8), rest);
      NumberTakes(bits, 8, rest);
    case Str(s) =>
      TagTakes(3, Counted(s), rest);
      BytesTake(s, rest);
    case Bool(b) =>
      var flag: byte := if b then 1 else 0;
      assert [4, flag] == [4] + [flag];
      TagTakes(4, [flag], rest);
      ExactlyTakes([flag], rest);
    case Some(inner) =>
      TagTakes(5, Encoded(inner), rest);
      RoundTrip(inner, rest);
    case Nothing =>
      TagTakes(6, [], rest);
      assert [] + rest == rest;
    case Array(items) =>
      TagTakes(7, Count(|items|) + EncodedAll(items), rest);
      ListRoundTrip(items, rest);
    case Map(entries) =>
      TagTakes(8, Count(|entries|) + EncodedEntries(entries), rest);
      TableRoundTrip(entries, rest);
    case Set(items) =>
      TagTakes(9, Count(|items|) + EncodedAll(items), rest);
      ListRoundTrip(items, rest);
    case Buffer(bytes) =>
      TagTakes(10, Counted(bytes), rest);
      BytesTake(bytes, rest);
    case Struct(name, entries) =>
      StructRoundTrip(name, entries, rest);
    case Enum(name, variant, values) =>
      EnumRoundTrip(name, variant, values, rest);
    case Tuple(items) =>
      TagTakes(13, Count(|items|) + EncodedAll(items), rest);
      ListRoundTrip(items, rest);
  }

  lemma {:induction false} StructRoundTrip(name: seq<byte>, entries: seq<Entry>, rest: seq<byte>)
    requires |name| < WORD && |entries| < WORD && IsUtf8(name)
    requires EntriesSerialisable(entries) && EntriesTyped(entries) && EntriesSized(entries) && DistinctKeys(entries)
    ensures Decoded(Encoded(Struct(name, entries)) + rest) == Got(Struct(name, entries), rest)
    decreases entries, 2
  {
    hide IsUtf8, Number, Bytes, Text, Exactly, DecodedTable, EncodedEntries, Counted, Count, DistinctKeys;
    var table := Count(|entries|) + EncodedEntries(entries);
    TagTakes(11, Counted(name) + table, rest);
    assert Counted(name) + table + rest == Counted(name) + (table + rest);
    BytesTake(name, table + rest);
    TableRoundTrip(entries, rest);
  }

  lemma {:induction false} EnumRoundTrip(name: seq<byte>, variant: seq<byte>, values: seq<Value>, rest: seq<byte>)
    requires |name| < WORD && |variant| < WORD && |values| < WORD && IsUtf8(name) && IsUtf8(variant)
    requires AllSerialisable(values) && AllTyped(values) && AllSized(values)
    ensures Decoded(Encoded(Enum(name, variant, values)) + rest) == Got(Enum(name, variant, values), rest)
    decreases values, 2
  {
    hide IsUtf8, Number, Bytes, Text, Exactly, DecodedList, EncodedAll, Counted, Count;
    var list := Count(|values|) + EncodedAll(values);
    TagTakes(12, Counted(name) + (Counted(variant) + list), rest);
    assert Counted(name) + (Counted(variant) + list) + rest == Counted(name) + (Counted(variant) + (list + rest));
    BytesTake(name, Counted(variant) + (list + rest));
    BytesTake(variant, list + rest);
    ListRoundTrip(values, rest);
  }

  lemma {:induction false} ListRoundTrip(vs: seq<Value>, rest: seq<byte>)
    requires |vs| < WORD && AllSerialisable(vs) && AllTyped(vs) && AllSized(vs)
    ensures DecodedList(Count(|vs|) + EncodedAll(vs) + rest) == Got(vs, rest)
    decreases vs, 1
  {
    hide Number, Count, Encoded, DecodedAll, EncodedAll;
    assert Count(|vs|) + EncodedAll(vs) + rest == Count(|vs|) + (EncodedAll(vs) + rest);
    CountTakes(|vs|, EncodedAll(vs) + rest);
    AllRoundTrip([], vs, rest);
    assert [] + vs == vs;
  }

  lemma {:induction false} AllRoundTrip(acc: seq<Value>, vs: seq<Value>, rest: seq<byte>)
    requires AllSerialisable(vs) && AllTyped(vs) && AllSized(vs)
    ensures DecodedAll(|vs|, acc, EncodedAll(vs) + rest) == Got(acc + vs, rest)
    decreases vs, 0
  {
    hide Encoded, Decoded;
    if vs == [] {
      assert [] + rest == rest && acc + vs == acc;
    } else {
      var x, tail := vs[0], vs[1..];
      assert EncodedAll(vs) + rest == Encoded(x) + (EncodedAll(tail) + rest);
      RoundTrip(x, EncodedAll(tail) + rest);
      AllRoundTrip(acc + [x], tail, rest);
      assert acc + [x] + tail == acc + vs;
    }
  }

  lemma {:induction false} TableRoundTrip(es: seq<Entry>, rest: seq<byte>)
    requires |es| < WORD && EntriesSerialisable(es) && EntriesTyped(es) && EntriesSized(es) && DistinctKeys(es)
    ensures DecodedTable(Count(|es|) + EncodedEntries(es) + rest) == Got(es, rest)
    decreases es, 1
  {
    hide Number, Count, Encoded, DecodedEntries, EncodedEntries;
    assert Count(|es|) + EncodedEntries(es) + rest == Count(|es|) + (EncodedEntries(es) + rest);
    CountTakes(|es|, EncodedEntries(es) + rest);
    assert [] + es == es;
    EntriesRoundTrip([], es, rest);
  }

  lemma {:induction false} EntriesRoundTrip(acc: seq<Entry>, es: seq<Entry>, rest: seq<byte>)
    requires EntriesSerialisable(es) && EntriesTyped(es) && EntriesSized(es) && DistinctKeys(acc + es)
    ensures DecodedEntries(|es|, acc, EncodedEntries(es) + rest) == Got(acc + es, rest)
    decreases es, 0
  {
    hide Encoded, Decoded, Text, Counted, IsUtf8;
    if es == [] {
      assert [] + rest == rest && acc + es == acc;
    } else {
      var x, tail := es[0], es[1..];
      var after := EncodedEntries(tail) + rest;
      assert EncodedEntries(es) + rest == Counted(x.key) + (Encoded(x.value) + after);
      BytesTake(x.key, Encoded(x.value) + after);
      RoundTrip(x.value, after);
      assert acc + [x] + tail == acc + es;
      forall i | 0 <= i < |acc|
        ensures acc[i].key != x.key
      {
        assert (acc + es)[i] == acc[i] && (acc + es)[|acc|] == x;
      }
      InsertedFresh(acc, x);
      EntriesRoundTrip(acc + [x], tail, rest);
    }
  }

  // ----- What the decoder can produce -----

  lemma {:induction false} InsertedKeeps(es: seq<Entry>, e: Entry)
    requires DistinctKeys(es) && EntriesTyped(es) && EntriesSized(es) && EntriesSerialisable(es)
    requires IsUtf8(e.key) && |e.key| < WORD && Typed(e.value) && Sized(e.value) && Serialisable(e.value)
    ensures var r := Inserted(es, e);
      DistinctKeys(r) && EntriesTyped(r) && EntriesSized(r) && EntriesSerialisable(r) && |r| <= |es| + 1
      && forall i | 0 <= i < |r| :: r[i].key == e.key || exists j :: 0 <= j < |es| && es[j].key == r[i].key
  {
    hide Typed, Sized, Serialisable, IsUtf8;
    if es != [] {
      assert es == [es[0]] + es[1..];
      if es[0].key == e.key {
        assert Inserted(es, e)[1..] == es[1..];
        assert forall i | 0 < i < |es| :: Inserted(es, e)[i] == es[i];
      } else {
        InsertedKeeps(es[1..], e);
        var tail := Inserted(es[1..], e);
        assert Inserted(es, e)[1..] == tail;
        assert forall i | 0 < i < |es| :: es[1..][i - 1] == es[i];
        forall i | 0 <= i < |tail|
          ensures tail[i].key != es[0].key
        {
          assert tail[i].key == e.key || exists j :: 0 <= j < |es[1..]| && es[1..][j].key == tail[i].key;
        }
      }
    }
  }

  ghost predicate Sound(v: Value) {
    Typed(v) && Sized(v) && Serialisable(v)
  }

  ghost predicate AllSound(vs: seq<Value>) {
    AllTyped(vs) && AllSized(vs) && AllSerialisable(vs)
  }

  ghost predicate TableSound(es: seq<Entry>) {
    EntriesTyped(es) && EntriesSized(es) && EntriesSerialisable(es) && DistinctKeys(es)
  }

  lemma {:induction false} AllSoundAppend(vs: seq<Value>, x: Value)
    requires AllSound(vs) && Sound(x)
    ensures AllSound(vs + [x])
  {
    hide Typed, Sized, Serialisable;
    if vs == [] {
      assert vs + [x] == [x] && [x][1..] == [];
    } else {
      AllSoundAppend(vs[1..], x);
      assert (vs + [x])[1..] == vs[1..] + [x];
    }
  }

  lemma NumberBound(k: nat, input: seq<byte>)
    requires Number(k, input).Got?
    ensures Number(k, input).value < Pow(k)
  {
    FromLeBound(input[..k]);
  }

  lemma BytesBound(input: seq<byte>)
    requires Bytes(input).Got?
    ensures |Bytes(input).value| < WORD
  {
    hide FromLe;
    NumberBound(4, input);
    WordPow();
  }

  lemma SignedBound(n: nat)
    requires n < LONG
    ensures -(LONG / 2) <= Signed(n) < LONG / 2
  {
  }

  /** Whatever bytes it is given, the decoder yields only values that are well typed, within
      the 32-bit lengths and in the format. */
  lemma {:induction false} DecodedIsSound(input: seq<byte>)
    requires Decoded(input).Got?
    ensures Sound(Decoded(input).value)
    decreases |input|, 0, 0
  {
    hide IsUtf8, Number, Bytes, Exactly, DecodedList, DecodedTable, DistinctKeys;
    var rest := input[1..];
    WordPow();
    match input[0]
    case 1 => NumberBound(8, rest); SignedBound(Number(8, rest).value);
    case 2 => NumberBound(8, rest);
    case 3 => BytesBound(rest);
    case 5 => DecodedIsSound(rest);
    case 7 => ListIsSound(rest);
    case 8 => TableIsSound(rest);
    case 9 => ListIsSound(rest);
    case 10 => BytesBound(rest);
    case 11 =>
      BytesBound(rest);
      TableIsSound(Text(rest).rest);
    case 12 =>
      BytesBound(rest);
      BytesBound(Text(rest).rest);
      ListIsSound(Text(Text(rest).rest).rest);
    case 13 => ListIsSound(rest);
    case _ =>
  }

  lemma {:induction false} ListIsSound(input: seq<byte>)
    requires DecodedList(input).Got?
    ensures AllSound(DecodedList(input).value) && |DecodedList(input).value| < WORD
    decreases |input|, 1, 0
  {
    hide Number, DecodedAll;
    NumberBound(4, input);
    WordPow();
    var n := Number(4, input);
    AllIsSound(n.value, [], n.rest);
  }

  lemma {:induction false} AllIsSound(n: nat, acc: seq<Value>, input: seq<byte>)
    requires DecodedAll(n, acc, input).Got? && AllSound(acc)
    ensures AllSound(DecodedAll(n, acc, input).value) && |DecodedAll(n, acc, input).value| == |acc| + n
    decreases |input|, 1, n
  {
    hide Decoded, AllSound, Sound;
    if n > 0 {
      DecodedIsSound(input);
      var r := Decoded(input);
      AllSoundAppend(acc, r.value);
      AllIsSound(n - 1, acc + [r.value], r.rest);
    }
  }

  lemma {:induction false} TableIsSound(input: seq<byte>)
    requires DecodedTable(input).Got?
    ensures TableSound(DecodedTable(input).value) && |DecodedTable(input).value| < WORD
    decreases |input|, 1, 0
  {
    hide Number, DecodedEntries;
    NumberBound(4, input);
    WordPow();
    var n := Number(4, input);
    EntriesAreSound(n.value, [], n.rest);
  }

  lemma {:induction false} EntriesAreSound(n: nat, acc: seq<Entry>, input: seq<byte>)
    requires DecodedEntries(n, acc, input).Got? && TableSound(acc)
    ensures TableSound(DecodedEntries(n, acc, input).value) && |DecodedEntries(n, acc, input).value| <= |acc| + n
    decreases |input|, 1, n
  {
    hide Decoded, Bytes, IsUtf8, Inserted;
    if n > 0 {
      hide EntriesTyped, EntriesSized, EntriesSerialisable, DistinctKeys, Typed, Sized, Serialisable;
      var key := Text(input);
      BytesBound(input);
      DecodedIsSound(key.rest);
      var r := Decoded(key.rest);
      InsertedKeeps(acc, Entry(key.value, r.value));
      EntriesAreSound(n - 1, Inserted(acc, Entry(key.value, r.value)), r.rest);
    }
  }

  // ----- Nothing decoded is longer than the bytes it came from -----

  lemma BytesLength(input: seq<byte>)
    requires Bytes(input).Got?
    ensures |Counted(Bytes(input).value)| + |Bytes(input).rest| == |input|
  {
    hide FromLe, Le;
  }

  lemma {:induction false} InsertedLength(es: seq<Entry>, e: Entry)
    ensures |EncodedEntries(Inserted(es, e))| <= |EncodedEntries(es)| + |Counted(e.key)| + |Encoded(e.value)|
  {
    hide Encoded, Counted;
    if es == [] {
      assert [e][1..] == [];
    } else {
      InsertedLength(es[1..], e);
      assert ([e] + es[1..])[1..] == es[1..];
      assert ([es[0]] + Inserted(es[1..], e))[1..] == Inserted(es[1..], e);
    }
  }

  /** Written again, a value takes no more bytes than were read for it. */
  lemma {:induction false} DecodedIsNoLonger(input: seq<byte>)
    requires Decoded(input).Got?
    ensures |Encoded(Decoded(input).value)| + |Decoded(input).rest| <= |input|
    decreases |input|, 0, 0
  {
    hide IsUtf8, Number, Bytes, DecodedList, DecodedTable, EncodedAll, EncodedEntries, Counted, Count, FromLe;
    var rest := input[1..];
    match input[0]
    case 3 => BytesLength(rest);
    case 5 => DecodedIsNoLonger(rest);
    case 7 => ListIsNoLonger(rest);
    case 8 => TableIsNoLonger(rest);
    case 9 => ListIsNoLonger(rest);
    case 10 => BytesLength(rest);
    case 11 =>
      BytesLength(rest);
      TableIsNoLonger(Text(rest).rest);
    case 12 =>
      BytesLength(rest);
      BytesLength(Text(rest).rest);
      ListIsNoLonger(Text(Text(rest).rest).rest);
    case 13 => ListIsNoLonger(rest);
    case _ =>
  }

  lemma {:induction false} ListIsNoLonger(input: seq<byte>)
    requires DecodedList(input).Got?
    ensures var r := DecodedList(input); |Count(|r.value|)| + |EncodedAll(r.value)| + |r.rest| <= |input|
    decreases |input|, 1, 0
  {
    hide Number, DecodedAll, Le;
    var n := Number(4, input);
    AllIsNoLonger(n.value, [], n.rest);
  }

  lemma {:induction false} AllIsNoLonger(n: nat, acc: seq<Value>, input: seq<byte>)
    requires DecodedAll(n, acc, input).Got?
    ensures var r := DecodedAll(n, acc, input); |EncodedAll(r.value)| + |r.rest| <= |EncodedAll(acc)| + |input|
    decreases |input|, 1, n
  {
    hide Decoded, Encoded, EncodedAll;
    if n > 0 {
      DecodedIsNoLonger(input);
      var r := Decoded(input);
      AllAppend(acc, r.value);
      AllIsNoLonger(n - 1, acc + [r.value], r.rest);
    }
  }

  lemma {:induction false} TableIsNoLonger(input: seq<byte>)
    requires DecodedTable(input).Got?
    ensures var r := DecodedTable(input); |Count(|r.value|)| + |EncodedEntries(r.value)| + |r.rest| <= |input|
    decreases |input|, 1, 0
  {
    hide Number, DecodedEntries, Le;
    var n := Number(4, input);
    EntriesAreNoLonger(n.value, [], n.rest);
  }

  lemma {:induction false} EntriesAreNoLonger(n: nat, acc: seq<Entry>, input: seq<byte>)
    requires DecodedEntries(n, acc, input).Got?
    ensures var r := DecodedEntries(n, acc, input);
      |EncodedEntries(r.value)| + |r.rest| <= |EncodedEntries(acc)| + |input|
    decreases |input|, 1, n
  {
    hide Decoded, Bytes, IsUtf8, Inserted, Encoded, EncodedEntries, Counted;
    if n > 0 {
      var key := Text(input);
      BytesLength(input);
      DecodedIsNoLonger(key.rest);
      var r := Decoded(key.rest);
      InsertedLength(acc, Entry(key.value, r.value));
      EntriesAreNoLonger(n - 1, Inserted(acc, Entry(key.value, r.value)), r.rest);
    }
  }

  /** The format is faithful exactly on values whose lengths fit 32 bits: a longer length is
      cut, and what comes back is a different value. */
  lemma FaithfulExactlyWhenSized(v: Value, rest: seq<byte>)
    requires Typed(v) && Serialisable(v)
    ensures Decoded(Encoded(v) + rest) == Got(v, rest) <==> Sized(v)
  {
    hide Decoded, Encoded, Typed, Sized, Serialisable;
    if Sized(v) {
      RoundTrip(v, rest);
    }
    if Decoded(Encoded(v) + rest) == Got(v, rest) {
      DecodedIsSound(Encoded(v) + rest);
    }
  }

  /** A buffer of 2^32 bytes is written with the length 0: an empty buffer comes back, and the
      bytes are left lying behind it. */
  lemma LongBufferIsCut(s: seq<byte>, rest: seq<byte>)
    requires |s| == WORD
    ensures Decoded(Encoded(Buffer(s)) + rest) == Got(Buffer([]), s + rest)
  {
    hide Number, Le;
    CountTakes(0, s + rest);
    ExactlyTakes([], s + rest);
    assert Count(|s|) == Count(0) && [] + (s + rest) == s + rest;
    assert Counted(s) + rest == Count(0) + (s + rest);
    TagTakes(10, Counted(s), rest);
  }

  /** No encoding is a prefix of another, and different values have different encodings. */
  lemma EncodingIsPrefixFree(v: Value, w: Value, r: seq<byte>, s: seq<byte>)
    requires Sound(v) && Sound(w) && Encoded(v) + r == Encoded(w) + s
    ensures v == w && r == s
  {
    hide Decoded, Encoded, Typed, Sized, Serialisable;
    RoundTrip(v, r);
    RoundTrip(w, s);
  }

  // ----- The writer -----

  lemma {:induction false} AllAppend(vs: seq<Value>, x: Value)
    ensures EncodedAll(vs + [x]) == EncodedAll(vs) + Encoded(x)
    ensures AllSerialisable(vs + [x]) <==> AllSerialisable(vs) && Serialisable(x)
  {
    hide Encoded, Serialisable;
    if vs == [] {
      assert vs + [x] == [x] && [x][1..] == [];
    } else {
      AllAppend(vs[1..], x);
      assert (vs + [x])[1..] == vs[1..] + [x];
    }
  }

  lemma {:induction false} EntriesAppend(es: seq<Entry>, e: Entry)
    ensures EncodedEntries(es + [e]) == EncodedEntries(es) + (Counted(e.key) + Encoded(e.value))
    ensures EntriesSerialisable(es + [e]) <==> EntriesSerialisable(es) && Serialisable(e.value)
  {
    hide Encoded, Serialisable, Counted;
    if es == [] {
      assert es + [e] == [e] && [e][1..] == [];
    } else {
      EntriesAppend(es[1..], e);
      assert (es + [e])[1..] == es[1..] + [e];
    }
  }

  // A list with a part the format does not cover is not covered.
  lemma {:induction false} PrefixNotSerialisable(vs: seq<Value>, k: nat)
    requires k <= |vs| && !AllSerialisable(vs[..k])
    ensures !AllSerialisable(vs)
  {
    hide Serialisable;
    if k > 0 && Serialisable(vs[0]) {
      assert vs[..k][1..] == vs[1..][..k - 1];
      PrefixNotSerialisable(vs[1..], k - 1);
    }
  }

  lemma {:induction false} PrefixEntriesNotSerialisable(es: seq<Entry>, k: nat)
    requires k <= |es| && !EntriesSerialisable(es[..k])
    ensures !EntriesSerialisable(es)
  {
    hide Serialisable;
    if k > 0 && Serialisable(es[0].value) {
      assert es[..k][1..] == es[1..][..k - 1];
      PrefixEntriesNotSerialisable(es[1..], k - 1);
    }
  }

  // What is written piece by piece, as one piece behind what was there.
  lemma Regroup<T>(a: seq<T>, b: seq<T>, c: seq<T>)
    ensures a + b + c == a + (b + c)
  {
  }

  class Writer {
    var out: seq<byte>

    constructor ()
      ensures out == []
    {
      out := [];
    }

    method Put(s: seq<byte>)
      modifies this
      ensures out == old(out) + s
    {
      out := out + s;
    }

    method PutAll(vs: seq<Value>) returns (ok: bool)
      modifies this
      ensures ok <==> AllSerialisable(vs)
      ensures old(out) <= out && (ok ==> out == old(out) + EncodedAll(vs))
      decreases vs, 0
    {
      hide Serialisable, Encoded, EncodedAll, AllSerialisable;
      assert vs[..0] == [] && EncodedAll([]) == [] && AllSerialisable([]) by { NothingEncoded(); }
      for k := 0 to |vs|
        invariant out == old(out) + EncodedAll(vs[..k]) && AllSerialisable(vs[..k])
      {
        assert vs[..k + 1] == vs[..k] + [vs[k]];
        AllAppend(vs[..k], vs[k]);
        var done := EncodeVal(vs[k]);
        if !done {
          PrefixNotSerialisable(vs, k + 1);
          return false;
        }
      }
      assert vs[..|vs|] == vs;
      ok := true;
    }

    method PutEntries(es: seq<Entry>) returns (ok: bool)
      modifies this
      ensures ok <==> EntriesSerialisable(es)
      ensures old(out) <= out && (ok ==> out == old(out) + EncodedEntries(es))
      decreases es, 0
    {
      hide Serialisable, Encoded, EncodedEntries, EntriesSerialisable, Counted;
      assert es[..0] == [] && EncodedEntries([]) == [] && EntriesSerialisable([]) by { NothingEncoded(); }
      for k := 0 to |es|
        invariant out == old(out) + EncodedEntries(es[..k]) && EntriesSerialisable(es[..k])
      {
        assert es[..k + 1] == es[..k] + [es[k]];
        EntriesAppend(es[..k], es[k]);
        Put(Counted(es[k].key));
        var done := EncodeVal(es[k].value);
        if !done {
          PrefixEntriesNotSerialisable(es, k + 1);
          return false;
        }
      }
      assert es[..|es|] == es;
      ok := true;
    }

    /** Appends the encoding, or fails on a value outside the format. */
    method EncodeVal(v: Value) returns (ok: bool)
      modifies this
      ensures ok <==> Serialisable(v)
      ensures old(out) <= out && (ok ==> out == old(out) + Encoded(v))
      decreases v, 1
    {
      hide EncodedAll, EncodedEntries, AllSerialisable, EntriesSerialisable, Counted, Count, Le, Unsigned;
      ok := true;
      match v {
        case Int(n) =>
          Put([1]);
          Put(Le(Unsigned(n), 8));
          Regroup(old(out), [1], Le(Unsigned(n), 8));
        case Float(bits) =>
          Put([2]);
          Put(Le(bits, 8));
          Regroup(old(out), [2], Le(bits, 8));
        case Str(s) =>
          Put([3]);
          Put(Counted(s));
          Regroup(old(out), [3], Counted(s));
        case Bool(b) =>
          Put([4]);
          Put([if b then 1 else 0]);
        case Some(inner) =>
          Put([5]);
          ok := EncodeVal(inner);
          Regroup(old(out), [5], Encoded(inner));
        case Nothing =>
          Put([6]);
        case Array(items) =>
          ok := PutList(7, items);
        case Map(entries) =>
          Put([8]);
          ok := PutTable(entries);
          Regroup(old(out), [8], Count(|entries|) + EncodedEntries(entries));
        case Set(items) =>
          ok := PutList(9, items);
        case Buffer(bytes) =>
          Put([10]);
          Put(Counted(bytes));
          Regroup(old(out), [10], Counted(bytes));
        case Struct(name, entries) =>
          Put([11]);
          Put(Counted(name));
          ok := PutTable(entries);
          Regroup(old(out) + [11], Counted(name), Count(|entries|) + EncodedEntries(entries));
          Regroup(old(out), [11], Counted(name) + (Count(|entries|) + EncodedEntries(entries)));
        case Enum(name, variant, values) =>
          ok := PutEnum(name, variant, values);
        case Tuple(items) =>
          ok := PutList(13, items);
        case Other =>
          ok := false;
      }
    }

    // A tag, a count and the items.
    method PutEnum(name: seq<byte>, variant: seq<byte>, values: seq<Value>) returns (ok: bool)
      modifies this
      ensures ok <==> AllSerialisable(values)
      ensures old(out) <= out && (ok ==> out == old(out) + Encoded(Enum(name, variant, values)))
      decreases values, 1
    {
      hide EncodedAll, AllSerialisable, Counted, Count;
      Put([12]);
      Put(Counted(name));
      Put(Counted(variant));
      ghost var list := Count(|values|) + EncodedAll(values);
      Put(Count(|values|));
      ok := PutAll(values);
      Regroup(old(out) + [12] + Counted(name) + Counted(variant), Count(|values|), EncodedAll(values));
      Regroup(old(out) + [12] + Counted(name), Counted(variant), list);
      Regroup(old(out) + [12], Counted(name), Counted(variant) + list);
      Regroup(old(out), [12], Counted(name) + (Counted(variant) + list));
    }

    method PutList(tag: byte, items: seq<Value>) returns (ok: bool)
      modifies this
      ensures ok <==> AllSerialisable(items)
      ensures old(out) <= out && (ok ==> out == old(out) + ([tag] + (Count(|items|) + EncodedAll(items))))
      decreases items, 1
    {
      hide EncodedAll, AllSerialisable, Count;
      Put([tag]);
      Put(Count(|items|));
      ok := PutAll(items);
      Regroup(old(out) + [tag], Count(|items|), EncodedAll(items));
      Regroup(old(out), [tag], Count(|items|) + EncodedAll(items));
    }

    method PutTable(entries: seq<Entry>) returns (ok: bool)
      modifies this
      ensures ok <==> EntriesSerialisable(entries)
      ensures old(out) <= out && (ok ==> out == old(out) + (Count(|entries|) + EncodedEntries(entries)))
      decreases entries, 1
    {
      hide EncodedEntries, EntriesSerialisable, Count;
      Put(Count(|entries|));
      ok := PutEntries(entries);
      Regroup(old(out), Count(|entries|), EncodedEntries(entries));
    }
  }

  lemma NothingEncoded()
    ensures EncodedAll([]) == [] && AllSerialisable([]) && EncodedEntries([]) == [] && EntriesSerialisable([])
  {
  }

  // ----- The reader -----

  datatype Result<T> = Ok(value: T) | Err

  // A method's answer and where it leaves the cursor, as the decoder defines them.
  ghost predicate Answers<T>(spec: Read<T>, r: Result<T>, left: seq<byte>) {
    match spec
    case Got(v, rest) => r == Ok(v) && left == rest
    case Failed => r == Err
  }

  class Cursor {
    const data: seq<byte>
    var pos: nat

    constructor (bytes: seq<byte>)
      ensures data == bytes && pos == 0 && Valid()
    {
      data, pos := bytes, 0;
    }

    ghost predicate Valid()
      reads this
    {
      pos <= |data|
    }

    ghost function Left(): seq<byte>
      requires Valid()
      reads this
    {
      data[pos..]
    }

    method ReadExact(n: nat) returns (r: Result<seq<byte>>)
      requires Valid()
      modifies this
      ensures Valid() && pos >= old(pos) && (r.Ok? ==> pos == old(pos) + n)
      ensures Answers(Exactly(n, old(Left())), r, Left())
    {
      if n <= |data| - pos {
        assert old(Left())[..n] == data[pos..pos + n];
        r := Ok(data[pos..pos + n]);
        pos := pos + n;
        assert old(Left())[n..] == Left();
      } else {
        r := Err;
      }
    }

    method ReadNumber(k: nat) returns (r: Result<nat>)
      requires Valid()
      modifies this
      ensures Valid() && pos >= old(pos) && (r.Ok? ==> pos == old(pos) + k)
      ensures Answers(Number(k, old(Left())), r, Left())
    {
      hide Exactly, FromLe;
      var b := ReadExact(k);
      match b
      case Ok(s) => r := Ok(FromLe(s));
      case Err => r := Err;
    }

    method ReadBytes() returns (r: Result<seq<byte>>)
      requires Valid()
      modifies this
      ensures Valid() && pos >= old(pos) && (r.Ok? ==> pos > old(pos))
      ensures Answers(Bytes(old(Left())), r, Left())
    {
      hide Exactly, Number;
      var n := ReadNumber(4);
      match n
      case Ok(len) => r := ReadExact(len);
      case Err => r := Err;
    }

    method ReadText() returns (r: Result<seq<byte>>)
      requires Valid()
      modifies this
      ensures Valid() && pos >= old(pos) && (r.Ok? ==> pos > old(pos))
      ensures Answers(Text(old(Left())), r, Left())
    {
      hide Bytes, IsUtf8;
      r := ReadBytes();
      if r.Ok? && !IsUtf8(r.value) {
        r := Err;
      }
    }

    method ReadList() returns (r: Result<seq<Value>>)
      requires Valid()
      modifies this
      ensures Valid() && pos >= old(pos) && (r.Ok? ==> pos > old(pos))
      ensures Answers(DecodedList(old(Left())), r, Left())
      decreases |data| - pos, 0
    {
      hide Number, Decoded;
      var count := ReadNumber(4);
      if count.Err? {
        return Err;
      }
      var acc: seq<Value> := [];
      ghost var start := Left();
      for i := 0 to count.value
        invariant Valid() && pos > old(pos)
        invariant DecodedAll(count.value, [], start) == DecodedAll(count.value - i, acc, Left())
      {
        var v := DecodeVal();
        if v.Err? {
          return Err;
        }
        acc := acc + [v.value];
      }
      r := Ok(acc);
    }

    method ReadTable() returns (r: Result<seq<Entry>>)
      requires Valid()
      modifies this
      ensures Valid() && pos >= old(pos) && (r.Ok? ==> pos > old(pos))
      ensures Answers(DecodedTable(old(Left())), r, Left())
      decreases |data| - pos, 0
    {
      hide Number, Decoded, Text;
      var count := ReadNumber(4);
      if count.Err? {
        return Err;
      }
      var acc: seq<Entry> := [];
      ghost var start := Left();
      for i := 0 to count.value
        invariant Valid() && pos > old(pos)
        invariant DecodedEntries(count.value, [], start) == DecodedEntries(count.value - i, acc, Left())
      {
        var key := ReadText();
        if key.Err? {
          return Err;
        }
        var v := DecodeVal();
        if v.Err? {
          return Err;
        }
        acc := Inserted(acc, Entry(key.value, v.value));
      }
      r := Ok(acc);
    }

    /** Reads one value from the front and stops right behind it. */
    method DecodeVal() returns (r: Result<Value>)
      requires Valid()
      modifies this
      ensures Valid() && pos >= old(pos) && (r.Ok? ==> pos > old(pos))
      ensures Answers(Decoded(old(Left())), r, Left())
      decreases |data| - pos, 1
    {
      hide Number, Text, Bytes, DecodedList, DecodedTable;
      var tag := ReadExact(1);
      if tag.Err? {
        return Err;
      }
      assert old(Left())[1..] == Left();
      match tag.value[0] {
        case 1 => var n := ReadNumber(8); r := if n.Ok? then Ok(Int(Signed(n.value))) else Err;
        case 2 => var n := ReadNumber(8); r := if n.Ok? then Ok(Float(n.value)) else Err;
        case 3 => var s := ReadText(); r := if s.Ok? then Ok(Str(s.value)) else Err;
        case 4 => var b := ReadExact(1); r := if b.Ok? then Ok(Bool(b.value[0] != 0)) else Err;
        case 5 => var v := DecodeVal(); r := if v.Ok? then Ok(Some(v.value)) else Err;
        case 6 => r := Ok(Nothing);
        case 7 => var vs := ReadList(); r := if vs.Ok? then Ok(Array(vs.value)) else Err;
        case 8 => var es := ReadTable(); r := if es.Ok? then Ok(Map(es.value)) else Err;
        case 9 => var vs := ReadList(); r := if vs.Ok? then Ok(Set(vs.value)) else Err;
        case 10 => var s := ReadBytes(); r := if s.Ok? then Ok(Buffer(s.value)) else Err;
        case 11 =>
          var name := ReadText();
          if name.Err? {
            return Err;
          }
          var es := ReadTable();
          r := if es.Ok? then Ok(Struct(name.value, es.value)) else Err;
        case 12 =>
          var name := ReadText();
          if name.Err? {
            return Err;
          }
          var variant := ReadText();
          if variant.Err? {
            return Err;
          }
          var vs := ReadList();
          r := if vs.Ok? then Ok(Enum(name.value, variant.value, vs.value)) else Err;
        case 13 => var vs := ReadList(); r := if vs.Ok? then Ok(Tuple(vs.value)) else Err;
        case _ => r := Err;
      }
    }
  }
}
