/** Record and replay: the event log, its framing, and serving the recorded events back by
    type and tick. */
module Replay {
  import opened Codec
  import Finite

  // "ARTLOG01"
  const MAGIC: seq<byte> := [65, 82, 84, 76, 79, 71, 48, 49]
  // "type", "tick", "payload", "checkpoint", "rng_state", "changed"
  const TYPE: seq<byte> := [116, 121, 112, 101]
  const TICK: seq<byte> := [116, 105, 99, 107]
  const PAYLOAD: seq<byte> := [112, 97, 121, 108, 111, 97, 100]
  const CHECKPOINT: seq<byte> := [99, 104, 101, 99, 107, 112, 111, 105, 110, 116]
  const RNG_STATE: seq<byte> := [114, 110, 103, 95, 115, 116, 97, 116, 101]
  const CHANGED: seq<byte> := [99, 104, 97, 110, 103, 101, 100]

  function Ascii(s: string): (r: seq<byte>)
    requires forall k | 0 <= k < |s| :: s[k] < 128 as char
    ensures |r| == |s| && forall k | 0 <= k < |s| :: r[k] == s[k] as int
  {
    seq(|s|, k requires 0 <= k < |s| => s[k] as int)
  }

  /** The magic number and the keys as they are written. */
  lemma KeysAreSpelled()
    ensures MAGIC == Ascii("ARTLOG01") && TYPE == Ascii("type") && TICK == Ascii("tick")
    ensures PAYLOAD == Ascii("payload") && CHECKPOINT == Ascii("checkpoint")
    ensures RNG_STATE == Ascii("rng_state") && CHANGED == Ascii("changed")
  {
  }

  /** What was recorded. `order` is the order in which the three fields of the event's table
      happen to be walked. */
  datatype Item = Item(kind: seq<byte>, tick: nat, payload: Value, order: nat)

  function Arranged<T>(a: T, b: T, c: T, order: nat): seq<T> {
    match order % 6
    case 0 => [a, b, c]
    case 1 => [a, c, b]
    case 2 => [b, a, c]
    case 3 => [b, c, a]
    case 4 => [c, a, b]
    case _ => [c, b, a]
  }

  // A tick is stored as a signed 64-bit integer and read back as an unsigned one.
  function EventOf(i: Item): Value {
    Map(Arranged(Entry(TYPE, Str(i.kind)), Entry(TICK, Int(Signed(i.tick % LONG))), Entry(PAYLOAD, i.payload), i.order))
  }

  function Lookup(es: seq<Entry>, key: seq<byte>): Result<Value> {
    if es == [] then Err
    else if es[0].key == key then Ok(es[0].value)
    else Lookup(es[1..], key)
  }

  function KindOf(es: seq<Entry>): seq<byte> {
    match Lookup(es, TYPE)
    case Ok(Str(s)) => s
    case _ => []
  }

  function TickOf(es: seq<Entry>): nat {
    match Lookup(es, TICK)
    case Ok(Int(t)) => Unsigned(t)
    case _ => 0
  }

  function PayloadOf(es: seq<Entry>): Value {
    match Lookup(es, PAYLOAD)
    case Ok(v) => v
    case Err => Nothing
  }

  /** Whatever order the fields come in, the three are found again. */
  lemma EventFields(i: Item)
    requires i.tick < LONG
    ensures var es := EventOf(i).entries;
      KindOf(es) == i.kind && TickOf(es) == i.tick && Lookup(es, PAYLOAD) == Ok(i.payload) && DistinctKeys(es)
        && |es| == 3
  {
    assert TYPE != TICK by { assert TYPE[1] != TICK[1]; }
    assert TYPE != PAYLOAD && TICK != PAYLOAD by { assert |TYPE| != |PAYLOAD|; }
    hide Signed, Unsigned;
    var es := EventOf(i).entries;
    Found(es, TYPE);
    Found(es, TICK);
    Found(es, PAYLOAD);
    TickBack(i.tick);
  }

  lemma TickBack(t: nat)
    requires t < LONG
    ensures Unsigned(Signed(t % LONG)) == t
  {
  }

  // Looking a key up among three.
  lemma Found(es: seq<Entry>, key: seq<byte>)
    requires |es| == 3
    ensures Lookup(es, key) ==
            if es[0].key == key then Ok(es[0].value)
            else if es[1].key == key then Ok(es[1].value)
            else if es[2].key == key then Ok(es[2].value)
            else Err
  {
    var a := es[1..];
    var b := a[1..];
    assert a[0] == es[1] && b[0] == es[2] && b[1..] == [];
    assert Lookup(b, key) == if b[0].key == key then Ok(b[0].value) else Err;
    assert Lookup(a, key) == if a[0].key == key then Ok(a[0].value) else Lookup(b, key);
  }

  // ----- The log as bytes -----

  function Framed(body: seq<byte>): seq<byte> {
    Count(|body|) + body
  }

  function Frames(items: seq<Item>): seq<byte> {
    if items == [] then [] else Framed(Encoded(EventOf(items[0]))) + Frames(items[1..])
  }

  function Values(items: seq<Item>): seq<Value> {
    if items == [] then [] else [EventOf(items[0])] + Values(items[1..])
  }

  // One value from a whole buffer; what does not decode is dropped.
  function Decodable(body: seq<byte>): seq<Value> {
    match Decoded(body)
    case Got(v, _) => [v]
    case Failed => []
  }

  /** The frames from here on. A torn size ends the log; a torn body is an error. */
  function ReadFrames(bytes: seq<byte>): Result<seq<Value>>
    decreases |bytes|
  {
    match Number(4, bytes)
    case Failed => Ok([])
    case Got(size, rest) =>
      (match Exactly(size, rest)
       case Failed => Err
       case Got(body, rest') =>
         (match ReadFrames(rest')
          case Ok(vs) => Ok(Decodable(body) + vs)
          case Err => Err))
  }

  function ReadLog(bytes: seq<byte>): Result<seq<Value>> {
    match Exactly(8, bytes)
    case Got(magic, rest) => if magic == MAGIC then ReadFrames(rest) else Err
    case Failed => Err
  }

  /** What the recorder can write and read back: a typed event in the format whose encoding
      fits a frame. */
  ghost predicate Recordable(i: Item) {
    i.tick < LONG && IsUtf8(i.kind) && |i.kind| < WORD && Sound(i.payload) && |Encoded(EventOf(i))| < WORD
  }

  lemma EventIsSound(i: Item)
    requires Recordable(i)
    ensures Sound(EventOf(i))
  {
    hide IsUtf8, Lookup, Serialisable, Typed, Sized, DistinctKeys, KindOf, TickOf, Encoded, EventOf;
    EventFields(i);
    EventFieldsSound(i);
    hide Sound;
    var es := EventOf(i).entries;
    TableOfThree(es);
    MapIsSound(es);
  }

  lemma EventFieldsSound(i: Item)
    requires Recordable(i)
    ensures EventOf(i).Map?
    ensures var es := EventOf(i).entries;
      |es| == 3 && forall k | 0 <= k < 3 :: IsUtf8(es[k].key) && |es[k].key| < WORD && Sound(es[k].value)
  {
    NamesAreText();
    TickFits(i.tick);
    hide IsUtf8, Encoded;
    assert Sound(Str(i.kind)) && Sound(Int(Signed(i.tick % LONG)));
    hide Sound;
  }

  lemma TickFits(t: nat)
    ensures -(LONG / 2) <= Signed(t % LONG) < LONG / 2
  {
  }

  lemma MapIsSound(es: seq<Entry>)
    requires EntriesTyped(es) && EntriesSized(es) && EntriesSerialisable(es) && DistinctKeys(es) && |es| < WORD
    ensures Sound(Map(es))
  {
  }

  lemma TableOfThree(es: seq<Entry>)
    requires |es| == 3 && forall k | 0 <= k < 3 :: IsUtf8(es[k].key) && |es[k].key| < WORD && Sound(es[k].value)
    ensures EntriesTyped(es) && EntriesSized(es) && EntriesSerialisable(es)
  {
    hide IsUtf8, Typed, Sized, Serialisable;
    var a, b := es[1..], es[1..][1..];
    assert a[0] == es[1] && b[0] == es[2] && b[1..] == [];
    assert EntriesTyped(b) && EntriesSized(b) && EntriesSerialisable(b);
    assert EntriesTyped(a) && EntriesSized(a) && EntriesSerialisable(a);
  }

  lemma {:induction false} AsciiIsText(s: seq<byte>)
    requires forall k | 0 <= k < |s| :: s[k] < 0x80
    ensures IsUtf8(s)
  {
    if s != [] {
      AsciiIsText(s[1..]);
    }
  }

  lemma NamesAreText()
    ensures IsUtf8(TYPE) && IsUtf8(TICK) && IsUtf8(PAYLOAD) && IsUtf8(CHECKPOINT) && IsUtf8(RNG_STATE)
  {
    hide IsUtf8;
    AsciiIsText(TYPE);
    AsciiIsText(TICK);
    AsciiIsText(PAYLOAD);
    AsciiIsText(CHECKPOINT);
    AsciiIsText(RNG_STATE);
  }

  // A log of any values, one frame each.
  function Written(vs: seq<Value>): seq<byte> {
    if vs == [] then [] else Framed(Encoded(vs[0])) + Written(vs[1..])
  }

  lemma {:induction false} FramesAreWritten(items: seq<Item>)
    ensures Frames(items) == Written(Values(items))
  {
    hide Framed, Encoded, EventOf;
    if items != [] {
      FramesAreWritten(items[1..]);
      assert Values(items)[1..] == Values(items[1..]);
    }
  }

  lemma {:induction false} WrittenReadsBack(vs: seq<Value>)
    requires forall v | v in vs :: Sound(v) && |Encoded(v)| < WORD
    ensures ReadFrames(Written(vs)) == Ok(vs)
  {
    hide Encoded, Decoded, Number, Exactly, Sound, Count;
    if vs == [] {
      TornSize([]);
    } else {
      var v, rest := vs[0], vs[1..];
      var body := Encoded(v);
      assert v in vs;
      assert Written(vs) == Count(|body|) + (body + Written(rest));
      CountTakes(|body|, body + Written(rest));
      ExactlyTakes(body, Written(rest));
      WrittenReadsBack(rest);
      BodyDecodes(v);
      assert [v] + rest == vs;
    }
  }

  lemma BodyDecodes(v: Value)
    requires Sound(v)
    ensures Decodable(Encoded(v)) == [v]
  {
    hide Encoded, Decoded, Typed, Sized, Serialisable;
    RoundTrip(v, []);
    assert Encoded(v) + [] == Encoded(v);
  }

  lemma {:induction false} FramesReadBack(items: seq<Item>)
    requires forall i | i in items :: Recordable(i)
    ensures ReadFrames(Frames(items)) == Ok(Values(items))
  {
    hide Written, Frames, Values, ReadFrames, Recordable, Encoded, Sound;
    FramesAreWritten(items);
    ValuesAre(items);
    forall v | v in Values(items)
      ensures Sound(v) && |Encoded(v)| < WORD
    {
      var k :| 0 <= k < |items| && Values(items)[k] == v;
      assert items[k] in items;
      EventIsSound(items[k]);
      FitsFrame(items[k]);
    }
    WrittenReadsBack(Values(items));
  }

  lemma {:induction false} ValuesAre(items: seq<Item>)
    ensures |Values(items)| == |items| && forall k | 0 <= k < |items| :: Values(items)[k] == EventOf(items[k])
  {
    hide EventOf;
    if items != [] {
      ValuesAre(items[1..]);
    }
  }

  lemma FitsFrame(i: Item)
    requires Recordable(i)
    ensures |Encoded(EventOf(i))| < WORD
  {
  }

  // What is read from a log would fit it.
  lemma {:induction false} ReadFits(bytes: seq<byte>)
    requires ReadFrames(bytes).Ok?
    ensures forall v | v in ReadFrames(bytes).value :: Sized(v) && |Encoded(v)| < WORD
    decreases |bytes|
  {
    hide Encoded, Decoded, Number, Exactly, Sized, Typed, Serialisable;
    var size := Number(4, bytes);
    if size.Got? {
      NumberBound(4, bytes);
      WordPow();
      var frame := Exactly(size.value, size.rest);
      if frame.Got? {
        ExactlyLength(size.value, size.rest);
        ReadFits(frame.rest);
        if Decoded(frame.value).Got? {
          DecodedIsNoLonger(frame.value);
          DecodedIsSound(frame.value);
        }
      }
    }
  }

  lemma ExactlyLength(k: nat, input: seq<byte>)
    requires Exactly(k, input).Got?
    ensures |Exactly(k, input).value| == k
  {
  }

  /** A log of events, checkpoints, deltas or anything else in the format reads back as it was
      written if and only if all lengths in it, those of the frames included, fit 32 bits. */
  lemma LogReadsBackExactly(vs: seq<Value>)
    requires forall v | v in vs :: Typed(v) && Serialisable(v)
    ensures ReadLog(MAGIC + Written(vs)) == Ok(vs) <==> forall v | v in vs :: Sized(v) && |Encoded(v)| < WORD
  {
    hide Written, ReadFrames, Encoded, Typed, Sized, Serialisable;
    ExactlyTakes(MAGIC, Written(vs));
    if forall v | v in vs :: Sized(v) && |Encoded(v)| < WORD {
      WrittenReadsBack(vs);
    }
    if ReadLog(MAGIC + Written(vs)) == Ok(vs) {
      ReadFits(Written(vs));
    }
  }

  // Fewer than four bytes where a size should be: the log ends here.
  lemma TornSize(bytes: seq<byte>)
    requires |bytes| < 4
    ensures ReadFrames(bytes) == Ok([])
  {
  }

  /** A frame whose body does not decode is passed over, one cut short is an error. */
  lemma DamagedFrames(body: seq<byte>, rest: seq<byte>, size: nat)
    requires |body| < WORD && size < WORD
    ensures Decoded(body).Failed? ==> ReadFrames(Count(|body|) + (body + rest)) == ReadFrames(rest)
    ensures |body| < size ==> ReadFrames(Count(size) + body) == Err
  {
    hide Decoded, Number, Exactly;
    CountTakes(|body|, body + rest);
    ExactlyTakes(body, rest);
    CountTakes(size, body);
    assert |body| < size ==> Exactly(size, body).Failed? by {
      TooShort(size, body);
    }
    if Decoded(body).Failed? && ReadFrames(rest).Ok? {
      assert [] + ReadFrames(rest).value == ReadFrames(rest).value;
    }
  }

  lemma TooShort(n: nat, input: seq<byte>)
    ensures Exactly(n, input).Failed? <==> |input| < n
  {
  }

  /** A log of recorded events reads back as the same events, in order. */
  lemma LogReadsBack(items: seq<Item>)
    requires forall i | i in items :: Recordable(i)
    ensures ReadLog(MAGIC + Frames(items)) == Ok(Values(items))
  {
    hide Frames, ReadFrames, Recordable;
    ExactlyTakes(MAGIC, Frames(items));
    FramesReadBack(items);
  }

  // ----- The recorder -----

  class Tracer {
    var file: seq<byte>

    constructor ()
      ensures file == MAGIC
    {
      file := MAGIC;
    }

    /** Appends one frame, or nothing at all when the payload is outside the format. */
    method RecordEvent(i: Item) returns (ok: bool)
      modifies this
      ensures ok <==> Serialisable(i.payload)
      ensures file == old(file) + if ok then Framed(Encoded(EventOf(i))) else []
    {
      hide Encoded, Serialisable, EventOf, Count;
      EventSerialisable(i);
      var writer := new Writer();
      ok := writer.EncodeVal(EventOf(i));
      if ok {
        var size := Count(|writer.out|);
        file := file + size;
        file := file + writer.out;
      }
    }

    method RecordCheckpoint(tick: nat, rngState: seq<byte>, order: nat) returns (ok: bool)
      modifies this
      ensures ok && file == old(file) + Framed(Encoded(EventOf(CheckpointItem(tick, rngState, order))))
    {
      RngSerialisable(rngState);
      ok := RecordEvent(CheckpointItem(tick, rngState, order));
    }
  }

  // rngState is the generator's state in decimal.
  function CheckpointItem(tick: nat, rngState: seq<byte>, order: nat): Item {
    Item(CHECKPOINT, tick, Map([Entry(RNG_STATE, Str(rngState))]), order)
  }

  lemma RngSerialisable(rngState: seq<byte>)
    ensures Serialisable(Map([Entry(RNG_STATE, Str(rngState))]))
  {
    var es := [Entry(RNG_STATE, Str(rngState))];
    assert es[1..] == [];
    assert Serialisable(Str(rngState)) && EntriesSerialisable([]);
    assert EntriesSerialisable(es);
  }

  lemma EventSerialisable(i: Item)
    ensures Serialisable(EventOf(i)) <==> Serialisable(i.payload)
  {
    var es := EventOf(i).entries;
    var a, b := es[1..], es[1..][1..];
    assert a[0] == es[1] && b[0] == es[2] && b[1..] == [];
    assert EntriesSerialisable(b) <==> Serialisable(es[2].value);
    assert EntriesSerialisable(a) <==> Serialisable(es[1].value) && Serialisable(es[2].value);
    assert EntriesSerialisable(es) <==>
      Serialisable(es[0].value) && Serialisable(es[1].value) && Serialisable(es[2].value);
  }

  /** Recording any run of events leaves the log that reads back as them. */
  method Record(items: seq<Item>) returns (tracer: Tracer)
    requires forall i | i in items :: Recordable(i)
    ensures tracer.file == MAGIC + Frames(items) && ReadLog(tracer.file) == Ok(Values(items))
  {
    hide Encoded, EventOf, Recordable, ReadLog, Framed;
    tracer := new Tracer();
    assert items[..0] == [];
    for k := 0 to |items|
      invariant fresh(tracer) && tracer.file == MAGIC + Frames(items[..k])
    {
      assert items[..k + 1] == items[..k] + [items[k]];
      assert Recordable(items[k]);
      PayloadSerialisable(items[k]);
      var _ := tracer.RecordEvent(items[k]);
      FramesAppend(items[..k], items[k]);
    }
    assert items[..|items|] == items;
    LogReadsBack(items);
  }

  lemma PayloadSerialisable(i: Item)
    requires Recordable(i)
    ensures Serialisable(i.payload)
  {
  }

  lemma {:induction false} FramesAppend(items: seq<Item>, i: Item)
    ensures Frames(items + [i]) == Frames(items) + Framed(Encoded(EventOf(i)))
  {
    hide Encoded, EventOf, Framed;
    if items == [] {
      assert items + [i] == [i] && [i][1..] == [];
    } else {
      FramesAppend(items[1..], i);
      assert (items + [i])[1..] == items[1..] + [i];
    }
  }

  // ----- Replaying -----

  // What is left of the queue, and the answer.
  function Consumed(events: seq<Value>, kind: seq<byte>, tick: nat): (seq<Value>, Result<Value>) {
    if events == [] || !events[0].Map? then (events, Err)
    else
      var es := events[0].entries;
      if KindOf(es) == CHECKPOINT && TickOf(es) <= tick then Consumed(events[1..], kind, tick)
      else if TickOf(es) == tick && KindOf(es) == kind then (events[1..], Ok(PayloadOf(es)))
      else (events, Err)
  }

  // A checkpoint that a request for the tick passes over.
  predicate PassedOver(v: Value, tick: nat) {
    v.Map? && KindOf(v.entries) == CHECKPOINT && TickOf(v.entries) <= tick
  }

  /** A request passes over the checkpoints in front that are no later; if the entry behind them has
      the type and tick asked for, it is taken and its payload given, and otherwise it stays. */
  lemma {:induction false} ConsumedExactly(events: seq<Value>, kind: seq<byte>, tick: nat) returns (k: nat)
    ensures k <= |events| && (forall j | 0 <= j < k :: PassedOver(events[j], tick))
    ensures k < |events| ==> !PassedOver(events[k], tick)
    ensures var served := k < |events| && events[k].Map? && KindOf(events[k].entries) == kind
        && TickOf(events[k].entries) == tick;
      Consumed(events, kind, tick)
      == if served then (events[k + 1..], Ok(PayloadOf(events[k].entries))) else (events[k..], Err)
  {
    hide KindOf, TickOf, PayloadOf;
    k := 0;
    if events != [] && PassedOver(events[0], tick) {
      k := ConsumedExactly(events[1..], kind, tick);
      k := k + 1;
    }
  }

  class Replayer {
    var events: seq<Value>

    constructor (log: seq<Value>)
      ensures events == log
    {
      events := log;
    }

    /** Serves the next event if it has the type and tick asked for, past any checkpoint no
        later than that tick; otherwise leaves it in place. */
    method ConsumeIntercept(kind: seq<byte>, tick: nat) returns (r: Result<Value>)
      modifies this
      ensures (events, r) == Consumed(old(events), kind, tick)
    {
      hide Lookup;
      while events != []
        invariant Consumed(events, kind, tick) == Consumed(old(events), kind, tick)
        decreases |events|
      {
        if !events[0].Map? {
          break;
        }
        var es := events[0].entries;
        if KindOf(es) == CHECKPOINT && TickOf(es) <= tick {
          events := events[1..];
          continue;
        }
        if TickOf(es) == tick && KindOf(es) == kind {
          r := Ok(PayloadOf(es));
          events := events[1..];
          return;
        }
        break;
      }
      r := Err;
    }

    /** The last checkpoint in the queue that is no later than the tick. */
    method FindCheckpointBefore(tick: nat) returns (r: Result<(nat, Value)>)
      ensures r.Err? <==> forall k | 0 <= k < |events| :: !Candidate(events[k], tick)
      ensures r.Ok? ==> exists k :: LastCandidate(events, tick, k) && r.value == CheckpointOf(events[k])
    {
      hide Candidate, CheckpointOf;
      r := Err;
      ghost var best := 0;
      for i := 0 to |events|
        invariant r.Err? <==> forall k | 0 <= k < i :: !Candidate(events[k], tick)
        invariant r.Ok? ==> 0 <= best < i && Candidate(events[best], tick) && r.value == CheckpointOf(events[best])
                            && forall k | best < k < i :: !Candidate(events[k], tick)
      {
        var hit := IsCandidate(events[i], tick);
        if hit {
          r := Ok(CheckpointOf(events[i]));
          best := i;
        }
      }
      assert r.Ok? ==> LastCandidate(events, tick, best);
    }
  }

  predicate Candidate(v: Value, tick: nat) {
    v.Map? && KindOf(v.entries) == CHECKPOINT && TickOf(v.entries) <= tick && Lookup(v.entries, PAYLOAD).Ok?
  }

  method IsCandidate(v: Value, tick: nat) returns (b: bool)
    ensures b <==> Candidate(v, tick)
  {
    b := v.Map? && KindOf(v.entries) == CHECKPOINT && TickOf(v.entries) <= tick && Lookup(v.entries, PAYLOAD).Ok?;
  }

  function CheckpointOf(v: Value): (nat, Value) {
    if v.Map? then (TickOf(v.entries), PayloadOf(v.entries)) else (0, Nothing)
  }

  ghost predicate LastCandidate(events: seq<Value>, tick: nat, k: int) {
    0 <= k < |events| && Candidate(events[k], tick) && forall m | k < m < |events| :: !Candidate(events[m], tick)
  }

  /** A recorded checkpoint is found again, with its tick and the generator's state, and nothing else
      that was recorded is taken for one. */
  lemma CheckpointFields(i: Item, tick: nat, rngState: seq<byte>, order: nat, until: nat)
    requires i.tick < LONG && tick < LONG
    ensures Candidate(EventOf(i), until) <==> i.kind == CHECKPOINT && i.tick <= until
    ensures CheckpointOf(EventOf(CheckpointItem(tick, rngState, order)))
      == (tick, Map([Entry(RNG_STATE, Str(rngState))]))
  {
    hide Lookup;
    EventFields(i);
    EventFields(CheckpointItem(tick, rngState, order));
  }

  // ----- Fidelity -----

  predicate IsCheckpoint(i: Item) {
    i.kind == CHECKPOINT
  }

  // The events a program asks for again: everything but the checkpoints.
  function Asked(items: seq<Item>): seq<Item> {
    if items == [] then []
    else (if IsCheckpoint(items[0]) then [] else [items[0]]) + Asked(items[1..])
  }

  /** They are the recorded items that are not checkpoints, picked by position. */
  lemma {:induction false} AskedByPosition(items: seq<Item>) returns (at: seq<nat>)
    ensures Finite.Ascending(at) && forall i: nat :: i in at <==> i < |items| && items[i].kind != CHECKPOINT
    ensures |Asked(items)| == |at| && forall k | 0 <= k < |at| :: at[k] < |items| && Asked(items)[k] == items[at[k]]
  {
    if items == [] {
      at := [];
    } else {
      var rest := AskedByPosition(items[1..]);
      var first := items[0].kind != CHECKPOINT;
      Finite.OneInFront(rest, first);
      Finite.PickedInFront(items, Asked(items[1..]), rest, first);
      at := Finite.InFront(rest, first);
    }
  }

  // Asking for the type and tick of each event in turn.
  function Served(events: seq<Value>, asked: seq<Item>): seq<Result<Value>>
    decreases |asked|
  {
    if asked == [] then []
    else
      var (rest, r) := Consumed(events, asked[0].kind, asked[0].tick);
      [r] + Served(rest, asked[1..])
  }

  function Payloads(asked: seq<Item>): seq<Result<Value>> {
    if asked == [] then [] else [Ok(asked[0].payload)] + Payloads(asked[1..])
  }

  /** Each checkpoint stands before an event no earlier than itself (or before none). */
  ghost predicate InOrder(items: seq<Item>) {
    items == [] || (InOrder(items[1..])
      && (IsCheckpoint(items[0]) && Asked(items[1..]) != [] ==> items[0].tick <= Asked(items[1..])[0].tick))
  }

  /** The recorder's clock does not run backwards. */
  ghost predicate TicksRise(items: seq<Item>) {
    forall i, j | 0 <= i < j < |items| :: items[i].tick <= items[j].tick
  }

  lemma {:induction false} AskedMember(items: seq<Item>, i: Item)
    requires i in Asked(items)
    ensures i in items
  {
    if i in Asked(items[1..]) {
      AskedMember(items[1..], i);
    }
  }

  lemma {:induction false} RisingIsInOrder(items: seq<Item>)
    requires TicksRise(items)
    ensures InOrder(items)
  {
    if items != [] {
      RisingIsInOrder(items[1..]);
      if Asked(items[1..]) != [] {
        AskedMember(items[1..], Asked(items[1..])[0]);
      }
    }
  }

  // Deltas of the state may stand between the events: a tick and what changed, but no type.
  datatype Frame = Event(item: Item) | Delta(tick: nat, changed: Value)

  function ValueOf(f: Frame): Value {
    match f
    case Event(i) => EventOf(i)
    case Delta(tick, changed) => Map([Entry(TICK, Int(Signed(tick % LONG))), Entry(CHANGED, changed)])
  }

  function FrameValues(log: seq<Frame>): seq<Value> {
    if log == [] then [] else [ValueOf(log[0])] + FrameValues(log[1..])
  }

  // The events a program asks for again.
  function AskedOf(log: seq<Frame>): seq<Item> {
    if log == [] then []
    else (if log[0].Event? && !IsCheckpoint(log[0].item) then [log[0].item] else []) + AskedOf(log[1..])
  }

  // As frames of the log.
  function AskedFrames(log: seq<Frame>): (r: seq<Frame>)
    ensures |r| == |AskedOf(log)| && forall k | 0 <= k < |r| :: r[k] == Event(AskedOf(log)[k])
  {
    seq(|AskedOf(log)|, k requires 0 <= k < |AskedOf(log)| => Event(AskedOf(log)[k]))
  }

  lemma AskedFramesStep(log: seq<Frame>)
    requires log != []
    ensures AskedFrames(log)
      == (if log[0].Event? && log[0].item.kind != CHECKPOINT then [log[0]] else []) + AskedFrames(log[1..])
  {
  }

  /** They are the events that are not checkpoints, picked by position. */
  lemma {:induction false} AskedOfByPosition(log: seq<Frame>) returns (at: seq<nat>)
    ensures Finite.Ascending(at)
      && forall i: nat :: i in at <==> i < |log| && log[i].Event? && log[i].item.kind != CHECKPOINT
    ensures |AskedOf(log)| == |at|
    ensures forall k | 0 <= k < |at| :: at[k] < |log| && log[at[k]] == AskedFrames(log)[k] == Event(AskedOf(log)[k])
  {
    if log == [] {
      at := [];
    } else {
      hide AskedOf;
      var rest := AskedOfByPosition(log[1..]);
      var first := log[0].Event? && log[0].item.kind != CHECKPOINT;
      Finite.OneInFront(rest, first);
      Finite.PickedInFront(log, AskedFrames(log[1..]), rest, first);
      AskedFramesStep(log);
      at := Finite.InFront(rest, first);
    }
  }

  /** No checkpoint is later than the event that follows it, and no event follows a delta. */
  ghost predicate Clear(log: seq<Frame>) {
    log == [] ||
    (Clear(log[1..]) && (AskedOf(log[1..]) != [] ==>
      match log[0]
      case Event(i) => IsCheckpoint(i) ==> i.tick <= AskedOf(log[1..])[0].tick
      case Delta(_, _) => false))
  }

  // Only where there are deltas does it matter that event types are not empty.
  ghost predicate WellTyped(log: seq<Frame>) {
    (forall f | f in log :: f.Event? ==> f.item.tick < LONG)
    && ((forall f | f in log :: f.Event?) || (forall f | f in log :: f.Event? ==> f.item.kind != []))
  }

  lemma DeltaFields(tick: nat, changed: Value)
    ensures KindOf(ValueOf(Delta(tick, changed)).entries) == []
  {
    assert TICK != TYPE && CHANGED != TYPE by { assert TICK[1] != TYPE[1] && |CHANGED| != |TYPE|; }
    var es := ValueOf(Delta(tick, changed)).entries;
    assert Lookup(es[1..], TYPE) == Lookup(es[1..][1..], TYPE) == Err;
  }

  lemma {:induction false} AskedIsTyped(log: seq<Frame>)
    requires forall f | f in log :: f.Event? ==> f.item.kind != []
    ensures forall i | i in AskedOf(log) :: i.kind != []
  {
    if log != [] {
      AskedIsTyped(log[1..]);
    }
  }

  // What stands in front of the next event asked for: a checkpoint or a delta.
  lemma InFront(f: Frame, events: seq<Value>, next: Item)
    requires f.Event? ==> IsCheckpoint(f.item) && f.item.tick < LONG
    requires f.Delta? ==> next.kind != []
    ensures var c := Consumed([ValueOf(f)] + events, next.kind, next.tick);
      if f.Event? && f.item.tick <= next.tick then c == Consumed(events, next.kind, next.tick)
        else next.kind != CHECKPOINT ==> c.1 == Err
  {
    hide Lookup;
    if f.Event? {
      EventFields(f.item);
    } else {
      DeltaFields(f.tick, f.changed);
    }
    var all := [ValueOf(f)] + events;
    assert all[0] == ValueOf(f) && all[1..] == events;
  }

  lemma {:induction false} AskedIsNoCheckpoint(log: seq<Frame>)
    ensures forall i | i in AskedOf(log) :: i.kind != CHECKPOINT
  {
    if log != [] {
      AskedIsNoCheckpoint(log[1..]);
    }
  }

  /** Asking for the recorded events in turn returns exactly their payloads, whatever
      checkpoints stand between them and whatever deltas behind them, if and only if no
      checkpoint is later than the event that follows it and no event follows a delta. */
  lemma {:induction false} FaithfulExactlyWhenClear(log: seq<Frame>)
    requires WellTyped(log)
    ensures Served(FrameValues(log), AskedOf(log)) == Payloads(AskedOf(log)) <==> Clear(log)
  {
    if log != [] {
      var f, rest := log[0], log[1..];
      FaithfulExactlyWhenClear(rest);
      var events, asked := FrameValues(log), AskedOf(log);
      assert events == [ValueOf(f)] + FrameValues(rest) && events[0] == ValueOf(f) && events[1..] == FrameValues(rest);
      AskedIsNoCheckpoint(log);
      assert f in log;
      if f.Event? && !IsCheckpoint(f.item) {
        EventFields(f.item);
        hide EventOf, Lookup, FrameValues;
        assert asked[0] == f.item && asked[1..] == AskedOf(rest);
        assert Consumed(events, f.item.kind, f.item.tick) == (FrameValues(rest), Ok(f.item.payload));
        SplitServed(events, asked);
      } else if asked != [] {
        assert asked == AskedOf(rest);
        if f.Delta? {
          AskedIsTyped(log);
        }
        hide Consumed, FrameValues, ValueOf;
        InFront(f, FrameValues(rest), asked[0]);
        SplitServed(events, asked);
        SplitServed(FrameValues(rest), asked);
      }
    }
  }

  function Events(items: seq<Item>): seq<Frame> {
    if items == [] then [] else [Event(items[0])] + Events(items[1..])
  }

  lemma {:induction false} EventsAlone(items: seq<Item>)
    ensures FrameValues(Events(items)) == Values(items) && AskedOf(Events(items)) == Asked(items)
    ensures Clear(Events(items)) <==> InOrder(items)
    ensures forall f :: f in Events(items) ==> f.Event? && f.item in items
  {
    if items != [] {
      EventsAlone(items[1..]);
    }
  }

  /** The same for a log of events and checkpoints alone. */
  lemma FaithfulExactlyInOrder(items: seq<Item>)
    requires forall i | i in items :: i.tick < LONG
    ensures Served(Values(items), Asked(items)) == Payloads(Asked(items)) <==> InOrder(items)
  {
    EventsAlone(items);
    hide Served, Payloads;
    FaithfulExactlyWhenClear(Events(items));
  }

  /** A checkpoint of tick 5 in front of an event of tick 3: the event is not served. */
  lemma LateCheckpointBlocks()
    ensures var items := [CheckpointItem(5, [], 0), Item([116], 3, Nothing, 0)];
      !InOrder(items) && Served(Values(items), Asked(items)) != Payloads(Asked(items))
  {
    var items := [CheckpointItem(5, [], 0), Item([116], 3, Nothing, 0)];
    assert Asked(items[1..]) == [items[1]] + Asked([]) && items[1..][1..] == [];
    FaithfulExactlyInOrder(items);
  }

  /** A delta in front of an event: the event is not served. */
  lemma DeltaBlocks()
    ensures var log := [Delta(3, Nothing), Event(Item([116], 3, Nothing, 0))];
      !Clear(log) && Served(FrameValues(log), AskedOf(log)) != Payloads(AskedOf(log))
  {
    var log := [Delta(3, Nothing), Event(Item([116], 3, Nothing, 0))];
    assert log[1..][1..] == [] && AskedOf(log[1..]) == [log[1].item] + AskedOf([]);
    FaithfulExactlyWhenClear(log);
  }

  lemma SplitServed(events: seq<Value>, asked: seq<Item>)
    requires asked != []
    ensures var (rest, r) := Consumed(events, asked[0].kind, asked[0].tick);
      Served(events, asked) == Payloads(asked) <==>
        r == Ok(asked[0].payload) && Served(rest, asked[1..]) == Payloads(asked[1..])
  {
    hide Consumed;
    var (rest, r) := Consumed(events, asked[0].kind, asked[0].tick);
    var a, p := Served(events, asked), Payloads(asked);
    assert a == [r] + Served(rest, asked[1..]) && p == [Ok(asked[0].payload)] + Payloads(asked[1..]);
    assert a[0] == r && a[1..] == Served(rest, asked[1..]);
    assert p[0] == Ok(asked[0].payload) && p[1..] == Payloads(asked[1..]);
  }

  /** A log written with a clock that does not run backwards replays to the same payloads. */
  lemma ReplayIsFaithful(items: seq<Item>)
    requires (forall i | i in items :: Recordable(i)) && TicksRise(items)
    ensures ReadLog(MAGIC + Frames(items)) == Ok(Values(items))
    ensures Served(Values(items), Asked(items)) == Payloads(Asked(items))
  {
    hide Served, Payloads, Values, Frames, ReadLog;
    LogReadsBack(items);
    RisingIsInOrder(items);
    assert forall i | i in items :: Recordable(i);
    FaithfulExactlyInOrder(items);
  }
}
