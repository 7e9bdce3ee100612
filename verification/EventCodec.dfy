/** indexer/src/stream/decoder.rs and the Borsh layouts of indexer/src/contracts.rs: the frame
    of an emitted event and its strict parser. */
module EventCodec {
  import opened Wrappers
  import opened Numbers

  type byte = x: int | 0 <= x < 256
  type Key = k: seq<byte> | |k| == 32 witness seq(32, _ => 0)

  /** The four events, with their fields in the order Borsh writes them. */
  datatype Event =
    | PoolCreated(pool: Key, config: Key, tokenMint: Key, lpMint: Key, creator: Key,
                  solInGross: u64, solInNet: u64, tokensInGross: u64, tokensInNet: u64,
                  solReserveAfter: u64, tokenReserveAfter: u64, lpSupplyAfter: u64,
                  lpToCreator: u64, lpLocked: u64)
    | LiquidityAdded(pool: Key, provider: Key,
                     solInGross: u64, solInNet: u64, tokensInGross: u64, tokensInNet: u64,
                     lpToProvider: u64, lpLocked: u64,
                     solReserveAfter: u64, tokenReserveAfter: u64, lpSupplyAfter: u64)
    | LiquidityRemoved(pool: Key, provider: Key, lpBurned: u64,
                       solOutGross: u64, solOutNet: u64, tokensOutGross: u64, tokensOutNet: u64,
                       solReserveAfter: u64, tokenReserveAfter: u64, lpSupplyAfter: u64)
    | SwapExecuted(pool: Key, user: Key, solSource: Key, buy: bool,
                   amountInGross: u64, amountInNet: u64, amountOutGross: u64, amountOutNet: u64,
                   fee: u64, solReserveAfter: u64, tokenReserveAfter: u64)

  datatype Kind = PoolCreatedKind | LiquidityAddedKind | LiquidityRemovedKind | SwapExecutedKind

  datatype DecodeError = TooShort | UnknownDiscriminator | TrailingBytes | Borsh

  const EVENT_IX_TAG_LE: seq<byte> := [0xe4, 0x45, 0xa5, 0x2e, 0x51, 0xcb, 0x9a, 0x1d]

  function Discriminator(kind: Kind): (d: seq<byte>)
    ensures |d| == 8
  {
    match kind
    case PoolCreatedKind => [202, 44, 41, 88, 104, 220, 157, 82]
    case LiquidityAddedKind => [154, 26, 221, 108, 238, 64, 217, 161]
    case LiquidityRemovedKind => [225, 105, 216, 39, 124, 116, 169, 189]
    case SwapExecutedKind => [150, 166, 26, 225, 28, 89, 38, 79]
  }

  function KindOf(disc: seq<byte>): Option<Kind> {
    if disc == Discriminator(PoolCreatedKind) then Some(PoolCreatedKind)
    else if disc == Discriminator(SwapExecutedKind) then Some(SwapExecutedKind)
    else if disc == Discriminator(LiquidityAddedKind) then Some(LiquidityAddedKind)
    else if disc == Discriminator(LiquidityRemovedKind) then Some(LiquidityRemovedKind)
    else None
  }

  lemma KindOfDiscriminator(kind: Kind)
    ensures KindOf(Discriminator(kind)) == Some(kind)
  {
    assert Discriminator(PoolCreatedKind)[0] == 202;
    assert Discriminator(LiquidityAddedKind)[0] == 154;
    assert Discriminator(LiquidityRemovedKind)[0] == 225;
    assert Discriminator(SwapExecutedKind)[0] == 150;
  }

  // ----- one field -----

  datatype Field = KeyField | WordField | FlagField

  datatype Value = KeyValue(key: Key) | WordValue(word: u64) | FlagValue(flag: bool)

  predicate HasType(v: Value, f: Field) {
    match f
    case KeyField => v.KeyValue?
    case WordField => v.WordValue?
    case FlagField => v.FlagValue?
  }

  function Power256(n: nat): (p: nat)
    ensures p > 0
  {
    if n == 0 then 1 else 256 * Power256(n - 1)
  }

  /** The n low bytes of w, least significant first. */
  function LittleEndian(w: nat, n: nat): (bs: seq<byte>)
    ensures |bs| == n
    decreases n
  {
    if n == 0 then [] else [w % 256] + LittleEndian(w / 256, n - 1)
  }

  function FromLittleEndian(bs: seq<byte>): (w: nat)
    ensures w < Power256(|bs|)
  {
    if bs == [] then 0 else bs[0] + 256 * FromLittleEndian(bs[1..])
  }

  lemma {:induction false} LittleEndianRoundTrip(w: nat, n: nat)
    requires w < Power256(n)
    ensures FromLittleEndian(LittleEndian(w, n)) == w
    decreases n
  {
    if n > 0 {
      LittleEndianRoundTrip(w / 256, n - 1);
      assert LittleEndian(w, n)[1..] == LittleEndian(w / 256, n - 1);
    }
  }

  lemma LowByte(b: byte, high: nat)
    ensures (b + 256 * high) % 256 == b && (b + 256 * high) / 256 == high
  {
  }

  lemma {:induction false} LittleEndianUnique(bs: seq<byte>)
    ensures LittleEndian(FromLittleEndian(bs), |bs|) == bs
    decreases |bs|
  {
    if bs != [] {
      LittleEndianUnique(bs[1..]);
      LowByte(bs[0], FromLittleEndian(bs[1..]));
    }
  }

  lemma Power256Is64()
    ensures Power256(8) == TWO_64
  {
    assert Power256(2) == 0x1_0000;
    assert Power256(4) == 0x1_0000_0000;
    assert Power256(6) == 0x1_0000_0000_0000;
  }

  function Width(f: Field): nat {
    match f
    case KeyField => 32
    case WordField => 8
    case FlagField => 1
  }

  function EncodeValue(v: Value): seq<byte> {
    match v
    case KeyValue(k) => k
    case WordValue(w) => LittleEndian(w, 8)
    case FlagValue(b) => [if b then 1 else 0]
  }

  /** Reads one field off the front of the payload; a short payload or a flag other than 0 or 1
      is a Borsh error. */
  function DecodeValue(f: Field, payload: seq<byte>): (r: Result<Value, DecodeError>)
    ensures r.Success? ==> Width(f) <= |payload|
  {
    if |payload| < Width(f) then Failure(Borsh)
    else
      match f
      case KeyField => Success(KeyValue(payload[..32]))
      case WordField => Power256Is64(); Success(WordValue(FromLittleEndian(payload[..8])))
      case FlagField =>
        if payload[0] == 0 then Success(FlagValue(false))
        else if payload[0] == 1 then Success(FlagValue(true))
        else Failure(Borsh)
  }

  lemma ValueRoundTrip(v: Value, f: Field, rest: seq<byte>)
    requires HasType(v, f)
    ensures |EncodeValue(v)| == Width(f)
    ensures DecodeValue(f, EncodeValue(v) + rest) == Success(v)
    ensures (EncodeValue(v) + rest)[Width(f)..] == rest
  {
    hide FromLittleEndian, LittleEndian;
    var bytes := EncodeValue(v);
    assert (bytes + rest)[..|bytes|] == bytes;
    assert (bytes + rest)[|bytes|..] == rest;
    if f.WordField? {
      Power256Is64();
      LittleEndianRoundTrip(v.word, 8);
    }
  }

  lemma ValueUnique(f: Field, payload: seq<byte>)
    requires DecodeValue(f, payload).Success?
    ensures |payload| >= Width(f)
    ensures HasType(DecodeValue(f, payload).value, f)
    ensures EncodeValue(DecodeValue(f, payload).value) == payload[..Width(f)]
  {
    hide FromLittleEndian, LittleEndian;
    if f.WordField? {
      LittleEndianUnique(payload[..8]);
    }
  }

  // ----- a struct -----

  predicate HasTypes(vs: seq<Value>, layout: seq<Field>) {
    |vs| == |layout| && forall i :: 0 <= i < |vs| ==> HasType(vs[i], layout[i])
  }

  function EncodeValues(vs: seq<Value>): seq<byte> {
    if vs == [] then [] else EncodeValue(vs[0]) + EncodeValues(vs[1..])
  }

  function DecodeValues(layout: seq<Field>, payload: seq<byte>): Result<(seq<Value>, seq<byte>), DecodeError> {
    if layout == [] then Success(([], payload))
    else
      var v :- DecodeValue(layout[0], payload);
      var rest :- DecodeValues(layout[1..], payload[Width(layout[0])..]);
      Success(([v] + rest.0, rest.1))
  }

  lemma {:induction false} ValuesRoundTrip(vs: seq<Value>, layout: seq<Field>, rest: seq<byte>)
    requires HasTypes(vs, layout)
    ensures DecodeValues(layout, EncodeValues(vs) + rest) == Success((vs, rest))
    decreases |vs|
  {
    if vs == [] {
      assert EncodeValues(vs) + rest == rest;
    } else {
      var tail := EncodeValues(vs[1..]) + rest;
      assert EncodeValues(vs) + rest == EncodeValue(vs[0]) + tail;
      ValueRoundTrip(vs[0], layout[0], tail);
      ValuesRoundTrip(vs[1..], layout[1..], rest);
      assert [vs[0]] + vs[1..] == vs;
    }
  }

  lemma HasTypesCons(v: Value, f: Field, vs: seq<Value>, layout: seq<Field>)
    requires HasType(v, f) && HasTypes(vs, layout)
    ensures HasTypes([v] + vs, [f] + layout)
    ensures EncodeValues([v] + vs) == EncodeValue(v) + EncodeValues(vs)
  {
    assert ([v] + vs)[1..] == vs;
  }

  lemma {:induction false} ValuesUnique(layout: seq<Field>, payload: seq<byte>)
    requires DecodeValues(layout, payload).Success?
    ensures HasTypes(DecodeValues(layout, payload).value.0, layout)
    ensures payload == EncodeValues(DecodeValues(layout, payload).value.0) + DecodeValues(layout, payload).value.1
    decreases |layout|
  {
    if layout == [] {
      assert [] + payload == payload;
    } else {
      var f, rest := layout[0], payload[Width(layout[0])..];
      var v := DecodeValue(f, payload).value;
      var (vs, left) := DecodeValues(layout[1..], rest).value;
      assert DecodeValues(layout, payload) == Success(([v] + vs, left));
      assert [f] + layout[1..] == layout;
      hide *;
      ValueUnique(f, payload);
      ValuesUnique(layout[1..], rest);
      HasTypesCons(v, f, vs, layout[1..]);
      Regroup(payload, Width(f), EncodeValue(v), EncodeValues(vs), left);
    }
  }

  lemma Regroup(payload: seq<byte>, n: nat, a: seq<byte>, b: seq<byte>, left: seq<byte>)
    requires n <= |payload| && a == payload[..n] && payload[n..] == b + left
    ensures payload == (a + b) + left
  {
    assert payload == a + payload[n..];
  }

  // ----- an event -----

  function Layout(kind: Kind): seq<Field> {
    match kind
    case PoolCreatedKind =>
      [KeyField, KeyField, KeyField, KeyField, KeyField, WordField, WordField, WordField, WordField,
       WordField, WordField, WordField, WordField, WordField]
    case LiquidityAddedKind =>
      [KeyField, KeyField, WordField, WordField, WordField, WordField, WordField, WordField, WordField, WordField, WordField]
    case LiquidityRemovedKind =>
      [KeyField, KeyField, WordField, WordField, WordField, WordField, WordField, WordField, WordField, WordField]
    case SwapExecutedKind =>
      [KeyField, KeyField, KeyField, FlagField, WordField, WordField, WordField, WordField, WordField, WordField, WordField]
  }

  function KindOfEvent(e: Event): Kind {
    match e
    case PoolCreated(_, _, _, _, _, _, _, _, _, _, _, _, _, _) => PoolCreatedKind
    case LiquidityAdded(_, _, _, _, _, _, _, _, _, _, _) => LiquidityAddedKind
    case LiquidityRemoved(_, _, _, _, _, _, _, _, _, _) => LiquidityRemovedKind
    case SwapExecuted(_, _, _, _, _, _, _, _, _, _, _) => SwapExecutedKind
  }

  function ToValues(e: Event): seq<Value> {
    match e
    case PoolCreated(k0, k1, k2, k3, k4, a, b, c, d, f, g, h, i, j) =>
      [KeyValue(k0), KeyValue(k1), KeyValue(k2), KeyValue(k3), KeyValue(k4),
       WordValue(a), WordValue(b), WordValue(c), WordValue(d), WordValue(f),
       WordValue(g), WordValue(h), WordValue(i), WordValue(j)]
    case LiquidityAdded(k0, k1, a, b, c, d, f, g, h, i, j) =>
      [KeyValue(k0), KeyValue(k1), WordValue(a), WordValue(b), WordValue(c), WordValue(d),
       WordValue(f), WordValue(g), WordValue(h), WordValue(i), WordValue(j)]
    case LiquidityRemoved(k0, k1, a, b, c, d, f, g, h, i) =>
      [KeyValue(k0), KeyValue(k1), WordValue(a), WordValue(b), WordValue(c), WordValue(d),
       WordValue(f), WordValue(g), WordValue(h), WordValue(i)]
    case SwapExecuted(k0, k1, k2, y, a, b, c, d, f, g, h) =>
      [KeyValue(k0), KeyValue(k1), KeyValue(k2), FlagValue(y), WordValue(a), WordValue(b),
       WordValue(c), WordValue(d), WordValue(f), WordValue(g), WordValue(h)]
  }

  function FromValues(kind: Kind, vs: seq<Value>): Event
    requires HasTypes(vs, Layout(kind))
  {
    match kind
    case PoolCreatedKind =>
      PoolCreated(vs[0].key, vs[1].key, vs[2].key, vs[3].key, vs[4].key,
                  vs[5].word, vs[6].word, vs[7].word, vs[8].word, vs[9].word,
                  vs[10].word, vs[11].word, vs[12].word, vs[13].word)
    case LiquidityAddedKind =>
      LiquidityAdded(vs[0].key, vs[1].key, vs[2].word, vs[3].word, vs[4].word, vs[5].word,
                     vs[6].word, vs[7].word, vs[8].word, vs[9].word, vs[10].word)
    case LiquidityRemovedKind =>
      LiquidityRemoved(vs[0].key, vs[1].key, vs[2].word, vs[3].word, vs[4].word, vs[5].word,
                       vs[6].word, vs[7].word, vs[8].word, vs[9].word)
    case SwapExecutedKind =>
      SwapExecuted(vs[0].key, vs[1].key, vs[2].key, vs[3].flag, vs[4].word, vs[5].word,
                   vs[6].word, vs[7].word, vs[8].word, vs[9].word, vs[10].word)
  }

  lemma EventHasTypes(e: Event)
    ensures HasTypes(ToValues(e), Layout(KindOfEvent(e)))
  {
  }

  lemma EventValues(e: Event)
    ensures HasTypes(ToValues(e), Layout(KindOfEvent(e)))
    ensures FromValues(KindOfEvent(e), ToValues(e)) == e
  {
    EventHasTypes(e);
    hide HasTypes, Layout;
  }

  lemma ValuesEvent(kind: Kind, vs: seq<Value>)
    requires HasTypes(vs, Layout(kind))
    ensures KindOfEvent(FromValues(kind, vs)) == kind
    ensures ToValues(FromValues(kind, vs)) == vs
  {
  }

  /** The bytes `emit_cpi!` puts into the instruction: tag, discriminator, Borsh body. */
  function Frame(e: Event): seq<byte> {
    EVENT_IX_TAG_LE + Discriminator(KindOfEvent(e)) + EncodeValues(ToValues(e))
  }

  function Decode(data: seq<byte>): Result<Event, DecodeError> {
    if |data| < 16 then Failure(TooShort)
    else if data[..8] != EVENT_IX_TAG_LE then Failure(UnknownDiscriminator)
    else
      var kind :- OkOr(KindOf(data[8..16]), UnknownDiscriminator);
      var fields :- DecodeValues(Layout(kind), data[16..]);
      if fields.1 != [] then Failure(TrailingBytes)
      else
        ValuesUnique(Layout(kind), data[16..]);
        Success(FromValues(kind, fields.0))
  }

  /** Every event survives framing and decoding. */
  lemma FrameRoundTrip(e: Event)
    ensures Decode(Frame(e)) == Success(e)
  {
    var data := Frame(e);
    var body := EncodeValues(ToValues(e));
    assert data[..8] == EVENT_IX_TAG_LE;
    assert data[8..16] == Discriminator(KindOfEvent(e));
    assert data[16..] == body && body + [] == body;
    KindOfDiscriminator(KindOfEvent(e));
    EventValues(e);
    hide Layout, ToValues, FromValues, KindOf, Discriminator, EncodeValues, DecodeValues, KindOfEvent;
    ValuesRoundTrip(ToValues(e), Layout(KindOfEvent(e)), []);
  }

  lemma DecodeParts(data: seq<byte>) returns (kind: Kind, vs: seq<Value>)
    requires Decode(data).Success?
    ensures HasTypes(vs, Layout(kind)) && Decode(data).value == FromValues(kind, vs)
    ensures |data| >= 16 && data[..8] == EVENT_IX_TAG_LE && data[8..16] == Discriminator(kind)
    ensures data[16..] == EncodeValues(vs)
  {
    hide Layout, ToValues, FromValues, EncodeValues, DecodeValues, HasTypes;
    kind := KindOf(data[8..16]).value;
    ValuesUnique(Layout(kind), data[16..]);
    vs := DecodeValues(Layout(kind), data[16..]).value.0;
    assert EncodeValues(vs) + [] == EncodeValues(vs);
  }

  /** And nothing else decodes: accepted bytes are exactly the frame of the event they give, so
      no event has a second encoding and no frame carries trailing bytes. */
  lemma DecodeUnique(data: seq<byte>)
    requires Decode(data).Success?
    ensures data == Frame(Decode(data).value)
  {
    hide *;
    var kind, vs := DecodeParts(data);
    FrameOf(kind, vs);
    assert data == data[..8] + data[8..16] + data[16..];
  }

  lemma FrameOf(kind: Kind, vs: seq<Value>)
    requires HasTypes(vs, Layout(kind))
    ensures Frame(FromValues(kind, vs)) == EVENT_IX_TAG_LE + Discriminator(kind) + EncodeValues(vs)
  {
    ValuesEvent(kind, vs);
    hide Layout, ToValues, FromValues, Discriminator, EncodeValues, KindOfEvent, HasTypes;
  }

  /** The parser as it runs, moving a cursor over the payload field by field. */
  method TryDecodeEvent(data: seq<byte>) returns (r: Result<Event, DecodeError>)
    ensures r == Decode(data)
  {
    hide Layout, FromValues, Discriminator, HasTypes;
    if |data| < 16 {
      return Failure(TooShort);
    }
    if data[..8] != EVENT_IX_TAG_LE {
      return Failure(UnknownDiscriminator);
    }
    var kind := KindOf(data[8..16]);
    if kind.None? {
      return Failure(UnknownDiscriminator);
    }
    var layout := Layout(kind.value);
    var payload := data[16..];
    var vs: seq<Value> := [];
    var i := 0;
    assert layout[0..] == layout;
    PrependNothing(DecodeValues(layout, payload));
    while i < |layout|
      invariant 0 <= i <= |layout|
      invariant DecodeValues(layout, data[16..]) == Prepend(vs, DecodeValues(layout[i..], payload))
    {
      assert layout[i..][0] == layout[i] && layout[i..][1..] == layout[i + 1..];
      var v := DecodeValue(layout[i], payload);
      if v.Failure? {
        return Failure(v.error);
      }
      ghost var later := DecodeValues(layout[i + 1..], payload[Width(layout[i])..]);
      if later.Success? {
        assert vs + ([v.value] + later.value.0) == (vs + [v.value]) + later.value.0;
      }
      vs := vs + [v.value];
      payload := payload[Width(layout[i])..];
      i := i + 1;
    }
    assert layout[i..] == [];
    assert vs + [] == vs;
    if payload != [] {
      return Failure(TrailingBytes);
    }
    ValuesUnique(layout, data[16..]);
    return Success(FromValues(kind.value, vs));
  }

  function Prepend(vs: seq<Value>, r: Result<(seq<Value>, seq<byte>), DecodeError>)
    : Result<(seq<Value>, seq<byte>), DecodeError>
  {
    if r.Success? then Success((vs + r.value.0, r.value.1)) else Failure(r.error)
  }

  lemma PrependNothing(r: Result<(seq<Value>, seq<byte>), DecodeError>)
    ensures Prepend([], r) == r
  {
    if r.Success? {
      assert [] + r.value.0 == r.value.0;
    }
  }
}
