/** The four event frames byte by byte: which byte strings the parser accepts, as which event, and
    with which numbers. Nothing here refers to the encoder or to the parser's own tables. */
module EventBytes {
  import opened Wrappers
  import opened Numbers
  import opened EventCodec

  /** The little-endian number in the eight bytes from `at`. */
  function Number(data: seq<byte>, at: nat): nat
    requires at + 8 <= |data|
  {
    data[at] as int + data[at + 1] as int * 0x100 + data[at + 2] as int * 0x1_0000
    + data[at + 3] as int * 0x100_0000 + data[at + 4] as int * 0x1_0000_0000
    + data[at + 5] as int * 0x100_0000_0000 + data[at + 6] as int * 0x1_0000_0000_0000
    + data[at + 7] as int * 0x100_0000_0000_0000
  }

  /** The first 16 bytes: the tag common to all events, and the kind's own eight. */
  predicate StartsWith(data: seq<byte>, head: seq<byte>) {
    |head| <= |data| && data[..|head|] == head
  }

  const CREATED_HEAD: seq<byte> := [228, 69, 165, 46, 81, 203, 154, 29,
    202, 44, 41, 88, 104, 220, 157, 82]
  const ADDED_HEAD: seq<byte> := [228, 69, 165, 46, 81, 203, 154, 29,
    154, 26, 221, 108, 238, 64, 217, 161]
  const REMOVED_HEAD: seq<byte> := [228, 69, 165, 46, 81, 203, 154, 29,
    225, 105, 216, 39, 124, 116, 169, 189]
  const SWAP_HEAD: seq<byte> := [228, 69, 165, 46, 81, 203, 154, 29,
    150, 166, 26, 225, 28, 89, 38, 79]

  // ----- where a field stands -----

  function Offset(layout: seq<Field>, k: nat): nat
    requires k <= |layout|
  {
    if k == 0 then 0 else Offset(layout, k - 1) + Width(layout[k - 1])
  }

  lemma {:induction false} OffsetRest(layout: seq<Field>, k: nat)
    requires 0 < k <= |layout|
    ensures Offset(layout, k) == Width(layout[0]) + Offset(layout[1..], k - 1)
  {
    if k > 1 {
      OffsetRest(layout, k - 1);
      assert layout[1..][k - 2] == layout[k - 1];
    }
  }

  lemma {:induction false} OffsetGrows(layout: seq<Field>, k: nat, n: nat)
    requires k <= n <= |layout|
    ensures Offset(layout, k) <= Offset(layout, n)
    decreases n
  {
    if k < n {
      OffsetGrows(layout, k, n - 1);
    }
  }

  /** The field reads well from its own place. */
  predicate FieldOk(layout: seq<Field>, payload: seq<byte>, k: nat)
    requires k < |layout|
  {
    && Offset(layout, k) + Width(layout[k]) <= |payload|
    && (layout[k].FlagField? ==> payload[Offset(layout, k)] <= 1)
  }

  /** Its value from there. */
  function FieldAt(layout: seq<Field>, payload: seq<byte>, k: nat): Value
    requires k < |layout| && FieldOk(layout, payload, k)
  {
    var at := Offset(layout, k);
    match layout[k]
    case KeyField => KeyValue(payload[at..at + 32])
    case WordField =>
      NumberFits(payload, at);
      WordValue(Number(payload, at))
    case FlagField => FlagValue(payload[at] == 1)
  }

  lemma NumberFits(data: seq<byte>, at: nat)
    requires at + 8 <= |data|
    ensures Number(data, at) < TWO_64
  {
  }

  lemma NumberIs(data: seq<byte>, at: nat)
    requires at + 8 <= |data|
    ensures FromLittleEndian(data[at..at + 8]) == Number(data, at)
  {
    var bs := data[at..at + 8];
    var b1, b2, b3 := bs[1..], bs[2..], bs[3..];
    var b4, b5, b6, b7 := bs[4..], bs[5..], bs[6..], bs[7..];
    assert b1[1..] == b2 && b2[1..] == b3 && b3[1..] == b4 && b4[1..] == b5 && b5[1..] == b6 && b6[1..] == b7;
    assert b7[1..] == [];
    assert FromLittleEndian(b7) == bs[7] + 256 * FromLittleEndian([]);
    assert FromLittleEndian(b6) == bs[6] + 256 * FromLittleEndian(b7);
    assert FromLittleEndian(b5) == bs[5] + 256 * FromLittleEndian(b6);
    assert FromLittleEndian(b4) == bs[4] + 256 * FromLittleEndian(b5);
    assert FromLittleEndian(b3) == bs[3] + 256 * FromLittleEndian(b4);
    assert FromLittleEndian(b2) == bs[2] + 256 * FromLittleEndian(b3);
    assert FromLittleEndian(b1) == bs[1] + 256 * FromLittleEndian(b2);
  }

  lemma FirstField(layout: seq<Field>, payload: seq<byte>)
    requires layout != []
    ensures DecodeValue(layout[0], payload) ==
              if FieldOk(layout, payload, 0) then Success(FieldAt(layout, payload, 0)) else Failure(Borsh)
  {
    if layout[0].WordField? && |payload| >= 8 {
      NumberIs(payload, 0);
    }
    assert Offset(layout, 0) == 0;
  }

  lemma SliceShift(payload: seq<byte>, w: nat, at: nat, n: nat)
    requires w + at + n <= |payload|
    ensures payload[w..][at..at + n] == payload[w + at..w + at + n]
  {
  }

  lemma NumberShift(payload: seq<byte>, w: nat, at: nat)
    requires w + at + 8 <= |payload|
    ensures Number(payload[w..], at) == Number(payload, w + at)
  {
  }

  lemma LaterField(layout: seq<Field>, payload: seq<byte>, k: nat)
    requires 0 < k < |layout| && Width(layout[0]) <= |payload|
    ensures FieldOk(layout, payload, k) <==> FieldOk(layout[1..], payload[Width(layout[0])..], k - 1)
    ensures FieldOk(layout, payload, k) ==>
              FieldAt(layout, payload, k) == FieldAt(layout[1..], payload[Width(layout[0])..], k - 1)
  {
    OffsetRest(layout, k);
    var w, at := Width(layout[0]), Offset(layout[1..], k - 1);
    assert layout[1..][k - 1] == layout[k];
    hide Offset, Number;
    if w + at + Width(layout[k]) <= |payload| {
      SliceShift(payload, w, at, Width(layout[k]));
      if layout[k].WordField? {
        NumberShift(payload, w, at);
      }
    }
  }

  ghost predicate AllOk(layout: seq<Field>, payload: seq<byte>) {
    forall k :: 0 <= k < |layout| ==> FieldOk(layout, payload, k)
  }

  /** The values of all fields from their own places, and what is left after them. */
  ghost predicate Parsed(layout: seq<Field>, payload: seq<byte>, vs: seq<Value>, rest: seq<byte>) {
    && |vs| == |layout|
    && (forall k :: 0 <= k < |layout| ==> FieldOk(layout, payload, k) && vs[k] == FieldAt(layout, payload, k))
    && Offset(layout, |layout|) <= |payload| && rest == payload[Offset(layout, |layout|)..]
  }

  /** A body parses exactly when every field reads well from its own place, into these values. */
  lemma {:induction false} BodyIff(layout: seq<Field>, payload: seq<byte>)
    ensures match DecodeValues(layout, payload)
            case Success((vs, rest)) => AllOk(layout, payload) && Parsed(layout, payload, vs, rest)
            case Failure(e) => !AllOk(layout, payload) && e == Borsh
    decreases |layout|
  {
    if layout == [] {
      assert payload[0..] == payload;
    } else {
      FirstField(layout, payload);
      hide FieldOk, FieldAt, DecodeValue, Offset, Parsed, AllOk;
      if FieldOk(layout, payload, 0) {
        var rest := payload[Width(layout[0])..];
        BodyIff(layout[1..], rest);
        match DecodeValues(layout[1..], rest)
        case Success((vs, left)) => ParsedStep(layout, payload, vs, left);
        case Failure(_) => NotOkStep(layout, payload);
      } else {
        FirstNotOk(layout, payload);
      }
    }
  }

  lemma FirstNotOk(layout: seq<Field>, payload: seq<byte>)
    requires layout != [] && !FieldOk(layout, payload, 0)
    ensures !AllOk(layout, payload)
  {
  }

  lemma NotOkStep(layout: seq<Field>, payload: seq<byte>)
    requires layout != [] && Width(layout[0]) <= |payload|
    requires !AllOk(layout[1..], payload[Width(layout[0])..])
    ensures !AllOk(layout, payload)
  {
    hide FieldOk;
    var k :| 0 <= k < |layout| - 1 && !FieldOk(layout[1..], payload[Width(layout[0])..], k);
    LaterField(layout, payload, k + 1);
  }

  lemma ParsedStep(layout: seq<Field>, payload: seq<byte>, vs: seq<Value>, left: seq<byte>)
    requires layout != [] && FieldOk(layout, payload, 0) && Width(layout[0]) <= |payload|
    requires Parsed(layout[1..], payload[Width(layout[0])..], vs, left)
    ensures AllOk(layout, payload) && Parsed(layout, payload, [FieldAt(layout, payload, 0)] + vs, left)
  {
    hide FieldOk, FieldAt;
    OffsetRest(layout, |layout|);
    forall k | 0 < k < |layout|
      ensures FieldOk(layout, payload, k) && vs[k - 1] == FieldAt(layout, payload, k)
    {
      LaterField(layout, payload, k);
    }
    hide Offset;
  }

  // ----- any frame -----

  function Head(kind: Kind): seq<byte> {
    match kind
    case PoolCreatedKind => CREATED_HEAD
    case LiquidityAddedKind => ADDED_HEAD
    case LiquidityRemovedKind => REMOVED_HEAD
    case SwapExecutedKind => SWAP_HEAD
  }

  lemma HeadIs(kind: Kind)
    ensures Head(kind) == EVENT_IX_TAG_LE + Discriminator(kind)
  {
  }

  lemma KindOfIs(disc: seq<byte>, kind: Kind)
    ensures KindOf(disc) == Some(kind) <==> disc == Discriminator(kind)
  {
    KindOfDiscriminator(kind);
  }

  lemma HeadDecides(data: seq<byte>, kind: Kind)
    requires |data| >= 16
    ensures data[..8] == EVENT_IX_TAG_LE && KindOf(data[8..16]) == Some(kind) <==> StartsWith(data, Head(kind))
  {
    HeadIs(kind);
    KindOfIs(data[8..16], kind);
    assert data[..16] == data[..8] + data[8..16];
    assert Head(kind)[..8] == EVENT_IX_TAG_LE && Head(kind)[8..] == Discriminator(kind);
    hide KindOf, Discriminator, Head;
  }

  /** What the parser says to a string with the head of this kind. */
  lemma FrameOfKind(data: seq<byte>, kind: Kind)
    requires StartsWith(data, Head(kind))
    ensures var layout, body := Layout(kind), data[16..];
            match Decode(data)
            case Success(e) => KindOfEvent(e) == kind && AllOk(layout, body) && Parsed(layout, body, ToValues(e), [])
            case Failure(error) =>
              if AllOk(layout, body) then error == TrailingBytes && |body| > Offset(layout, |layout|) else error == Borsh
  {
    HeadIs(kind);
    assert |data| >= 16;
    hide Layout, ToValues, FromValues, Head, AllOk, Parsed, DecodeValues, KindOf, HasTypes, StartsWith, KindOfEvent,
         Offset, Discriminator;
    var layout, body := Layout(kind), data[16..];
    HeadDecides(data, kind);
    BodyIff(layout, body);
    match DecodeValues(layout, body)
    case Success((vs, rest)) =>
      ValuesUnique(layout, body);
      ValuesEvent(kind, vs);
      RestIs(layout, body, vs, rest);
    case Failure(_) =>
  }

  lemma RestIs(layout: seq<Field>, body: seq<byte>, vs: seq<Value>, rest: seq<byte>)
    requires Parsed(layout, body, vs, rest)
    ensures rest != [] <==> |body| > Offset(layout, |layout|)
  {
  }

  /** A string that starts with none of the four heads is refused. */
  lemma OtherFrames(data: seq<byte>)
    ensures |data| < 16 ==> Decode(data) == Failure(TooShort)
    ensures |data| >= 16 && !StartsWith(data, CREATED_HEAD) && !StartsWith(data, ADDED_HEAD)
              && !StartsWith(data, REMOVED_HEAD) && !StartsWith(data, SWAP_HEAD) ==>
              Decode(data) == Failure(UnknownDiscriminator)
  {
    if |data| >= 16 {
      HeadDecides(data, PoolCreatedKind);
      HeadDecides(data, LiquidityAddedKind);
      HeadDecides(data, LiquidityRemovedKind);
      HeadDecides(data, SwapExecutedKind);
      hide StartsWith, KindOf, DecodeValues;
    }
  }

  /** An accepted event's kind is the one its string starts with. */
  lemma AcceptedHead(data: seq<byte>)
    requires Decode(data).Success?
    ensures StartsWith(data, Head(KindOfEvent(Decode(data).value)))
  {
    var kind, vs := DecodeParts(data);
    ValuesEvent(kind, vs);
    HeadIs(kind);
    assert data[..16] == data[..8] + data[8..16];
    hide Decode, Layout, FromValues, ToValues, Head, Discriminator, KindOfEvent, HasTypes;
  }

  // ----- a field of a frame -----

  lemma KeyAt(layout: seq<Field>, data: seq<byte>, vs: seq<Value>, k: nat, at: nat)
    requires |data| >= 16 && Parsed(layout, data[16..], vs, [])
    requires k < |layout| && layout[k] == KeyField && Offset(layout, k) == at
    ensures at + 48 <= |data| && k < |vs| && vs[k] == KeyValue(data[at + 16..at + 48])
  {
    assert FieldOk(layout, data[16..], k);
    SliceShift(data, 16, at, 32);
  }

  lemma NumberAt(layout: seq<Field>, data: seq<byte>, vs: seq<Value>, k: nat, at: nat)
    requires |data| >= 16 && Parsed(layout, data[16..], vs, [])
    requires k < |layout| && layout[k] == WordField && Offset(layout, k) == at
    ensures at + 24 <= |data| && Number(data, at + 16) < TWO_64
    ensures k < |vs| && vs[k] == WordValue(Number(data, at + 16))
  {
    assert FieldOk(layout, data[16..], k);
    NumberShift(data, 16, at);
    NumberFits(data, at + 16);
    hide Number;
  }

  lemma FlagAt(layout: seq<Field>, data: seq<byte>, vs: seq<Value>, k: nat, at: nat)
    requires |data| >= 16 && Parsed(layout, data[16..], vs, [])
    requires k < |layout| && layout[k] == FlagField && Offset(layout, k) == at
    ensures at + 17 <= |data| && k < |vs| && vs[k] == FlagValue(data[at + 16] == 1)
  {
    assert FieldOk(layout, data[16..], k);
  }

  // ----- a creation -----

  lemma PoolCreatedOffsets()
    ensures Layout(PoolCreatedKind)
         == [KeyField, KeyField, KeyField, KeyField, KeyField, WordField, WordField,
             WordField, WordField, WordField, WordField, WordField, WordField, WordField]
    ensures var l := Layout(PoolCreatedKind);
            && |l| == 14
            && Offset(l, 0) == 0 && Offset(l, 1) == 32 && Offset(l, 2) == 64 && Offset(l, 3) == 96
            && Offset(l, 4) == 128 && Offset(l, 5) == 160 && Offset(l, 6) == 168 && Offset(l, 7) == 176
            && Offset(l, 8) == 184 && Offset(l, 9) == 192 && Offset(l, 10) == 200 && Offset(l, 11) == 208
            && Offset(l, 12) == 216 && Offset(l, 13) == 224 && Offset(l, 14) == 232
  {
    var l := Layout(PoolCreatedKind);
    assert Offset(l, 1) == Offset(l, 0) + Width(l[0]);
    assert Offset(l, 2) == Offset(l, 1) + Width(l[1]);
    assert Offset(l, 3) == Offset(l, 2) + Width(l[2]);
    assert Offset(l, 4) == Offset(l, 3) + Width(l[3]);
    assert Offset(l, 5) == Offset(l, 4) + Width(l[4]);
    assert Offset(l, 6) == Offset(l, 5) + Width(l[5]);
    assert Offset(l, 7) == Offset(l, 6) + Width(l[6]);
    assert Offset(l, 8) == Offset(l, 7) + Width(l[7]);
    assert Offset(l, 9) == Offset(l, 8) + Width(l[8]);
    assert Offset(l, 10) == Offset(l, 9) + Width(l[9]);
    assert Offset(l, 11) == Offset(l, 10) + Width(l[10]);
    assert Offset(l, 12) == Offset(l, 11) + Width(l[11]);
    assert Offset(l, 13) == Offset(l, 12) + Width(l[12]);
    assert Offset(l, 14) == Offset(l, 13) + Width(l[13]);
  }

  lemma PoolCreatedOk(body: seq<byte>)
    ensures AllOk(Layout(PoolCreatedKind), body) <==> |body| >= 232
  {
    var l := Layout(PoolCreatedKind);
    PoolCreatedOffsets();
    assert FieldOk(l, body, 13) ==> |body| >= 232;
    if |body| >= 232 {
      forall k | 0 <= k < 14
        ensures Offset(l, k) + Width(l[k]) <= |body|
      {
        OffsetGrows(l, k + 1, 14);
      }
    }
    hide Offset;
  }

  predicate IsPoolCreated(data: seq<byte>) {
    |data| == 248 && StartsWith(data, CREATED_HEAD)
  }

  function PoolCreatedIn(data: seq<byte>): Event
    requires IsPoolCreated(data)
  {
    NumberFits(data, 176);
    NumberFits(data, 184);
    NumberFits(data, 192);
    NumberFits(data, 200);
    NumberFits(data, 208);
    NumberFits(data, 216);
    NumberFits(data, 224);
    NumberFits(data, 232);
    NumberFits(data, 240);
    PoolCreated(data[16..48], data[48..80], data[80..112], data[112..144],
                data[144..176], Number(data, 176), Number(data, 184), Number(data, 192),
                Number(data, 200), Number(data, 208), Number(data, 216), Number(data, 224),
                Number(data, 232), Number(data, 240))
  }

  /** The strings that are a creation, and the event they are. With this head, any other string is a
      Borsh error if it is too short, and otherwise has trailing bytes. */
  lemma PoolCreatedIff(data: seq<byte>)
    ensures Decode(data).Success? && Decode(data).value.PoolCreated? <==> IsPoolCreated(data)
    ensures IsPoolCreated(data) ==> Decode(data) == Success(PoolCreatedIn(data))
    ensures StartsWith(data, CREATED_HEAD) && !IsPoolCreated(data) ==>
              Decode(data) == Failure(if |data| < 248 then Borsh else TrailingBytes)
  {
    if StartsWith(data, CREATED_HEAD) {
      assert Head(PoolCreatedKind) == CREATED_HEAD;
      FrameOfKind(data, PoolCreatedKind);
      PoolCreatedOffsets();
      PoolCreatedOk(data[16..]);
      if Decode(data).Success? {
        PoolCreatedFields(data, Decode(data).value);
      }
    } else if Decode(data).Success? {
      AcceptedHead(data);
    }
    hide Decode, StartsWith, AllOk, Parsed, Layout, ToValues, Offset;
  }

  lemma PoolCreatedFields(data: seq<byte>, e: Event)
    requires IsPoolCreated(data) && e.PoolCreated?
    requires Parsed(Layout(PoolCreatedKind), data[16..], ToValues(e), [])
    ensures e == PoolCreatedIn(data)
  {
    var layout, vs := Layout(PoolCreatedKind), ToValues(e);
    PoolCreatedOffsets();
    EventValues(e);
    hide Layout, Parsed, Offset, Number, ToValues, HasTypes;
    forall k | 0 <= k < 5
      ensures |data| >= 32 * k + 48 && k < |vs| && vs[k] == KeyValue(data[32 * k + 16..32 * k + 48])
    {
      KeyAt(layout, data, vs, k, 32 * k);
    }
    forall k | 5 <= k < 14
      ensures k < |vs| && Number(data, 176 + 8 * (k - 5)) < TWO_64
      ensures vs[k] == WordValue(Number(data, 176 + 8 * (k - 5)))
    {
      NumberAt(layout, data, vs, k, 160 + 8 * (k - 5));
    }
  }

  // ----- a deposit -----

  lemma LiquidityAddedOffsets()
    ensures Layout(LiquidityAddedKind)
         == [KeyField, KeyField, WordField, WordField, WordField, WordField, WordField,
             WordField, WordField, WordField, WordField]
    ensures var l := Layout(LiquidityAddedKind);
            && |l| == 11
            && Offset(l, 0) == 0 && Offset(l, 1) == 32 && Offset(l, 2) == 64 && Offset(l, 3) == 72
            && Offset(l, 4) == 80 && Offset(l, 5) == 88 && Offset(l, 6) == 96 && Offset(l, 7) == 104
            && Offset(l, 8) == 112 && Offset(l, 9) == 120 && Offset(l, 10) == 128 && Offset(l, 11) == 136
  {
    var l := Layout(LiquidityAddedKind);
    assert Offset(l, 1) == Offset(l, 0) + Width(l[0]);
    assert Offset(l, 2) == Offset(l, 1) + Width(l[1]);
    assert Offset(l, 3) == Offset(l, 2) + Width(l[2]);
    assert Offset(l, 4) == Offset(l, 3) + Width(l[3]);
    assert Offset(l, 5) == Offset(l, 4) + Width(l[4]);
    assert Offset(l, 6) == Offset(l, 5) + Width(l[5]);
    assert Offset(l, 7) == Offset(l, 6) + Width(l[6]);
    assert Offset(l, 8) == Offset(l, 7) + Width(l[7]);
    assert Offset(l, 9) == Offset(l, 8) + Width(l[8]);
    assert Offset(l, 10) == Offset(l, 9) + Width(l[9]);
    assert Offset(l, 11) == Offset(l, 10) + Width(l[10]);
  }

  lemma LiquidityAddedOk(body: seq<byte>)
    ensures AllOk(Layout(LiquidityAddedKind), body) <==> |body| >= 136
  {
    var l := Layout(LiquidityAddedKind);
    LiquidityAddedOffsets();
    assert FieldOk(l, body, 10) ==> |body| >= 136;
    if |body| >= 136 {
      forall k | 0 <= k < 11
        ensures Offset(l, k) + Width(l[k]) <= |body|
      {
        OffsetGrows(l, k + 1, 11);
      }
    }
    hide Offset;
  }

  predicate IsLiquidityAdded(data: seq<byte>) {
    |data| == 152 && StartsWith(data, ADDED_HEAD)
  }

  function LiquidityAddedIn(data: seq<byte>): Event
    requires IsLiquidityAdded(data)
  {
    NumberFits(data, 80);
    NumberFits(data, 88);
    NumberFits(data, 96);
    NumberFits(data, 104);
    NumberFits(data, 112);
    NumberFits(data, 120);
    NumberFits(data, 128);
    NumberFits(data, 136);
    NumberFits(data, 144);
    LiquidityAdded(data[16..48], data[48..80], Number(data, 80), Number(data, 88),
                Number(data, 96), Number(data, 104), Number(data, 112), Number(data, 120),
                Number(data, 128), Number(data, 136), Number(data, 144))
  }

  /** The strings that are a deposit, and the event they are. With this head, any other string is a
      Borsh error if it is too short, and otherwise has trailing bytes. */
  lemma LiquidityAddedIff(data: seq<byte>)
    ensures Decode(data).Success? && Decode(data).value.LiquidityAdded? <==> IsLiquidityAdded(data)
    ensures IsLiquidityAdded(data) ==> Decode(data) == Success(LiquidityAddedIn(data))
    ensures StartsWith(data, ADDED_HEAD) && !IsLiquidityAdded(data) ==>
              Decode(data) == Failure(if |data| < 152 then Borsh else TrailingBytes)
  {
    if StartsWith(data, ADDED_HEAD) {
      assert Head(LiquidityAddedKind) == ADDED_HEAD;
      FrameOfKind(data, LiquidityAddedKind);
      LiquidityAddedOffsets();
      LiquidityAddedOk(data[16..]);
      if Decode(data).Success? {
        LiquidityAddedFields(data, Decode(data).value);
      }
    } else if Decode(data).Success? {
      AcceptedHead(data);
    }
    hide Decode, StartsWith, AllOk, Parsed, Layout, ToValues, Offset;
  }

  lemma LiquidityAddedFields(data: seq<byte>, e: Event)
    requires IsLiquidityAdded(data) && e.LiquidityAdded?
    requires Parsed(Layout(LiquidityAddedKind), data[16..], ToValues(e), [])
    ensures e == LiquidityAddedIn(data)
  {
    var layout, vs := Layout(LiquidityAddedKind), ToValues(e);
    LiquidityAddedOffsets();
    EventValues(e);
    hide Layout, Parsed, Offset, Number, ToValues, HasTypes;
    forall k | 0 <= k < 2
      ensures |data| >= 32 * k + 48 && k < |vs| && vs[k] == KeyValue(data[32 * k + 16..32 * k + 48])
    {
      KeyAt(layout, data, vs, k, 32 * k);
    }
    forall k | 2 <= k < 11
      ensures k < |vs| && Number(data, 80 + 8 * (k - 2)) < TWO_64
      ensures vs[k] == WordValue(Number(data, 80 + 8 * (k - 2)))
    {
      NumberAt(layout, data, vs, k, 64 + 8 * (k - 2));
    }
  }

  // ----- a withdrawal -----

  lemma LiquidityRemovedOffsets()
    ensures Layout(LiquidityRemovedKind)
         == [KeyField, KeyField, WordField, WordField, WordField, WordField, WordField,
             WordField, WordField, WordField]
    ensures var l := Layout(LiquidityRemovedKind);
            && |l| == 10
            && Offset(l, 0) == 0 && Offset(l, 1) == 32 && Offset(l, 2) == 64 && Offset(l, 3) == 72
            && Offset(l, 4) == 80 && Offset(l, 5) == 88 && Offset(l, 6) == 96 && Offset(l, 7) == 104
            && Offset(l, 8) == 112 && Offset(l, 9) == 120 && Offset(l, 10) == 128
  {
    var l := Layout(LiquidityRemovedKind);
    assert Offset(l, 1) == Offset(l, 0) + Width(l[0]);
    assert Offset(l, 2) == Offset(l, 1) + Width(l[1]);
    assert Offset(l, 3) == Offset(l, 2) + Width(l[2]);
    assert Offset(l, 4) == Offset(l, 3) + Width(l[3]);
    assert Offset(l, 5) == Offset(l, 4) + Width(l[4]);
    assert Offset(l, 6) == Offset(l, 5) + Width(l[5]);
    assert Offset(l, 7) == Offset(l, 6) + Width(l[6]);
    assert Offset(l, 8) == Offset(l, 7) + Width(l[7]);
    assert Offset(l, 9) == Offset(l, 8) + Width(l[8]);
    assert Offset(l, 10) == Offset(l, 9) + Width(l[9]);
  }

  lemma LiquidityRemovedOk(body: seq<byte>)
    ensures AllOk(Layout(LiquidityRemovedKind), body) <==> |body| >= 128
  {
    var l := Layout(LiquidityRemovedKind);
    LiquidityRemovedOffsets();
    assert FieldOk(l, body, 9) ==> |body| >= 128;
    if |body| >= 128 {
      forall k | 0 <= k < 10
        ensures Offset(l, k) + Width(l[k]) <= |body|
      {
        OffsetGrows(l, k + 1, 10);
      }
    }
    hide Offset;
  }

  predicate IsLiquidityRemoved(data: seq<byte>) {
    |data| == 144 && StartsWith(data, REMOVED_HEAD)
  }

  function LiquidityRemovedIn(data: seq<byte>): Event
    requires IsLiquidityRemoved(data)
  {
    NumberFits(data, 80);
    NumberFits(data, 88);
    NumberFits(data, 96);
    NumberFits(data, 104);
    NumberFits(data, 112);
    NumberFits(data, 120);
    NumberFits(data, 128);
    NumberFits(data, 136);
    LiquidityRemoved(data[16..48], data[48..80], Number(data, 80), Number(data, 88),
                Number(data, 96), Number(data, 104), Number(data, 112), Number(data, 120),
                Number(data, 128), Number(data, 136))
  }

  /** The strings that are a withdrawal, and the event they are. With this head, any other string is a
      Borsh error if it is too short, and otherwise has trailing bytes. */
  lemma LiquidityRemovedIff(data: seq<byte>)
    ensures Decode(data).Success? && Decode(data).value.LiquidityRemoved? <==> IsLiquidityRemoved(data)
    ensures IsLiquidityRemoved(data) ==> Decode(data) == Success(LiquidityRemovedIn(data))
    ensures StartsWith(data, REMOVED_HEAD) && !IsLiquidityRemoved(data) ==>
              Decode(data) == Failure(if |data| < 144 then Borsh else TrailingBytes)
  {
    if StartsWith(data, REMOVED_HEAD) {
      assert Head(LiquidityRemovedKind) == REMOVED_HEAD;
      FrameOfKind(data, LiquidityRemovedKind);
      LiquidityRemovedOffsets();
      LiquidityRemovedOk(data[16..]);
      if Decode(data).Success? {
        LiquidityRemovedFields(data, Decode(data).value);
      }
    } else if Decode(data).Success? {
      AcceptedHead(data);
    }
    hide Decode, StartsWith, AllOk, Parsed, Layout, ToValues, Offset;
  }

  lemma LiquidityRemovedFields(data: seq<byte>, e: Event)
    requires IsLiquidityRemoved(data) && e.LiquidityRemoved?
    requires Parsed(Layout(LiquidityRemovedKind), data[16..], ToValues(e), [])
    ensures e == LiquidityRemovedIn(data)
  {
    var layout, vs := Layout(LiquidityRemovedKind), ToValues(e);
    LiquidityRemovedOffsets();
    EventValues(e);
    hide Layout, Parsed, Offset, Number, ToValues, HasTypes;
    forall k | 0 <= k < 2
      ensures |data| >= 32 * k + 48 && k < |vs| && vs[k] == KeyValue(data[32 * k + 16..32 * k + 48])
    {
      KeyAt(layout, data, vs, k, 32 * k);
    }
    forall k | 2 <= k < 10
      ensures k < |vs| && Number(data, 80 + 8 * (k - 2)) < TWO_64
      ensures vs[k] == WordValue(Number(data, 80 + 8 * (k - 2)))
    {
      NumberAt(layout, data, vs, k, 64 + 8 * (k - 2));
    }
  }

  // ----- a swap -----

  lemma SwapExecutedOffsets()
    ensures Layout(SwapExecutedKind)
         == [KeyField, KeyField, KeyField, FlagField, WordField, WordField, WordField,
             WordField, WordField, WordField, WordField]
    ensures var l := Layout(SwapExecutedKind);
            && |l| == 11
            && Offset(l, 0) == 0 && Offset(l, 1) == 32 && Offset(l, 2) == 64 && Offset(l, 3) == 96
            && Offset(l, 4) == 97 && Offset(l, 5) == 105 && Offset(l, 6) == 113 && Offset(l, 7) == 121
            && Offset(l, 8) == 129 && Offset(l, 9) == 137 && Offset(l, 10) == 145 && Offset(l, 11) == 153
  {
    var l := Layout(SwapExecutedKind);
    assert Offset(l, 1) == Offset(l, 0) + Width(l[0]);
    assert Offset(l, 2) == Offset(l, 1) + Width(l[1]);
    assert Offset(l, 3) == Offset(l, 2) + Width(l[2]);
    assert Offset(l, 4) == Offset(l, 3) + Width(l[3]);
    assert Offset(l, 5) == Offset(l, 4) + Width(l[4]);
    assert Offset(l, 6) == Offset(l, 5) + Width(l[5]);
    assert Offset(l, 7) == Offset(l, 6) + Width(l[6]);
    assert Offset(l, 8) == Offset(l, 7) + Width(l[7]);
    assert Offset(l, 9) == Offset(l, 8) + Width(l[8]);
    assert Offset(l, 10) == Offset(l, 9) + Width(l[9]);
    assert Offset(l, 11) == Offset(l, 10) + Width(l[10]);
  }

  lemma SwapExecutedOk(body: seq<byte>)
    ensures AllOk(Layout(SwapExecutedKind), body) <==> |body| >= 153 && body[96] <= 1
  {
    var l := Layout(SwapExecutedKind);
    SwapExecutedOffsets();
    assert FieldOk(l, body, 10) ==> |body| >= 153;
    assert FieldOk(l, body, 3) ==> body[96] <= 1;
    if |body| >= 153 {
      forall k | 0 <= k < 11
        ensures Offset(l, k) + Width(l[k]) <= |body|
      {
        OffsetGrows(l, k + 1, 11);
      }
    }
    hide Offset;
  }

  predicate IsSwapExecuted(data: seq<byte>) {
    |data| == 169 && StartsWith(data, SWAP_HEAD) && data[112] <= 1
  }

  function SwapExecutedIn(data: seq<byte>): Event
    requires IsSwapExecuted(data)
  {
    NumberFits(data, 113);
    NumberFits(data, 121);
    NumberFits(data, 129);
    NumberFits(data, 137);
    NumberFits(data, 145);
    NumberFits(data, 153);
    NumberFits(data, 161);
    SwapExecuted(data[16..48], data[48..80], data[80..112], data[112] == 1,
                Number(data, 113), Number(data, 121), Number(data, 129), Number(data, 137),
                Number(data, 145), Number(data, 153), Number(data, 161))
  }

  /** The strings that are a swap, and the event they are. With this head, any other string is a
      Borsh error if it is too short or the flag is neither 0 nor 1, and otherwise has trailing bytes. */
  lemma SwapExecutedIff(data: seq<byte>)
    ensures Decode(data).Success? && Decode(data).value.SwapExecuted? <==> IsSwapExecuted(data)
    ensures IsSwapExecuted(data) ==> Decode(data) == Success(SwapExecutedIn(data))
    ensures StartsWith(data, SWAP_HEAD) && !IsSwapExecuted(data) ==>
              Decode(data) == Failure(if |data| < 169 || data[112] > 1 then Borsh else TrailingBytes)
  {
    if StartsWith(data, SWAP_HEAD) {
      assert Head(SwapExecutedKind) == SWAP_HEAD;
      FrameOfKind(data, SwapExecutedKind);
      SwapExecutedOffsets();
      SwapExecutedOk(data[16..]);
      if Decode(data).Success? {
        SwapExecutedFields(data, Decode(data).value);
      }
    } else if Decode(data).Success? {
      AcceptedHead(data);
    }
    hide Decode, StartsWith, AllOk, Parsed, Layout, ToValues, Offset;
  }

  lemma SwapExecutedFields(data: seq<byte>, e: Event)
    requires IsSwapExecuted(data) && e.SwapExecuted?
    requires Parsed(Layout(SwapExecutedKind), data[16..], ToValues(e), [])
    ensures e == SwapExecutedIn(data)
  {
    var layout, vs := Layout(SwapExecutedKind), ToValues(e);
    SwapExecutedOffsets();
    EventValues(e);
    hide Layout, Parsed, Offset, Number, ToValues, HasTypes;
    forall k | 0 <= k < 3
      ensures |data| >= 32 * k + 48 && k < |vs| && vs[k] == KeyValue(data[32 * k + 16..32 * k + 48])
    {
      KeyAt(layout, data, vs, k, 32 * k);
    }
    FlagAt(layout, data, vs, 3, 96);
    forall k | 4 <= k < 11
      ensures k < |vs| && Number(data, 113 + 8 * (k - 4)) < TWO_64
      ensures vs[k] == WordValue(Number(data, 113 + 8 * (k - 4)))
    {
      NumberAt(layout, data, vs, k, 97 + 8 * (k - 4));
    }
  }

}
