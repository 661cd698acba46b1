/** The versioned binary envelope of realtime data. */
module EnvelopeCodec {
  import opened Prelude
  import opened BytesCodec

  const MAGIC: Bytes := [0x46, 0x4C, 0x55, 0x56]
  const VERSION: u8 := 1
  const HEADER_LEN: nat := 60
  const MAX_WIRE_LEN: nat := 60 + 0xFFFF * 16

  datatype DataKind = Presence | Chat | Gift | Control | Custom(value: u16) | Unknown(value: u16)

  /** Flags are the low three bits: reliable, ordered, acknowledgement required. */
  type Flags = n: int | 0 <= n < 8

  datatype Envelope = Envelope(
    flags: Flags, kind: DataKind, roomId: u128, senderId: u128, sequence: u64, timestampMillis: u64,
    payload: Bytes)

  datatype ProtocolError =
    | FrameTooShort(length: nat)
    | InvalidMagic
    | UnsupportedVersion(version: u8)
    | UnknownFlags(bits: u8)
    | PayloadTooLarge(actual: nat, maximum: nat)
    | TrailingBytes(count: nat)
    | Truncated
    | WireLimit

  function ToWire(kind: DataKind): u16 {
    match kind
    case Presence => 1
    case Chat => 2
    case Gift => 3
    case Control => 4
    case Custom(value) => value
    case Unknown(value) => value
  }

  function FromWire(value: u16): DataKind {
    if value == 1 then Presence
    else if value == 2 then Chat
    else if value == 3 then Gift
    else if value == 4 then Control
    else if value >= 0x8000 then Custom(value)
    else Unknown(value)
  }

  /** Application kinds use the upper half of the range and unknown core kinds the unassigned rest. */
  predicate Canonical(kind: DataKind) {
    match kind
    case Custom(value) => value >= 0x8000
    case Unknown(value) => value == 0 || 4 < value < 0x8000
    case _ => true
  }

  lemma KindRoundTrip(kind: DataKind)
    ensures FromWire(ToWire(kind)) == kind <==> Canonical(kind)
  {
  }

  /** The bytes of an envelope, field by field. */
  function Frame(e: Envelope): (s: Bytes)
    ensures |s| == HEADER_LEN + |e.payload|
  {
    MAGIC + [VERSION] + [e.flags] + ToBytes(ToWire(e.kind), 2) + ToBytes(e.roomId, 16)
    + ToBytes(e.senderId, 16) + ToBytes(e.sequence, 8) + ToBytes(e.timestampMillis, 8)
    + ToBytes(|e.payload|, 4) + e.payload
  }

  function EncodeFailure(e: Envelope, maximumPayload: nat): Option<ProtocolError> {
    if |e.payload| > maximumPayload then Some(PayloadTooLarge(|e.payload|, maximumPayload))
    else if |e.payload| > U32_MAX then Some(PayloadTooLarge(|e.payload|, U32_MAX))
    else if HEADER_LEN + |e.payload| > MAX_WIRE_LEN then Some(WireLimit)
    else None
  }

  function DecodeFrame(s: Bytes, maximumPayload: nat): Result<Envelope, ProtocolError> {
    if |s| < HEADER_LEN then Err(FrameTooShort(|s|))
    else if s[..4] != MAGIC then Err(InvalidMagic)
    else if s[4] != VERSION then Err(UnsupportedVersion(s[4]))
    else if s[5] >= 8 then Err(UnknownFlags(s[5]))
    else
      var length := FromBytes(s[56..60]);
      if length > maximumPayload then Err(PayloadTooLarge(length, maximumPayload))
      else if HEADER_LEN + length > |s| then Err(Truncated)
      else if HEADER_LEN + length < |s| then Err(TrailingBytes(|s| - HEADER_LEN - length))
      else Ok(FieldsOf(s))
  }

  function FieldsOf(s: Bytes): Envelope
    requires |s| >= HEADER_LEN && s[5] < 8
  {
    InRange(s[6..8]);
    InRange(s[8..24]);
    InRange(s[24..40]);
    InRange(s[40..48]);
    InRange(s[48..56]);
    Envelope(s[5], FromWire(FromBytes(s[6..8])), FromBytes(s[8..24]), FromBytes(s[24..40]),
             FromBytes(s[40..48]), FromBytes(s[48..56]), s[60..])
  }

  lemma InRange(s: Bytes)
    requires |s| in {2, 4, 8, 16}
    ensures |s| == 2 ==> FromBytes(s) <= U16_MAX
    ensures |s| == 4 ==> FromBytes(s) <= U32_MAX
    ensures |s| == 8 ==> FromBytes(s) <= U64_MAX
    ensures |s| == 16 ==> FromBytes(s) <= U128_MAX
  {
    Widths();
    EncodeDecoded(s);
  }

  // ----- Decoding inverts the frame, and nothing else decodes -----

  /** The fields up to the room, and those after it. */
  lemma FrontFields(magic: Bytes, version: u8, flags: u8, kind: Bytes, room: Bytes)
    requires |magic| == 4 && |kind| == 2 && |room| == 16
    ensures var s := magic + [version] + [flags] + kind + room;
            && |s| == 24 && s[..4] == magic && s[4] == version && s[5] == flags && s[6..8] == kind
            && s[8..24] == room
  {
  }

  lemma BackFields(sender: Bytes, sequence: Bytes, timestamp: Bytes, length: Bytes, payload: Bytes)
    requires |sender| == 16 && |sequence| == 8 && |timestamp| == 8 && |length| == 4
    ensures var s := sender + sequence + timestamp + length + payload;
            && |s| == 36 + |payload| && s[..16] == sender && s[16..24] == sequence
            && s[24..32] == timestamp && s[32..36] == length && s[36..] == payload
  {
  }

  lemma ShiftedSlices(front: Bytes, back: Bytes)
    requires |front| == 24 && |back| >= 36
    ensures var s := front + back;
            && s[..4] == front[..4] && s[4] == front[4] && s[5] == front[5] && s[6..8] == front[6..8]
            && s[8..24] == front[8..24] && s[24..40] == back[..16] && s[40..48] == back[16..24]
            && s[48..56] == back[24..32] && s[56..60] == back[32..36] && s[60..] == back[36..]
  {
  }

  /** Where every field of a frame is found. */
  lemma FrameFields(e: Envelope)
    ensures var s := Frame(e);
            && s[..4] == MAGIC && s[4] == VERSION && s[5] == e.flags
            && s[6..8] == ToBytes(ToWire(e.kind), 2)
            && s[8..24] == ToBytes(e.roomId, 16) && s[24..40] == ToBytes(e.senderId, 16)
            && s[40..48] == ToBytes(e.sequence, 8) && s[48..56] == ToBytes(e.timestampMillis, 8)
            && s[56..60] == ToBytes(|e.payload|, 4) && s[60..] == e.payload
  {
    hide ToBytes, ToWire;
    var kind, room, sender := ToBytes(ToWire(e.kind), 2), ToBytes(e.roomId, 16), ToBytes(e.senderId, 16);
    var sequence, timestamp := ToBytes(e.sequence, 8), ToBytes(e.timestampMillis, 8);
    var length := ToBytes(|e.payload|, 4);
    FrontFields(MAGIC, VERSION, e.flags, kind, room);
    BackFields(sender, sequence, timestamp, length, e.payload);
    var front := MAGIC + [VERSION] + [e.flags] + kind + room;
    var back := sender + sequence + timestamp + length + e.payload;
    ShiftedSlices(front, back);
    FrameHalves(e, front, back);
    hide *;
  }

  lemma FrameHalves(e: Envelope, front: Bytes, back: Bytes)
    requires front == MAGIC + [VERSION] + [e.flags] + ToBytes(ToWire(e.kind), 2) + ToBytes(e.roomId, 16)
    requires back == ToBytes(e.senderId, 16) + ToBytes(e.sequence, 8) + ToBytes(e.timestampMillis, 8)
                     + ToBytes(|e.payload|, 4) + e.payload
    ensures Frame(e) == front + back
  {
    hide ToBytes, ToWire;
  }

  lemma NumberFields(e: Envelope)
    requires |e.payload| <= U32_MAX
    ensures FromBytes(ToBytes(ToWire(e.kind), 2)) == ToWire(e.kind)
    ensures FromBytes(ToBytes(e.roomId, 16)) == e.roomId && FromBytes(ToBytes(e.senderId, 16)) == e.senderId
    ensures FromBytes(ToBytes(e.sequence, 8)) == e.sequence
    ensures FromBytes(ToBytes(e.timestampMillis, 8)) == e.timestampMillis
    ensures FromBytes(ToBytes(|e.payload|, 4)) == |e.payload|
  {
    Widths();
    hide FromBytes, ToBytes, Pow256;
    DecodeEncoded(ToWire(e.kind), 2);
    DecodeEncoded(e.roomId, 16);
    DecodeEncoded(e.senderId, 16);
    DecodeEncoded(e.sequence, 8);
    DecodeEncoded(e.timestampMillis, 8);
    DecodeEncoded(|e.payload|, 4);
  }

  /** A frame within the payload limit decodes to its envelope, up to the kind's wire number. */
  lemma DecodeOfFrame(e: Envelope, maximumPayload: nat)
    requires |e.payload| <= Min(maximumPayload, U32_MAX)
    ensures DecodeFrame(Frame(e), maximumPayload) == Ok(e.(kind := FromWire(ToWire(e.kind))))
  {
    hide Frame, FromBytes, ToBytes, FromWire;
    FrameFields(e);
    NumberFields(e);
  }

  /** Whatever decodes is the frame of what it decodes to. */
  lemma FrameOfDecoded(s: Bytes, maximumPayload: nat)
    requires DecodeFrame(s, maximumPayload).Ok?
    ensures var e := DecodeFrame(s, maximumPayload).value;
            Frame(e) == s && Canonical(e.kind) && |e.payload| <= Min(maximumPayload, U32_MAX)
  {
    var e := DecodeFrame(s, maximumPayload).value;
    WireOfKind(FromBytes(s[6..8]));
    InRange(s[56..60]);
    EncodeDecoded(s[6..8]);
    EncodeDecoded(s[8..24]);
    EncodeDecoded(s[24..40]);
    EncodeDecoded(s[40..48]);
    EncodeDecoded(s[48..56]);
    EncodeDecoded(s[56..60]);
    hide ToBytes, FromBytes, FromWire, ToWire, Canonical;
    SplitAtFields(s);
  }

  lemma WireOfKind(value: nat)
    requires value <= U16_MAX
    ensures ToWire(FromWire(value)) == value && Canonical(FromWire(value))
  {
  }

  lemma SplitAtFields(s: Bytes)
    requires |s| >= HEADER_LEN
    ensures s == s[..4] + [s[4]] + [s[5]] + s[6..8] + s[8..24] + s[24..40] + s[40..48] + s[48..56]
                 + s[56..60] + s[60..]
  {
  }

  /**
   Decoding accepts exactly the frames of envelopes with a canonical kind and a payload within both
   limits, and returns that envelope.
   */
  lemma {:induction false} DecodesExactlyFrames(s: Bytes, maximumPayload: nat, e: Envelope)
    ensures DecodeFrame(s, maximumPayload) == Ok(e)
            <==> s == Frame(e) && Canonical(e.kind) && |e.payload| <= Min(maximumPayload, U32_MAX)
  {
    hide Frame, FromBytes, ToBytes, FromWire, ToWire, Canonical, DecodeFrame;
    if DecodeFrame(s, maximumPayload) == Ok(e) { FrameOfDecoded(s, maximumPayload); }
    if s == Frame(e) && Canonical(e.kind) && |e.payload| <= Min(maximumPayload, U32_MAX) {
      DecodeOfFrame(e, maximumPayload);
      KindRoundTrip(e.kind);
    }
  }

  /** An encoded envelope comes back exactly if its kind is canonical. */
  lemma RoundTripExactlyWhenCanonical(e: Envelope, maximumPayload: nat)
    requires EncodeFailure(e, maximumPayload).None?
    ensures DecodeFrame(Frame(e), maximumPayload) == Ok(e) <==> Canonical(e.kind)
  {
    hide Frame, DecodeFrame, Canonical;
    DecodesExactlyFrames(Frame(e), maximumPayload, e);
  }

  /** An accepted frame re-encodes, to the same bytes, exactly if it is within the writer's limit. */
  lemma ReencodesExactlyWithinTheWireLimit(s: Bytes, maximumPayload: nat)
    requires DecodeFrame(s, maximumPayload).Ok?
    ensures var e := DecodeFrame(s, maximumPayload).value;
            && (EncodeFailure(e, maximumPayload).None? <==> |s| <= MAX_WIRE_LEN)
            && Frame(e) == s
  {
    hide Frame, DecodeFrame, Canonical;
    FrameOfDecoded(s, maximumPayload);
  }

  // ----- The codec over reader and writer -----

  method Encode(e: Envelope, maximumPayload: nat) returns (r: Result<Bytes, ProtocolError>)
    ensures r == match EncodeFailure(e, maximumPayload) case Some(error) => Err(error) case None => Ok(Frame(e))
  {
    hide ToBytes, Pow256;
    if |e.payload| > maximumPayload { return Err(PayloadTooLarge(|e.payload|, maximumPayload)); }
    if |e.payload| > U32_MAX { return Err(PayloadTooLarge(|e.payload|, U32_MAX)); }
    Widths();
    var output := new WriteBuffer(MAX_WIRE_LEN);
    var ok := output.Extend(MAGIC);
    ok := output.Extend([VERSION]);
    ok := output.Extend([e.flags]);
    assert output.bytes == MAGIC + [VERSION] + [e.flags];
    ok := output.WriteNumber(ToWire(e.kind), 2);
    ok := output.WriteU128(e.roomId);
    ok := output.WriteU128(e.senderId);
    ok := output.WriteNumber(e.sequence, 8);
    ok := output.WriteNumber(e.timestampMillis, 8);
    ok := output.WriteNumber(|e.payload|, 4);
    ok := output.Extend(e.payload);
    if ok.Err? { return Err(WireLimit); }
    r := Ok(output.bytes);
  }

  method Decode(s: Bytes, maximumPayload: nat) returns (r: Result<Envelope, ProtocolError>)
    ensures r == DecodeFrame(s, maximumPayload)
  {
    hide FromBytes, Pow256, FromWire;
    if |s| < HEADER_LEN { return Err(FrameTooShort(|s|)); }
    Widths();
    var cursor := new ReadCursor(s);
    var magic := cursor.Take(4);
    assert s[0..4] == s[..4];
    if magic.value != MAGIC { return Err(InvalidMagic); }
    var version := cursor.Take(1);
    if version.value[0] != VERSION { return Err(UnsupportedVersion(version.value[0])); }
    var flags := cursor.Take(1);
    if flags.value[0] >= 8 { return Err(UnknownFlags(flags.value[0])); }
    var kind := cursor.ReadNumber(2);
    var roomId := cursor.ReadU128();
    var senderId := cursor.ReadU128();
    var sequence := cursor.ReadNumber(8);
    var timestamp := cursor.ReadNumber(8);
    var length := cursor.ReadNumber(4);
    if length.value > maximumPayload { return Err(PayloadTooLarge(length.value, maximumPayload)); }
    var payload := cursor.Take(length.value);
    if payload.Err? { return Err(Truncated); }
    if cursor.offset < |s| { return Err(TrailingBytes(|s| - cursor.offset)); }
    r := Ok(Envelope(flags.value[0], FromWire(kind.value), roomId.value, senderId.value, sequence.value,
                     timestamp.value, payload.value));
    assert s[60..|s|] == s[60..];
  }
}
