/** The fixed-width byte form of access-token claims, which is what the signature covers. */
module ClaimsCodec {
  import opened Prelude
  import opened BytesCodec

  const MAGIC: Bytes := [0x46, 0x4C, 0x41, 0x54]
  const VERSION: u8 := 1
  const CLAIMS_LEN: nat := 57

  datatype Claims = Claims(subject: u128, roomId: u128, expiresAtMillis: u64, nonce: u64, scopes: u32)

  datatype TokenError = Malformed | UnsupportedVersion(version: u8) | Truncated

  function ClaimsBytes(c: Claims): (s: Bytes)
    ensures |s| == CLAIMS_LEN
  {
    MAGIC + [VERSION] + ToBytes(c.subject, 16) + ToBytes(c.roomId, 16) + ToBytes(c.expiresAtMillis, 8)
    + ToBytes(c.nonce, 8) + ToBytes(c.scopes, 4)
  }

  /** Reads in order, so that a short input fails at the first field it cuts. */
  function DecodeBytes(s: Bytes): Result<Claims, TokenError> {
    if |s| < 4 then Err(Truncated)
    else if s[..4] != MAGIC then Err(Malformed)
    else if |s| < 5 then Err(Truncated)
    else if s[4] != VERSION then Err(UnsupportedVersion(s[4]))
    else if |s| < CLAIMS_LEN then Err(Truncated)
    else if |s| > CLAIMS_LEN then Err(Malformed)
    else Ok(FieldsOf(s))
  }

  function FieldsOf(s: Bytes): Claims
    requires |s| == CLAIMS_LEN
  {
    InRange(s);
    Claims(FromBytes(s[5..21]), FromBytes(s[21..37]), FromBytes(s[37..45]), FromBytes(s[45..53]),
           FromBytes(s[53..57]))
  }

  lemma InRange(s: Bytes)
    requires |s| == CLAIMS_LEN
    ensures FromBytes(s[5..21]) <= U128_MAX && FromBytes(s[21..37]) <= U128_MAX
    ensures FromBytes(s[37..45]) <= U64_MAX && FromBytes(s[45..53]) <= U64_MAX
    ensures FromBytes(s[53..57]) <= U32_MAX
  {
    Widths();
    hide FromBytes, Pow256, ToBytes;
    EncodeDecoded(s[5..21]);
    EncodeDecoded(s[21..37]);
    EncodeDecoded(s[37..45]);
    EncodeDecoded(s[45..53]);
    EncodeDecoded(s[53..57]);
  }

  lemma ByteFields(c: Claims)
    ensures var s := ClaimsBytes(c);
            && s[..4] == MAGIC && s[4] == VERSION
            && s[5..21] == ToBytes(c.subject, 16) && s[21..37] == ToBytes(c.roomId, 16)
            && s[37..45] == ToBytes(c.expiresAtMillis, 8) && s[45..53] == ToBytes(c.nonce, 8)
            && s[53..57] == ToBytes(c.scopes, 4)
  {
    hide ToBytes;
  }

  lemma NumberFields(c: Claims)
    ensures FromBytes(ToBytes(c.subject, 16)) == c.subject && FromBytes(ToBytes(c.roomId, 16)) == c.roomId
    ensures FromBytes(ToBytes(c.expiresAtMillis, 8)) == c.expiresAtMillis
    ensures FromBytes(ToBytes(c.nonce, 8)) == c.nonce && FromBytes(ToBytes(c.scopes, 4)) == c.scopes
  {
    Widths();
    hide FromBytes, ToBytes, Pow256;
    DecodeEncoded(c.subject, 16);
    DecodeEncoded(c.roomId, 16);
    DecodeEncoded(c.expiresAtMillis, 8);
    DecodeEncoded(c.nonce, 8);
    DecodeEncoded(c.scopes, 4);
  }

  lemma SplitAtFields(s: Bytes)
    requires |s| == CLAIMS_LEN
    ensures s == s[..4] + [s[4]] + s[5..21] + s[21..37] + s[37..45] + s[45..53] + s[53..57]
  {
  }

  lemma BytesOfDecoded(s: Bytes)
    requires DecodeBytes(s).Ok?
    ensures ClaimsBytes(DecodeBytes(s).value) == s
  {
    EncodeDecoded(s[5..21]);
    EncodeDecoded(s[21..37]);
    EncodeDecoded(s[37..45]);
    EncodeDecoded(s[45..53]);
    EncodeDecoded(s[53..57]);
    hide ToBytes, FromBytes;
    SplitAtFields(s);
  }

  /** Claims and their 57-byte forms correspond one to one; no other bytes decode. */
  lemma ClaimsAndBytesCorrespond(s: Bytes, c: Claims)
    ensures DecodeBytes(s) == Ok(c) <==> s == ClaimsBytes(c)
  {
    hide FromBytes, ToBytes, ClaimsBytes;
    if DecodeBytes(s) == Ok(c) { BytesOfDecoded(s); }
    if s == ClaimsBytes(c) {
      ByteFields(c);
      NumberFields(c);
    }
  }

  /** Exactly the 57-byte inputs that open with the magic and the version decode. */
  lemma DecodesExactlyByShape(s: Bytes)
    ensures DecodeBytes(s).Ok? <==> |s| == CLAIMS_LEN && s[..5] == MAGIC + [VERSION]
  {
    hide FromBytes;
    if |s| >= 5 { assert s[..5] == s[..4] + [s[4]]; }
  }

  // ----- The codec over reader and writer -----

  method EncodeClaims(c: Claims) returns (s: Bytes)
    ensures s == ClaimsBytes(c)
  {
    hide ToBytes, Pow256;
    Widths();
    var output := new WriteBuffer(CLAIMS_LEN);
    var ok := output.Extend(MAGIC);
    ok := output.Extend([VERSION]);
    assert output.bytes == MAGIC + [VERSION];
    ok := output.WriteU128(c.subject);
    ok := output.WriteU128(c.roomId);
    ok := output.WriteNumber(c.expiresAtMillis, 8);
    ok := output.WriteNumber(c.nonce, 8);
    ok := output.WriteNumber(c.scopes, 4);
    s := output.bytes;
  }

  method DecodeClaims(s: Bytes) returns (r: Result<Claims, TokenError>)
    ensures r == DecodeBytes(s)
  {
    hide FromBytes, Pow256;
    Widths();
    var cursor := new ReadCursor(s);
    var magic := cursor.Take(4);
    if magic.Err? { return Err(Truncated); }
    assert s[0..4] == s[..4];
    if magic.value != MAGIC { return Err(Malformed); }
    var version := cursor.Take(1);
    if version.Err? { return Err(Truncated); }
    if version.value[0] != VERSION { return Err(UnsupportedVersion(version.value[0])); }
    var subject := cursor.ReadU128();
    if subject.Err? { return Err(Truncated); }
    var roomId := cursor.ReadU128();
    if roomId.Err? { return Err(Truncated); }
    var expires := cursor.ReadNumber(8);
    if expires.Err? { return Err(Truncated); }
    var nonce := cursor.ReadNumber(8);
    if nonce.Err? { return Err(Truncated); }
    var scopes := cursor.ReadNumber(4);
    if scopes.Err? { return Err(Truncated); }
    if cursor.offset < |s| { return Err(Malformed); }
    r := Ok(Claims(subject.value, roomId.value, expires.value, nonce.value, scopes.value));
  }
}
