/** Network byte order over a checked reader and a size-bounded writer. */
module BytesCodec {
  import opened Prelude

  const TWO_POW_64: nat := 0x1_0000_0000_0000_0000

  type Bytes = seq<u8>

  function Pow256(n: nat): nat { if n == 0 then 1 else 256 * Pow256(n - 1) }

  /** Big-endian in exactly `width` bytes. */
  function ToBytes(value: nat, width: nat): (s: Bytes)
    ensures |s| == width
  {
    if width == 0 then [] else ToBytes(value / 256, width - 1) + [value % 256]
  }

  function FromBytes(s: Bytes): nat {
    if s == [] then 0 else FromBytes(s[..|s| - 1]) * 256 + s[|s| - 1]
  }

  lemma FromBytesSnoc(s: Bytes, b: u8)
    ensures FromBytes(s + [b]) == FromBytes(s) * 256 + b
  {
    assert (s + [b])[..|s|] == s;
  }

  lemma {:induction false} DecodeEncoded(value: nat, width: nat)
    requires value < Pow256(width)
    ensures FromBytes(ToBytes(value, width)) == value
  {
    if width > 0 {
      DecodeEncoded(value / 256, width - 1);
      FromBytesSnoc(ToBytes(value / 256, width - 1), value % 256);
    }
  }

  lemma {:induction false} EncodeDecoded(s: Bytes)
    ensures ToBytes(FromBytes(s), |s|) == s && FromBytes(s) < Pow256(|s|)
  {
    if s != [] {
      EncodeDecoded(s[..|s| - 1]);
      assert s == s[..|s| - 1] + [s[|s| - 1]];
    }
  }

  lemma {:induction false} FromBytesConcat(a: Bytes, b: Bytes)
    ensures FromBytes(a + b) == FromBytes(a) * Pow256(|b|) + FromBytes(b)
  {
    if b == [] {
      assert a + b == a;
    } else {
      var init, last := b[..|b| - 1], b[|b| - 1];
      FromBytesConcat(a, init);
      assert a + b == (a + init) + [last];
      FromBytesSnoc(a + init, last);
      var x, p := FromBytes(a), Pow256(|init|);
      assert (x * p) * 256 == x * (256 * p);
    }
  }

  lemma Widths()
    ensures Pow256(1) == 0x100 && Pow256(2) == 0x1_0000 && Pow256(4) == 0x1_0000_0000
    ensures Pow256(8) == TWO_POW_64 && Pow256(16) == U128_MAX + 1
  {
    assert Pow256(3) == 0x100_0000 && Pow256(5) == 0x100_0000_0000 && Pow256(6) == 0x1_0000_0000_0000;
    assert Pow256(7) == 0x100_0000_0000_0000 && Pow256(9) == 256 * TWO_POW_64;
    assert Pow256(10) == 0x1_0000 * TWO_POW_64 && Pow256(11) == 0x100_0000 * TWO_POW_64;
    assert Pow256(12) == 0x1_0000_0000 * TWO_POW_64 && Pow256(13) == 0x100_0000_0000 * TWO_POW_64;
    assert Pow256(14) == 0x1_0000_0000_0000 * TWO_POW_64 && Pow256(15) == 0x100_0000_0000_0000 * TWO_POW_64;
  }

  /** A 128-bit value is its high half followed by its low half. */
  lemma HalvesOf(value: u128)
    ensures ToBytes(value, 16) == ToBytes(value / TWO_POW_64, 8) + ToBytes(value % TWO_POW_64, 8)
  {
    Widths();
    var high, low := ToBytes(value / TWO_POW_64, 8), ToBytes(value % TWO_POW_64, 8);
    DecodeEncoded(value / TWO_POW_64, 8);
    DecodeEncoded(value % TWO_POW_64, 8);
    FromBytesConcat(high, low);
    EncodeDecoded(high + low);
    hide ToBytes, FromBytes, Pow256;
  }

  lemma JoinHalves(high: Bytes, low: Bytes)
    requires |high| == 8 && |low| == 8
    ensures FromBytes(high + low) == FromBytes(high) * TWO_POW_64 + FromBytes(low)
    ensures FromBytes(high) < TWO_POW_64 && FromBytes(low) < TWO_POW_64
  {
    Widths();
    FromBytesConcat(high, low);
    EncodeDecoded(high);
    EncodeDecoded(low);
    hide FromBytes, Pow256;
  }

  // ----- The reader -----

  datatype DecodeError = DecodeError(offset: nat, needed: nat, remaining: nat)

  class ReadCursor {
    const input: Bytes
    var offset: nat

    ghost predicate Valid()
      reads this
    {
      offset <= |input|
    }

    constructor (input: Bytes)
      ensures Valid() && this.input == input && offset == 0
    {
      this.input, offset := input, 0;
    }

    /** The next bytes, or an error that leaves the cursor where it was. */
    method Take(length: nat) returns (r: Result<Bytes, DecodeError>)
      requires Valid()
      modifies this
      ensures Valid()
      ensures r.Ok? <==> length <= |input| - old(offset)
      ensures r.Ok? ==> offset == old(offset) + length && r.value == input[old(offset)..offset]
      ensures r.Err? ==> offset == old(offset) && r.error == DecodeError(offset, length, |input| - offset)
    {
      if length > |input| - offset { return Err(DecodeError(offset, length, |input| - offset)); }
      r := Ok(input[offset..offset + length]);
      offset := offset + length;
    }

    /** A big-endian number of one, two, four or eight bytes. */
    method ReadNumber(width: nat) returns (r: Result<nat, DecodeError>)
      requires Valid() && width in {1, 2, 4, 8}
      modifies this
      ensures Valid()
      ensures r.Ok? <==> width <= |input| - old(offset)
      ensures r.Ok? ==> offset == old(offset) + width && r.value == FromBytes(input[old(offset)..offset])
                        && r.value < Pow256(width)
      ensures r.Err? ==> offset == old(offset) && r.error == DecodeError(offset, width, |input| - offset)
    {
      var bytes := Take(width);
      if bytes.Err? { return Err(bytes.error); }
      EncodeDecoded(bytes.value);
      r := Ok(FromBytes(bytes.value));
    }

    /** Two 64-bit halves; a failure may come after the first. */
    method ReadU128() returns (r: Result<u128, DecodeError>)
      requires Valid()
      modifies this
      ensures Valid()
      ensures r.Ok? <==> 16 <= |input| - old(offset)
      ensures r.Ok? ==> offset == old(offset) + 16 && r.value == FromBytes(input[old(offset)..offset])
      ensures r.Err? ==> offset == old(offset) + (if |input| - old(offset) >= 8 then 8 else 0)
                         && r.error == DecodeError(offset, 8, |input| - offset)
    {
      hide FromBytes, Pow256;
      var start := offset;
      var high := ReadNumber(8);
      if high.Err? { return Err(high.error); }
      var low := ReadNumber(8);
      if low.Err? { return Err(low.error); }
      JoinHalves(input[start..start + 8], input[start + 8..start + 16]);
      assert input[start..start + 8] + input[start + 8..start + 16] == input[start..start + 16];
      r := Ok(high.value * TWO_POW_64 + low.value);
    }
  }

  // ----- The writer -----

  datatype EncodeError = EncodeError(current: nat, additional: nat, limit: nat)

  class WriteBuffer {
    var bytes: Bytes
    const limit: nat

    ghost predicate Valid()
      reads this
    {
      |bytes| <= limit
    }

    constructor (limit: nat)
      ensures Valid() && bytes == [] && this.limit == limit
    {
      bytes := [];
      this.limit := limit;
    }

    /** Appends within the limit, or fails without writing anything. */
    method Extend(value: Bytes) returns (r: Result<(), EncodeError>)
      requires Valid()
      modifies this
      ensures Valid()
      ensures r.Ok? <==> |old(bytes)| + |value| <= limit
      ensures bytes == if r.Ok? then old(bytes) + value else old(bytes)
      ensures r.Err? ==> r.error == EncodeError(|bytes|, |value|, limit)
    {
      if |bytes| + |value| > limit { return Err(EncodeError(|bytes|, |value|, limit)); }
      bytes := bytes + value;
      r := Ok(());
    }

    method WriteNumber(value: nat, width: nat) returns (r: Result<(), EncodeError>)
      requires Valid() && width in {1, 2, 4, 8} && value < Pow256(width)
      modifies this
      ensures Valid()
      ensures r.Ok? <==> |old(bytes)| + width <= limit
      ensures bytes == if r.Ok? then old(bytes) + ToBytes(value, width) else old(bytes)
      ensures r.Err? ==> r.error == EncodeError(|bytes|, width, limit)
    {
      r := Extend(ToBytes(value, width));
    }

    method WriteU128(value: u128) returns (r: Result<(), EncodeError>)
      requires Valid()
      modifies this
      ensures Valid()
      ensures r.Ok? <==> |old(bytes)| + 16 <= limit
      ensures r.Ok? ==> bytes == old(bytes) + ToBytes(value, 16)
      ensures r.Err? ==> bytes == old(bytes) + (if |old(bytes)| + 8 <= limit
                                                then ToBytes(value / TWO_POW_64, 8) else [])
      ensures r.Err? ==> r.error == EncodeError(|bytes|, 8, limit)
    {
      Widths();
      HalvesOf(value);
      hide ToBytes, Pow256;
      r := WriteNumber(value / TWO_POW_64, 8);
      if r.Err? { return; }
      r := WriteNumber(value % TWO_POW_64, 8);
    }

    /** Overwrites bytes already written, or fails without changing any. */
    method SetSlice(offset: nat, value: Bytes) returns (r: Result<(), EncodeError>)
      requires Valid()
      modifies this
      ensures Valid()
      ensures r.Ok? <==> offset + |value| <= |old(bytes)|
      ensures bytes == if r.Ok? then old(bytes)[..offset] + value + old(bytes)[offset + |value|..] else old(bytes)
      ensures r.Err? ==> r.error == EncodeError(|bytes|, |value|, limit)
    {
      if offset + |value| > |bytes| { return Err(EncodeError(|bytes|, |value|, limit)); }
      bytes := bytes[..offset] + value + bytes[offset + |value|..];
      r := Ok(());
    }

    method SetNumber(offset: nat, value: nat, width: nat) returns (r: Result<(), EncodeError>)
      requires Valid() && width in {2, 4} && value < Pow256(width)
      modifies this
      ensures Valid()
      ensures r.Ok? <==> offset + width <= |old(bytes)|
      ensures r.Ok? ==> |bytes| == |old(bytes)| && FromBytes(bytes[offset..offset + width]) == value
      ensures r.Ok? ==> bytes[..offset] == old(bytes)[..offset]
                        && bytes[offset + width..] == old(bytes)[offset + width..]
      ensures r.Err? ==> bytes == old(bytes)
    {
      DecodeEncoded(value, width);
      r := SetSlice(offset, ToBytes(value, width));
      if r.Ok? { assert bytes[offset..offset + width] == ToBytes(value, width); }
    }
  }
}
