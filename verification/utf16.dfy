/** Python's 'utf-16' codec, decoding direction, and the encoder that is its
    partner in the round-trip lemmas.

    Decoding consumes a leading byte-order mark (FF FE selects little-endian,
    FE FF big-endian); without one it uses the native byte order of the host,
    which on Windows is little-endian (unlike the big-endian default of
    section 4.3 of RFC 2781). Surrogates are paired as in section 2.2 of
    RFC 2781. `None` stands for the UnicodeDecodeError Python raises: an odd
    number of bytes, a high surrogate not followed by a low one, or a lone
    low surrogate. */
module Utf16 {
  import opened Wrappers
  import opened PySeq

  type CodeUnit = u: int | 0 <= u < 0x1_0000

  predicate IsHighSurrogate(u: int) { 0xD800 <= u <= 0xDBFF }

  predicate IsLowSurrogate(u: int) { 0xDC00 <= u <= 0xDFFF }

  const BomLittleEndian: seq<byte> := [0xFF, 0xFE]
  const BomBigEndian: seq<byte> := [0xFE, 0xFF]

  /** Pairs of bytes read as 16-bit code units in the given byte order. */
  function CodeUnits(data: seq<byte>, bigEndian: bool): (units: seq<CodeUnit>)
    requires |data| % 2 == 0
    ensures |units| == |data| / 2
    decreases |data|
  {
    if data == [] then []
    else
      var unit: CodeUnit := if bigEndian then (data[0] as int) * 256 + data[1] else (data[1] as int) * 256 + data[0];
      [unit] + CodeUnits(data[2..], bigEndian)
  }

  /** The scalar value a surrogate pair stands for. */
  function Combine(high: CodeUnit, low: CodeUnit): (c: char)
    requires IsHighSurrogate(high) && IsLowSurrogate(low)
    ensures 0x1_0000 <= c as int
  {
    (0x1_0000 + (high - 0xD800) * 0x400 + (low - 0xDC00)) as char
  }

  /** Decodes code units; `None` on an unpaired surrogate. */
  function DecodeUnits(units: seq<CodeUnit>): (r: Option<string>)
    ensures r.Some? ==> |r.value| <= |units|
    decreases |units|
  {
    if units == [] then Some([])
    else if IsHighSurrogate(units[0]) then
      if |units| >= 2 && IsLowSurrogate(units[1]) then
        match DecodeUnits(units[2..])
        case None => None
        case Some(rest) => Some([Combine(units[0], units[1])] + rest)
      else None
    else if IsLowSurrogate(units[0]) then None
    else
      match DecodeUnits(units[1..])
      case None => None
      case Some(rest) => Some([units[0] as char] + rest)
  }

  /** The code units the codec reads: a leading mark is consumed and picks
      the byte order; without one the order is little-endian. */
  function UnitsAfterMark(data: seq<byte>): (units: seq<CodeUnit>)
    requires |data| % 2 == 0
    ensures |units| <= |data| / 2
  {
    if StartsWith(data, BomLittleEndian) then CodeUnits(data[2..], false)
    else if StartsWith(data, BomBigEndian) then CodeUnits(data[2..], true)
    else CodeUnits(data, false)
  }

  /** `data.decode('utf-16')`; `None` where Python raises UnicodeDecodeError. */
  function Decode(data: seq<byte>): (r: Option<string>)
    ensures r.Some? ==> |r.value| <= |data| / 2
  {
    if |data| % 2 == 1 then None
    else DecodeUnits(UnitsAfterMark(data))
  }

  /** The codec fails exactly on an odd number of bytes, or when the code
      units after the mark hold an unpaired surrogate. */
  lemma DecodeFailsIff(data: seq<byte>)
    ensures Decode(data).None? <==>
      |data| % 2 == 1 || exists i :: Unpaired(UnitsAfterMark(data), i)
  {
    if |data| % 2 == 0 {
      DecodeUnitsFailsIff(UnitsAfterMark(data));
    }
  }

  /** The code units of one character: itself below U+10000, a surrogate
      pair above. */
  function CharUnits(c: char): (units: seq<CodeUnit>)
  {
    var v := c as int;
    if v < 0x1_0000 then [v]
    else [0xD800 + (v - 0x1_0000) / 0x400, 0xDC00 + (v - 0x1_0000) % 0x400]
  }

  function EncodeUnits(s: string): seq<CodeUnit>
    decreases |s|
  {
    if s == [] then [] else CharUnits(s[0]) + EncodeUnits(s[1..])
  }

  function UnitBytes(units: seq<CodeUnit>, bigEndian: bool): (data: seq<byte>)
    ensures |data| == 2 * |units|
    decreases |units|
  {
    if units == [] then []
    else
      var u := units[0];
      (if bigEndian then [u / 256, u % 256] else [u % 256, u / 256]) + UnitBytes(units[1..], bigEndian)
  }

  /** UTF-16LE without a byte-order mark, the layout of the tab files. */
  function EncodeLittleEndian(s: string): seq<byte>
  {
    UnitBytes(EncodeUnits(s), false)
  }

  function EncodeBigEndian(s: string): seq<byte>
  {
    UnitBytes(EncodeUnits(s), true)
  }

  /** Reading bytes back as code units undoes writing them, in either order. */
  lemma {:induction false} CodeUnitsOfUnitBytes(units: seq<CodeUnit>, bigEndian: bool)
    ensures CodeUnits(UnitBytes(units, bigEndian), bigEndian) == units
    decreases |units|
  {
    if units != [] {
      var data := UnitBytes(units, bigEndian);
      assert data[2..] == UnitBytes(units[1..], bigEndian);
      CodeUnitsOfUnitBytes(units[1..], bigEndian);
    }
  }

  /** Decoding the code units of a string gives the string back. */
  lemma {:induction false} DecodeEncodeUnits(s: string)
    ensures DecodeUnits(EncodeUnits(s)) == Some(s)
    decreases |s|
  {
    if s != [] {
      var units := EncodeUnits(s);
      var v := s[0] as int;
      DecodeEncodeUnits(s[1..]);
      if v < 0x1_0000 {
        assert !IsHighSurrogate(v) && !IsLowSurrogate(v);
        assert units[0] == v;
        assert units[1..] == EncodeUnits(s[1..]);
        assert (v as char) == s[0];
        assert s == [s[0]] + s[1..];
      } else {
        var high := 0xD800 + (v - 0x1_0000) / 0x400;
        var low := 0xDC00 + (v - 0x1_0000) % 0x400;
        assert units[0] == high && units[1] == low;
        assert units[2..] == EncodeUnits(s[1..]);
        assert Combine(high, low) as int == v;
        assert s == [s[0]] + s[1..];
      }
    }
  }

  /** A surrogate at `i` that has no partner: a high one not followed by a
      low one, or a low one not preceded by a high one. */
  predicate Unpaired(units: seq<CodeUnit>, i: int)
  {
    && 0 <= i < |units|
    && ((IsHighSurrogate(units[i]) && (i + 1 == |units| || !IsLowSurrogate(units[i + 1])))
        || (IsLowSurrogate(units[i]) && (i == 0 || !IsHighSurrogate(units[i - 1]))))
  }

  /** Decoding fails exactly when some surrogate is unpaired. */
  lemma {:induction false} DecodeUnitsFailsIff(units: seq<CodeUnit>)
    ensures DecodeUnits(units).None? <==> exists i :: Unpaired(units, i)
    decreases |units|
  {
    if units != [] {
      var u := units[0];
      if IsHighSurrogate(u) && |units| >= 2 && IsLowSurrogate(units[1]) {
        var rest := units[2..];
        DecodeUnitsFailsIff(rest);
        if exists i :: Unpaired(units, i) {
          var i :| Unpaired(units, i);
          assert i >= 2;
          assert Unpaired(rest, i - 2);
        }
        if exists m :: Unpaired(rest, m) {
          var m :| Unpaired(rest, m);
          assert Unpaired(units, m + 2);
        }
      } else if IsHighSurrogate(u) || IsLowSurrogate(u) {
        assert Unpaired(units, 0);
      } else {
        var rest := units[1..];
        DecodeUnitsFailsIff(rest);
        if exists i :: Unpaired(units, i) {
          var i :| Unpaired(units, i);
          assert i >= 1;
          assert Unpaired(rest, i - 1);
        }
        if exists m :: Unpaired(rest, m) {
          var m :| Unpaired(rest, m);
          assert Unpaired(units, m + 1);
        }
      }
    }
  }

  /** The code units of the scalar a surrogate pair stands for are the pair. */
  lemma CombineUnits(high: CodeUnit, low: CodeUnit)
    requires IsHighSurrogate(high) && IsLowSurrogate(low)
    ensures CharUnits(Combine(high, low)) == [high, low]
  {
    var v := Combine(high, low) as int;
    var h := high - 0xD800;
    var l := low - 0xDC00;
    assert v - 0x1_0000 == h * 0x400 + l;
    assert (v - 0x1_0000) / 0x400 == h && (v - 0x1_0000) % 0x400 == l;
  }

  /** A successful decode gives back a string whose code units are the
      input: decoding succeeds only on encodings of strings. */
  lemma {:induction false} EncodeDecodeUnits(units: seq<CodeUnit>)
    ensures DecodeUnits(units).Some? ==> EncodeUnits(DecodeUnits(units).value) == units
    decreases |units|
  {
    if units != [] && DecodeUnits(units).Some? {
      var s := DecodeUnits(units).value;
      if IsHighSurrogate(units[0]) {
        EncodeDecodeUnits(units[2..]);
        CombineUnits(units[0], units[1]);
        assert s[1..] == DecodeUnits(units[2..]).value;
        assert units == [units[0], units[1]] + units[2..];
      } else {
        EncodeDecodeUnits(units[1..]);
        assert s[1..] == DecodeUnits(units[1..]).value;
        assert CharUnits(s[0]) == [units[0]];
        assert units == [units[0]] + units[1..];
      }
    }
  }

  /** The code units of a non-empty string start with those of its first character. */
  lemma EncodeUnitsFirst(s: string)
    requires s != []
    ensures EncodeUnits(s)[..|CharUnits(s[0])|] == CharUnits(s[0])
  {
  }

  /** A little-endian encoding after the FF FE mark decodes to the string. */
  lemma DecodeWithLittleEndianMark(s: string)
    ensures Decode(BomLittleEndian + EncodeLittleEndian(s)) == Some(s)
  {
    var data := BomLittleEndian + EncodeLittleEndian(s);
    assert data[2..] == EncodeLittleEndian(s);
    CodeUnitsOfUnitBytes(EncodeUnits(s), false);
    DecodeEncodeUnits(s);
  }

  /** A big-endian encoding after the FE FF mark decodes to the string. */
  lemma DecodeWithBigEndianMark(s: string)
    ensures Decode(BomBigEndian + EncodeBigEndian(s)) == Some(s)
  {
    var data := BomBigEndian + EncodeBigEndian(s);
    assert data[2..] == EncodeBigEndian(s);
    CodeUnitsOfUnitBytes(EncodeUnits(s), true);
    DecodeEncodeUnits(s);
  }

  /** Without a mark the bytes are read little-endian, so a little-endian
      encoding decodes back unless its first character is U+FEFF or U+FFFE,
      whose bytes would be taken for a mark. */
  lemma DecodeWithoutMark(s: string)
    requires s == [] || (s[0] != '\U{FEFF}' && s[0] != '\U{FFFE}')
    ensures Decode(EncodeLittleEndian(s)) == Some(s)
  {
    var data := EncodeLittleEndian(s);
    CodeUnitsOfUnitBytes(EncodeUnits(s), false);
    DecodeEncodeUnits(s);
    if s != [] {
      var units := EncodeUnits(s);
      EncodeUnitsFirst(s);
      assert data[0] == units[0] % 256 && data[1] == units[0] / 256;
      assert !StartsWith(data, BomLittleEndian);
      assert !StartsWith(data, BomBigEndian);
    }
  }

  /** A string whose first character is U+FEFF loses it: its bytes FF FE are
      consumed as a byte-order mark. */
  lemma LeadingMarkCharacterIsConsumed(s: string)
    requires s != [] && s[0] == '\U{FEFF}'
    ensures Decode(EncodeLittleEndian(s)) == Some(s[1..])
  {
    var rest := EncodeUnits(s[1..]);
    assert EncodeUnits(s) == [0xFEFF] + rest;
    assert ([0xFEFF] + rest)[1..] == rest;
    assert EncodeLittleEndian(s) == BomLittleEndian + EncodeLittleEndian(s[1..]);
    DecodeWithLittleEndianMark(s[1..]);
  }

  /** An odd number of bytes, and an unpaired surrogate, are decode errors. */
  lemma MalformedInputFails(data: seq<byte>)
    ensures |data| % 2 == 1 ==> Decode(data) == None
    ensures data == [0x00, 0xD8] ==> Decode(data) == None
    ensures data == [0x00, 0xDC, 0x41, 0x00] ==> Decode(data) == None
  {
    if data == [0x00, 0xD8] {
      assert CodeUnits(data, false) == [0xD800];
    }
    if data == [0x00, 0xDC, 0x41, 0x00] {
      assert CodeUnits(data, false) == [0xDC00, 0x41];
    }
  }
}
