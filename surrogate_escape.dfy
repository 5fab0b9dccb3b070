/** The "surrogateescape" error handler of PEP 383 over UTF-8 (section 3 of
    RFC 3629): undecodable bytes become lone surrogates U+DC80..U+DCFF and
    encoding turns them back into the same bytes. Text here is a sequence of
    code points rather than a Dafny `string`, because a Dafny `char` cannot hold
    a lone surrogate. */
module SurrogateEscape {
  import opened Wrappers

  newtype Byte = b: int | 0 <= b < 0x100
  newtype CodePoint = c: int | 0 <= c < 0x11_0000

  /** The code points `make_printable` collapses: U+D800..U+DFFF. */
  predicate IsSurrogate(c: CodePoint) {
    0xD800 <= c < 0xE000
  }

  /** The code points `encode` turns back into a single byte: U+DC00..U+DCFF. */
  predicate IsEscape(c: CodePoint) {
    0xDC00 <= c < 0xDD00
  }

  predicate IsContinuation(b: Byte) {
    0x80 <= b < 0xC0
  }

  // ---------------------------------------------------------------------------
  // The UTF-8 codec.

  /** UTF-8 encoding of one code point, as Python 2's encoder produces it: lone
      surrogates are encoded like any other code point of the BMP. */
  function Utf8Encode(c: CodePoint): (r: seq<Byte>)
    ensures 1 <= |r| <= 4
    ensures (|r| == 1) == (c < 0x80)
  {
    var n := c as int;
    if n < 0x80 then [n as Byte]
    else if n < 0x800 then [(0xC0 + n / 0x40) as Byte, (0x80 + n % 0x40) as Byte]
    else if n < 0x1_0000 then
      [(0xE0 + n / 0x1000) as Byte, (0x80 + (n / 0x40) % 0x40) as Byte, (0x80 + n % 0x40) as Byte]
    else
      [(0xF0 + n / 0x4_0000) as Byte, (0x80 + (n / 0x1000) % 0x40) as Byte,
       (0x80 + (n / 0x40) % 0x40) as Byte, (0x80 + n % 0x40) as Byte]
  }

  /** Decodes the UTF-8 sequence at the start of `bs`, if there is a well-formed
      one, giving the code point and the number of bytes it takes. The table is
      that of section 4 of RFC 3629; `allowSurrogates` admits the encoded
      surrogates ED A0..BF xx that Python 2's decoder accepts and RFC 3629
      forbids. */
  function DecodeOne(bs: seq<Byte>, allowSurrogates: bool): (r: Option<(CodePoint, nat)>)
    ensures r.Some? ==> 1 <= r.value.1 <= |bs| && r.value.1 <= 4
    ensures |bs| > 0 && bs[0] < 0x80 ==> r == Some((bs[0] as int as CodePoint, 1))
  {
    if bs == [] then Nothing
    else
      var b0 := bs[0] as int;
      if b0 < 0x80 then Some((b0 as CodePoint, 1))
      else if 0xC2 <= b0 <= 0xDF then
        if |bs| >= 2 && IsContinuation(bs[1]) then
          Some((((b0 - 0xC0) * 0x40 + (bs[1] as int - 0x80)) as CodePoint, 2))
        else Nothing
      else if 0xE0 <= b0 <= 0xEF then
        var lo := if b0 == 0xE0 then 0xA0 else 0x80;
        var hi := if b0 == 0xED && !allowSurrogates then 0xA0 else 0xC0;
        if |bs| >= 3 && lo <= bs[1] as int < hi && IsContinuation(bs[2]) then
          Some((((b0 - 0xE0) * 0x1000 + (bs[1] as int - 0x80) * 0x40 + (bs[2] as int - 0x80)) as CodePoint, 3))
        else Nothing
      else if 0xF0 <= b0 <= 0xF4 then
        var lo := if b0 == 0xF0 then 0x90 else 0x80;
        var hi := if b0 == 0xF4 then 0x90 else 0xC0;
        if |bs| >= 4 && lo <= bs[1] as int < hi && IsContinuation(bs[2]) && IsContinuation(bs[3]) then
          Some((((b0 - 0xF0) * 0x4_0000 + (bs[1] as int - 0x80) * 0x1000
                 + (bs[2] as int - 0x80) * 0x40 + (bs[3] as int - 0x80)) as CodePoint, 4))
        else Nothing
      else Nothing
  }

  /** `(q * 64 + r) / 64 == q`: the arithmetic step every multi-byte case needs. */
  lemma DivMod64(q: int, r: int)
    requires 0 <= q && 0 <= r < 0x40
    ensures (q * 0x40 + r) / 0x40 == q && (q * 0x40 + r) % 0x40 == r
  {
  }

  /** A strictly decoded sequence is exactly the UTF-8 encoding of what it
      decodes to, and never decodes to an escape code point. */
  lemma DecodeOneEncodes(bs: seq<Byte>)
    requires DecodeOne(bs, false).Some?
    ensures var (c, n) := DecodeOne(bs, false).value;
      Utf8Encode(c) == bs[..n] && !IsSurrogate(c)
  {
    var (c, n) := DecodeOne(bs, false).value;
    if n == 2 {
      EncodesTwo(bs[0] as int, bs[1] as int);
      assert bs[..2] == [bs[0], bs[1]];
    } else if n == 3 {
      EncodesThree(bs[0] as int, bs[1] as int, bs[2] as int);
      assert bs[..3] == [bs[0], bs[1], bs[2]];
    } else if n == 4 {
      EncodesFour(bs[0] as int, bs[1] as int, bs[2] as int, bs[3] as int);
      assert bs[..4] == [bs[0], bs[1], bs[2], bs[3]];
    }
  }

  lemma EncodesTwo(b0: int, b1: int)
    requires 0xC2 <= b0 <= 0xDF && 0x80 <= b1 < 0xC0
    ensures var c := ((b0 - 0xC0) * 0x40 + (b1 - 0x80)) as CodePoint;
      Utf8Encode(c) == [b0 as Byte, b1 as Byte] && !IsSurrogate(c)
  {
    DivMod64(b0 - 0xC0, b1 - 0x80);
  }

  lemma EncodesThree(b0: int, b1: int, b2: int)
    requires 0xE0 <= b0 <= 0xEF && 0x80 <= b1 < 0xC0 && 0x80 <= b2 < 0xC0
    requires b0 == 0xE0 ==> 0xA0 <= b1
    requires b0 == 0xED ==> b1 < 0xA0
    ensures var c := ((b0 - 0xE0) * 0x1000 + (b1 - 0x80) * 0x40 + (b2 - 0x80)) as CodePoint;
      Utf8Encode(c) == [b0 as Byte, b1 as Byte, b2 as Byte] && !IsSurrogate(c)
  {
    var x0, x1, x2 := b0 - 0xE0, b1 - 0x80, b2 - 0x80;
    var x := (x0 * 0x40 + x1) * 0x40 + x2;
    DivMod64(x0 * 0x40 + x1, x2);
    DivMod64(x0, x1);
    assert x / 0x1000 == (x / 0x40) / 0x40;
  }

  lemma EncodesFour(b0: int, b1: int, b2: int, b3: int)
    requires 0xF0 <= b0 <= 0xF4 && 0x80 <= b1 < 0xC0 && 0x80 <= b2 < 0xC0 && 0x80 <= b3 < 0xC0
    requires b0 == 0xF0 ==> 0x90 <= b1
    requires b0 == 0xF4 ==> b1 < 0x90
    ensures var c := ((b0 - 0xF0) * 0x4_0000 + (b1 - 0x80) * 0x1000 + (b2 - 0x80) * 0x40 + (b3 - 0x80)) as CodePoint;
      Utf8Encode(c) == [b0 as Byte, b1 as Byte, b2 as Byte, b3 as Byte] && !IsSurrogate(c)
  {
    var x0, x1, x2, x3 := b0 - 0xF0, b1 - 0x80, b2 - 0x80, b3 - 0x80;
    var x := ((x0 * 0x40 + x1) * 0x40 + x2) * 0x40 + x3;
    DivMod64((x0 * 0x40 + x1) * 0x40 + x2, x3);
    DivMod64(x0 * 0x40 + x1, x2);
    DivMod64(x0, x1);
    assert x / 0x1000 == (x / 0x40) / 0x40;
    assert x / 0x4_0000 == ((x / 0x40) / 0x40) / 0x40;
  }

  // ---------------------------------------------------------------------------
  // The error handler.

  /** The exception object a codec hands to an error handler. */
  datatype UnicodeError =
    | UnicodeDecodeError(bytes: seq<Byte>, start: nat, end: nat)
    | UnicodeEncodeError(text: seq<CodePoint>, start: nat, end: nat)
    | UnicodeTranslateError(text: seq<CodePoint>, start: nat, end: nat)

  /** The escape code point standing for one undecodable byte. */
  function Escape(b: Byte): (c: CodePoint)
    ensures IsEscape(c)
  {
    (0xDC00 + b as int) as CodePoint
  }

  /** The replacement text for the undecodable bytes `bs`. */
  function Escaped(bs: seq<Byte>): (r: seq<CodePoint>)
    ensures |r| == |bs|
  {
    if bs == [] then [] else [Escape(bs[0])] + Escaped(bs[1..])
  }

  /** What an error handler does with an error: it gives the replacement text
      and the position where decoding resumes, or it raises the error object
      it was given. */
  datatype Handled = Replaced(text: seq<CodePoint>, resume: nat) | Reraised(error: UnicodeError)

  /** The outcome `error_handler` produces for an error. */
  function Handle(error: UnicodeError): Handled
    requires error.UnicodeDecodeError? ==> error.start <= error.end <= |error.bytes|
  {
    if !error.UnicodeDecodeError? then Reraised(error)
    else if forall i :: error.start <= i < error.end ==> error.bytes[i] >= 0x80 then
      Replaced(Escaped(error.bytes[error.start..error.end]), error.end)
    else Reraised(error)
  }

  /** `error_handler`: replaces each byte of the reported range by its escape
      code point and resumes decoding after the range. Any other kind of error,
      or an ASCII byte in the range, is raised again, as the same object. */
  method ErrorHandler(error: UnicodeError) returns (r: Handled)
    requires error.start <= error.end
    requires error.UnicodeDecodeError? ==> error.end <= |error.bytes|
    ensures r == Handle(error)
    ensures !error.UnicodeDecodeError? ==> r == Reraised(error)
    ensures r.Reraised? ==> r == Reraised(error)
    ensures error.UnicodeDecodeError? ==>
      (r.Replaced? <==> forall i :: error.start <= i < error.end ==> error.bytes[i] >= 0x80)
    ensures r.Replaced? ==> r.resume == error.end && |r.text| == error.end - error.start
    ensures r.Replaced? ==> forall k :: 0 <= k < |r.text| ==> 0xDC80 <= r.text[k] < 0xDD00
  {
    if !error.UnicodeDecodeError? {
      return Reraised(error);
    }
    var escaped := EscapeRange(error.bytes, error.start, error.end);
    if escaped.Nothing? {
      return Reraised(error);
    }
    EscapedHigh(error.bytes[error.start..error.end]);
    return Replaced(escaped.value, error.end);
  }

  /** The step `Decode` takes at a byte that starts no well-formed sequence is
      what the handler does with the one-byte decode error there. */
  lemma DecodeStepIsHandled(bs: seq<Byte>, allowSurrogates: bool)
    requires bs != [] && DecodeOne(bs, allowSurrogates).Nothing?
    ensures Handle(UnicodeDecodeError(bs, 0, 1)) == Replaced(Escaped(bs[..1]), 1)
  {
    assert bs[0] >= 0x80;
  }

  /** The loop of `error_handler`: the escapes of `bytes[start..end]`, or
      nothing when one of them is an ASCII byte. */
  method EscapeRange(bytes: seq<Byte>, start: nat, end: nat) returns (escaped: Option<seq<CodePoint>>)
    requires start <= end <= |bytes|
    ensures escaped.Some? <==> forall i :: start <= i < end ==> bytes[i] >= 0x80
    ensures escaped.Some? ==> escaped.value == Escaped(bytes[start..end])
  {
    var result: seq<CodePoint> := [];
    for i := start to end
      invariant result == Escaped(bytes[start..i])
      invariant forall j :: start <= j < i ==> bytes[j] >= 0x80
    {
      var b := bytes[i];
      if b < 128 {
        return Nothing;
      }
      assert bytes[start..i + 1] == bytes[start..i] + [b];
      EscapedAppend(bytes[start..i], b);
      result := result + [Escape(b)];
    }
    return Some(result);
  }

  lemma {:induction false} EscapedAppend(bs: seq<Byte>, b: Byte)
    ensures Escaped(bs + [b]) == Escaped(bs) + [Escape(b)]
  {
    if bs != [] {
      assert (bs + [b])[1..] == bs[1..] + [b];
      EscapedAppend(bs[1..], b);
    }
  }

  /** Bytes 0x80..0xFF escape to U+DC80..U+DCFF. */
  lemma {:induction false} EscapedHigh(bs: seq<Byte>)
    requires forall j :: 0 <= j < |bs| ==> bs[j] >= 0x80
    ensures forall k :: 0 <= k < |Escaped(bs)| ==> 0xDC80 <= Escaped(bs)[k] < 0xDD00
  {
    if bs != [] {
      EscapedHigh(bs[1..]);
      assert Escaped(bs) == [Escape(bs[0])] + Escaped(bs[1..]);
    }
  }

  // ---------------------------------------------------------------------------
  // decode, encode and make_printable.

  /** `decode`: `bytestring.decode('utf-8', errors='surrogateescape')`. The codec
      reports each byte that starts no well-formed sequence as a one-byte error,
      and the handler escapes it. */
  function Decode(bs: seq<Byte>, allowSurrogates: bool): (r: seq<CodePoint>)
    ensures |r| <= |bs| && (r == [] <==> bs == [])
    decreases |bs|
  {
    if bs == [] then []
    else match DecodeOne(bs, allowSurrogates)
      case Some((c, n)) => [c] + Decode(bs[n..], allowSurrogates)
      case Nothing => Escaped(bs[..1]) + Decode(bs[1..], allowSurrogates)
  }

  /** Bytes of one code point under `encode`. */
  function EncodeChar(c: CodePoint): (r: seq<Byte>)
    ensures IsEscape(c) ==> r == [(c as int - 0xDC00) as Byte]
    ensures !IsEscape(c) ==> r == Utf8Encode(c)
  {
    if IsEscape(c) then [(c as int - 0xDC00) as Byte] else Utf8Encode(c)
  }

  /** What `encode` produces: the bytes of each code point, in order. */
  function Encoded(s: seq<CodePoint>): (r: seq<Byte>)
    ensures |s| <= |r| <= 4 * |s|
  {
    if s == [] then [] else EncodeChar(s[0]) + Encoded(s[1..])
  }

  lemma {:induction false} EncodedAppend(s: seq<CodePoint>, c: CodePoint)
    ensures Encoded(s + [c]) == Encoded(s) + EncodeChar(c)
  {
    if s != [] {
      assert (s + [c])[1..] == s[1..] + [c];
      EncodedAppend(s[1..], c);
    }
  }

  /** `encode`: each code point of U+DC00..U+DCFF becomes the single byte
      `cp - 0xDC00`; every other code point becomes its UTF-8 encoding. */
  method Encode(s: seq<CodePoint>) returns (bs: seq<Byte>)
    ensures bs == Encoded(s)
  {
    bs := [];
    for i := 0 to |s|
      invariant bs == Encoded(s[..i])
    {
      assert s[..i + 1] == s[..i] + [s[i]];
      EncodedAppend(s[..i], s[i]);
      bs := bs + EncodeChar(s[i]);
    }
    assert s[..|s|] == s;
  }

  lemma {:induction false} EncodedConcat(a: seq<CodePoint>, b: seq<CodePoint>)
    ensures Encoded(a + b) == Encoded(a) + Encoded(b)
  {
    if a != [] {
      assert (a + b)[0] == a[0];
      assert (a + b)[1..] == a[1..] + b;
      EncodedConcat(a[1..], b);
    } else {
      assert a + b == b;
    }
  }

  /** The only surrogates strict decoding produces are escapes of bytes
      0x80..0xFF, i.e. code points U+DC80..U+DCFF. */
  lemma {:induction false} DecodedSurrogatesAreHighEscapes(bs: seq<Byte>)
    ensures forall k :: 0 <= k < |Decode(bs, false)| && IsSurrogate(Decode(bs, false)[k]) ==>
      0xDC80 <= Decode(bs, false)[k] < 0xDD00
    decreases |bs|
  {
    if bs != [] {
      match DecodeOne(bs, false)
      case Some((c, n)) =>
        DecodeOneEncodes(bs);
        DecodedSurrogatesAreHighEscapes(bs[n..]);
        assert Decode(bs, false) == [c] + Decode(bs[n..], false);
      case Nothing =>
        DecodedSurrogatesAreHighEscapes(bs[1..]);
        assert bs[0] >= 0x80;
        assert Decode(bs, false) == [Escape(bs[0])] + Decode(bs[1..], false);
    }
  }

  /** The round trip the module promises: with a decoder that rejects encoded
      surrogates, as RFC 3629 requires, encoding the decoded text gives back
      every byte. */
  lemma {:induction false} RoundTrip(bs: seq<Byte>)
    ensures Encoded(Decode(bs, false)) == bs
    decreases |bs|
  {
    if bs != [] {
      match DecodeOne(bs, false)
      case Some((c, n)) =>
        RoundTrip(bs[n..]);
        DecodeOneEncodes(bs);
        RoundTripDecoded(bs, c, n);
      case Nothing =>
        RoundTrip(bs[1..]);
        RoundTripEscaped(bs);
    }
  }

  /** One well-formed sequence: its code point encodes back to its bytes. */
  lemma RoundTripDecoded(bs: seq<Byte>, c: CodePoint, n: nat)
    requires 0 < n <= |bs| && Utf8Encode(c) == bs[..n] && !IsSurrogate(c)
    requires Decode(bs, false) == [c] + Decode(bs[n..], false)
    requires Encoded(Decode(bs[n..], false)) == bs[n..]
    ensures Encoded(Decode(bs, false)) == bs
  {
    EncodedConcat([c], Decode(bs[n..], false));
    assert Encoded([c]) == EncodeChar(c);
    assert bs == bs[..n] + bs[n..];
  }

  /** One undecodable byte: its escape encodes back to that byte. */
  lemma RoundTripEscaped(bs: seq<Byte>)
    requires bs != [] && DecodeOne(bs, false).Nothing?
    requires Encoded(Decode(bs[1..], false)) == bs[1..]
    ensures Encoded(Decode(bs, false)) == bs
  {
    DecodeEscapes(bs);
    EncodedConcat([Escape(bs[0])], Decode(bs[1..], false));
    assert Encoded([Escape(bs[0])]) == [bs[0]];
    assert bs == [bs[0]] + bs[1..];
  }

  /** A byte that starts no well-formed sequence decodes to its escape. */
  lemma DecodeEscapes(bs: seq<Byte>)
    requires bs != [] && DecodeOne(bs, false).Nothing?
    ensures Decode(bs, false) == [Escape(bs[0])] + Decode(bs[1..], false)
  {
    assert Escaped(bs[..1]) == [Escape(bs[0])];
  }

  /** With Python 2's decoder, which accepts the encoded surrogate U+DCE9, the
      three valid-looking bytes ED B3 A9 come back as the single byte E9. */
  lemma Python2DecoderBreaksRoundTrip()
    ensures Decode([0xED, 0xB3, 0xA9], true) == [0xDCE9]
    ensures Encoded(Decode([0xED, 0xB3, 0xA9], true)) == [0xE9]
  {
    var bs: seq<Byte> := [0xED, 0xB3, 0xA9];
    assert DecodeOne(bs, true) == Some((0xDCE9, 3));
    assert bs[3..] == [];
    assert Decode(bs, true) == [0xDCE9];
    assert Encoded([0xDCE9]) == EncodeChar(0xDCE9) + Encoded([]);
  }

  /** `make_printable`: every surrogate becomes U+FFFD, every other code point
      is kept. */
  function MakePrintable(s: seq<CodePoint>): (r: seq<CodePoint>)
    ensures |r| == |s|
  {
    if s == [] then []
    else [if IsSurrogate(s[0]) then 0xFFFD else s[0]] + MakePrintable(s[1..])
  }

  lemma {:induction false} MakePrintableAt(s: seq<CodePoint>)
    ensures |MakePrintable(s)| == |s|
    ensures forall i :: 0 <= i < |s| ==>
      MakePrintable(s)[i] == if IsSurrogate(s[i]) then 0xFFFD else s[i]
  {
    if s != [] {
      MakePrintableAt(s[1..]);
    }
  }

  lemma MakePrintableClean(s: seq<CodePoint>)
    ensures forall i :: 0 <= i < |MakePrintable(s)| ==> !IsSurrogate(MakePrintable(s)[i])
  {
    MakePrintableAt(s);
  }

  lemma MakePrintableIdempotent(s: seq<CodePoint>)
    ensures MakePrintable(MakePrintable(s)) == MakePrintable(s)
  {
    MakePrintableAt(s);
    MakePrintableAt(MakePrintable(s));
  }

  /** Well-formed UTF-8 (RFC 3629): the whole input splits into sequences. */
  predicate IsUtf8(bs: seq<Byte>)
    decreases |bs|
  {
    bs == [] || (DecodeOne(bs, false).Some? && IsUtf8(bs[DecodeOne(bs, false).value.1..]))
  }

  /** Displaying decoded text changes it exactly when the bytes were not
      well-formed UTF-8, i.e. when some byte had to be escaped. */
  lemma {:induction false} PrintableIffUtf8(bs: seq<Byte>)
    ensures MakePrintable(Decode(bs, false)) == Decode(bs, false) <==> IsUtf8(bs)
    decreases |bs|
  {
    if bs != [] {
      match DecodeOne(bs, false)
      case Some((c, n)) =>
        DecodeOneEncodes(bs);
        PrintableIffUtf8(bs[n..]);
        var rest := Decode(bs[n..], false);
        assert Decode(bs, false) == [c] + rest;
        assert MakePrintable([c] + rest) == [c] + MakePrintable(rest) by {
          assert ([c] + rest)[1..] == rest;
        }
      case Nothing =>
        var rest := Decode(bs[1..], false);
        var d := Decode(bs, false);
        assert d == [Escape(bs[0])] + rest;
        MakePrintableAt(d);
        assert MakePrintable(d)[0] == 0xFFFD != d[0];
    }
  }
}
