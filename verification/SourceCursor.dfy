/** The opaque page cursor: "v1", a NUL and the identity, in unpadded URL-safe base64. */
module SourceCursor {
  import opened Options
  import opened Text

  // ---------- base64.RawURLEncoding (RFC 4648, section 5, no padding) ----------

  /** The character of a 6-bit digit. */
  function Letter(d: int): Byte
    requires 0 <= d < 64
  {
    if d < 26 then 65 + d
    else if d < 52 then 97 + (d - 26)
    else if d < 62 then 48 + (d - 52)
    else if d == 62 then 45
    else 95
  }

  /** The digit of a character, or -1 for one outside the alphabet. */
  function Digit(c: Byte): (d: int)
    ensures -1 <= d < 64
  {
    if 65 <= c <= 90 then c - 65
    else if 97 <= c <= 122 then c - 97 + 26
    else if 48 <= c <= 57 then c - 48 + 52
    else if c == 45 then 62
    else if c == 95 then 63
    else -1
  }

  /** EncodeToString. */
  function Encode(b: seq<Byte>): Str {
    if |b| == 0 then []
    else if |b| == 1 then
      [Letter(b[0] / 4), Letter(b[0] % 4 * 16)]
    else if |b| == 2 then
      [Letter(b[0] / 4), Letter(b[0] % 4 * 16 + b[1] / 16), Letter(b[1] % 16 * 4)]
    else
      [Letter(b[0] / 4), Letter(b[0] % 4 * 16 + b[1] / 16), Letter(b[1] % 16 * 4 + b[2] / 64), Letter(b[2] % 64)]
      + Encode(b[3..])
  }

  /** Line breaks are skipped by the decoder. */
  function Unbroken(s: Str): Str {
    if s == [] then []
    else if IsBreak(s[0]) then Unbroken(s[1..])
    else [s[0]] + Unbroken(s[1..])
  }

  /** The bytes of whole and leftover quanta; left-over low bits are ignored, a lone digit is an error. */
  function Bytes(s: Str): Option<seq<Byte>> {
    if |s| == 0 then Some([])
    else if |s| == 1 || Digit(s[0]) < 0 || Digit(s[1]) < 0 then None
    else
      var first: Byte := Digit(s[0]) * 4 + Digit(s[1]) / 16;
      if |s| == 2 then Some([first])
      else if Digit(s[2]) < 0 then None
      else
        var second: Byte := Digit(s[1]) % 16 * 16 + Digit(s[2]) / 4;
        if |s| == 3 then Some([first, second])
        else if Digit(s[3]) < 0 then None
        else
          var third: Byte := Digit(s[2]) % 4 * 64 + Digit(s[3]);
          match Bytes(s[4..])
          case None => None
          case Some(rest) => Some([first, second, third] + rest)
  }

  /** DecodeString: lenient about line breaks and about the unused bits of the last digit. */
  function Decode(s: Str): Option<seq<Byte>> {
    Bytes(Unbroken(s))
  }

  lemma LetterIsDigit(d: int)
    requires 0 <= d < 64
    ensures Digit(Letter(d)) == d && Letter(d) != NEWLINE && Letter(d) != CARRIAGE_RETURN
  {
  }

  /** The URL-safe alphabet of RFC 4648, section 5, digit by digit: A-Z, a-z, 0-9, "-" and "_". */
  lemma AlphabetIs()
    ensures Letter(0) == 65 && Letter(1) == 66 && Letter(2) == 67 && Letter(3) == 68
    ensures Letter(4) == 69 && Letter(5) == 70 && Letter(6) == 71 && Letter(7) == 72
    ensures Letter(8) == 73 && Letter(9) == 74 && Letter(10) == 75 && Letter(11) == 76
    ensures Letter(12) == 77 && Letter(13) == 78 && Letter(14) == 79 && Letter(15) == 80
    ensures Letter(16) == 81 && Letter(17) == 82 && Letter(18) == 83 && Letter(19) == 84
    ensures Letter(20) == 85 && Letter(21) == 86 && Letter(22) == 87 && Letter(23) == 88
    ensures Letter(24) == 89 && Letter(25) == 90 && Letter(26) == 97 && Letter(27) == 98
    ensures Letter(28) == 99 && Letter(29) == 100 && Letter(30) == 101 && Letter(31) == 102
    ensures Letter(32) == 103 && Letter(33) == 104 && Letter(34) == 105 && Letter(35) == 106
    ensures Letter(36) == 107 && Letter(37) == 108 && Letter(38) == 109 && Letter(39) == 110
    ensures Letter(40) == 111 && Letter(41) == 112 && Letter(42) == 113 && Letter(43) == 114
    ensures Letter(44) == 115 && Letter(45) == 116 && Letter(46) == 117 && Letter(47) == 118
    ensures Letter(48) == 119 && Letter(49) == 120 && Letter(50) == 121 && Letter(51) == 122
    ensures Letter(52) == 48 && Letter(53) == 49 && Letter(54) == 50 && Letter(55) == 51
    ensures Letter(56) == 52 && Letter(57) == 53 && Letter(58) == 54 && Letter(59) == 55
    ensures Letter(60) == 56 && Letter(61) == 57 && Letter(62) == 45 && Letter(63) == 95
  {
  }

  /** Only the characters of the alphabet are digits. */
  lemma DigitIsLetter(c: Byte)
    ensures Digit(c) >= 0 ==> Letter(Digit(c)) == c
  {
  }

  predicate IsBreak(c: Byte) {
    c == NEWLINE || c == CARRIAGE_RETURN
  }

  /** Encoding never emits a line break. */
  lemma {:induction false} EncodedHasNoBreaks(b: seq<Byte>)
    ensures forall i :: 0 <= i < |Encode(b)| ==> !IsBreak(Encode(b)[i])
  {
    if |b| >= 3 {
      EncodedHasNoBreaks(b[3..]);
    }
  }

  lemma {:induction false} NothingToSkip(s: Str)
    requires forall i :: 0 <= i < |s| ==> !IsBreak(s[i])
    ensures Unbroken(s) == s
  {
    if s != [] {
      NothingToSkip(s[1..]);
      assert s == [s[0]] + s[1..];
    }
  }

  /** The digits of three bytes, put together again. */
  lemma Regrouped(x: Byte, y: Byte, z: Byte)
    ensures x / 4 * 4 + (x % 4 * 16 + y / 16) / 16 == x
    ensures (x % 4 * 16 + y / 16) % 16 * 16 + (y % 16 * 4 + z / 64) / 4 == y
    ensures (y % 16 * 4 + z / 64) % 4 * 64 + z % 64 == z
  {
    assert (x % 4 * 16 + y / 16) / 16 == x % 4;
    assert (y % 16 * 4 + z / 64) / 4 == y % 16;
  }

  /** What a whole quantum of letters decodes to, in terms of its digits. */
  lemma QuantumBytes(a: int, b: int, c: int, d: int, s: Str)
    requires 0 <= a < 64 && 0 <= b < 64 && 0 <= c < 64 && 0 <= d < 64
    requires |s| >= 4 && s[0] == Letter(a) && s[1] == Letter(b) && s[2] == Letter(c) && s[3] == Letter(d)
    requires Bytes(s[4..]).Some?
    ensures Bytes(s) == Some([a * 4 + b / 16, b % 16 * 16 + c / 4, c % 4 * 64 + d] + Bytes(s[4..]).value)
  {
    LetterIsDigit(a);
    LetterIsDigit(b);
    LetterIsDigit(c);
    LetterIsDigit(d);
  }

  lemma OneLeft(x: Byte)
    ensures Bytes([Letter(x / 4), Letter(x % 4 * 16)]) == Some([x])
  {
    LetterIsDigit(x / 4);
    LetterIsDigit(x % 4 * 16);
  }

  lemma TwoLeft(x: Byte, y: Byte)
    ensures Bytes([Letter(x / 4), Letter(x % 4 * 16 + y / 16), Letter(y % 16 * 4)]) == Some([x, y])
  {
    LetterIsDigit(x / 4);
    LetterIsDigit(x % 4 * 16 + y / 16);
    LetterIsDigit(y % 16 * 4);
    Regrouped(x, y, 0);
  }

  lemma {:induction false} BytesOfEncoded(b: seq<Byte>)
    ensures Bytes(Encode(b)) == Some(b)
  {
    hide Letter, Digit;
    if |b| >= 3 {
      BytesOfEncoded(b[3..]);
      assert Encode(b)[4..] == Encode(b[3..]);
      QuantumBytes(b[0] / 4, b[0] % 4 * 16 + b[1] / 16, b[1] % 16 * 4 + b[2] / 64, b[2] % 64, Encode(b));
      Regrouped(b[0], b[1], b[2]);
      assert b == [b[0], b[1], b[2]] + b[3..];
    } else if |b| == 2 {
      TwoLeft(b[0], b[1]);
      assert b == [b[0], b[1]];
    } else if |b| == 1 {
      OneLeft(b[0]);
      assert b == [b[0]];
    }
  }

  /** Decoding undoes encoding. */
  lemma DecodeEncode(b: seq<Byte>)
    ensures Decode(Encode(b)) == Some(b)
  {
    EncodedHasNoBreaks(b);
    NothingToSkip(Encode(b));
    BytesOfEncoded(b);
  }

  lemma {:induction false} EncodedLength(b: seq<Byte>)
    ensures 3 * |Encode(b)| >= 4 * |b| > 3 * (|Encode(b)| - 1)
  {
    if |b| >= 3 {
      EncodedLength(b[3..]);
    }
  }

  // ---------- the cursor ----------

  const PREFIX: Str := [118, 49, NUL]
  const MAX_CURSOR: int := 4096
  const MAX_IDENTITY: int := 3069

  /** encodeAnalyticsSourceCursor. */
  function EncodeCursor(identity: Str): Str {
    Encode(PREFIX + identity)
  }

  /** parseAnalyticsSourceCursor; None is its error. */
  function ParseCursor(value: Str): Option<Str> {
    if value == [] then Some([])
    else if |value| > MAX_CURSOR then None
    else
      match Decode(value)
      case None => None
      case Some(decoded) =>
        if !HasPrefix(decoded, PREFIX) || Encode(decoded) != value then None
        else Some(decoded[|PREFIX|..])
  }

  lemma CursorLength(identity: Str)
    ensures 0 < |EncodeCursor(identity)|
    ensures |EncodeCursor(identity)| <= MAX_CURSOR <==> |identity| <= MAX_IDENTITY
  {
    EncodedLength(PREFIX + identity);
  }

  /** A cursor reads back as its identity exactly up to 3069 bytes; longer ones are refused. */
  lemma CursorRoundTrip(identity: Str)
    ensures ParseCursor(EncodeCursor(identity)) == if |identity| <= MAX_IDENTITY then Some(identity) else None
  {
    CursorLength(identity);
    DecodeEncode(PREFIX + identity);
    assert (PREFIX + identity)[..3] == PREFIX && (PREFIX + identity)[3..] == identity;
  }

  /** The only non-empty value accepted for an identity is the cursor issued for it. */
  lemma OnlyIssuedCursorsParse(value: Str, identity: Str)
    requires value != []
    ensures ParseCursor(value) == Some(identity) <==> value == EncodeCursor(identity) && |identity| <= MAX_IDENTITY
  {
    CursorRoundTrip(identity);
    if ParseCursor(value) == Some(identity) {
      var decoded := Decode(value).value;
      assert decoded == PREFIX + identity;
      CursorLength(identity);
    }
  }

  const ISSUED: Str := [100, 106, 69, 65, 81, 81]
  const OTHER: Str := [100, 106, 69, 65, 81, 82]

  lemma IssuedIsTheCursor()
    ensures EncodeCursor([65]) == ISSUED
  {
    assert PREFIX + [65] == [118, 49, 0, 65] && [118, 49, 0, 65][3..] == [65];
    assert Encode([65]) == [81, 81];
  }

  lemma OtherDecodesAlike()
    ensures Decode(OTHER) == Some(PREFIX + [65])
  {
    hide Digit, Letter;
    assert OTHER[4..] == [81, 82];
    OtherEnd();
    OtherLetters();
    NothingToSkip(OTHER);
    QuantumBytes(29, 35, 4, 0, OTHER);
  }

  lemma OtherLetters()
    ensures Letter(29) == 100 && Letter(35) == 106 && Letter(4) == 69 && Letter(0) == 65
  {
  }

  lemma OtherEnd()
    ensures Bytes([81, 82]) == Some([65])
  {
  }

  /** Decoding alone would accept two spellings of one identity; re-encoding refuses the second. */
  lemma SecondSpellingRefused()
    ensures Decode(ISSUED) == Decode(OTHER)
    ensures ParseCursor(ISSUED) == Some([65]) && ParseCursor(OTHER) == None
  {
    hide Decode, Encode, EncodeCursor, ParseCursor;
    IssuedIsTheCursor();
    OtherDecodesAlike();
    CursorRoundTrip([65]);
    CursorDecodes([65]);
    ParsesDecoded(OTHER);
    OnlyIssuedCursorsParse(OTHER, [65]);
  }

  lemma CursorDecodes(identity: Str)
    ensures Decode(EncodeCursor(identity)) == Some(PREFIX + identity)
  {
    DecodeEncode(PREFIX + identity);
  }

  /** A parsed value is what its decoded bytes hold behind the prefix. */
  lemma ParsesDecoded(value: Str)
    ensures value != [] && ParseCursor(value).Some? ==>
      Decode(value).Some? && HasPrefix(Decode(value).value, PREFIX)
      && ParseCursor(value).value == Decode(value).value[|PREFIX|..]
  {
  }
}
