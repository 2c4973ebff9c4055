/** Byte strings with Go's comparison and white-space trimming. */
module Text {
  type Byte = b: int | 0 <= b < 256
  type Str = seq<Byte>

  const NEWLINE: Byte := 10
  const CARRIAGE_RETURN: Byte := 13
  const NUL: Byte := 0

  // ---------- order ----------

  /** Go's `<` on strings: byte by byte, a proper prefix first. */
  predicate Less(a: Str, b: Str) {
    && |b| > 0
    && (|a| == 0 || a[0] < b[0] || (a[0] == b[0] && Less(a[1..], b[1..])))
  }

  lemma {:induction false} LessIrreflexive(a: Str)
    ensures !Less(a, a)
  {
    if |a| > 0 {
      LessIrreflexive(a[1..]);
    }
  }

  lemma {:induction false} LessTotal(a: Str, b: Str)
    ensures a == b || Less(a, b) || Less(b, a)
  {
    if |a| > 0 && |b| > 0 && a[0] == b[0] {
      LessTotal(a[1..], b[1..]);
      assert a == [a[0]] + a[1..] && b == [b[0]] + b[1..];
    }
  }

  lemma {:induction false} LessTransitive(a: Str, b: Str, c: Str)
    requires Less(a, b) && Less(b, c)
    ensures Less(a, c)
  {
    if |a| > 0 && a[0] == b[0] == c[0] {
      LessTransitive(a[1..], b[1..], c[1..]);
    }
  }

  lemma LessAsymmetric(a: Str, b: Str)
    requires Less(a, b)
    ensures !Less(b, a) && a != b
  {
    LessIrreflexive(a);
    if Less(b, a) {
      LessTransitive(a, b, a);
    }
  }

  /** The first byte that differs decides, and without one the shorter string is less. */
  lemma {:induction false} LessMeans(a: Str, b: Str)
    ensures Less(a, b) <==> exists k :: 0 <= k <= |a| && k < |b| && a[..k] == b[..k] && (k < |a| ==> a[k] < b[k])
  {
    if |a| > 0 && |b| > 0 && a[0] == b[0] {
      LessMeans(a[1..], b[1..]);
      if Less(a, b) {
        var k :| 0 <= k <= |a[1..]| && k < |b[1..]| && a[1..][..k] == b[1..][..k]
          && (k < |a[1..]| ==> a[1..][k] < b[1..][k]);
        assert a[..k + 1] == [a[0]] + a[1..][..k] && b[..k + 1] == [b[0]] + b[1..][..k];
      }
      if k :| 0 < k <= |a| && k < |b| && a[..k] == b[..k] && (k < |a| ==> a[k] < b[k]) {
        assert a[1..][..k - 1] == a[..k][1..] && b[1..][..k - 1] == b[..k][1..];
      }
    } else if |b| > 0 && (|a| == 0 || a[0] < b[0]) {
      assert a[..0] == b[..0];
    } else {
      forall k | 0 < k <= |a| && k < |b| ensures a[..k] != b[..k] {
        assert a[..k][0] != b[..k][0];
      }
    }
  }

  // ---------- trimming ----------

  /** White space of one byte. */
  predicate IsSpace(b: Byte) {
    9 <= b <= 13 || b == 32
  }

  /** The UTF-8 encodings of U+0085 and U+00A0. */
  predicate IsSpace2(a: Byte, b: Byte) {
    a == 0xC2 && (b == 0x85 || b == 0xA0)
  }

  /** The UTF-8 encodings of U+1680, U+2000 to U+200A, U+2028, U+2029, U+202F, U+205F and U+3000. */
  predicate IsSpace3(a: Byte, b: Byte, c: Byte) {
    || (a == 0xE1 && b == 0x9A && c == 0x80)
    || (a == 0xE2 && b == 0x80 && (0x80 <= c <= 0x8A || c == 0xA8 || c == 0xA9 || c == 0xAF))
    || (a == 0xE2 && b == 0x81 && c == 0x9F)
    || (a == 0xE3 && b == 0x80 && c == 0x80)
  }

  /** The length of the white-space character (unicode.IsSpace) that s starts with, or 0. */
  function LeadingSpace(s: Str): (n: nat)
    ensures n <= |s|
  {
    if |s| >= 1 && IsSpace(s[0]) then 1
    else if |s| >= 2 && IsSpace2(s[0], s[1]) then 2
    else if |s| >= 3 && IsSpace3(s[0], s[1], s[2]) then 3
    else 0
  }

  /** The length of the white-space character that s ends with, or 0. */
  function TrailingSpace(s: Str): (n: nat)
    ensures n <= |s|
  {
    var k := |s|;
    if k >= 1 && IsSpace(s[k - 1]) then 1
    else if k >= 2 && IsSpace2(s[k - 2], s[k - 1]) then 2
    else if k >= 3 && IsSpace3(s[k - 3], s[k - 2], s[k - 1]) then 3
    else 0
  }

  function TrimLeft(s: Str): Str
    decreases |s|
  {
    if LeadingSpace(s) > 0 then TrimLeft(s[LeadingSpace(s)..]) else s
  }

  function TrimRight(s: Str): Str
    decreases |s|
  {
    if TrailingSpace(s) > 0 then TrimRight(s[..|s| - TrailingSpace(s)]) else s
  }

  /** strings.TrimSpace. */
  function TrimSpace(s: Str): Str {
    TrimLeft(TrimRight(s))
  }

  // ---------- what trimming does, in Unicode's terms ----------

  /** Unicode's White_Space characters, all below U+10000. */
  predicate WhiteSpace(c: int) {
    || 0x9 <= c <= 0xD || c == 0x20 || c == 0x85 || c == 0xA0 || c == 0x1680 || 0x2000 <= c <= 0x200A
    || c == 0x2028 || c == 0x2029 || c == 0x202F || c == 0x205F || c == 0x3000
  }

  /** The UTF-8 encoding of a white-space character. */
  function Utf8(c: int): Str
    requires WhiteSpace(c)
  {
    if c < 0x80 then [c]
    else if c < 0x800 then [0xC0 + c / 64, 0x80 + c % 64]
    else [0xE0 + c / 4096, 0x80 + c / 64 % 64, 0x80 + c % 64]
  }

  /** s begins with the white-space character c. */
  ghost predicate BeginsWith(s: Str, c: int) {
    WhiteSpace(c) && |Utf8(c)| <= |s| && s[..|Utf8(c)|] == Utf8(c)
  }

  /** s ends with the white-space character c. */
  ghost predicate EndsWith(s: Str, c: int) {
    WhiteSpace(c) && |Utf8(c)| <= |s| && s[|s| - |Utf8(c)|..] == Utf8(c)
  }

  /** The encodings of white-space characters, one behind the other. */
  function Blanks(cs: seq<int>): Str
    requires forall i :: 0 <= i < |cs| ==> WhiteSpace(cs[i])
  {
    if cs == [] then [] else Utf8(cs[0]) + Blanks(cs[1..])
  }

  lemma {:induction false} BlanksAppend(cs: seq<int>, c: int)
    requires (forall i :: 0 <= i < |cs| ==> WhiteSpace(cs[i])) && WhiteSpace(c)
    ensures Blanks(cs + [c]) == Blanks(cs) + Utf8(c)
  {
    hide WhiteSpace, Utf8;
    if cs != [] {
      BlanksAppend(cs[1..], c);
      assert (cs + [c])[1..] == cs[1..] + [c];
    }
  }

  function CodePoint(a: Byte, b: Byte, c: Byte): int {
    (a - 0xE0) * 4096 + (b - 0x80) * 64 + (c - 0x80)
  }

  lemma EncodedIsSpace(c: int)
    requires WhiteSpace(c)
    ensures var u := Utf8(c);
      || (|u| == 1 && IsSpace(u[0]))
      || (|u| == 2 && IsSpace2(u[0], u[1]))
      || (|u| == 3 && IsSpace3(u[0], u[1], u[2]))
  {
  }

  lemma SpaceIsEncoded(a: Byte, b: Byte, c: Byte)
    ensures IsSpace(a) ==> WhiteSpace(a) && Utf8(a) == [a]
    ensures IsSpace2(a, b) ==> WhiteSpace(b) && Utf8(b) == [a, b]
    ensures IsSpace3(a, b, c) ==> WhiteSpace(CodePoint(a, b, c)) && Utf8(CodePoint(a, b, c)) == [a, b, c]
  {
    hide WhiteSpace, Utf8, CodePoint;
    ShortSpace(a, b);
    if IsSpace3(a, b, c) {
      LongSpace(a, b, c);
    }
  }

  lemma ShortSpace(a: Byte, b: Byte)
    ensures IsSpace(a) ==> WhiteSpace(a) && Utf8(a) == [a]
    ensures IsSpace2(a, b) ==> WhiteSpace(b) && Utf8(b) == [a, b]
  {
    assert 0x85 / 64 == 2 && 0xA0 / 64 == 2;
  }

  lemma LongSpace(a: Byte, b: Byte, c: Byte)
    requires IsSpace3(a, b, c)
    ensures WhiteSpace(CodePoint(a, b, c)) && Utf8(CodePoint(a, b, c)) == [a, b, c]
  {
    var p := CodePoint(a, b, c);
    Quotients(p, a - 0xE0, b - 0x80, c - 0x80);
  }

  lemma Quotients(p: int, x: int, y: int, z: int)
    requires 0 <= x && 0 <= y < 64 && 0 <= z < 64 && p == x * 4096 + y * 64 + z
    ensures p / 4096 == x && p / 64 % 64 == y && p % 64 == z
  {
    assert p / 64 == x * 64 + y;
  }

  lemma LeadingSpaceMeans(s: Str)
    ensures LeadingSpace(s) > 0 ==> exists c :: BeginsWith(s, c) && Utf8(c) == s[..LeadingSpace(s)]
    ensures LeadingSpace(s) == 0 ==> forall c :: !BeginsWith(s, c)
  {
    hide WhiteSpace, Utf8, IsSpace, IsSpace2, IsSpace3, CodePoint;
    var at := (i: nat) => if i < |s| then s[i] else 0;
    SpaceIsEncoded(at(0), at(1), at(2));
    forall c | BeginsWith(s, c) ensures LeadingSpace(s) > 0 {
      EncodedIsSpace(c);
      assert forall i :: 0 <= i < |Utf8(c)| ==> s[i] == s[..|Utf8(c)|][i];
    }
  }

  lemma TrailingSpaceMeans(s: Str)
    ensures TrailingSpace(s) > 0 ==> exists c :: EndsWith(s, c) && Utf8(c) == s[|s| - TrailingSpace(s)..]
    ensures TrailingSpace(s) == 0 ==> forall c :: !EndsWith(s, c)
  {
    hide WhiteSpace, TrailingSpace, EndsWith;
    if TrailingSpace(s) > 0 {
      LastCharacter(s);
    }
    forall c | EndsWith(s, c) ensures TrailingSpace(s) > 0 {
      EndIsSpace(s, c);
    }
  }

  lemma LastCharacter(s: Str)
    requires TrailingSpace(s) > 0
    ensures exists c :: EndsWith(s, c) && Utf8(c) == s[|s| - TrailingSpace(s)..]
  {
    hide WhiteSpace, Utf8, IsSpace, IsSpace2, IsSpace3, CodePoint;
    var k, n := |s|, TrailingSpace(s);
    if n == 1 {
      SpaceIsEncoded(s[k - 1], 0, 0);
      assert EndsWith(s, s[k - 1]);
    } else if n == 2 {
      SpaceIsEncoded(s[k - 2], s[k - 1], 0);
      assert EndsWith(s, s[k - 1]);
    } else {
      SpaceIsEncoded(s[k - 3], s[k - 2], s[k - 1]);
      assert EndsWith(s, CodePoint(s[k - 3], s[k - 2], s[k - 1]));
    }
  }

  lemma EndIsSpace(s: Str, c: int)
    requires EndsWith(s, c)
    ensures TrailingSpace(s) > 0
  {
    hide WhiteSpace, Utf8, IsSpace, IsSpace2, IsSpace3;
    EncodedIsSpace(c);
    var n := |Utf8(c)|;
    assert forall i :: |s| - n <= i < |s| ==> s[i] == Utf8(c)[i - (|s| - n)];
  }

  lemma {:induction false} TrimRightMeans(s: Str) returns (back: seq<int>)
    ensures forall i :: 0 <= i < |back| ==> WhiteSpace(back[i])
    ensures s == TrimRight(s) + Blanks(back) && TrailingSpace(TrimRight(s)) == 0
    decreases |s|
  {
    hide WhiteSpace, Utf8, TrailingSpace;
    back := [];
    if TrailingSpace(s) > 0 {
      var shorter := s[..|s| - TrailingSpace(s)];
      TrailingSpaceMeans(s);
      var c :| EndsWith(s, c) && Utf8(c) == s[|s| - TrailingSpace(s)..];
      back := TrimRightMeans(shorter);
      BlanksAppend(back, c);
      back := back + [c];
      assert s == shorter + Utf8(c);
    }
  }

  lemma {:induction false} TrimLeftMeans(s: Str) returns (front: seq<int>)
    requires TrailingSpace(s) == 0
    ensures forall i :: 0 <= i < |front| ==> WhiteSpace(front[i])
    ensures s == Blanks(front) + TrimLeft(s) && LeadingSpace(TrimLeft(s)) == 0 && TrailingSpace(TrimLeft(s)) == 0
    decreases |s|
  {
    hide WhiteSpace, Utf8, LeadingSpace, TrailingSpace;
    front := [];
    if LeadingSpace(s) > 0 {
      var shorter := s[LeadingSpace(s)..];
      LeadingSpaceMeans(s);
      var c :| BeginsWith(s, c) && Utf8(c) == s[..LeadingSpace(s)];
      EndOfSuffix(s, LeadingSpace(s));
      front := TrimLeftMeans(shorter);
      front := [c] + front;
      assert front[1..] == front[1..] && s == Utf8(c) + shorter;
    }
  }

  lemma EndOfSuffix(s: Str, n: nat)
    requires TrailingSpace(s) == 0 && n <= |s|
    ensures TrailingSpace(s[n..]) == 0
  {
  }

  /**
   * Trimming takes white-space characters off both ends, whole characters and nothing else, and leaves
   * none at either end.
   */
  lemma TrimSpaceMeans(s: Str) returns (front: seq<int>, back: seq<int>)
    ensures forall i :: 0 <= i < |front| ==> WhiteSpace(front[i])
    ensures forall i :: 0 <= i < |back| ==> WhiteSpace(back[i])
    ensures s == Blanks(front) + TrimSpace(s) + Blanks(back)
    ensures forall c :: !BeginsWith(TrimSpace(s), c) && !EndsWith(TrimSpace(s), c)
  {
    hide BeginsWith, EndsWith, LeadingSpace, TrailingSpace, TrimLeft, TrimRight;
    back := TrimRightMeans(s);
    front := TrimLeftMeans(TrimRight(s));
    LeadingSpaceMeans(TrimSpace(s));
    TrailingSpaceMeans(TrimSpace(s));
  }

  /** strings.HasPrefix. */
  predicate HasPrefix(s: Str, prefix: Str) {
    |prefix| <= |s| && s[..|prefix|] == prefix
  }
}
