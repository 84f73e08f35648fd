/** Standard base64 (section 4 of RFC 4648) as Go's encoding/base64 writes and reads it, and UTF-8 validity. */
module Base64 {
  import opened Octets
  import opened Wrappers

  const PAD := 61
  const LF := 10
  const CR := 13

  function Digit(v: int): Byte
    requires 0 <= v < 64
  {
    if v < 26 then 65 + v else if v < 52 then 71 + v else if v < 62 then v - 4 else if v == 62 then 43 else 47
  }

  function Value(c: Byte): Option<int> {
    if 65 <= c <= 90 then Some(c - 65)
    else if 97 <= c <= 122 then Some(c - 71)
    else if 48 <= c <= 57 then Some(c + 4)
    else if c == 43 then Some(62)
    else if c == 47 then Some(63)
    else None
  }

  lemma DigitValue(v: int)
    requires 0 <= v < 64
    ensures Value(Digit(v)) == Some(v) && Digit(v) != PAD && Digit(v) != LF && Digit(v) != CR
  {
  }

  /** The four digits of three bytes. */
  function Quad(a: Byte, b: Byte, c: Byte): Bytes {
    [Digit(a / 4), Digit(a % 4 * 16 + b / 16), Digit(b % 16 * 4 + c / 64), Digit(c % 64)]
  }

  function Encode(b: Bytes): Bytes {
    if b == [] then []
    else if |b| == 1 then Quad(b[0], 0, 0)[..2] + [PAD, PAD]
    else if |b| == 2 then Quad(b[0], b[1], 0)[..3] + [PAD]
    else Quad(b[0], b[1], b[2]) + Encode(b[3..])
  }

  /** The three bytes of four digits; only the first bytes of a padded group are used. */
  function Triple(w: int, x: int, y: int, z: int): Bytes
    requires 0 <= w < 64 && 0 <= x < 64 && 0 <= y < 64 && 0 <= z < 64
  {
    [w * 4 + x / 16, x % 16 * 16 + y / 4, y % 4 * 64 + z]
  }

  /** The bytes of digit groups; `None` for a foreign character or misplaced padding. */
  function DecodeGroups(s: Bytes): Option<Bytes> {
    if s == [] then Some([])
    else if |s| < 4 || Value(s[0]).None? || Value(s[1]).None? then None
    else
      var w, x := Value(s[0]).value, Value(s[1]).value;
      if s[2] == PAD then (if |s| == 4 && s[3] == PAD then Some(Triple(w, x, 0, 0)[..1]) else None)
      else if Value(s[2]).None? then None
      else
        var y := Value(s[2]).value;
        if s[3] == PAD then (if |s| == 4 then Some(Triple(w, x, y, 0)[..2]) else None)
        else if Value(s[3]).None? then None
        else
          var rest := DecodeGroups(s[4..]);
          if rest.None? then None else Some(Triple(w, x, y, Value(s[3]).value) + rest.value)
  }

  function WithoutNewlines(s: Bytes): Bytes {
    if s == [] then [] else (if s[0] == LF || s[0] == CR then [] else [s[0]]) + WithoutNewlines(s[1..])
  }

  function Decode(s: Bytes): Option<Bytes> {
    DecodeGroups(WithoutNewlines(s))
  }

  lemma TripleOfQuad(a: Byte, b: Byte, c: Byte)
    ensures Triple(a / 4, a % 4 * 16 + b / 16, b % 16 * 4 + c / 64, c % 64) == [a, b, c]
  {
  }

  lemma QuadValues(a: Byte, b: Byte, c: Byte)
    ensures
      var q := Quad(a, b, c);
      && Value(q[0]) == Some(a / 4) && Value(q[1]) == Some(a % 4 * 16 + b / 16)
      && Value(q[2]) == Some(b % 16 * 4 + c / 64) && Value(q[3]) == Some(c % 64)
      && forall i | 0 <= i < 4 :: q[i] != PAD && q[i] != LF && q[i] != CR
  {
    DigitValue(a / 4);
    DigitValue(a % 4 * 16 + b / 16);
    DigitValue(b % 16 * 4 + c / 64);
    DigitValue(c % 64);
  }

  lemma GroupFirst(q: Bytes, rest: Bytes)
    requires |q| == 4
    ensures |q + rest| >= 4 && (q + rest)[0] == q[0] && (q + rest)[1] == q[1]
    ensures (q + rest)[2] == q[2] && (q + rest)[3] == q[3]
    ensures (q + rest)[4..] == rest
  {
  }

  lemma FourDigits(w: int, x: int, y: int, z: int, rest: Bytes)
    requires 0 <= w < 64 && 0 <= x < 64 && 0 <= y < 64 && 0 <= z < 64
    ensures DecodeGroups([Digit(w), Digit(x), Digit(y), Digit(z)] + rest) ==
            if DecodeGroups(rest).None? then None else Some(Triple(w, x, y, z) + DecodeGroups(rest).value)
  {
    DigitValue(w);
    DigitValue(x);
    DigitValue(y);
    DigitValue(z);
    GroupFirst([Digit(w), Digit(x), Digit(y), Digit(z)], rest);
  }

  lemma DecodeFull(a: Byte, b: Byte, c: Byte, rest: Bytes)
    ensures DecodeGroups(Quad(a, b, c) + rest) ==
            if DecodeGroups(rest).None? then None else Some([a, b, c] + DecodeGroups(rest).value)
  {
    FourDigits(a / 4, a % 4 * 16 + b / 16, b % 16 * 4 + c / 64, c % 64, rest);
    TripleOfQuad(a, b, c);
  }

  lemma TwoDigits(w: int, x: int)
    requires 0 <= w < 64 && 0 <= x < 64
    ensures DecodeGroups([Digit(w), Digit(x), PAD, PAD]) == Some([w * 4 + x / 16])
  {
    DigitValue(w);
    DigitValue(x);
    assert Triple(w, x, 0, 0)[..1] == [w * 4 + x / 16];
  }

  lemma ThreeDigits(w: int, x: int, y: int)
    requires 0 <= w < 64 && 0 <= x < 64 && 0 <= y < 64
    ensures DecodeGroups([Digit(w), Digit(x), Digit(y), PAD]) == Some(Triple(w, x, y, 0)[..2])
  {
    DigitValue(w);
    DigitValue(x);
    DigitValue(y);
  }

  lemma DecodeOne(a: Byte)
    ensures DecodeGroups(Encode([a])) == Some([a])
  {
    var w, x := a / 4, a % 4 * 16;
    TwoDigits(w, x);
    assert Encode([a]) == [Digit(w), Digit(x), PAD, PAD];
  }

  lemma TwoBytes(a: Byte, b: Byte)
    ensures Triple(a / 4, a % 4 * 16 + b / 16, b % 16 * 4, 0)[..2] == [a, b]
  {
    TripleOfQuad(a, b, 0);
  }

  lemma DecodeTwo(a: Byte, b: Byte)
    ensures DecodeGroups(Encode([a, b])) == Some([a, b])
  {
    var w, x, y := a / 4, a % 4 * 16 + b / 16, b % 16 * 4;
    ThreeDigits(w, x, y);
    TwoBytes(a, b);
    EncodeTwo(a, b);
  }

  lemma EncodeTwo(a: Byte, b: Byte)
    ensures Encode([a, b]) == [Digit(a / 4), Digit(a % 4 * 16 + b / 16), Digit(b % 16 * 4), PAD]
  {
    assert Quad(a, b, 0)[..3] == [Digit(a / 4), Digit(a % 4 * 16 + b / 16), Digit(b % 16 * 4)];
  }

  lemma {:induction false} GroupsRoundTrip(b: Bytes)
    ensures DecodeGroups(Encode(b)) == Some(b)
  {
    if |b| == 1 {
      DecodeOne(b[0]);
      assert b == [b[0]];
    } else if |b| == 2 {
      DecodeTwo(b[0], b[1]);
      assert b == [b[0], b[1]];
    } else if |b| > 2 {
      GroupsRoundTrip(b[3..]);
      DecodeFull(b[0], b[1], b[2], Encode(b[3..]));
      assert b == [b[0], b[1], b[2]] + b[3..];
    }
  }

  ghost predicate OnOneLine(s: Bytes) {
    forall i | 0 <= i < |s| :: s[i] != LF && s[i] != CR
  }

  lemma QuadOnOneLine(a: Byte, b: Byte, c: Byte, n: nat)
    requires n <= 4
    ensures OnOneLine(Quad(a, b, c)[..n])
  {
    QuadValues(a, b, c);
  }

  lemma {:induction false} EncodeOnOneLine(b: Bytes)
    ensures OnOneLine(Encode(b))
  {
    if |b| == 1 {
      QuadOnOneLine(b[0], 0, 0, 2);
    } else if |b| == 2 {
      QuadOnOneLine(b[0], b[1], 0, 3);
    } else if |b| > 2 {
      QuadOnOneLine(b[0], b[1], b[2], 4);
      EncodeOnOneLine(b[3..]);
    }
  }

  lemma {:induction false} NoNewlines(s: Bytes)
    requires OnOneLine(s)
    ensures WithoutNewlines(s) == s
  {
    if s != [] {
      NoNewlines(s[1..]);
      assert s == [s[0]] + s[1..];
    }
  }

  /** Decoding undoes encoding, and only the empty text stands for no bytes. */
  lemma DecodeEncode(b: Bytes)
    ensures Decode(Encode(b)) == Some(b)
    ensures Encode(b) == [] <==> b == []
  {
    GroupsRoundTrip(b);
    EncodeOnOneLine(b);
    NoNewlines(Encode(b));
  }

  lemma {:induction false} WithoutNewlinesAppend(a: Bytes, b: Bytes)
    ensures WithoutNewlines(a + b) == WithoutNewlines(a) + WithoutNewlines(b)
  {
    if a == [] {
      assert a + b == b;
    } else {
      assert (a + b)[0] == a[0] && (a + b)[1..] == a[1..] + b;
      WithoutNewlinesAppend(a[1..], b);
    }
  }

  /** Line ends anywhere in a text do not matter. */
  lemma NewlinesIgnored(a: Bytes, c: Byte, b: Bytes)
    requires c == 10 || c == 13
    ensures Decode(a + [c] + b) == Decode(a + b)
  {
    WithoutNewlinesAppend(a + [c], b);
    WithoutNewlinesAppend(a, [c]);
    WithoutNewlinesAppend(a, b);
    assert [c][1..] == [] && WithoutNewlines([]) == [];
    assert WithoutNewlines([c]) == [] && WithoutNewlines(a) + [] == WithoutNewlines(a);
  }

  /** The alphabet: capitals, small letters, digits, plus and slash. */
  lemma Alphabet(v: int)
    requires 0 <= v < 64
    ensures v < 26 ==> Digit(v) == 'A' as int + v
    ensures 26 <= v < 52 ==> Digit(v) == 'a' as int + (v - 26)
    ensures 52 <= v < 62 ==> Digit(v) == '0' as int + (v - 52)
    ensures v == 62 ==> Digit(v) == '+' as int
    ensures v == 63 ==> Digit(v) == '/' as int
  {
  }

  /** All digits, but for `pad` equals signs at the end. */
  ghost predicate Padded(s: Bytes, pad: nat) {
    && pad <= |s|
    && (forall i | 0 <= i < |s| - pad :: Value(s[i]).Some?)
    && (forall i | |s| - pad <= i < |s| :: s[i] == PAD)
  }

  /** Groups of four, the last one possibly with one or two equals signs. */
  ghost predicate WellPadded(s: Bytes) {
    |s| % 4 == 0 && (Padded(s, 0) || (s != [] && (Padded(s, 1) || Padded(s, 2))))
  }

  lemma PaddedTail(s: Bytes, pad: nat)
    requires |s| >= 8 && pad <= 2
    ensures Padded(s, pad) <==>
            Value(s[0]).Some? && Value(s[1]).Some? && Value(s[2]).Some? && Value(s[3]).Some? && Padded(s[4..], pad)
  {
    var t := s[4..];
    assert forall i | 0 <= i < |t| :: t[i] == s[i + 4];
    if Padded(t, pad) && Value(s[0]).Some? && Value(s[1]).Some? && Value(s[2]).Some? && Value(s[3]).Some? {
      forall i | 0 <= i < |s| - pad ensures Value(s[i]).Some? {
        assert i >= 4 ==> t[i - 4] == s[i];
      }
      forall i | |s| - pad <= i < |s| ensures s[i] == PAD {
        assert t[i - 4] == s[i];
      }
    }
  }

  lemma OneGroup(s: Bytes)
    requires |s| == 4
    ensures DecodeGroups(s).Some? <==> WellPadded(s)
  {
    assert Value(PAD) == None;
    assert s[4..] == [] && DecodeGroups([]) == Some([]);
  }

  predicate FullGroup(s: Bytes)
    requires |s| >= 4
  {
    Value(s[0]).Some? && Value(s[1]).Some? && Value(s[2]).Some? && Value(s[3]).Some?
  }

  lemma LongGroup(s: Bytes)
    requires |s| > 4
    ensures DecodeGroups(s).Some? <==> FullGroup(s) && DecodeGroups(s[4..]).Some?
  {
    assert Value(PAD) == None;
  }

  lemma WellPaddedTail(s: Bytes)
    requires |s| > 4
    ensures WellPadded(s) <==> FullGroup(s) && WellPadded(s[4..])
  {
    if |s| >= 8 {
      PaddedTail(s, 0);
      PaddedTail(s, 1);
      PaddedTail(s, 2);
    }
  }

  /** What can be decoded is exactly what is well padded. */
  lemma {:induction false} DecodesIff(s: Bytes)
    ensures DecodeGroups(s).Some? <==> WellPadded(s)
  {
    if |s| == 4 {
      OneGroup(s);
    } else if |s| > 4 {
      LongGroup(s);
      WellPaddedTail(s);
      DecodesIff(s[4..]);
    }
  }

  // UTF-8.

  predicate Continues(b: Bytes, i: int, low: int, high: int) {
    0 <= i < |b| && low <= b[i] <= high
  }

  /** The length of the character at the front of a non-empty text, 0 if there is none. */
  function CharLength(b: Bytes): (n: nat)
    requires b != []
    ensures n <= |b|
  {
    var c := b[0];
    if c < 0x80 then 1
    else if 0xC2 <= c <= 0xDF then (if Continues(b, 1, 0x80, 0xBF) then 2 else 0)
    else if 0xE0 <= c <= 0xEF then
      var low, high := if c == 0xE0 then 0xA0 else 0x80, if c == 0xED then 0x9F else 0xBF;
      if Continues(b, 1, low, high) && Continues(b, 2, 0x80, 0xBF) then 3 else 0
    else if 0xF0 <= c <= 0xF4 then
      var low, high := if c == 0xF0 then 0x90 else 0x80, if c == 0xF4 then 0x8F else 0xBF;
      if Continues(b, 1, low, high) && Continues(b, 2, 0x80, 0xBF) && Continues(b, 3, 0x80, 0xBF) then 4 else 0
    else 0
  }

  /** `utf8.Valid`. */
  predicate IsUtf8(b: Bytes) {
    b == [] || (CharLength(b) > 0 && IsUtf8(b[CharLength(b)..]))
  }

  /** A Unicode scalar value. */
  predicate IsScalar(c: int) {
    0 <= c < 0xD800 || 0xE000 <= c < 0x11_0000
  }

  /** Its encoding (section 3 of RFC 3629). */
  function Utf8(c: int): Bytes
    requires IsScalar(c)
  {
    if c < 0x80 then [c]
    else if c < 0x800 then [0xC0 + c / 64, 0x80 + c % 64]
    else if c < 0x1_0000 then [0xE0 + c / 4096, 0x80 + c / 64 % 64, 0x80 + c % 64]
    else [0xF0 + c / 26_2144, 0x80 + c / 4096 % 64, 0x80 + c / 64 % 64, 0x80 + c % 64]
  }

  ghost predicate AllScalar(cs: seq<int>) {
    forall c | c in cs :: IsScalar(c)
  }

  ghost function Utf8All(cs: seq<int>): Bytes
    requires AllScalar(cs)
  {
    if cs == [] then [] else Utf8(cs[0]) + Utf8All(cs[1..])
  }

  lemma CharWritten(c: int, rest: Bytes)
    requires IsScalar(c)
    ensures CharLength(Utf8(c) + rest) == |Utf8(c)| > 0
  {
    var b := Utf8(c);
    assert forall i | 0 <= i < |b| :: (b + rest)[i] == b[i];
  }

  lemma TwoRead(a: int, b: int) returns (c: int)
    requires 0xC2 <= a <= 0xDF && 0x80 <= b <= 0xBF
    ensures IsScalar(c) && Utf8(c) == [a, b]
  {
    c := (a - 0xC0) * 64 + (b - 0x80);
    assert c / 64 == a - 0xC0 && c % 64 == b - 0x80;
  }

  lemma ThreeRead(a: int, b: int, d: int) returns (c: int)
    requires 0xE0 <= a <= 0xEF && 0x80 <= b <= 0xBF && 0x80 <= d <= 0xBF
    requires (a == 0xE0 ==> b >= 0xA0) && (a == 0xED ==> b <= 0x9F)
    ensures IsScalar(c) && Utf8(c) == [a, b, d]
  {
    var m := (a - 0xE0) * 64 + (b - 0x80);
    c := m * 64 + (d - 0x80);
    assert c / 64 == m && c % 64 == d - 0x80 && m / 64 == a - 0xE0 && m % 64 == b - 0x80;
    assert c / 4096 == m / 64;
  }

  lemma FourRead(a: int, b: int, d: int, e: int) returns (c: int)
    requires 0xF0 <= a <= 0xF4 && 0x80 <= b <= 0xBF && 0x80 <= d <= 0xBF && 0x80 <= e <= 0xBF
    requires (a == 0xF0 ==> b >= 0x90) && (a == 0xF4 ==> b <= 0x8F)
    ensures IsScalar(c) && Utf8(c) == [a, b, d, e]
  {
    var k := (a - 0xF0) * 64 + (b - 0x80);
    var m := k * 64 + (d - 0x80);
    c := m * 64 + (e - 0x80);
    assert c / 64 == m && c % 64 == e - 0x80 && m / 64 == k && m % 64 == d - 0x80;
    assert k / 64 == a - 0xF0 && k % 64 == b - 0x80;
    assert c / 4096 == k && c / 26_2144 == k / 64;
  }

  lemma CharRead(b: Bytes) returns (c: int)
    requires b != [] && CharLength(b) > 0
    ensures IsScalar(c) && Utf8(c) == b[..CharLength(b)]
  {
    var n := CharLength(b);
    if n == 1 {
      c := b[0];
    } else if n == 2 {
      c := TwoRead(b[0], b[1]);
    } else if n == 3 {
      c := ThreeRead(b[0], b[1], b[2]);
    } else {
      c := FourRead(b[0], b[1], b[2], b[3]);
    }
  }

  lemma {:induction false} EncodingIsUtf8(cs: seq<int>)
    requires AllScalar(cs)
    ensures IsUtf8(Utf8All(cs))
  {
    if cs != [] {
      EncodingIsUtf8(cs[1..]);
      CharWritten(cs[0], Utf8All(cs[1..]));
      assert (Utf8(cs[0]) + Utf8All(cs[1..]))[|Utf8(cs[0])|..] == Utf8All(cs[1..]);
    }
  }

  lemma {:induction false} Utf8IsEncoding(b: Bytes) returns (cs: seq<int>)
    requires IsUtf8(b)
    ensures AllScalar(cs) && Utf8All(cs) == b
  {
    cs := [];
    if b != [] {
      var n := CharLength(b);
      var c := CharRead(b);
      var rest := Utf8IsEncoding(b[n..]);
      cs := [c] + rest;
      assert cs[1..] == rest && b == b[..n] + b[n..];
    }
  }

  /** A text is valid exactly when it is the encoding of some scalar values. */
  lemma IsUtf8Iff(b: Bytes)
    ensures IsUtf8(b) <==> exists cs :: AllScalar(cs) && Utf8All(cs) == b
  {
    if IsUtf8(b) {
      var cs := Utf8IsEncoding(b);
    }
    if cs :| AllScalar(cs) && Utf8All(cs) == b {
      EncodingIsUtf8(cs);
    }
  }

  lemma {:induction false} AsciiIsUtf8(b: Bytes)
    requires forall i | 0 <= i < |b| :: b[i] < 0x80
    ensures IsUtf8(b)
  {
    if b != [] {
      AsciiIsUtf8(b[1..]);
    }
  }

  lemma QuadIsAscii(a: Byte, b: Byte, c: Byte, n: nat)
    requires n <= 4
    ensures forall i | 0 <= i < n :: Quad(a, b, c)[..n][i] < 0x80
  {
  }

  lemma {:induction false} EncodeIsAscii(b: Bytes)
    ensures forall i | 0 <= i < |Encode(b)| :: Encode(b)[i] < 0x80
  {
    if |b| == 1 {
      QuadIsAscii(b[0], 0, 0, 2);
    } else if |b| == 2 {
      QuadIsAscii(b[0], b[1], 0, 3);
    } else if |b| > 2 {
      QuadIsAscii(b[0], b[1], b[2], 4);
      EncodeIsAscii(b[3..]);
    }
  }
}
