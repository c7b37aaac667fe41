/**
 Hash text handling shared by the block tree, the proof checker and the header store.

 Hashes are shown big-endian as hexadecimal text and hashed as little-endian bytes. The
 conversions are total in the source: a pair of characters that is not hexadecimal becomes
 whatever `Number.parseInt(pair, 16)` answers. `ParsePair` follows that rule exactly, so a
 "byte" here is an integer that is 0..255 for well-formed text, -15..-1 for a signed digit and
 `NAN` for text with no digit at all.
 */
module Hex {
  import opened Lists

  /** JavaScript's NaN, outside the range of every parsed pair. */
  const NAN := -16

  /** What `ParsePair` can answer. */
  type Num = n: int | NAN <= n < 256 witness 0

  type Bytes = seq<Num>

  predicate IsByte(b: Num) { 0 <= b }

  predicate AllBytes(bs: Bytes) { forall i :: 0 <= i < |bs| ==> IsByte(bs[i]) }

  predicate IsDigest(bs: Bytes) { |bs| == 32 && AllBytes(bs) }

  type Digest = d: Bytes | IsDigest(d) witness seq(32, i => 0)

  /** Value of a hexadecimal digit in either case, -1 for any other character. */
  function Digit(c: char): (v: int)
    ensures -1 <= v < 16
  {
    if '0' <= c <= '9' then c as int - '0' as int
    else if 'a' <= c <= 'f' then c as int - 'a' as int + 10
    else if 'A' <= c <= 'F' then c as int - 'A' as int + 10
    else -1
  }

  /** JavaScript white space and line terminators. */
  predicate IsSpace(c: char) {
    var n := c as int;
    9 <= n <= 13 || n == 32 || n == 160 || n == 0x1680 || 0x2000 <= n <= 0x200A || n == 0x2028
    || n == 0x2029 || n == 0x202F || n == 0x205F || n == 0x3000 || n == 0xFEFF
  }

  /** `Number.parseInt(a + b, 16)`: skip space, take a sign or a 0x prefix, read leading digits. */
  function ParsePair(a: char, b: char): Num {
    if a == '0' && (b == 'x' || b == 'X') then NAN
    else if Digit(a) >= 0 then if Digit(b) >= 0 then 16 * Digit(a) + Digit(b) else Digit(a)
    else if Digit(b) < 0 then NAN
    else if IsSpace(a) || a == '+' then Digit(b)
    else if a == '-' then -Digit(b)
    else NAN
  }

  function DigitChar(v: int): char
    requires 0 <= v < 16
  {
    if v < 10 then ('0' as int + v) as char else ('a' as int + v - 10) as char
  }

  /** `b.toString(16).padStart(2, "0")`. */
  function ByteText(b: Num): string {
    if b == NAN then "NaN"
    else if b < 0 then ['-', DigitChar(-b)]
    else [DigitChar(b / 16), DigitChar(b % 16)]
  }

  /** What `hexToLeBytes` computes: pairs read from the end of the text. */
  function LeBytes(hex: string): Bytes {
    if |hex| < 2 then []
    else [ParsePair(hex[|hex| - 2], hex[|hex| - 1])] + LeBytes(hex[..|hex| - 2])
  }

  /** What `leBytesToHex` computes: bytes reversed, two digits each. */
  function Text(bs: Bytes): string {
    if bs == [] then "" else Text(bs[1..]) + ByteText(bs[0])
  }

  lemma {:induction false} LeBytesLength(hex: string)
    ensures |LeBytes(hex)| == |hex| / 2
  {
    if |hex| >= 2 { LeBytesLength(hex[..|hex| - 2]); }
  }

  /** Byte `k` is the pair of digits `k` places from the end. */
  lemma {:induction false} LeBytesAt(hex: string, k: nat)
    requires 2 * k + 2 <= |hex|
    ensures k < |LeBytes(hex)|
    ensures LeBytes(hex)[k] == ParsePair(hex[|hex| - 2 * k - 2], hex[|hex| - 2 * k - 1])
  {
    LeBytesLength(hex);
    if k > 0 { LeBytesAt(hex[..|hex| - 2], k - 1); }
  }

  lemma LeBytesStep(hex: string, i: nat)
    requires i + 2 <= |hex|
    ensures LeBytes(hex[..i + 2]) == [ParsePair(hex[i], hex[i + 1])] + LeBytes(hex[..i])
  {
    assert hex[..i + 2][..i] == hex[..i];
  }

  lemma ReadStep(hex: string, i: nat, bytes: Bytes)
    requires i + 2 <= |hex|
    ensures bytes + LeBytes(hex[..i + 2]) == (bytes + [ParsePair(hex[i], hex[i + 1])]) + LeBytes(hex[..i])
  {
    LeBytesStep(hex, i);
    Regrouped(bytes, [ParsePair(hex[i], hex[i + 1])], LeBytes(hex[..i]));
  }

  /** The source's loop, index by index from the end. */
  method HexToLeBytes(hex: string) returns (bytes: Bytes)
    ensures bytes == LeBytes(hex)
  {
    bytes := [];
    var i := |hex| - 2;
    assert hex[..|hex|] == hex;
    while i >= 0
      invariant -2 <= i <= |hex| - 2
      invariant LeBytes(hex) == bytes + LeBytes(hex[..i + 2])
    {
      ReadStep(hex, i, bytes);
      bytes := bytes + [ParsePair(hex[i], hex[i + 1])];
      i := i - 2;
    }
  }

  function LowerChar(c: char): char {
    if 'A' <= c <= 'Z' then (c as int + 32) as char else c
  }

  /** `toLowerCase` on ASCII letters. */
  function Lower(s: string): string {
    if s == [] then [] else [LowerChar(s[0])] + Lower(s[1..])
  }

  lemma {:induction false} LowerChars(s: string)
    ensures |Lower(s)| == |s|
    ensures forall i :: 0 <= i < |s| ==> Lower(s)[i] == LowerChar(s[i])
  {
    if s != [] { LowerChars(s[1..]); }
  }

  /** `trim`. */
  function Trim(s: string): string {
    if s != [] && IsSpace(s[0]) then Trim(s[1..])
    else if s != [] && IsSpace(s[|s| - 1]) then Trim(s[..|s| - 1])
    else s
  }

  predicate IsLowerHexDigit(c: char) { '0' <= c <= '9' || 'a' <= c <= 'f' }

  /** The pattern a hash text must match: 64 lower-case hexadecimal digits. */
  predicate IsHashText(s: string) {
    |s| == 64 && forall i :: 0 <= i < 64 ==> IsLowerHexDigit(s[i])
  }

  ghost predicate AllLowerHex(s: string) {
    forall i :: 0 <= i < |s| ==> IsLowerHexDigit(s[i])
  }

  lemma {:induction false} LowerKeepsHex(s: string)
    requires AllLowerHex(s)
    ensures Lower(s) == s
  {
    LowerChars(s);
  }

  lemma DigitOfChar(v: int)
    requires 0 <= v < 16
    ensures Digit(DigitChar(v)) == v && IsLowerHexDigit(DigitChar(v)) && DigitChar(v) != 'x'
  {
  }

  lemma CharOfDigit(c: char)
    requires IsLowerHexDigit(c)
    ensures 0 <= Digit(c) < 16 && DigitChar(Digit(c)) == c
  {
  }

  lemma PairOfByteText(b: Num)
    requires IsByte(b)
    ensures |ByteText(b)| == 2 && AllLowerHex(ByteText(b))
    ensures ParsePair(ByteText(b)[0], ByteText(b)[1]) == b
  {
    DigitOfChar(b / 16);
    DigitOfChar(b % 16);
    assert ByteText(b)[1] != 'X';
  }

  lemma ByteTextOfPair(p: char, q: char)
    requires IsLowerHexDigit(p) && IsLowerHexDigit(q)
    ensures IsByte(ParsePair(p, q)) && ByteText(ParsePair(p, q)) == [p, q]
  {
    CharOfDigit(p);
    CharOfDigit(q);
    var v := 16 * Digit(p) + Digit(q);
    assert v / 16 == Digit(p) && v % 16 == Digit(q);
  }

  /** Text of real bytes reads back as those bytes. */
  lemma {:induction false} TextRoundTrip(bs: Bytes)
    requires AllBytes(bs)
    ensures AllLowerHex(Text(bs)) && |Text(bs)| == 2 * |bs|
    ensures LeBytes(Text(bs)) == bs
  {
    if bs != [] {
      TextRoundTrip(bs[1..]);
      PairOfByteText(bs[0]);
      var t := Text(bs);
      assert t[..|t| - 2] == Text(bs[1..]);
      assert t[|t| - 2] == ByteText(bs[0])[0] && t[|t| - 1] == ByteText(bs[0])[1];
    }
  }

  /** The characters a text can hold: digits, a minus sign, and the letters of NaN. */
  lemma {:induction false} TextCharacters(bs: Bytes)
    ensures forall i :: 0 <= i < |Text(bs)| ==>
      IsLowerHexDigit(Text(bs)[i]) || Text(bs)[i] == '-' || Text(bs)[i] == 'N'
  {
    if bs != [] {
      TextCharacters(bs[1..]);
      ByteCharacters(bs[0]);
    }
  }

  lemma ByteCharacters(b: Num)
    ensures forall i :: 0 <= i < |ByteText(b)| ==>
      IsLowerHexDigit(ByteText(b)[i]) || ByteText(b)[i] == '-' || ByteText(b)[i] == 'N'
  {
    if IsByte(b) { PairOfByteText(b); } else if b != NAN { DigitOfChar(-b); }
  }

  /** Well-formed lower-case text of even length is reproduced exactly. */
  lemma {:induction false} HexRoundTrip(s: string)
    requires AllLowerHex(s) && |s| % 2 == 0
    ensures AllBytes(LeBytes(s)) && Text(LeBytes(s)) == s
  {
    if s != [] {
      var front, a, b := s[..|s| - 2], s[|s| - 2], s[|s| - 1];
      HexRoundTrip(front);
      OnePairMore(front, a, b);
      assert s == front + [a, b];
    }
  }

  lemma OnePairMore(front: string, a: char, b: char)
    requires IsLowerHexDigit(a) && IsLowerHexDigit(b)
    requires AllBytes(LeBytes(front)) && Text(LeBytes(front)) == front
    ensures AllBytes(LeBytes(front + [a, b])) && Text(LeBytes(front + [a, b])) == front + [a, b]
  {
    ByteTextOfPair(a, b);
    LeBytesStep(front + [a, b], |front|);
    assert (front + [a, b])[..|front| + 2] == front + [a, b] && (front + [a, b])[..|front|] == front;
    PairThenText(LeBytes(front), ParsePair(a, b));
  }

  lemma PairThenText(front: Bytes, first: Num)
    requires AllBytes(front) && IsByte(first)
    ensures AllBytes([first] + front) && Text([first] + front) == Text(front) + ByteText(first)
  {
    assert ([first] + front)[1..] == front;
  }

  /** The first character tells a real byte from a malformed one. */
  lemma FirstCharTellsByte(b: Num)
    ensures ByteText(b) != ""
    ensures IsLowerHexDigit(ByteText(b)[0]) <==> IsByte(b)
  {
    if IsByte(b) { PairOfByteText(b); }
  }

  lemma TextFirst(bs: Bytes)
    requires bs != []
    ensures Text(bs) != ""
    ensures IsLowerHexDigit(Text(bs)[0]) <==> IsByte(bs[|bs| - 1])
  {
    TextStartsWithLast(bs);
    FirstCharTellsByte(bs[|bs| - 1]);
  }

  lemma ByteTextInjective(b: Num, c: Num)
    requires IsByte(b) && IsByte(c) && ByteText(b) == ByteText(c)
    ensures b == c
  {
    PairOfByteText(b);
    PairOfByteText(c);
  }

  lemma ByteTextLength(b: Num)
    requires IsByte(b)
    ensures |ByteText(b)| == 2
  {
  }

  /** Equal text, the right side real: the most significant bytes agree, and so does the rest. */
  lemma PeelLast(w: Bytes, r: Bytes)
    requires AllBytes(r) && Text(w) == Text(r) && w != []
    ensures r != [] && w[|w| - 1] == r[|r| - 1]
    ensures Text(w[..|w| - 1]) == Text(r[..|r| - 1])
  {
    var b := w[|w| - 1];
    TextFirst(w);
    assert r != [] && IsByte(b) by { TextRoundTrip(r); }
    PeelBytes(w, r);
  }

  lemma PeelBytes(w: Bytes, r: Bytes)
    requires Text(w) == Text(r) && w != [] && r != []
    requires IsByte(w[|w| - 1]) && IsByte(r[|r| - 1])
    ensures w[|w| - 1] == r[|r| - 1] && Text(w[..|w| - 1]) == Text(r[..|r| - 1])
  {
    var b, c := w[|w| - 1], r[|r| - 1];
    assert Text(w) == ByteText(b) + Text(w[..|w| - 1]) by { TextStartsWithLast(w); }
    assert Text(r) == ByteText(c) + Text(r[..|r| - 1]) by { TextStartsWithLast(r); }
    ByteTextLength(b);
    ByteTextLength(c);
    PeelPair(ByteText(b), Text(w[..|w| - 1]), ByteText(c), Text(r[..|r| - 1]));
    ByteTextInjective(b, c);
  }

  /** Two byte strings with the same text are equal as soon as one of them holds real bytes. */
  lemma {:induction false} TextInjective(w: Bytes, r: Bytes)
    requires AllBytes(r) && Text(w) == Text(r)
    ensures w == r
    decreases |w|
  {
    if w == [] {
      TextRoundTrip(r);
    } else {
      PeelLast(w, r);
      TextInjective(w[..|w| - 1], r[..|r| - 1]);
      assert w == w[..|w| - 1] + [w[|w| - 1]] && r == r[..|r| - 1] + [r[|r| - 1]];
    }
  }

  lemma PeelPair(p: string, s: string, q: string, t: string)
    requires |p| == |q| && p + s == q + t
    ensures p == q && s == t
  {
    assert p == (p + s)[..|p|] && q == (q + t)[..|p|];
    assert s == (p + s)[|p|..] && t == (q + t)[|p|..];
  }

  /** The text begins with the most significant byte, the last of the list. */
  lemma {:induction false} TextStartsWithLast(bs: Bytes)
    requires bs != []
    ensures Text(bs) == ByteText(bs[|bs| - 1]) + Text(bs[..|bs| - 1])
  {
    if |bs| == 1 {
      assert bs[1..] == [] && bs[..0] == [];
    } else {
      var last, front := bs[|bs| - 1], bs[..|bs| - 1];
      TextStartsWithLast(bs[1..]);
      assert bs[1..][..|bs| - 2] == front[1..];
      assert Text(front) == Text(front[1..]) + ByteText(bs[0]);
      Regrouped(ByteText(last), Text(front[1..]), ByteText(bs[0]));
    }
  }
}
