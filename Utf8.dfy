/**
 * The plain-text branch of resume extraction decodes the file's bytes with
 * `new TextDecoder('utf-8')`: UTF-8 as in section 3 of RFC 3629, decoded by
 * the UTF-8 decoder of section 8.1.1 of the WHATWG Encoding Standard in
 * replacement mode (every maximal ill-formed subpart becomes one U+FFFD), and
 * one leading byte order mark dropped because the decoder does not ignore it.
 */
module Utf8 {
  import opened Text

  const Replacement: char := '\U{FFFD}'
  const ByteOrderMark: char := '\U{FEFF}'

  /** Bytes that may start a multi-byte sequence. */
  predicate IsLead(b: byte)
  {
    0xC2 <= b <= 0xF4
  }

  /** "UTF-8 bytes needed" for a lead byte. */
  function Needed(lead: byte): nat
  {
    if lead <= 0xDF then 1 else if lead <= 0xEF then 2 else 3
  }

  /** The "UTF-8 lower boundary" for the byte after `lead`. */
  function LowerBoundary(lead: byte): byte
  {
    if lead == 0xE0 then 0xA0 else if lead == 0xF0 then 0x90 else 0x80
  }

  /** The "UTF-8 upper boundary" for the byte after `lead`. */
  function UpperBoundary(lead: byte): byte
  {
    if lead == 0xED then 0x9F else if lead == 0xF4 then 0x8F else 0xBF
  }

  /** Byte `x`, at offset `j` after `lead`, continues the sequence. */
  predicate Continues(lead: byte, j: nat, x: byte)
  {
    if j == 1 then LowerBoundary(lead) <= x <= UpperBoundary(lead) else 0x80 <= x <= 0xBF
  }

  /**
   * The offset of the last byte, counting from a lead byte at `b[0]`, that
   * continues its sequence: the decoder stops at the first byte outside the
   * boundaries, at the end of input, or once it has all the bytes it needs.
   */
  function ContinuationRun(b: seq<byte>, j: nat): (k: nat)
    requires 1 <= j <= |b| && IsLead(b[0]) && j <= Needed(b[0]) + 1
    ensures j - 1 <= k <= Needed(b[0]) && k < |b|
    ensures forall m :: j <= m <= k ==> Continues(b[0], m, b[m])
    ensures k < Needed(b[0]) ==> k + 1 == |b| || !Continues(b[0], k + 1, b[k + 1])
    decreases Needed(b[0]) + 1 - j
  {
    if j > Needed(b[0]) || j == |b| || !Continues(b[0], j, b[j]) then j - 1
    else ContinuationRun(b, j + 1)
  }

  /** The code point a complete, well-formed sequence at the front of `b` stands for. */
  function ScalarAt(b: seq<byte>): (c: char)
    requires |b| >= 1 && IsLead(b[0]) && |b| > Needed(b[0])
    requires forall m :: 1 <= m <= Needed(b[0]) ==> Continues(b[0], m, b[m])
  {
    var n := Needed(b[0]);
    assert Continues(b[0], 1, b[1]);
    if n == 1 then
      ((b[0] as int - 0xC0) * 64 + (b[1] as int - 0x80)) as char
    else if n == 2 then
      assert Continues(b[0], 2, b[2]);
      ((b[0] as int - 0xE0) * 4096 + (b[1] as int - 0x80) * 64 + (b[2] as int - 0x80)) as char
    else
      assert Continues(b[0], 2, b[2]) && Continues(b[0], 3, b[3]);
      ((b[0] as int - 0xF0) * 262144 + (b[1] as int - 0x80) * 4096 + (b[2] as int - 0x80) * 64 + (b[3] as int - 0x80)) as char
  }

  /**
   * The WHATWG UTF-8 decoder run to the end of its input: ASCII bytes stand
   * for themselves, a complete sequence for its code point, and every byte
   * that cannot start a sequence or every sequence cut short for one U+FFFD,
   * decoding resuming at the byte that broke it off.
   */
  function DecodeUtf8(b: seq<byte>): (s: string)
    ensures |s| <= |b|
    decreases |b|
  {
    if b == [] then []
    else if b[0] < 0x80 then [b[0] as char] + DecodeUtf8(b[1..])
    else if !IsLead(b[0]) then [Replacement] + DecodeUtf8(b[1..])
    else
      var k := ContinuationRun(b, 1);
      if k == Needed(b[0]) then [ScalarAt(b)] + DecodeUtf8(b[k + 1..])
      else [Replacement] + DecodeUtf8(b[k + 1..])
  }

  /** `new TextDecoder('utf-8').decode(bytes)`: the decoder's output without a leading BOM. */
  function TextDecode(b: seq<byte>): string
  {
    var s := DecodeUtf8(b);
    if s != [] && s[0] == ByteOrderMark then s[1..] else s
  }

  /** The UTF-8 encoding of one code point (RFC 3629, section 3). */
  function EncodeChar(c: char): (e: seq<byte>)
    ensures 1 <= |e| <= 4
  {
    var v := c as int;
    if v < 0x80 then [v]
    else if v < 0x800 then [0xC0 + v / 64, 0x80 + v % 64]
    else if v < 0x10000 then [0xE0 + v / 4096, 0x80 + (v / 64) % 64, 0x80 + v % 64]
    else [0xF0 + v / 262144, 0x80 + (v / 4096) % 64, 0x80 + (v / 64) % 64, 0x80 + v % 64]
  }

  function Encode(s: string): seq<byte>
  {
    if s == [] then [] else EncodeChar(s[0]) + Encode(s[1..])
  }

  /** Decoding the encoding of one code point gives it back and leaves the rest untouched. */
  lemma DecodeEncodeChar(c: char, rest: seq<byte>)
    ensures DecodeUtf8(EncodeChar(c) + rest) == [c] + DecodeUtf8(rest)
  {
    var v := c as int;
    if v < 0x80 {
      assert (EncodeChar(c) + rest)[1..] == rest;
    } else if v < 0x800 {
      DecodeEncodeTwo(c, rest);
    } else if v < 0x10000 {
      DecodeEncodeThree(c, rest);
    } else {
      DecodeEncodeFour(c, rest);
    }
  }

  lemma DecodeEncodeTwo(c: char, rest: seq<byte>)
    requires 0x80 <= c as int < 0x800
    ensures DecodeUtf8(EncodeChar(c) + rest) == [c] + DecodeUtf8(rest)
  {
    var v := c as int;
    var b := EncodeChar(c) + rest;
    var q, r := v / 64, v % 64;
    assert v == 64 * q + r && 2 <= q < 32;
    assert b[0] == 0xC0 + q && b[1] == 0x80 + r;
    assert Needed(b[0]) == 1 && Continues(b[0], 1, b[1]);
    assert ContinuationRun(b, 1) == 1;
    assert ScalarAt(b) == c;
    assert b[2..] == rest;
  }

  lemma DecodeEncodeThree(c: char, rest: seq<byte>)
    requires 0x800 <= c as int < 0x10000
    ensures DecodeUtf8(EncodeChar(c) + rest) == [c] + DecodeUtf8(rest)
  {
    var v := c as int;
    var b := EncodeChar(c) + rest;
    var q1, r1 := v / 64, v % 64;
    var q2, r2 := q1 / 64, q1 % 64;
    assert v == 64 * q1 + r1 && q1 == 64 * q2 + r2;
    assert v / 4096 == q2;
    assert b[0] == 0xE0 + q2 && b[1] == 0x80 + r2 && b[2] == 0x80 + r1;
    assert q2 == 0 ==> r2 >= 32;
    assert q2 == 13 ==> r2 < 32;
    assert Needed(b[0]) == 2 && Continues(b[0], 1, b[1]) && Continues(b[0], 2, b[2]);
    assert ContinuationRun(b, 1) == 2;
    assert ScalarAt(b) == c;
    assert b[3..] == rest;
  }

  lemma DecodeEncodeFour(c: char, rest: seq<byte>)
    requires 0x10000 <= c as int
    ensures DecodeUtf8(EncodeChar(c) + rest) == [c] + DecodeUtf8(rest)
  {
    var v := c as int;
    var b := EncodeChar(c) + rest;
    var q1, r1 := v / 64, v % 64;
    var q2, r2 := q1 / 64, q1 % 64;
    var q3, r3 := q2 / 64, q2 % 64;
    assert v == 64 * q1 + r1 && q1 == 64 * q2 + r2 && q2 == 64 * q3 + r3;
    assert v / 4096 == q2 && v / 262144 == q3;
    assert b[0] == 0xF0 + q3 && b[1] == 0x80 + r3 && b[2] == 0x80 + r2 && b[3] == 0x80 + r1;
    assert q3 == 0 ==> r3 >= 16;
    assert q3 == 4 ==> r3 < 16;
    assert Needed(b[0]) == 3 && Continues(b[0], 1, b[1]) && Continues(b[0], 2, b[2]) && Continues(b[0], 3, b[3]);
    assert ContinuationRun(b, 1) == 3;
    assert ScalarAt(b) == c;
    assert b[4..] == rest;
  }

  /** Decoding inverts encoding on every text. */
  lemma {:induction false} DecodeEncode(s: string)
    ensures DecodeUtf8(Encode(s)) == s
  {
    if s != [] {
      DecodeEncodeChar(s[0], Encode(s[1..]));
      DecodeEncode(s[1..]);
    }
  }

  /**
   * The text decoder gives back every text that does not begin with U+FEFF,
   * the empty one included.
   */
  lemma TextDecodeEncode(s: string)
    requires s == [] || s[0] != ByteOrderMark
    ensures TextDecode(Encode(s)) == s
  {
    DecodeEncode(s);
  }

  /** A leading U+FEFF is taken for a byte order mark and dropped. */
  lemma TextDecodeDropsByteOrderMark(s: string)
    ensures TextDecode(Encode([ByteOrderMark] + s)) == s
  {
    DecodeEncode([ByteOrderMark] + s);
    assert ([ByteOrderMark] + s)[1..] == s;
  }

  /** A byte that can start no sequence becomes one U+FFFD, and decoding goes on after it. */
  lemma StrayByte(x: byte, rest: seq<byte>)
    requires 0x80 <= x && !IsLead(x)
    ensures DecodeUtf8([x] + rest) == [Replacement] + DecodeUtf8(rest)
  {
    assert ([x] + rest)[1..] == rest;
  }

  /** Where a lead byte is followed by a proper prefix of its sequence, the run stops after it. */
  lemma {:induction false} RunOfTruncated(b: seq<byte>, n: nat)
    requires 1 <= |b| && IsLead(b[0]) && n < Needed(b[0]) && n < |b|
    requires forall m :: 1 <= m <= n ==> Continues(b[0], m, b[m])
    requires n + 1 == |b| || !Continues(b[0], n + 1, b[n + 1])
    ensures ContinuationRun(b, 1) == n
  {
    var k := ContinuationRun(b, 1);
    if k < n {
      assert false;
    } else if k > n {
      assert false;
    }
  }

  /**
   * A sequence cut short, by the end of the input or by a byte outside the
   * boundaries, becomes one U+FFFD, and that byte is decoded afresh.
   */
  lemma TruncatedSequence(lead: byte, p: seq<byte>, rest: seq<byte>)
    requires IsLead(lead) && |p| < Needed(lead)
    requires forall i :: 0 <= i < |p| ==> Continues(lead, i + 1, p[i])
    requires rest == [] || !Continues(lead, |p| + 1, rest[0])
    ensures DecodeUtf8([lead] + p + rest) == [Replacement] + DecodeUtf8(rest)
  {
    var b := [lead] + p + rest;
    forall m | 1 <= m <= |p| ensures Continues(b[0], m, b[m]) {
      assert b[m] == p[m - 1];
    }
    assert rest != [] ==> b[|p| + 1] == rest[0];
    RunOfTruncated(b, |p|);
    assert b[|p| + 1..] == rest;
  }
}
