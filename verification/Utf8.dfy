/**
 * UTF-8 as Rust's `str` guarantees it (section 3 of RFC 3629). A Dafny `string` stands for a
 * Rust `str`; the filter parser walks its bytes and turns slices back into strings, so the
 * model needs both directions and the fact that a cut at an ASCII byte never splits a character.
 */
module Utf8 {
  import opened Wrappers

  type Byte = x: int | 0 <= x < 256

  predicate IsAscii(x: Byte) {
    x < 0x80
  }

  function EncodeChar(c: char): (r: seq<Byte>)
    ensures 1 <= |r| <= 4
  {
    var n := c as int;
    if n < 0x80 then [n]
    else if n < 0x800 then [0xC0 + n / 64, 0x80 + n % 64]
    else if n < 0x1_0000 then [0xE0 + n / 4096, 0x80 + n / 64 % 64, 0x80 + n % 64]
    else [0xF0 + n / 262144, 0x80 + n / 4096 % 64, 0x80 + n / 64 % 64, 0x80 + n % 64]
  }

  /** The bytes of a string. */
  function Encode(s: string): seq<Byte> {
    if s == "" then [] else EncodeChar(s[0]) + Encode(s[1..])
  }

  predicate IsCont(x: Byte) {
    0x80 <= x < 0xC0
  }

  /** The payload of a byte once its marker bits are taken off. */
  function Low(x: int, marker: int): int {
    x - marker
  }

  function Scalar(n: nat): Option<char> {
    if n < 0xD800 || 0xE000 <= n < 0x11_0000 then Some(n as char) else None
  }

  /** The first character of a byte sequence and the number of bytes it takes. Overlong forms,
      surrogates and stray continuation bytes are refused. */
  function DecodeChar(b: seq<Byte>): (r: Option<(char, nat)>)
    requires b != []
    ensures r.Some? ==> 1 <= r.value.1 <= |b|
    ensures r.Some? && IsAscii(b[0]) ==> r.value.1 == 1
    ensures r.Some? && !IsAscii(b[0]) ==> forall k :: 0 <= k < r.value.1 ==> !IsAscii(b[k])
  {
    if b[0] < 0x80 then
      Some((b[0] as char, 1))
    else if 0xC2 <= b[0] < 0xE0 && |b| >= 2 && IsCont(b[1]) then
      Some(((Low(b[0], 0xC0) * 64 + Low(b[1], 0x80)) as char, 2))
    else if 0xE0 <= b[0] < 0xF0 && |b| >= 3 && IsCont(b[1]) && IsCont(b[2]) then
      var n := Low(b[0], 0xE0) * 4096 + Low(b[1], 0x80) * 64 + Low(b[2], 0x80);
      if n < 0x800 || Scalar(n).None? then None else Some((Scalar(n).value, 3))
    else if 0xF0 <= b[0] < 0xF8 && |b| >= 4 && IsCont(b[1]) && IsCont(b[2]) && IsCont(b[3]) then
      var n := Low(b[0], 0xF0) * 262144 + Low(b[1], 0x80) * 4096 + Low(b[2], 0x80) * 64 + Low(b[3], 0x80);
      if n < 0x1_0000 || Scalar(n).None? then None else Some((Scalar(n).value, 4))
    else
      None
  }

  /** `std::str::from_utf8`. */
  function FromUtf8(b: seq<Byte>): Option<string> {
    if b == [] then Some("")
    else match DecodeChar(b)
      case None => None
      case Some((c, k)) =>
        match FromUtf8(b[k..])
        case None => None
        case Some(s) => Some([c] + s)
  }

  predicate ValidUtf8(b: seq<Byte>) {
    FromUtf8(b).Some?
  }

  /** `from_utf8(..).unwrap()`: every call proves that the unwrap cannot panic. */
  function Unwrap(b: seq<Byte>): string
    requires ValidUtf8(b)
  {
    FromUtf8(b).value
  }

  lemma DecodeCharPrefix(a: seq<Byte>, b: seq<Byte>)
    requires a != [] && DecodeChar(a).Some?
    ensures DecodeChar(a + b) == DecodeChar(a)
  {
    assert forall k :: 0 <= k < |a| ==> (a + b)[k] == a[k];
  }

  lemma DecodeCharOfEncode(c: char, rest: seq<Byte>)
    ensures DecodeChar(EncodeChar(c) + rest) == Some((c, |EncodeChar(c)|))
  {
    var n, e := c as int, EncodeChar(c);
    var b := e + rest;
    assert forall k :: 0 <= k < |e| ==> b[k] == e[k];
    assert n == n / 64 * 64 + n % 64 && n / 64 == n / 4096 * 64 + n / 64 % 64;
    assert n / 4096 == n / 262144 * 64 + n / 4096 % 64;
  }

  lemma SplitLow(h: nat, l: nat)
    requires l < 64
    ensures (h * 64 + l) / 64 == h && (h * 64 + l) % 64 == l
  {
  }

  lemma EncodeTwo(x: nat, y: nat)
    requires 2 <= x < 32 && y < 64
    ensures EncodeChar((x * 64 + y) as char) == [0xC0 + x, 0x80 + y]
  {
    SplitLow(x, y);
  }

  lemma EncodeThree(x: nat, y: nat, z: nat)
    requires x < 16 && y < 64 && z < 64 && x * 4096 + y * 64 + z >= 0x800 && Scalar(x * 4096 + y * 64 + z).Some?
    ensures EncodeChar((x * 4096 + y * 64 + z) as char) == [0xE0 + x, 0x80 + y, 0x80 + z]
  {
    var n := x * 4096 + y * 64 + z;
    SplitLow(x * 64 + y, z);
    SplitLow(x, y);
    assert n == (x * 64 + y) * 64 + z && n / 4096 == n / 64 / 64;
  }

  lemma EncodeFour(w: nat, x: nat, y: nat, z: nat)
    requires w < 8 && x < 64 && y < 64 && z < 64
    requires w * 262144 + x * 4096 + y * 64 + z >= 0x1_0000 && Scalar(w * 262144 + x * 4096 + y * 64 + z).Some?
    ensures EncodeChar((w * 262144 + x * 4096 + y * 64 + z) as char) == [0xF0 + w, 0x80 + x, 0x80 + y, 0x80 + z]
  {
    var n := w * 262144 + x * 4096 + y * 64 + z;
    SplitLow((w * 64 + x) * 64 + y, z);
    SplitLow(w * 64 + x, y);
    SplitLow(w, x);
    assert n == ((w * 64 + x) * 64 + y) * 64 + z && n / 4096 == n / 64 / 64 && n / 262144 == n / 4096 / 64;
  }

  /** The bytes of a decoded character are its encoding: there is only one. */
  lemma EncodeCharOfDecode(b: seq<Byte>)
    requires b != [] && DecodeChar(b).Some?
    ensures EncodeChar(DecodeChar(b).value.0) == b[..DecodeChar(b).value.1]
  {
    hide EncodeChar;
    if b[0] < 0x80 {
      OneByte(b[0]);
    } else if b[0] < 0xE0 {
      EncodeTwo(b[0] - 0xC0, b[1] - 0x80);
    } else if b[0] < 0xF0 {
      EncodeThree(b[0] - 0xE0, b[1] - 0x80, b[2] - 0x80);
    } else {
      EncodeFour(b[0] - 0xF0, b[1] - 0x80, b[2] - 0x80, b[3] - 0x80);
    }
  }

  lemma OneByte(x: Byte)
    requires x < 0x80
    ensures EncodeChar(x as char) == [x]
  {
  }

  /** Encoding undoes decoding, for every valid byte sequence. */
  lemma {:induction false} EncodeDecode(b: seq<Byte>)
    requires ValidUtf8(b)
    ensures Encode(Unwrap(b)) == b
    decreases |b|
  {
    hide EncodeChar, DecodeChar;
    if b != [] {
      var (c, k) := DecodeChar(b).value;
      EncodeCharOfDecode(b);
      EncodeDecode(b[k..]);
      assert ([c] + Unwrap(b[k..]))[1..] == Unwrap(b[k..]);
      assert b == b[..k] + b[k..];
    }
  }

  /** Decoding undoes encoding, for every string. */
  lemma {:induction false} DecodeEncode(s: string)
    ensures FromUtf8(Encode(s)) == Some(s)
  {
    if s != "" {
      var e, rest := EncodeChar(s[0]), Encode(s[1..]);
      DecodeCharOfEncode(s[0], rest);
      assert (e + rest)[|e|..] == rest;
      DecodeEncode(s[1..]);
      assert [s[0]] + s[1..] == s;
    }
  }

  lemma {:induction false} EncodeConcat(s: string, t: string)
    ensures Encode(s + t) == Encode(s) + Encode(t)
  {
    if s == "" {
      assert s + t == t;
    } else {
      assert (s + t)[0] == s[0] && (s + t)[1..] == s[1..] + t;
      EncodeConcat(s[1..], t);
    }
  }

  /** A string of ASCII characters has one byte per character. */
  lemma {:induction false} EncodeAscii(s: string)
    requires forall k :: 0 <= k < |s| ==> s[k] as int < 0x80
    ensures |Encode(s)| == |s|
    ensures forall k :: 0 <= k < |s| ==> Encode(s)[k] == s[k] as int
  {
    if s != "" {
      EncodeAscii(s[1..]);
      assert Encode(s) == [s[0] as int] + Encode(s[1..]);
    }
  }

  lemma {:induction false} ValidConcat(a: seq<Byte>, b: seq<Byte>)
    requires ValidUtf8(a) && ValidUtf8(b)
    ensures ValidUtf8(a + b)
  {
    if a == [] {
      assert a + b == b;
    } else {
      var k := DecodeChar(a).value.1;
      DecodeCharPrefix(a, b);
      ValidConcat(a[k..], b);
      assert (a + b)[k..] == a[k..] + b;
    }
  }

  lemma {:induction false} AsciiIsValid(a: seq<Byte>)
    requires forall k :: 0 <= k < |a| ==> IsAscii(a[k])
    ensures ValidUtf8(a)
  {
    if a != [] {
      AsciiIsValid(a[1..]);
    }
  }

  /** Cutting valid UTF-8 before an ASCII byte leaves two valid halves. */
  lemma {:induction false} CutBeforeAscii(b: seq<Byte>, j: nat)
    requires ValidUtf8(b) && j <= |b| && (j < |b| ==> IsAscii(b[j]))
    ensures ValidUtf8(b[..j]) && ValidUtf8(b[j..])
  {
    if j == 0 {
      assert b[..j] == [] && b[j..] == b;
    } else if j == |b| {
      assert b[..j] == b && b[j..] == [];
    } else {
      var k := DecodeChar(b).value.1;
      assert k <= j;
      CutBeforeAscii(b[k..], j - k);
      assert b[k..][..j - k] == b[..j][k..] && b[k..][j - k..] == b[j..];
      var head, tail := b[..k], b[..j][k..];
      assert b == head + b[k..] && b[..j] == head + tail;
      HeadIsValid(b);
      ValidConcat(head, tail);
    }
  }

  /** The bytes of the first character are valid on their own. */
  lemma HeadIsValid(b: seq<Byte>)
    requires b != [] && DecodeChar(b).Some?
    ensures ValidUtf8(b[..DecodeChar(b).value.1])
  {
    var k := DecodeChar(b).value.1;
    var h := b[..k];
    assert DecodeChar(h) == DecodeChar(b);
    assert h[k..] == [];
  }

  /** A position with an ASCII byte just before it. */
  predicate Boundary(b: seq<Byte>, i: nat)
    requires i <= |b|
  {
    i == 0 || IsAscii(b[i - 1])
  }

  /** A slice that starts right after an ASCII byte and stops right before one is valid. */
  lemma SliceValid(b: seq<Byte>, i: nat, j: nat)
    requires ValidUtf8(b) && i <= j <= |b| && Boundary(b, i) && (j < |b| ==> IsAscii(b[j]))
    ensures ValidUtf8(b[i..j]) && ValidUtf8(b[i..])
  {
    if i == 0 {
      assert b[i..] == b;
    } else {
      CutBeforeAscii(b, i - 1);
      assert b[i - 1..][1..] == b[i..];
    }
    CutBeforeAscii(b[i..], j - i);
    assert b[i..][..j - i] == b[i..j];
  }
}
