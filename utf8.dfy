/**
  UTF-8 as defined by RFC 3629: the decoding that turns a key's bytes into text
  before it is matched against a key pattern. The decoder accepts exactly the
  well-formed byte sequences of section 4 of RFC 3629 (no overlong forms, no
  surrogates, nothing above U+10FFFF), and it is proved to be the inverse of
  the encoding of section 3.
 */
module Utf8 {
  import opened Wrappers

  type Byte = b: int | 0 <= b < 0x100

  /** Number of bytes announced by a lead byte, 0 when it cannot start a character. */
  function SequenceLength(lead: Byte): (n: nat)
    ensures n <= 4
  {
    if lead < 0x80 then 1
    else if 0xC2 <= lead < 0xE0 then 2
    else if 0xE0 <= lead < 0xF0 then 3
    else if 0xF0 <= lead <= 0xF4 then 4
    else 0
  }

  /** Bounds of the second byte of a multi-byte sequence (the UTF8-2/3/4 rules of section 4). */
  function SecondLow(lead: Byte): Byte {
    if lead == 0xE0 then 0xA0 else if lead == 0xF0 then 0x90 else 0x80
  }

  function SecondHigh(lead: Byte): Byte {
    if lead == 0xED then 0x9F else if lead == 0xF4 then 0x8F else 0xBF
  }

  predicate IsTail(b: Byte) {
    0x80 <= b < 0xC0
  }

  /** The bytes of one character: section 3 of RFC 3629. */
  function EncodeChar(c: char): (bs: seq<Byte>)
    ensures 1 <= |bs| <= 4
  {
    var cp := c as int;
    if cp < 0x80 then [cp]
    else if cp < 0x800 then [0xC0 + cp / 0x40, 0x80 + cp % 0x40]
    else if cp < 0x10000 then [0xE0 + cp / 0x1000, 0x80 + (cp / 0x40) % 0x40, 0x80 + cp % 0x40]
    else [0xF0 + cp / 0x40000, 0x80 + (cp / 0x1000) % 0x40, 0x80 + (cp / 0x40) % 0x40, 0x80 + cp % 0x40]
  }

  function Encode(s: string): (bs: seq<Byte>)
  {
    if s == [] then [] else EncodeChar(s[0]) + Encode(s[1..])
  }

  /** The scalar value carried by a two-, three- or four-byte sequence. */
  function Value2(b0: int, b1: int): int {
    (b0 - 0xC0) * 0x40 + (b1 - 0x80)
  }

  function Value3(b0: int, b1: int, b2: int): int {
    (b0 - 0xE0) * 0x1000 + (b1 - 0x80) * 0x40 + (b2 - 0x80)
  }

  function Value4(b0: int, b1: int, b2: int, b3: int): int {
    (b0 - 0xF0) * 0x40000 + (b1 - 0x80) * 0x1000 + (b2 - 0x80) * 0x40 + (b3 - 0x80)
  }

  /** The well-formed sequences of section 4 carry scalar values of the announced length. */
  lemma Value3Range(b0: Byte, b1: Byte, b2: Byte)
    requires 0xE0 <= b0 < 0xF0 && SecondLow(b0) <= b1 <= SecondHigh(b0) && IsTail(b2)
    ensures var cp := Value3(b0, b1, b2);
      0x800 <= cp < 0x10000 && !(0xD800 <= cp < 0xE000)
  {
  }

  lemma Value4Range(b0: Byte, b1: Byte, b2: Byte, b3: Byte)
    requires 0xF0 <= b0 <= 0xF4 && SecondLow(b0) <= b1 <= SecondHigh(b0) && IsTail(b2) && IsTail(b3)
    ensures 0x10000 <= Value4(b0, b1, b2, b3) < 0x110000
  {
  }

  /** Decodes the character at the front of `b`, with the number of bytes it occupies. */
  function DecodeFirst(b: seq<Byte>): (r: Option<(char, nat)>)
    requires b != []
    ensures r.Some? ==> 1 <= r.value.1 <= |b| && r.value.1 == SequenceLength(b[0])
  {
    var n := SequenceLength(b[0]);
    if n == 0 || |b| < n then None
    else if n == 1 then Some((b[0] as char, 1))
    else if !(SecondLow(b[0]) <= b[1] <= SecondHigh(b[0])) then None
    else if n == 2 then Some((Value2(b[0], b[1]) as char, 2))
    else if !IsTail(b[2]) then None
    else if n == 3 then
      Value3Range(b[0], b[1], b[2]);
      Some((Value3(b[0], b[1], b[2]) as char, 3))
    else if !IsTail(b[3]) then None
    else
      Value4Range(b[0], b[1], b[2], b[3]);
      Some((Value4(b[0], b[1], b[2], b[3]) as char, 4))
  }

  /** `std::str::from_utf8`: the text the bytes encode, or None when they are not well-formed UTF-8. */
  function Decode(b: seq<Byte>): (r: Option<string>)
    decreases |b|
    ensures r.Some? ==> |r.value| <= |b| <= 4 * |r.value|
  {
    if b == [] then Some([])
    else match DecodeFirst(b)
      case None => None
      case Some((c, n)) =>
        match Decode(b[n..])
        case None => None
        case Some(s) => Some([c] + s)
  }

  /** Splitting a scalar value into 6-bit groups and joining them again gives it back. */
  lemma Split2(cp: int)
    requires 0x80 <= cp < 0x800
    ensures var b0, b1 := 0xC0 + cp / 0x40, 0x80 + cp % 0x40;
      0xC2 <= b0 < 0xE0 && IsTail(b1) && Value2(b0, b1) == cp
  {
  }

  lemma Split3(cp: int)
    requires 0x800 <= cp < 0x10000
    ensures var b0, b1, b2 := 0xE0 + cp / 0x1000, 0x80 + (cp / 0x40) % 0x40, 0x80 + cp % 0x40;
      0xE0 <= b0 < 0xF0 && IsTail(b1) && IsTail(b2) && Value3(b0, b1, b2) == cp
  {
    var q := cp / 0x40;
    assert cp == q * 0x40 + cp % 0x40;
    assert q == (cp / 0x1000) * 0x40 + q % 0x40;
  }

  lemma Split4(cp: int)
    requires 0x10000 <= cp < 0x110000
    ensures var b0, b1, b2, b3 := 0xF0 + cp / 0x40000, 0x80 + (cp / 0x1000) % 0x40, 0x80 + (cp / 0x40) % 0x40, 0x80 + cp % 0x40;
      0xF0 <= b0 <= 0xF4 && IsTail(b1) && IsTail(b2) && IsTail(b3) && Value4(b0, b1, b2, b3) == cp
  {
    var q := cp / 0x40;
    var q2 := cp / 0x1000;
    assert cp == q * 0x40 + cp % 0x40;
    assert q == q2 * 0x40 + q % 0x40;
    assert q2 == (cp / 0x40000) * 0x40 + q2 % 0x40;
  }

  lemma DecodeEncodeChar(c: char, rest: seq<Byte>)
    ensures DecodeFirst(EncodeChar(c) + rest) == Some((c, |EncodeChar(c)|))
  {
    var cp := c as int;
    if 0x80 <= cp < 0x800 {
      Split2(cp);
    } else if 0x800 <= cp < 0x10000 {
      Split3(cp);
    } else if 0x10000 <= cp {
      Split4(cp);
    }
  }

  /** Every string survives a round trip through its encoding. */
  lemma {:induction false} DecodeEncode(s: string)
    ensures Decode(Encode(s)) == Some(s)
  {
    if s != [] {
      var e := EncodeChar(s[0]);
      DecodeEncodeChar(s[0], Encode(s[1..]));
      assert (e + Encode(s[1..]))[|e|..] == Encode(s[1..]);
      DecodeEncode(s[1..]);
      assert [s[0]] + s[1..] == s;
    }
  }

  /** Reading a well-formed sequence back as 6-bit groups gives the bytes it came from. */
  lemma Join2(b0: Byte, b1: Byte)
    requires 0xC2 <= b0 < 0xE0 && IsTail(b1)
    ensures var cp := Value2(b0, b1); cp / 0x40 == b0 - 0xC0 && cp % 0x40 == b1 - 0x80
  {
  }

  lemma Join3(b0: Byte, b1: Byte, b2: Byte)
    requires 0xE0 <= b0 < 0xF0 && IsTail(b1) && IsTail(b2)
    ensures var cp := Value3(b0, b1, b2);
      cp / 0x1000 == b0 - 0xE0 && (cp / 0x40) % 0x40 == b1 - 0x80 && cp % 0x40 == b2 - 0x80
  {
    var cp := Value3(b0, b1, b2);
    var q := (b0 - 0xE0) * 0x40 + (b1 - 0x80);
    assert cp == q * 0x40 + (b2 - 0x80);
    assert cp / 0x40 == q;
    assert cp == (b0 - 0xE0) * 0x1000 + ((b1 - 0x80) * 0x40 + (b2 - 0x80));
  }

  lemma Join4(b0: Byte, b1: Byte, b2: Byte, b3: Byte)
    requires 0xF0 <= b0 <= 0xF4 && IsTail(b1) && IsTail(b2) && IsTail(b3)
    ensures var cp := Value4(b0, b1, b2, b3);
      && cp / 0x40000 == b0 - 0xF0 && (cp / 0x1000) % 0x40 == b1 - 0x80
      && (cp / 0x40) % 0x40 == b2 - 0x80 && cp % 0x40 == b3 - 0x80
  {
    var cp := Value4(b0, b1, b2, b3);
    var q2 := (b0 - 0xF0) * 0x40 + (b1 - 0x80);
    var q := q2 * 0x40 + (b2 - 0x80);
    assert cp == q * 0x40 + (b3 - 0x80);
    assert cp / 0x40 == q;
    assert cp == q2 * 0x1000 + ((b2 - 0x80) * 0x40 + (b3 - 0x80));
    assert cp / 0x1000 == q2;
    assert cp == (b0 - 0xF0) * 0x40000 + ((b1 - 0x80) * 0x1000 + (b2 - 0x80) * 0x40 + (b3 - 0x80));
  }

  lemma EncodeDecodeFirst(b: seq<Byte>)
    requires b != [] && DecodeFirst(b).Some?
    ensures EncodeChar(DecodeFirst(b).value.0) == b[..DecodeFirst(b).value.1]
  {
    var n := DecodeFirst(b).value.1;
    if n == 2 {
      Join2(b[0], b[1]);
    } else if n == 3 {
      Value3Range(b[0], b[1], b[2]);
      Join3(b[0], b[1], b[2]);
    } else if n == 4 {
      Value4Range(b[0], b[1], b[2], b[3]);
      Join4(b[0], b[1], b[2], b[3]);
    }
  }

  /** One step of `Decode`: a well-formed input is its first character followed by the decoding of the rest. */
  lemma DecodeStep(b: seq<Byte>) returns (c: char, n: nat)
    requires b != [] && Decode(b).Some?
    ensures 1 <= n <= |b| && DecodeFirst(b) == Some((c, n))
    ensures Decode(b[n..]).Some? && Decode(b).value == [c] + Decode(b[n..]).value
  {
    c, n := DecodeFirst(b).value.0, DecodeFirst(b).value.1;
  }

  lemma EncodeCons(c: char, s: string)
    ensures Encode([c] + s) == EncodeChar(c) + Encode(s)
  {
    assert ([c] + s)[0] == c && ([c] + s)[1..] == s;
  }

  /** Whatever the decoder accepts is the encoding of the text it returns. */
  lemma {:induction false} EncodeDecode(b: seq<Byte>)
    requires Decode(b).Some?
    ensures Encode(Decode(b).value) == b
  {
    if b != [] {
      var c, n := DecodeStep(b);
      var rest := Decode(b[n..]).value;
      calc {
        Encode(Decode(b).value);
        Encode([c] + rest);
        { EncodeCons(c, rest); }
        EncodeChar(c) + Encode(rest);
        { EncodeDecodeFirst(b); EncodeDecode(b[n..]); }
        b[..n] + b[n..];
        b;
      }
    }
  }

  /** The decoder and the encoding are inverse: `b` decodes to `s` exactly when `b` is the encoding of `s`. */
  lemma DecodeIsInverseOfEncode(b: seq<Byte>, s: string)
    ensures Decode(b) == Some(s) <==> b == Encode(s)
  {
    if Decode(b) == Some(s) {
      EncodeDecode(b);
    }
    if b == Encode(s) {
      DecodeEncode(s);
    }
  }
}
