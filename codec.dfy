/** The byte codecs the identifier utilities rely on: base64 as section 4 of RFC 4648 defines
    it (the encoder), CPython's lenient `binascii.a2b_base64` (the decoder `base64.b64decode`
    uses when `validate` is false), strict UTF-8 decoding, and lowercase hex rendering. */
module Codec {
  import opened Common

  // ----- base64 alphabet -----

  /** The character for a 6-bit value in the standard alphabet. */
  function AlphabetChar(v: int): char
    requires 0 <= v < 64
  {
    if v < 26 then ('A' as int + v) as char
    else if v < 52 then ('a' as int + v - 26) as char
    else if v < 62 then ('0' as int + v - 52) as char
    else if v == 62 then '+'
    else '/'
  }

  /** The 6-bit value of an alphabet character, None for anything else (including '='). */
  function Sextet(c: char): (r: Option<int>)
    ensures r.Some? ==> 0 <= r.value < 64
  {
    if 'A' <= c <= 'Z' then Some(c as int - 'A' as int)
    else if 'a' <= c <= 'z' then Some(c as int - 'a' as int + 26)
    else if '0' <= c <= '9' then Some(c as int - '0' as int + 52)
    else if c == '+' then Some(62)
    else if c == '/' then Some(63)
    else None
  }

  lemma SextetOfAlphabet(v: int)
    requires 0 <= v < 64
    ensures Sextet(AlphabetChar(v)) == Some(v)
  {
  }

  // ----- encoder -----

  function EncodeGroup(a: byte, b: byte, c: byte): string {
    [AlphabetChar(a / 4), AlphabetChar((a % 4) * 16 + b / 16),
     AlphabetChar((b % 16) * 4 + c / 64), AlphabetChar(c % 64)]
  }

  /** Base64 encoding with '=' padding (section 4 of RFC 4648). */
  function Encode(bs: seq<byte>): (r: string)
    ensures |r| % 4 == 0
    decreases |bs|
  {
    if |bs| >= 3 then EncodeGroup(bs[0], bs[1], bs[2]) + Encode(bs[3..])
    else if |bs| == 2 then
      [AlphabetChar(bs[0] / 4), AlphabetChar((bs[0] % 4) * 16 + bs[1] / 16), AlphabetChar((bs[1] % 16) * 4), '=']
    else if |bs| == 1 then
      [AlphabetChar(bs[0] / 4), AlphabetChar((bs[0] % 4) * 16), '=', '=']
    else []
  }

  // ----- lenient decoder -----

  /** The state of `a2b_base64` after each input character: the position inside the current
      quad, the bits left over from the previous character, and the run of '=' seen. */
  datatype DecodeState = DecodeState(quad: int, left: int, pads: int, out: seq<byte>)
  {
    predicate Valid() {
      0 <= quad < 4 && 0 <= pads &&
      (quad == 0 ==> left == 0) && (quad == 1 ==> 0 <= left < 64) &&
      (quad == 2 ==> 0 <= left < 16) && (quad == 3 ==> 0 <= left < 4)
    }
  }

  /** One data character of value `v`: the four cases of the quad position. */
  function Feed(st: DecodeState, v: int): (r: DecodeState)
    requires st.Valid() && 0 <= v < 64
    ensures r.Valid()
  {
    if st.quad == 0 then DecodeState(1, v, 0, st.out)
    else if st.quad == 1 then DecodeState(2, v % 16, 0, st.out + [st.left * 4 + v / 16])
    else if st.quad == 2 then DecodeState(3, v % 4, 0, st.out + [st.left * 16 + v / 4])
    else DecodeState(0, 0, 0, st.out + [st.left * 64 + v])
  }

  /** `binascii.a2b_base64(s, strict_mode=False)` from state `st` over the rest of the input:
      characters outside the alphabet are skipped; a '=' counts as padding only once two data
      characters of the quad have been seen, and enough padding to complete the quad ends the
      decoding; input that ends inside a quad is an error ("Incorrect padding", or one data
      character too many). */
  function A2b(s: string, st: DecodeState): Option<seq<byte>>
    requires st.Valid()
    decreases |s|
  {
    if s == [] then (if st.quad == 0 then Some(st.out) else None)
    else if s[0] == '=' then
      if st.quad >= 2 && st.quad + st.pads + 1 >= 4 then Some(st.out)
      else if st.quad >= 2 then A2b(s[1..], st.(pads := st.pads + 1))
      else A2b(s[1..], st)
    else match Sextet(s[0])
      case None => A2b(s[1..], st)
      case Some(v) => A2b(s[1..], Feed(st, v))
  }

  const Start := DecodeState(0, 0, 0, [])

  /** `base64.b64decode(s)` for a `str` argument: a non-ASCII character is a ValueError, the
      rest is the lenient decoder. */
  function B64Decode(s: string): Option<seq<byte>> {
    if exists i :: 0 <= i < |s| && s[i] as int >= 128 then None
    else A2b(s, Start)
  }

  /** One data character is consumed by `Feed`. */
  lemma StepData(s: string, st: DecodeState, v: int)
    requires st.Valid() && s != [] && Sextet(s[0]) == Some(v)
    ensures A2b(s, st) == A2b(s[1..], Feed(st, v))
  {
  }

  lemma DecodeGroup(a: byte, b: byte, c: byte, rest: string, out: seq<byte>)
    ensures A2b(EncodeGroup(a, b, c) + rest, DecodeState(0, 0, 0, out)) == A2b(rest, DecodeState(0, 0, 0, out + [a, b, c]))
  {
    var s := EncodeGroup(a, b, c) + rest;
    var v0, v1, v2, v3 := a / 4, (a % 4) * 16 + b / 16, (b % 16) * 4 + c / 64, c % 64;
    SextetOfAlphabet(v0);
    SextetOfAlphabet(v1);
    SextetOfAlphabet(v2);
    SextetOfAlphabet(v3);
    var st0 := DecodeState(0, 0, 0, out);
    var st1 := Feed(st0, v0);
    var st2 := Feed(st1, v1);
    var st3 := Feed(st2, v2);
    var st4 := Feed(st3, v3);
    StepData(s, st0, v0);
    StepData(s[1..], st1, v1);
    StepData(s[2..], st2, v2);
    StepData(s[3..], st3, v3);
    assert s[1..][1..] == s[2..] && s[2..][1..] == s[3..] && s[3..][1..] == rest;
    assert v0 * 4 + v1 / 16 == a;
    assert (v1 % 16) * 16 + v2 / 4 == b;
    assert (v2 % 4) * 64 + v3 == c;
    assert st4 == DecodeState(0, 0, 0, out + [a, b, c]);
  }

  lemma DecodeTwo(a: byte, b: byte, out: seq<byte>)
    ensures A2b(Encode([a, b]), DecodeState(0, 0, 0, out)) == Some(out + [a, b])
  {
    var s := Encode([a, b]);
    var v0, v1, v2 := a / 4, (a % 4) * 16 + b / 16, (b % 16) * 4;
    SextetOfAlphabet(v0);
    SextetOfAlphabet(v1);
    SextetOfAlphabet(v2);
    var st0 := DecodeState(0, 0, 0, out);
    var st1 := Feed(st0, v0);
    var st2 := Feed(st1, v1);
    var st3 := Feed(st2, v2);
    StepData(s, st0, v0);
    StepData(s[1..], st1, v1);
    StepData(s[2..], st2, v2);
    assert s[1..][1..] == s[2..] && s[2..][1..] == s[3..] && s[3..] == "=";
    assert v0 * 4 + v1 / 16 == a;
    assert (v1 % 16) * 16 + v2 / 4 == b;
    assert st2.out == out + [a];
    assert st3.out == out + [a, b];
    assert A2b(s[3..], st3) == Some(st3.out);
  }

  lemma DecodeOne(a: byte, out: seq<byte>)
    ensures A2b(Encode([a]), DecodeState(0, 0, 0, out)) == Some(out + [a])
  {
    var s := Encode([a]);
    var v0, v1 := a / 4, (a % 4) * 16;
    SextetOfAlphabet(v0);
    SextetOfAlphabet(v1);
    var st0 := DecodeState(0, 0, 0, out);
    var st1 := Feed(st0, v0);
    var st2 := Feed(st1, v1);
    StepData(s, st0, v0);
    StepData(s[1..], st1, v1);
    assert s[1..][1..] == s[2..] && s[2..] == "==" && s[2..][1..] == "=";
    assert v0 * 4 + v1 / 16 == a;
    assert A2b(s[2..], st2) == A2b("=", st2.(pads := 1));
    assert A2b("=", st2.(pads := 1)) == Some(st2.out);
  }

  /** Decoding what the encoder produced gives the bytes back. */
  lemma {:induction false} DecodeEncode(bs: seq<byte>, out: seq<byte>)
    ensures A2b(Encode(bs), DecodeState(0, 0, 0, out)) == Some(out + bs)
    decreases |bs|
  {
    if |bs| >= 3 {
      DecodeGroup(bs[0], bs[1], bs[2], Encode(bs[3..]), out);
      DecodeEncode(bs[3..], out + [bs[0], bs[1], bs[2]]);
      assert out + [bs[0], bs[1], bs[2]] + bs[3..] == out + bs;
    } else if |bs| == 2 {
      var two: seq<byte> := [bs[0], bs[1]];
      assert two == bs;
      DecodeTwo(bs[0], bs[1], out);
    } else if |bs| == 1 {
      var one: seq<byte> := [bs[0]];
      assert one == bs;
      DecodeOne(bs[0], out);
    } else {
      assert out + bs == out;
    }
  }

  lemma {:induction false} EncodeAscii(bs: seq<byte>)
    ensures IsAscii(Encode(bs))
    decreases |bs|
  {
    if |bs| >= 3 {
      EncodeAscii(bs[3..]);
    }
  }

  /** `b64decode` inverts base64 encoding. */
  lemma B64DecodeEncode(bs: seq<byte>)
    ensures B64Decode(Encode(bs)) == Some(bs)
  {
    EncodeAscii(bs);
    DecodeEncode(bs, []);
    assert [] + bs == bs;
  }

  /** Encoding proceeds one three-byte group at a time: a known group in front of a known
      encoding extends it by four characters. */
  lemma EncodeCons(a: byte, b: byte, c: byte, g: string, rest: seq<byte>, s: string)
    requires EncodeGroup(a, b, c) == g && Encode(rest) == s
    ensures Encode([a, b, c] + rest) == g + s
  {
    assert ([a, b, c] + rest)[3..] == rest;
  }

  // ----- UTF-8 -----

  predicate IsCont(b: byte) {
    0x80 <= b < 0xC0
  }

  /** `bytes.decode('utf-8')` with the default strict error handler: overlong forms,
      surrogates and code points above U+10FFFF are errors. */
  function Utf8Decode(bs: seq<byte>): Option<string>
    decreases |bs|
  {
    if bs == [] then Some([])
    else
      var b0: int := bs[0];
      var b1: int := if |bs| >= 2 then bs[1] else 0;
      var b2: int := if |bs| >= 3 then bs[2] else 0;
      var b3: int := if |bs| >= 4 then bs[3] else 0;
      var step: Option<(int, nat)> :=
        if b0 < 0x80 then Some((b0, 1))
        else if 0xC2 <= b0 < 0xE0 && |bs| >= 2 && IsCont(bs[1]) then
          Some(((b0 - 0xC0) * 64 + (b1 - 0x80), 2))
        else if 0xE0 <= b0 < 0xF0 && |bs| >= 3 && IsCont(bs[1]) && IsCont(bs[2]) &&
                (b0 != 0xE0 || bs[1] >= 0xA0) && (b0 != 0xED || bs[1] < 0xA0) then
          Some(((b0 - 0xE0) * 4096 + (b1 - 0x80) * 64 + (b2 - 0x80), 3))
        else if 0xF0 <= b0 < 0xF5 && |bs| >= 4 && IsCont(bs[1]) && IsCont(bs[2]) && IsCont(bs[3]) &&
                (b0 != 0xF0 || bs[1] >= 0x90) && (b0 != 0xF4 || bs[1] < 0x90) then
          Some(((b0 - 0xF0) * 262144 + (b1 - 0x80) * 4096 + (b2 - 0x80) * 64 + (b3 - 0x80), 4))
        else None;
      match step
      case None => None
      case Some((cp, n)) =>
        if n == 0 || n > |bs| || !(0 <= cp < 0xD800 || 0xE000 <= cp < 0x110000) then None
        else match Utf8Decode(bs[n..])
          case None => None
          case Some(rest) => Some([cp as char] + rest)
  }

  predicate IsAscii(s: string) {
    forall i :: 0 <= i < |s| ==> s[i] as int < 128
  }

  /** The bytes of an ASCII string. */
  function AsciiBytes(s: string): (r: seq<byte>)
    requires IsAscii(s)
    ensures |r| == |s| && forall i :: 0 <= i < |s| ==> r[i] == s[i] as int
  {
    seq(|s|, i requires 0 <= i < |s| => s[i] as int)
  }

  /** ASCII bytes decode to the same characters. */
  lemma {:induction false} Utf8DecodeAscii(s: string)
    requires IsAscii(s)
    ensures Utf8Decode(AsciiBytes(s)) == Some(s)
    decreases |s|
  {
    if s != [] {
      Utf8DecodeAscii(s[1..]);
      assert AsciiBytes(s)[1..] == AsciiBytes(s[1..]);
      assert s == [s[0]] + s[1..];
    }
  }

  // ----- hex -----

  function HexDigit(v: int): char
    requires 0 <= v < 16
  {
    if v < 10 then ('0' as int + v) as char else ('a' as int + v - 10) as char
  }

  predicate IsLowerHexChar(c: char) {
    '0' <= c <= '9' || 'a' <= c <= 'f'
  }

  /** `bytes.hex()`: two lowercase hex digits per byte, high nibble first. */
  function Hex(bs: seq<byte>): (r: string)
    ensures |r| == 2 * |bs|
    ensures forall i :: 0 <= i < |r| ==> IsLowerHexChar(r[i])
    ensures forall i :: 0 <= i < |bs| ==> r[2 * i] == HexDigit(bs[i] / 16) && r[2 * i + 1] == HexDigit(bs[i] % 16)
  {
    if bs == [] then [] else [HexDigit(bs[0] / 16), HexDigit(bs[0] % 16)] + Hex(bs[1..])
  }
}
