/** Lowercase base16 text of a MAC output, as written by
    `hash.joinToString("") { String.format("%02x", it) }`, and a decoder that
    serves as its inverse. Base16 is the encoding of section 8 of RFC 4648,
    here with the lowercase alphabet. */
module Hex {
  import opened Wrappers

  /** Kotlin's `Byte`: a signed 8-bit integer, the element type of the array
      that `Mac.doFinal` returns. */
  type SByte = x: int | -128 <= x < 128

  /** The value `%x` formats for a `Byte`: a negative byte is shown as
      its value plus 2^8. */
  function Unsigned(b: SByte): (u: nat)
    ensures u < 256 && u % 256 == b % 256
    ensures 0 <= b ==> u == b
  {
    if b < 0 then b + 256 else b
  }

  /** Inverse of `Unsigned`: the byte whose unsigned value is `u`. */
  function ToSigned(u: nat): (b: SByte)
    requires u < 256
    ensures Unsigned(b) == u
  {
    if u < 128 then u else u - 256
  }

  predicate IsLowerHex(c: char) { '0' <= c <= '9' || 'a' <= c <= 'f' }

  predicate AllLowerHex(s: string) { forall i :: 0 <= i < |s| ==> IsLowerHex(s[i]) }

  function HexDigit(d: nat): (c: char)
    requires d < 16
    ensures IsLowerHex(c) && HexValue(c) == d
  {
    if d < 10 then (d + '0' as int) as char else (d - 10 + 'a' as int) as char
  }

  function HexValue(c: char): (d: nat)
    requires IsLowerHex(c)
    ensures d < 16
  {
    if c <= '9' then c as int - '0' as int else c as int - 'a' as int + 10
  }

  /** Each lowercase hex digit is the digit of its own value. */
  lemma HexDigitOfValue(c: char)
    requires IsLowerHex(c)
    ensures HexDigit(HexValue(c)) == c
  {
  }

  /** `String.format("%02x", b)`: exactly two lowercase digits, zero-padded,
      whose value is the unsigned value of `b`. */
  function ByteHex(b: SByte): (s: string)
    ensures |s| == 2 && IsLowerHex(s[0]) && IsLowerHex(s[1])
    ensures HexValue(s[0]) * 16 + HexValue(s[1]) == Unsigned(b)
  {
    var u := Unsigned(b);
    [HexDigit(u / 16), HexDigit(u % 16)]
  }

  /** `joinToString("")` over `ByteHex`: the per-byte texts, in order, with no separator. */
  function EncodeHex(bytes: seq<SByte>): (s: string)
    ensures |s| == 2 * |bytes| && AllLowerHex(s)
  {
    if bytes == [] then [] else ByteHex(bytes[0]) + EncodeHex(bytes[1..])
  }

  /** Reads lowercase base16 text back into bytes; fails on an odd length or a
      character outside `0-9a-f`. */
  function DecodeHex(s: string): (r: Option<seq<SByte>>)
    decreases |s|
  {
    if s == [] then Some([])
    else if |s| < 2 || !IsLowerHex(s[0]) || !IsLowerHex(s[1]) then None
    else
      match DecodeHex(s[2..])
      case None => None
      case Some(rest) => Some([ToSigned(HexValue(s[0]) * 16 + HexValue(s[1]))] + rest)
  }

  /** Byte `i` of the input becomes characters `2i` and `2i+1` of the output. */
  lemma {:induction false} EncodeHexAt(bytes: seq<SByte>, i: nat)
    requires i < |bytes|
    ensures EncodeHex(bytes)[2 * i .. 2 * i + 2] == ByteHex(bytes[i])
  {
    var s := EncodeHex(bytes);
    if i == 0 {
      assert s[..2] == ByteHex(bytes[0]);
    } else {
      EncodeHexAt(bytes[1..], i - 1);
      assert s[2..] == EncodeHex(bytes[1..]);
      assert s[2 * i .. 2 * i + 2] == s[2..][2 * (i - 1) .. 2 * (i - 1) + 2];
    }
  }

  /** Decoding the encoding of any byte sequence gives it back. */
  lemma {:induction false} DecodeEncode(bytes: seq<SByte>)
    ensures DecodeHex(EncodeHex(bytes)) == Some(bytes)
  {
    if bytes != [] {
      var s := EncodeHex(bytes);
      var b := bytes[0];
      assert s[2..] == EncodeHex(bytes[1..]);
      DecodeEncode(bytes[1..]);
      assert s[..2] == ByteHex(b);
      assert ToSigned(HexValue(s[0]) * 16 + HexValue(s[1])) == b;
      assert [b] + bytes[1..] == bytes;
    }
  }

  /** Any text the decoder accepts is the encoding of what it decodes to, so
      `EncodeHex` is a bijection onto even-length lowercase hex text. */
  lemma {:induction false} EncodeDecode(s: string, bytes: seq<SByte>)
    requires DecodeHex(s) == Some(bytes)
    ensures EncodeHex(bytes) == s
  {
    if s != [] {
      var rest := DecodeHex(s[2..]).value;
      EncodeDecode(s[2..], rest);
      var hi, lo := HexValue(s[0]), HexValue(s[1]);
      var u := hi * 16 + lo;
      assert bytes == [ToSigned(u)] + rest;
      assert u / 16 == hi && u % 16 == lo;
      HexDigitOfValue(s[0]);
      HexDigitOfValue(s[1]);
      assert ByteHex(ToSigned(u)) == [s[0], s[1]];
      assert s == [s[0], s[1]] + s[2..];
    }
  }

  /** The decoder accepts exactly the even-length lowercase hex texts. */
  lemma {:induction false} DecodeHexAccepts(s: string)
    ensures DecodeHex(s).Some? <==> |s| % 2 == 0 && AllLowerHex(s)
  {
    if |s| >= 2 {
      DecodeHexAccepts(s[2..]);
      if AllLowerHex(s) {
        assert AllLowerHex(s[2..]);
      } else if IsLowerHex(s[0]) && IsLowerHex(s[1]) {
        var i :| 0 <= i < |s| && !IsLowerHex(s[i]);
        assert !IsLowerHex(s[2..][i - 2]);
      }
    }
  }
}
