/** UTF-8, the byte encoding that `encodeURIComponent` applies to every
    character it escapes (RFC 3629). A Dafny `char` is a Unicode scalar
    value, so every character has exactly one encoding. */
module Utf8 {
  import opened Wrappers

  type Byte = b: int | 0 <= b < 256

  /** The codes of Unicode scalar values: everything up to U+10FFFF except
      the surrogates. */
  predicate IsScalarValue(n: int) {
    0 <= n < 0xD800 || 0xE000 <= n < 0x11_0000
  }

  predicate IsContinuation(b: Byte) {
    0x80 <= b < 0xC0
  }

  /** The length of the sequence that a leading byte announces, or 0 when
      the byte cannot start a sequence. */
  function SequenceLength(b: Byte): (n: nat)
    ensures n <= 4
  {
    if b < 0x80 then 1
    else if b < 0xC0 then 0
    else if b < 0xE0 then 2
    else if b < 0xF0 then 3
    else if b < 0xF8 then 4
    else 0
  }

  /** The UTF-8 encoding of one character. */
  function EncodeChar(c: char): (bs: seq<Byte>)
    ensures 1 <= |bs| <= 4
    ensures SequenceLength(bs[0]) == |bs|
    ensures forall i :: 1 <= i < |bs| ==> IsContinuation(bs[i])
    ensures |bs| == 1 <==> (c as int) < 0x80
  {
    var n := c as int;
    if n < 0x80 then [n]
    else if n < 0x800 then [0xC0 + n / 64, 0x80 + n % 64]
    else if n < 0x1_0000 then [0xE0 + n / 4096, 0x80 + n / 64 % 64, 0x80 + n % 64]
    else [0xF0 + n / 0x4_0000, 0x80 + n / 4096 % 64, 0x80 + n / 64 % 64, 0x80 + n % 64]
  }

  /** Decodes one complete UTF-8 sequence, refusing continuation bytes in
      the lead position, overlong forms, surrogates and code points past
      U+10FFFF. */
  function DecodeChar(bs: seq<Byte>): (r: Option<char>)
    ensures r.Some? ==> 1 <= |bs| <= 4 && SequenceLength(bs[0]) == |bs|
  {
    if |bs| == 1 && bs[0] < 0x80 then
      Some(bs[0] as char)
    else if |bs| == 2 && 0xC0 <= bs[0] < 0xE0 && IsContinuation(bs[1]) then
      var n := (bs[0] as int - 0xC0) * 64 + (bs[1] as int - 0x80);
      if 0x80 <= n then Some(n as char) else None
    else if |bs| == 3 && 0xE0 <= bs[0] < 0xF0 && IsContinuation(bs[1]) && IsContinuation(bs[2]) then
      var n := (bs[0] as int - 0xE0) * 4096 + (bs[1] as int - 0x80) * 64 + (bs[2] as int - 0x80);
      if 0x800 <= n && IsScalarValue(n) then Some(n as char) else None
    else if |bs| == 4 && 0xF0 <= bs[0] < 0xF8 && IsContinuation(bs[1]) && IsContinuation(bs[2])
         && IsContinuation(bs[3]) then
      var n := (bs[0] as int - 0xF0) * 0x4_0000 + (bs[1] as int - 0x80) * 4096
               + (bs[2] as int - 0x80) * 64 + (bs[3] as int - 0x80);
      if 0x1_0000 <= n < 0x11_0000 then Some(n as char) else None
    else
      None
  }

  /** Decoding undoes encoding, character by character. */
  lemma DecodeEncodeChar(c: char)
    ensures DecodeChar(EncodeChar(c)) == Some(c)
  {
    var n := c as int;
    if n < 0x80 {
    } else if n < 0x800 {
      assert (n / 64) * 64 + n % 64 == n;
    } else if n < 0x1_0000 {
      DivSplit(n);
    } else {
      DivSplit(n);
      DivSplit(n / 64);
      assert n / 64 / 64 / 64 == n / 0x4_0000;
      assert n / 64 / 64 % 64 == n / 4096 % 64;
    }
  }

  lemma DivSplit(n: nat)
    ensures n / 4096 * 4096 + n / 64 % 64 * 64 + n % 64 == n
    ensures n / 4096 == n / 64 / 64
  {
  }

  /** Every sequence the decoder accepts is the encoding of what it decodes
      to: the encoding is the only spelling of a character. */
  lemma EncodeDecodeChar(bs: seq<Byte>)
    requires DecodeChar(bs).Some?
    ensures EncodeChar(DecodeChar(bs).value) == bs
  {
    var n := DecodeChar(bs).value as int;
    if |bs| == 2 {
      var x, y := bs[0] as int - 0xC0, bs[1] as int - 0x80;
      assert n == x * 64 + y;
      assert n / 64 == x && n % 64 == y;
    } else if |bs| == 3 {
      var x, y, z := bs[0] as int - 0xE0, bs[1] as int - 0x80, bs[2] as int - 0x80;
      assert n == (x * 64 + y) * 64 + z;
      assert n / 64 == x * 64 + y && n % 64 == z;
      assert n / 64 / 64 == x && n / 64 % 64 == y;
      DivSplit(n);
    } else if |bs| == 4 {
      var w, x, y, z := bs[0] as int - 0xF0, bs[1] as int - 0x80, bs[2] as int - 0x80, bs[3] as int - 0x80;
      assert n == ((w * 64 + x) * 64 + y) * 64 + z;
      assert n / 64 == (w * 64 + x) * 64 + y && n % 64 == z;
      assert n / 64 / 64 == w * 64 + x && n / 64 % 64 == y;
      assert n / 64 / 64 / 64 == w && n / 64 / 64 % 64 == x;
      DivSplit(n);
      DivSplit(n / 64);
    }
  }
}
