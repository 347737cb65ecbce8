/** `encodeURIComponent` and its inverse `decodeURIComponent`, as ECMA-262
    defines them (the Encode and Decode abstract operations, section
    19.2.6 of recent editions): each character outside the unescaped set
    becomes the `%XX` triples of its UTF-8 bytes, with upper-case
    hexadecimal digits. */
module UriComponent {
  import opened Wrappers
  import Utf8

  /** The characters `encodeURIComponent` copies unchanged: the unreserved
      characters of RFC 3986 (section 2.3) plus `! * ' ( )`. */
  predicate IsUnescaped(c: char)
    ensures IsUnescaped(c) ==> (c as int) < 0x80 && c != '%'
  {
    || ('A' <= c <= 'Z') || ('a' <= c <= 'z') || ('0' <= c <= '9')
    || c == '-' || c == '_' || c == '.' || c == '!' || c == '~'
    || c == '*' || c == '\'' || c == '(' || c == ')'
  }

  /** The value of a hexadecimal digit of either case. */
  function HexValue(c: char): (r: Option<nat>)
    ensures r.Some? ==> r.value < 16
  {
    if '0' <= c <= '9' then Some(c as int - '0' as int)
    else if 'A' <= c <= 'F' then Some(c as int - 'A' as int + 10)
    else if 'a' <= c <= 'f' then Some(c as int - 'a' as int + 10)
    else None
  }

  /** The upper-case hexadecimal digit for d. */
  function HexDigit(d: nat): (c: char)
    requires d < 16
    ensures IsUnescaped(c) && c != '%'
    ensures '0' <= c <= '9' || 'A' <= c <= 'F'
    ensures HexValue(c) == Some(d)
  {
    if d < 10 then ('0' as int + d) as char else ('A' as int + d - 10) as char
  }

  /** Each byte as a `%XX` triple. */
  function PercentEncode(bs: seq<Utf8.Byte>): (r: string)
    ensures |r| == 3 * |bs|
    ensures forall i :: 0 <= i < |r| ==> IsUnescaped(r[i]) || r[i] == '%'
  {
    if bs == [] then ""
    else ['%', HexDigit(bs[0] / 16), HexDigit(bs[0] % 16)] + PercentEncode(bs[1..])
  }

  /** One character of `encodeURIComponent`: an unescaped character is
      copied, any other becomes the triples of its UTF-8 bytes. */
  function EncodeChar(c: char): (r: string)
    ensures IsUnescaped(c) ==> r == [c]
    ensures |r| >= 1
    ensures !IsUnescaped(c) ==> |r| == 3 * |Utf8.EncodeChar(c)| && r[0] == '%'
    ensures forall i :: 0 <= i < |r| ==> IsUnescaped(r[i]) || r[i] == '%'
  {
    if IsUnescaped(c) then [c] else PercentEncode(Utf8.EncodeChar(c))
  }

  /** `encodeURIComponent(s)`. Its output holds only unescaped characters
      and `%`, so never a query-string delimiter. */
  function Encode(s: string): (r: string)
    ensures forall i :: 0 <= i < |r| ==> IsUnescaped(r[i]) || r[i] == '%'
    ensures '=' !in r && '&' !in r && '?' !in r && '#' !in r
    ensures |r| >= |s|
  {
    if s == [] then "" else EncodeChar(s[0]) + Encode(s[1..])
  }

  /** A string of unescaped characters is its own encoding. */
  lemma {:induction false} EncodeUnescaped(s: string)
    requires forall i :: 0 <= i < |s| ==> IsUnescaped(s[i])
    ensures Encode(s) == s
  {
    if s != [] {
      EncodeUnescaped(s[1..]);
      assert [s[0]] + s[1..] == s;
    }
  }

  /** Words of letters are left as they are. */
  lemma EncodeExample()
    ensures Encode("name") == "name" && Encode("dummyData") == "dummyData"
  {
    EncodeUnescaped("name");
    EncodeUnescaped("dummyData");
  }

  /** Reads n consecutive `%XX` triples from the start of s. */
  function PercentBytes(s: string, n: nat): (r: Option<seq<Utf8.Byte>>)
    ensures r.Some? ==> |r.value| == n && 3 * n <= |s|
  {
    if n == 0 then Some([])
    else if |s| < 3 || s[0] != '%' then None
    else match (HexValue(s[1]), HexValue(s[2]))
      case (Some(hi), Some(lo)) =>
        (match PercentBytes(s[3..], n - 1)
         case Some(rest) => Some([hi * 16 + lo] + rest)
         case None => None)
      case _ => None
  }

  /** Decodes the character at the start of s: a plain character stands for
      itself, and a `%` starts the triples of one UTF-8 sequence. Returns
      the character and the number of characters of s it took. */
  function DecodeUnit(s: string): (r: Option<(char, nat)>)
    requires s != []
    ensures r.Some? ==> 1 <= r.value.1 <= |s|
  {
    if s[0] != '%' then Some((s[0], 1))
    else match PercentBytes(s, 1)
      case None => None
      case Some(lead) =>
        var n := Utf8.SequenceLength(lead[0]);
        if n == 0 then None
        else match PercentBytes(s, n)
          case None => None
          case Some(bs) =>
            (match Utf8.DecodeChar(bs)
             case None => None
             case Some(c) => Some((c, 3 * n)))
  }

  /** `decodeURIComponent(s)`; `None` where it would throw `URIError`. */
  function Decode(s: string): (r: Option<string>)
    decreases |s|
  {
    if s == [] then Some("")
    else match DecodeUnit(s)
      case None => None
      case Some((c, k)) =>
        (match Decode(s[k..])
         case None => None
         case Some(t) => Some([c] + t))
  }

  lemma {:induction false} PercentBytesOfEncode(bs: seq<Utf8.Byte>, rest: string, k: nat)
    requires k <= |bs|
    ensures PercentBytes(PercentEncode(bs) + rest, k) == Some(bs[..k])
  {
    if k > 0 {
      var s := PercentEncode(bs) + rest;
      var b := bs[0];
      assert s[0] == '%' && s[1] == HexDigit(b / 16) && s[2] == HexDigit(b % 16);
      assert s[3..] == PercentEncode(bs[1..]) + rest;
      PercentBytesOfEncode(bs[1..], rest, k - 1);
      assert bs[..k] == [b] + bs[1..][..k - 1];
    }
  }

  /** The decoder reads back exactly one encoded character. */
  lemma DecodeUnitOfEncodeChar(c: char, rest: string)
    ensures DecodeUnit(EncodeChar(c) + rest) == Some((c, |EncodeChar(c)|))
  {
    var s := EncodeChar(c) + rest;
    if !IsUnescaped(c) {
      var bs := Utf8.EncodeChar(c);
      PercentBytesOfEncode(bs, rest, 1);
      PercentBytesOfEncode(bs, rest, |bs|);
      assert bs[..|bs|] == bs;
      Utf8.DecodeEncodeChar(c);
    }
  }

  /** `decodeURIComponent(encodeURIComponent(s)) == s`. */
  lemma {:induction false} DecodeEncode(s: string)
    ensures Decode(Encode(s)) == Some(s)
  {
    if s != [] {
      var e := EncodeChar(s[0]);
      var t := e + Encode(s[1..]);
      DecodeUnitOfEncodeChar(s[0], Encode(s[1..]));
      assert t[|e|..] == Encode(s[1..]);
      DecodeEncode(s[1..]);
      assert [s[0]] + s[1..] == s;
    }
  }

  /** Distinct strings have distinct encodings. */
  lemma EncodeInjective(s: string, t: string)
    requires Encode(s) == Encode(t)
    ensures s == t
  {
    DecodeEncode(s);
    DecodeEncode(t);
  }
}
