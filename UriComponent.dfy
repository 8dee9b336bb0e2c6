/**
 * `encodeURIComponent` as ECMAScript defines it: every character outside
 * `A-Z a-z 0-9 - _ . ! ~ * ' ( )` is written as the UTF-8 bytes of its code
 * point, each byte as `%` and two upper-case hexadecimal digits (section 2.1
 * of RFC 3986). `Decode` is an independent reference inverse.
 *
 * Characters are Unicode scalar values, so the lone surrogates for which the
 * built-in throws cannot occur.
 */
module UriComponent {
  import opened Common

  newtype byte = x: int | 0 <= x < 256

  /** The characters `encodeURIComponent` leaves as they are. */
  predicate Unreserved(c: char) {
    || 'A' <= c <= 'Z' || 'a' <= c <= 'z' || '0' <= c <= '9'
    || c == '-' || c == '_' || c == '.' || c == '!' || c == '~'
    || c == '*' || c == '\'' || c == '(' || c == ')'
  }

  /** The UTF-8 encoding of one scalar value. */
  function Utf8(c: char): (r: seq<byte>)
    ensures 1 <= |r| <= 4
  {
    var n := c as int;
    if n < 0x80 then [n as byte]
    else if n < 0x800 then [(0xC0 + n / 0x40) as byte, (0x80 + n % 0x40) as byte]
    else if n < 0x10000 then
      [(0xE0 + n / 0x1000) as byte, (0x80 + n / 0x40 % 0x40) as byte, (0x80 + n % 0x40) as byte]
    else
      [(0xF0 + n / 0x40000) as byte, (0x80 + n / 0x1000 % 0x40) as byte,
       (0x80 + n / 0x40 % 0x40) as byte, (0x80 + n % 0x40) as byte]
  }

  /** An upper-case hexadecimal digit. */
  function HexDigit(d: int): (r: char)
    requires 0 <= d < 16
    ensures Unreserved(r)
  {
    if d < 10 then ('0' as int + d) as char else ('A' as int + d - 10) as char
  }

  /** `%XX` for every byte. */
  function PercentEncode(bytes: seq<byte>): (r: string)
    ensures |r| == 3 * |bytes|
    ensures forall i :: 0 <= i < |r| ==> Unreserved(r[i]) || r[i] == '%'
  {
    if bytes == [] then []
    else ['%', HexDigit(bytes[0] as int / 16), HexDigit(bytes[0] as int % 16)] + PercentEncode(bytes[1..])
  }

  function EncodeChar(c: char): string {
    if Unreserved(c) then [c] else PercentEncode(Utf8(c))
  }

  /**
   * `encodeURIComponent(s)`. The result holds only unreserved characters and
   * `%`, so never `&`, `=`, `?` or `#`.
   */
  function Encode(s: string): (r: string)
    ensures forall i :: 0 <= i < |r| ==> Unreserved(r[i]) || r[i] == '%'
  {
    if s == [] then [] else EncodeChar(s[0]) + Encode(s[1..])
  }

  /** A string of unreserved characters is its own encoding. */
  lemma {:induction false} EncodeUnreserved(s: string)
    requires forall i :: 0 <= i < |s| ==> Unreserved(s[i])
    ensures Encode(s) == s
  {
    if s != [] {
      EncodeUnreserved(s[1..]);
      assert s == [s[0]] + s[1..];
    }
  }

  // ---------------------------------------------------------------------------
  // The reference inverse.

  /** A decoded escape: a character written as itself, or one escaped byte. */
  datatype Unit = Lit(c: char) | Octet(b: byte)

  function HexValue(c: char): Option<int> {
    if '0' <= c <= '9' then Some(c as int - '0' as int)
    else if 'A' <= c <= 'F' then Some(c as int - 'A' as int + 10)
    else if 'a' <= c <= 'f' then Some(c as int - 'a' as int + 10)
    else None
  }

  lemma HexValueOfDigit(d: int)
    requires 0 <= d < 16
    ensures HexValue(HexDigit(d)) == Some(d)
  {
  }

  /** Splits an encoded string into characters and `%XX` bytes; `None` on a bad escape. */
  function Unescape(t: string): Option<seq<Unit>>
    decreases |t|
  {
    if t == [] then Some([])
    else if t[0] != '%' then
      match Unescape(t[1..])
      case None => None
      case Some(rest) => Some([Lit(t[0])] + rest)
    else if |t| < 3 then None
    else match (HexValue(t[1]), HexValue(t[2]))
      case (Some(hi), Some(lo)) =>
        (match Unescape(t[3..])
         case None => None
         case Some(rest) => Some([Octet((hi * 16 + lo) as byte)] + rest))
      case _ => None
  }

  /** The number of bytes a UTF-8 sequence starting with `b` has; 0 when `b` cannot start one. */
  function SequenceLength(b: byte): nat {
    if b < 0x80 then 1
    else if 0xC0 <= b < 0xE0 then 2
    else if 0xE0 <= b < 0xF0 then 3
    else if 0xF0 <= b < 0xF8 then 4
    else 0
  }

  predicate Continuation(u: Unit) {
    u.Octet? && 0x80 <= u.b < 0xC0
  }

  /** The six payload bits of a continuation byte. */
  function Payload(u: Unit): int {
    if u.Octet? then u.b as int - 0x80 else 0
  }

  /** The code point of a UTF-8 sequence of `n` escaped bytes at the front of `u`. */
  function CodePoint(u: seq<Unit>, n: nat): int
    requires 1 <= n <= |u| && n <= 4 && u[0].Octet?
  {
    var b0 := u[0].b as int;
    if n == 1 then b0
    else if n == 2 then (b0 - 0xC0) * 0x40 + Payload(u[1])
    else if n == 3 then (b0 - 0xE0) * 0x1000 + Payload(u[1]) * 0x40 + Payload(u[2])
    else (b0 - 0xF0) * 0x40000 + Payload(u[1]) * 0x1000 + Payload(u[2]) * 0x40 + Payload(u[3])
  }

  predicate IsScalar(n: int) {
    0 <= n < 0xD800 || 0xE000 <= n < 0x11_0000
  }

  /** Decodes the escaped bytes as UTF-8; `None` on a malformed sequence. */
  function Utf8Decode(u: seq<Unit>): Option<string>
    decreases |u|
  {
    if u == [] then Some([])
    else match u[0]
      case Lit(c) =>
        (match Utf8Decode(u[1..])
         case None => None
         case Some(rest) => Some([c] + rest))
      case Octet(b) =>
        var n := SequenceLength(b);
        if n == 0 || |u| < n || exists i :: 1 <= i < n && !Continuation(u[i]) then None
        else
          var cp := CodePoint(u, n);
          if !IsScalar(cp) then None
          else match Utf8Decode(u[n..])
            case None => None
            case Some(rest) => Some([cp as char] + rest)
  }

  /** `decodeURIComponent` restricted to what `Encode` produces. */
  function Decode(t: string): Option<string> {
    match Unescape(t)
    case None => None
    case Some(u) => Utf8Decode(u)
  }

  // ---------------------------------------------------------------------------
  // Round trip.

  function Octets(bytes: seq<byte>): (r: seq<Unit>)
    ensures |r| == |bytes|
    ensures forall i :: 0 <= i < |bytes| ==> r[i] == Octet(bytes[i])
  {
    if bytes == [] then [] else [Octet(bytes[0])] + Octets(bytes[1..])
  }

  /** What `Unescape` makes of the encoding of `s`. */
  function Units(s: string): seq<Unit> {
    if s == [] then []
    else (if Unreserved(s[0]) then [Lit(s[0])] else Octets(Utf8(s[0]))) + Units(s[1..])
  }

  /** One `%XX` escape is one byte. */
  lemma UnescapeTriple(b: byte, tail: string)
    ensures Unescape(['%', HexDigit(b as int / 16), HexDigit(b as int % 16)] + tail)
              == match Unescape(tail) case None => None case Some(r) => Some([Octet(b)] + r)
  {
    var hi, lo := b as int / 16, b as int % 16;
    var t := ['%', HexDigit(hi), HexDigit(lo)] + tail;
    HexValueOfDigit(hi);
    HexValueOfDigit(lo);
    assert t[0] == '%' && HexValue(t[1]) == Some(hi) && HexValue(t[2]) == Some(lo);
    assert (hi * 16 + lo) as byte == b;
    assert t[3..] == tail;
  }

  lemma {:induction false} UnescapePercent(bytes: seq<byte>, rest: string)
    ensures Unescape(PercentEncode(bytes) + rest)
              == match Unescape(rest) case None => None case Some(r) => Some(Octets(bytes) + r)
  {
    if bytes == [] {
      assert PercentEncode(bytes) + rest == rest;
      if Unescape(rest).Some? {
        assert Octets(bytes) + Unescape(rest).value == Unescape(rest).value;
      }
    } else {
      var b := bytes[0];
      var tail := PercentEncode(bytes[1..]) + rest;
      assert PercentEncode(bytes) + rest
             == ['%', HexDigit(b as int / 16), HexDigit(b as int % 16)] + tail;
      UnescapeTriple(b, tail);
      UnescapePercent(bytes[1..], rest);
      if Unescape(rest).Some? {
        var r := Unescape(rest).value;
        assert [Octet(b)] + (Octets(bytes[1..]) + r) == Octets(bytes) + r;
      }
    }
  }

  lemma {:induction false} UnescapeEncode(s: string)
    ensures Unescape(Encode(s)) == Some(Units(s))
  {
    if s != [] {
      UnescapeEncode(s[1..]);
      var c := s[0];
      if Unreserved(c) {
        assert Encode(s) == [c] + Encode(s[1..]);
        assert Encode(s)[1..] == Encode(s[1..]);
      } else {
        UnescapePercent(Utf8(c), Encode(s[1..]));
      }
    }
  }

  lemma Utf8DecodeOne(c: char, more: seq<Unit>)
    requires c as int < 0x80
    ensures Utf8Decode(Octets(Utf8(c)) + more)
              == match Utf8Decode(more) case None => None case Some(r) => Some([c] + r)
  {
    var u := Octets(Utf8(c)) + more;
    assert u[1..] == more;
  }

  lemma Utf8DecodeTwo(c: char, more: seq<Unit>)
    requires 0x80 <= c as int < 0x800
    ensures Utf8Decode(Octets(Utf8(c)) + more)
              == match Utf8Decode(more) case None => None case Some(r) => Some([c] + r)
  {
    var n := c as int;
    var u := Octets(Utf8(c)) + more;
    assert u[0] == Octet((0xC0 + n / 0x40) as byte) && u[1] == Octet((0x80 + n % 0x40) as byte);
    assert CodePoint(u, 2) == n;
    assert u[2..] == more;
  }

  lemma Utf8DecodeThree(c: char, more: seq<Unit>)
    requires 0x800 <= c as int < 0x10000
    ensures Utf8Decode(Octets(Utf8(c)) + more)
              == match Utf8Decode(more) case None => None case Some(r) => Some([c] + r)
  {
    var n := c as int;
    var u := Octets(Utf8(c)) + more;
    assert u[0] == Octet((0xE0 + n / 0x1000) as byte);
    assert u[1] == Octet((0x80 + n / 0x40 % 0x40) as byte) && u[2] == Octet((0x80 + n % 0x40) as byte);
    assert CodePoint(u, 3) == n;
    assert u[3..] == more;
  }

  lemma FourBytes(n: int)
    requires 0x10000 <= n < 0x11_0000
    ensures (n / 0x40000) * 0x40000 + (n / 0x1000 % 0x40) * 0x1000 + (n / 0x40 % 0x40) * 0x40 + n % 0x40 == n
  {
  }

  lemma Utf8DecodeFour(c: char, more: seq<Unit>)
    requires 0x10000 <= c as int
    ensures Utf8Decode(Octets(Utf8(c)) + more)
              == match Utf8Decode(more) case None => None case Some(r) => Some([c] + r)
  {
    var n := c as int;
    var u := Octets(Utf8(c)) + more;
    assert u[0] == Octet((0xF0 + n / 0x40000) as byte) && u[1] == Octet((0x80 + n / 0x1000 % 0x40) as byte);
    assert u[2] == Octet((0x80 + n / 0x40 % 0x40) as byte) && u[3] == Octet((0x80 + n % 0x40) as byte);
    FourBytes(n);
    assert CodePoint(u, 4) == n;
    assert u[4..] == more;
  }

  lemma {:induction false} Utf8DecodeUnits(s: string)
    ensures Utf8Decode(Units(s)) == Some(s)
  {
    if s != [] {
      var c := s[0];
      Utf8DecodeUnits(s[1..]);
      if Unreserved(c) {
        assert Units(s)[1..] == Units(s[1..]);
      } else if c as int < 0x80 {
        Utf8DecodeOne(c, Units(s[1..]));
      } else if c as int < 0x800 {
        Utf8DecodeTwo(c, Units(s[1..]));
      } else if c as int < 0x10000 {
        Utf8DecodeThree(c, Units(s[1..]));
      } else {
        Utf8DecodeFour(c, Units(s[1..]));
      }
      assert s == [c] + s[1..];
    }
  }

  /** Decoding undoes `encodeURIComponent`; in particular the encoding is injective. */
  lemma DecodeEncode(s: string)
    ensures Decode(Encode(s)) == Some(s)
  {
    UnescapeEncode(s);
    Utf8DecodeUnits(s);
  }

  lemma EncodeInjective(s: string, t: string)
    ensures Encode(s) == Encode(t) <==> s == t
  {
    if Encode(s) == Encode(t) {
      DecodeEncode(s);
      DecodeEncode(t);
    }
  }
}
