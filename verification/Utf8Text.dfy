/** UTF-8 (RFC 3629): the bytes of a text, and the way back. */
module Utf8Text {
  import opened Text

  type Byte = n: nat | n < 256

  function CharBytes(c: char): (r: seq<Byte>)
    ensures 1 <= |r| <= 4
  {
    var n := c as int;
    var n1 := n / 64;
    var n2 := n1 / 64;
    if n < 0x80 then [n]
    else if n < 0x800 then [0xC0 + n1, 0x80 + n % 64]
    else if n < 0x1_0000 then [0xE0 + n2, 0x80 + n1 % 64, 0x80 + n % 64]
    else [0xF0 + n2 / 64, 0x80 + n2 % 64, 0x80 + n1 % 64, 0x80 + n % 64]
  }

  function Utf8(s: string): seq<Byte> {
    if s == "" then [] else CharBytes(s[0]) + Utf8(s[1..])
  }

  predicate IsScalar(n: int) {
    0 <= n < 0xD800 || 0xE000 <= n < 0x11_0000
  }

  predicate Continues(b: Byte) {
    0x80 <= b < 0xC0
  }

  /** The character at the front of `b` and how many bytes it takes; none when the bytes are malformed. */
  function FirstChar(b: seq<Byte>): (r: Option<(char, nat)>)
    requires b != []
    ensures r.Some? ==> 1 <= r.value.1 <= |b|
  {
    var h := b[0];
    var n := if h < 0x80 then 1 else if h < 0xE0 then 2 else if h < 0xF0 then 3 else 4;
    if 0x80 <= h < 0xC0 || h >= 0xF8 || |b| < n then None else
    if n == 1 then Some((h as char, 1)) else
    if !Continues(b[1]) || (n > 2 && !Continues(b[2])) || (n > 3 && !Continues(b[3])) then None else
    var v2: int := (h as int - (if n == 2 then 0xC0 else if n == 3 then 0xE0 else 0xF0)) * 64 + b[1] - 0x80;
    var v3: int := if n == 2 then v2 else v2 * 64 + b[2] - 0x80;
    var v: int := if n <= 3 then v3 else v3 * 64 + b[3] - 0x80;
    if IsScalar(v) then Some((v as char, n)) else None
  }

  function FromUtf8(b: seq<Byte>): Option<string> {
    if b == [] then Some("") else
    match FirstChar(b)
    case None => None
    case Some((c, n)) =>
      match FromUtf8(b[n..])
      case None => None
      case Some(rest) => Some([c] + rest)
  }

  lemma FirstCharReadsCharBytes(c: char, rest: seq<Byte>)
    ensures CharBytes(c) + rest != []
    ensures FirstChar(CharBytes(c) + rest) == Some((c, |CharBytes(c)|))
  {
    var n := c as int;
    var b := CharBytes(c) + rest;
    assert IsScalar(n);
    assert b[0] == CharBytes(c)[0];
    if n >= 0x80 {
      assert b[1] == CharBytes(c)[1];
    }
    if n >= 0x800 {
      assert b[2] == CharBytes(c)[2];
    }
    if n >= 0x1_0000 {
      assert b[3] == CharBytes(c)[3];
    }
  }

  lemma {:induction false} Utf8RoundTrip(s: string)
    ensures FromUtf8(Utf8(s)) == Some(s)
  {
    if s != "" {
      FirstCharReadsCharBytes(s[0], Utf8(s[1..]));
      Utf8RoundTrip(s[1..]);
      var b, n := Utf8(s), |CharBytes(s[0])|;
      assert b == CharBytes(s[0]) + Utf8(s[1..]);
      assert b[n..] == Utf8(s[1..]);
      assert s == [s[0]] + s[1..];
    }
  }
}
