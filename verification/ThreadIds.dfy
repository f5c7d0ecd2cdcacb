/** Thread ids: the UTF-8 bytes of a root Message-ID in unpadded base64url, and the way back. */
module ThreadIds {
  import opened Text
  import opened Utf8Text

  // ---- base64url (RFC 4648, section 5) ----------------------------------------------

  function Letter(n: nat): char
    requires n < 64
  {
    if n < 26 then ('A' as int + n) as char
    else if n < 52 then ('a' as int + (n - 26)) as char
    else if n < 62 then ('0' as int + (n - 52)) as char
    else if n == 62 then '-' else '_'
  }

  function LetterValue(c: char): (r: nat)
    ensures r < 64
  {
    if 'A' <= c <= 'Z' then c as int - 'A' as int
    else if 'a' <= c <= 'z' then c as int - 'a' as int + 26
    else if '0' <= c <= '9' then c as int - '0' as int + 52
    else if c == '-' then 62 else 63
  }

  lemma LetterRoundTrip(n: nat)
    requires n < 64
    ensures LetterValue(Letter(n)) == n
  {
  }

  function ToBase64Url(b: seq<Byte>): string {
    if |b| == 0 then ""
    else if |b| == 1 then [Letter(b[0] / 4), Letter(b[0] % 4 * 16)]
    else if |b| == 2 then [Letter(b[0] / 4), Letter(b[0] % 4 * 16 + b[1] / 16), Letter(b[1] % 16 * 4)]
    else [Letter(b[0] / 4), Letter(b[0] % 4 * 16 + b[1] / 16), Letter(b[1] % 16 * 4 + b[2] / 64), Letter(b[2] % 64)]
         + ToBase64Url(b[3..])
  }

  function FirstByte(a: nat, b: nat): Byte
    requires a < 64 && b < 64
  {
    a * 4 + b / 16
  }

  function SecondByte(b: nat, c: nat): Byte
    requires b < 64 && c < 64
  {
    b % 16 * 16 + c / 4
  }

  function ThirdByte(c: nat, d: nat): Byte
    requires c < 64 && d < 64
  {
    c % 4 * 64 + d
  }

  function FromBase64Url(s: string): seq<Byte> {
    if |s| < 2 then []
    else
      var a, b := LetterValue(s[0]), LetterValue(s[1]);
      if |s| == 2 then [FirstByte(a, b)] else
      var c := LetterValue(s[2]);
      if |s| == 3 then [FirstByte(a, b), SecondByte(b, c)] else
      [FirstByte(a, b), SecondByte(b, c), ThirdByte(c, LetterValue(s[3]))] + FromBase64Url(s[4..])
  }

  lemma FirstByteRoundTrip(b: Byte, x: nat)
    requires x < 16
    ensures FirstByte(b / 4, b % 4 * 16 + x) == b
  {
  }

  lemma SecondByteRoundTrip(b: Byte, y: nat, z: nat)
    requires y < 4 && z < 4
    ensures SecondByte(y * 16 + b / 16, b % 16 * 4 + z) == b
  {
  }

  lemma ThirdByteRoundTrip(b: Byte, w: nat)
    requires w < 16
    ensures ThirdByte(w * 4 + b / 64, b % 64) == b
  {
  }

  /** The last one or two bytes, which take two or three letters. */
  lemma ShortRoundTrip(b: seq<Byte>)
    requires |b| < 3
    ensures FromBase64Url(ToBase64Url(b)) == b
  {
    hide Letter, LetterValue, FirstByte, SecondByte, ThirdByte;
    if |b| > 0 {
      var x := if |b| == 2 then b[1] / 16 else 0;
      LetterRoundTrip(b[0] / 4);
      LetterRoundTrip(b[0] % 4 * 16 + x);
      FirstByteRoundTrip(b[0], x);
      if |b| == 2 {
        LetterRoundTrip(b[1] % 16 * 4);
        SecondByteRoundTrip(b[1], b[0] % 4, 0);
      }
    }
  }

  lemma {:induction false} Base64RoundTrip(b: seq<Byte>)
    ensures FromBase64Url(ToBase64Url(b)) == b
  {
    hide Letter, LetterValue, FirstByte, SecondByte, ThirdByte;
    var s := ToBase64Url(b);
    if |b| < 3 {
      ShortRoundTrip(b);
    } else {
      LetterRoundTrip(b[0] / 4);
      LetterRoundTrip(b[0] % 4 * 16 + b[1] / 16);
      LetterRoundTrip(b[1] % 16 * 4 + b[2] / 64);
      LetterRoundTrip(b[2] % 64);
      FirstByteRoundTrip(b[0], b[1] / 16);
      SecondByteRoundTrip(b[1], b[0] % 4, b[2] / 64);
      ThirdByteRoundTrip(b[2], b[1] % 16);
      Base64RoundTrip(b[3..]);
      assert s[4..] == ToBase64Url(b[3..]);
    }
  }

  // ---- thread ids -------------------------------------------------------------------

  function ThreadIdFor(root: string): string {
    ToBase64Url(Utf8(root))
  }

  function RootFromThreadId(id: string): Option<string> {
    FromUtf8(FromBase64Url(id))
  }

  /** Opening a thread by its id starts from the very root the id was made of. */
  lemma ThreadIdRoundTrip(root: string)
    ensures RootFromThreadId(ThreadIdFor(root)) == Some(root)
  {
    Base64RoundTrip(Utf8(root));
    Utf8RoundTrip(root);
  }

  lemma ThreadIdInjective(root: string, other: string)
    requires ThreadIdFor(root) == ThreadIdFor(other)
    ensures root == other
  {
    ThreadIdRoundTrip(root);
    ThreadIdRoundTrip(other);
  }
}
