/** The SHA512-CRYPT password hash of imported accounts: computing it, printing it and checking a password against it. */
module Sha512Crypt {
  import opened Text
  import opened Utf8Text

  // ---- repeating blocks -----------------------------------------------------------------------

  /** `block` repeated and cut to `len` bytes. */
  function Repeated(block: seq<Byte>, len: nat): (r: seq<Byte>)
    requires block != []
    ensures |r| == len
  {
    if len <= |block| then block[..len] else block + Repeated(block, len - |block|)
  }

  lemma OneLapBack(i: nat, n: nat)
    requires 0 < n <= i
    ensures (i - n) % n == i % n
  {
    assert i == n * ((i - n) / n + 1) + (i - n) % n;
    SameRest(i, n, (i - n) / n + 1, (i - n) % n);
  }

  lemma SameRest(i: nat, n: nat, q: nat, r: nat)
    requires r < n && i == n * q + r
    ensures i % n == r
  {
    var k := q - i / n;
    assert n * k == i % n - r;
    if k != 0 {
      MultipleIsFar(n, k);
    }
  }

  lemma ProductIsNat(n: nat, k: nat)
    ensures n * k >= 0
  {
  }

  lemma MultipleIsFar(n: int, k: int)
    requires n >= 0 && k != 0
    ensures n * k >= n || n * k <= -n
  {
    if k > 0 {
      ProductIsNat(n, k - 1);
      assert n * k == n + n * (k - 1);
    } else {
      ProductIsNat(n, -k - 1);
      assert n * k == -n - n * (-k - 1);
    }
  }

  /** Each byte is that of the block, counted round and round. */
  lemma {:induction false} RepeatedAt(block: seq<Byte>, len: nat, i: nat)
    requires block != [] && i < len
    ensures Repeated(block, len)[i] == block[i % |block|]
  {
    if i >= |block| {
      RepeatedAt(block, len - |block|, i - |block|);
      OneLapBack(i, |block|);
    } else {
      SameRest(i, |block|, 0, i);
    }
  }

  function Times(block: seq<Byte>, n: nat): seq<Byte> {
    if n == 0 then [] else block + Times(block, n - 1)
  }

  lemma {:induction false} TimesAt(block: seq<Byte>, n: nat, i: nat)
    requires block != [] && i < n * |block|
    ensures |Times(block, n)| == n * |block| && Times(block, n)[i] == block[i % |block|]
  {
    assert n * |block| == |block| + (n - 1) * |block|;
    if i >= |block| {
      TimesAt(block, n - 1, i - |block|);
      OneLapBack(i, |block|);
    } else {
      TimesLength(block, n);
      SameRest(i, |block|, 0, i);
    }
  }

  lemma {:induction false} TimesLength(block: seq<Byte>, n: nat)
    ensures |Times(block, n)| == n * |block|
  {
    if n > 0 {
      TimesLength(block, n - 1);
      assert n * |block| == |block| + (n - 1) * |block|;
    }
  }

  /** Copies the first `n` bytes of `block` to `out`, from index `at`. */
  method Copy(block: seq<Byte>, out: array<Byte>, at: nat, n: nat)
    requires n <= |block| && at + n <= out.Length
    modifies out
    ensures out[..at + n] == old(out[..at]) + block[..n]
  {
    ghost var done := out[..at];
    for k := 0 to n
      invariant out[..at + k] == done + block[..k]
    {
      out[at + k] := block[k];
    }
  }

  /** What is written once `i` bytes are due, and that the rest of the repetition completes it. */
  ghost predicate Written(block: seq<Byte>, len: nat, i: nat, done: seq<Byte>)
    requires block != []
  {
    if i < len then done + Repeated(block, len - i) == Repeated(block, len) else done == Repeated(block, len)
  }

  lemma WritingOn(block: seq<Byte>, len: nat, i: nat, done: seq<Byte>, n: nat)
    requires block != [] && i < len && Written(block, len, i, done) && n == if |block| < len - i then |block| else len - i
    ensures Written(block, len, i + |block|, done + block[..n])
  {
    assert block[..|block|] == block;
  }

  method Stretch(block: seq<Byte>, len: nat) returns (r: seq<Byte>)
    requires block != []
    ensures r == Repeated(block, len)
  {
    var out := new Byte[len](_ => 0);
    var i := 0;
    ghost var done := 0;
    while i < len
      invariant 0 <= done <= len == out.Length && 0 <= i && (if i < len then done == i else done == len)
      invariant Written(block, len, i, out[..done])
      decreases len - i
    {
      hide *;
      var n := if |block| < len - i then |block| else len - i;
      WritingOn(block, len, i, out[..i], n);
      Copy(block, out, i, n);
      i, done := i + |block|, i + n;
    }
    r := out[..len];
  }

  // ---- the digest -------------------------------------------------------------------------------

  /** The pieces added for the bits of the password's length, lowest bit first. */
  function LengthBits(n: nat, b: seq<Byte>, p: seq<Byte>): seq<Byte> {
    if n == 0 then [] else (if n % 2 == 1 then b else p) + LengthBits(n / 2, b, p)
  }

  /** The bits of a number, lowest first. */
  function BitsValue(bits: seq<bool>): nat {
    if bits == [] then 0 else (if bits[0] then 1 else 0) + 2 * BitsValue(bits[1..])
  }

  /** One piece after the other, `b` for a bit that is set and `p` for one that is not. */
  function Pieces(bits: seq<bool>, b: seq<Byte>, p: seq<Byte>): seq<Byte> {
    if bits == [] then [] else (if bits[0] then b else p) + Pieces(bits[1..], b, p)
  }

  /** The pieces follow the binary numeral of the length, from its lowest bit to its highest set one. */
  lemma {:induction false} LengthBitsAre(n: nat, b: seq<Byte>, p: seq<Byte>) returns (bits: seq<bool>)
    ensures BitsValue(bits) == n && (bits != [] ==> bits[|bits| - 1]) && LengthBits(n, b, p) == Pieces(bits, b, p)
  {
    if n == 0 {
      bits := [];
    } else {
      var rest := LengthBitsAre(n / 2, b, p);
      bits := [n % 2 == 1] + rest;
      assert bits[1..] == rest;
    }
  }

  /** The eight inputs there are; which one a round takes is settled by whether 2, 3 and 7 divide its number. */
  lemma RoundTable(i: nat, c: seq<Byte>, p: seq<Byte>, s: seq<Byte>)
    ensures RoundInput(i, c, p, s) == match (i % 2 == 0, i % 3 == 0, i % 7 == 0)
      case (true, true, true) => c + p
      case (true, true, false) => c + p + p
      case (true, false, true) => c + s + p
      case (true, false, false) => c + s + p + p
      case (false, true, true) => p + c
      case (false, true, false) => p + p + c
      case (false, false, true) => p + s + c
      case (false, false, false) => p + s + p + c
  {
    var front, last := if i % 2 == 1 then p else c, if i % 2 == 1 then c else p;
    assert front + [] == front && front + s + [] == front + s;
  }

  function RoundInput(i: nat, c: seq<Byte>, p: seq<Byte>, s: seq<Byte>): seq<Byte> {
    (if i % 2 == 1 then p else c)
    + (if i % 3 != 0 then s else [])
    + (if i % 7 != 0 then p else [])
    + (if i % 2 == 1 then c else p)
  }

  /** A hash function with 64-byte results stands for SHA-512. */
  ghost predicate Is512(sha: seq<Byte> -> seq<Byte>) {
    forall x :: |sha(x)| == 64
  }

  function Rounds(sha: seq<Byte> -> seq<Byte>, n: nat, c: seq<Byte>, p: seq<Byte>, s: seq<Byte>): seq<Byte> {
    if n == 0 then c else sha(RoundInput(n - 1, Rounds(sha, n - 1, c, p, s), p, s))
  }

  function FirstDigest(sha: seq<Byte> -> seq<Byte>, p: seq<Byte>, s: seq<Byte>): (r: seq<Byte>)
    requires Is512(sha)
    ensures |r| == 64
  {
    var b := sha(p + s + p);
    sha(p + s + Repeated(b, |p|) + LengthBits(|p|, b, p))
  }

  function Digest(sha: seq<Byte> -> seq<Byte>, password: string, salt: string, rounds: nat): (r: seq<Byte>)
    requires Is512(sha)
    ensures |r| == 64
  {
    var p, s := Utf8(password), Utf8(salt);
    var a := FirstDigest(sha, p, s);
    var pBytes := Repeated(sha(Times(p, |p|)), |p|);
    var extra: nat := a[0];
    var sBytes := Repeated(sha(Times(s, 16 + extra)), |s|);
    Rounds(sha, rounds, a, pBytes, sBytes)
  }

  // ---- the steps of the scheme ----------------------------------------------------------------------

  /** The bytes are those of the block, round and round. */
  ghost predicate RoundAndRound(r: seq<Byte>, block: seq<Byte>) {
    forall i :: 0 <= i < |r| ==> block != [] && r[i] == block[i % |block|]
  }

  lemma RoundAndRoundOnce(r: seq<Byte>, q: seq<Byte>, block: seq<Byte>)
    requires RoundAndRound(r, block) && RoundAndRound(q, block) && |r| == |q|
    ensures r == q
  {
  }

  lemma RepeatedIs(block: seq<Byte>, len: nat)
    requires block != []
    ensures RoundAndRound(Repeated(block, len), block)
  {
    forall i | 0 <= i < len
      ensures Repeated(block, len)[i] == block[i % |block|]
    {
      RepeatedAt(block, len, i);
    }
  }

  lemma TimesIs(block: seq<Byte>, n: nat)
    ensures |Times(block, n)| == n * |block| && RoundAndRound(Times(block, n), block)
  {
    TimesLength(block, n);
    forall i | 0 <= i < n * |block|
      ensures block != [] && Times(block, n)[i] == block[i % |block|]
    {
      NotEmpty(block, n);
      TimesAt(block, n, i);
    }
  }

  lemma NotEmpty(block: seq<Byte>, n: nat)
    requires n * |block| > 0
    ensures block != []
  {
  }

  lemma {:induction false} BitsAreOnce(bits: seq<bool>, other: seq<bool>)
    requires BitsValue(bits) == BitsValue(other)
    requires (bits != [] ==> bits[|bits| - 1]) && (other != [] ==> other[|other| - 1])
    ensures bits == other
  {
    if bits == [] {
      SetBitCounts(other);
    } else if other == [] {
      SetBitCounts(bits);
    } else {
      assert bits == [bits[0]] + bits[1..] && other == [other[0]] + other[1..];
      BitsAreOnce(bits[1..], other[1..]);
    }
  }

  lemma {:induction false} SetBitCounts(bits: seq<bool>)
    requires bits != [] ==> bits[|bits| - 1]
    ensures bits != [] ==> BitsValue(bits) > 0
  {
    if |bits| > 1 {
      SetBitCounts(bits[1..]);
    }
  }

  /** The first digest: password, salt, as many bytes of their own digest as the password has, and the pieces of its length. */
  ghost predicate IsFirstDigest(sha: seq<Byte> -> seq<Byte>, p: seq<Byte>, s: seq<Byte>, a: seq<Byte>) {
    exists b, stretched, bits: seq<bool> ::
      && b == sha(p + s + p) && |stretched| == |p| && RoundAndRound(stretched, b)
      && BitsValue(bits) == |p| && (bits != [] ==> bits[|bits| - 1]) && a == sha(p + s + stretched + Pieces(bits, b, p))
  }

  /** `r` has `len` bytes, those of the digest of `times` copies of the text, round and round. */
  ghost predicate IsSequence(sha: seq<Byte> -> seq<Byte>, text: seq<Byte>, times: nat, len: nat, r: seq<Byte>) {
    |r| == len && exists copies :: |copies| == times * |text| && RoundAndRound(copies, text) && RoundAndRound(r, sha(copies))
  }

  lemma FirstDigestIs(sha: seq<Byte> -> seq<Byte>, p: seq<Byte>, s: seq<Byte>, a: seq<Byte>)
    requires Is512(sha) && IsFirstDigest(sha, p, s, a)
    ensures a == FirstDigest(sha, p, s)
  {
    var b, stretched, bits: seq<bool> :|
      && b == sha(p + s + p) && |stretched| == |p| && RoundAndRound(stretched, b)
      && BitsValue(bits) == |p| && (bits != [] ==> bits[|bits| - 1]) && a == sha(p + s + stretched + Pieces(bits, b, p));
    RepeatedIs(b, |p|);
    RoundAndRoundOnce(stretched, Repeated(b, |p|), b);
    var own := LengthBitsAre(|p|, b, p);
    BitsAreOnce(bits, own);
  }

  lemma SequenceIs(sha: seq<Byte> -> seq<Byte>, text: seq<Byte>, times: nat, len: nat, r: seq<Byte>)
    requires Is512(sha) && IsSequence(sha, text, times, len, r)
    ensures r == Repeated(sha(Times(text, times)), len)
  {
    var copies :| |copies| == times * |text| && RoundAndRound(copies, text) && RoundAndRound(r, sha(copies));
    TimesIs(text, times);
    RoundAndRoundOnce(copies, Times(text, times), text);
    RepeatedIs(sha(copies), len);
    RoundAndRoundOnce(r, Repeated(sha(copies), len), sha(copies));
  }

  /**
   * The digest follows the steps of the scheme, said byte by byte: from the first digest `a`, the password's sequence `dp`
   * and the salt's sequence `ds`, made of sixteen and the first byte of `a` copies, the rounds lead to it.
   */
  lemma DigestFollowsTheSteps(sha: seq<Byte> -> seq<Byte>, password: string, salt: string, rounds: nat,
                              a: seq<Byte>, dp: seq<Byte>, ds: seq<Byte>)
    requires Is512(sha) && IsFirstDigest(sha, Utf8(password), Utf8(salt), a) && |a| == 64
    requires IsSequence(sha, Utf8(password), |Utf8(password)|, |Utf8(password)|, dp)
    requires IsSequence(sha, Utf8(salt), 16 + a[0] as nat, |Utf8(salt)|, ds)
    ensures Digest(sha, password, salt, rounds) == Rounds(sha, rounds, a, dp, ds)
  {
    var p, s := Utf8(password), Utf8(salt);
    hide Utf8, Rounds, IsFirstDigest, IsSequence;
    FirstDigestIs(sha, p, s, a);
    SequenceIs(sha, p, |p|, |p|, dp);
    SequenceIs(sha, s, 16 + a[0] as nat, |s|, ds);
  }

  // ---- printing the digest ------------------------------------------------------------------------

  function Letter(n: nat): char
    requires n < 64
  {
    if n == 0 then '.' else if n == 1 then '/'
    else if n < 12 then ('0' as int + (n - 2)) as char
    else if n < 38 then ('A' as int + (n - 12)) as char
    else ('a' as int + (n - 38)) as char
  }

  /** The letters stand in the alphabet's order: dot, slash, digits, capital and small letters. */
  lemma LetterIs(n: nat)
    requires n < 64
    ensures Letter(n) == if n < 2 then "./"[n] else if n < 12 then "0123456789"[n - 2]
                         else if n < 38 then "ABCDEFGHIJKLMNOPQRSTUVWXYZ"[n - 12] else "abcdefghijklmnopqrstuvwxyz"[n - 38]
  {
  }

  predicate IsLetter(c: char) {
    c == '.' || c == '/' || '0' <= c <= '9' || 'A' <= c <= 'Z' || 'a' <= c <= 'z'
  }

  function LetterValue(c: char): (r: nat)
    ensures r < 64
  {
    if c == '.' then 0 else if c == '/' then 1
    else if '0' <= c <= '9' then c as int - '0' as int + 2
    else if 'A' <= c <= 'Z' then c as int - 'A' as int + 12
    else if 'a' <= c <= 'z' then c as int - 'a' as int + 38
    else 0
  }

  lemma LetterRoundTrip(n: nat)
    requires n < 64
    ensures LetterValue(Letter(n)) == n && IsLetter(Letter(n))
  {
  }

  /** The low 6·`chars` bits of `w`, lowest first. */
  function Base64(w: nat, chars: nat): (r: string)
    ensures |r| == chars
  {
    if chars == 0 then "" else [Letter(w % 64)] + Base64(w / 64, chars - 1)
  }

  function Base64Value(s: string): nat {
    if s == "" then 0 else LetterValue(s[0]) + 64 * Base64Value(s[1..])
  }

  function Power64(n: nat): nat {
    if n == 0 then 1 else 64 * Power64(n - 1)
  }

  lemma {:induction false} Base64RoundTrip(w: nat, chars: nat)
    requires w < Power64(chars)
    ensures Base64Value(Base64(w, chars)) == w
    ensures forall i :: 0 <= i < chars ==> IsLetter(Base64(w, chars)[i])
  {
    if chars > 0 {
      LetterRoundTrip(w % 64);
      Base64RoundTrip(w / 64, chars - 1);
      assert Base64(w, chars)[1..] == Base64(w / 64, chars - 1);
    }
  }

  const ORDER: seq<(nat, nat, nat)> := [
    (0, 21, 42), (22, 43, 1), (44, 2, 23), (3, 24, 45), (25, 46, 4), (47, 5, 26), (6, 27, 48),
    (28, 49, 7), (50, 8, 29), (9, 30, 51), (31, 52, 10), (53, 11, 32), (12, 33, 54), (34, 55, 13),
    (56, 14, 35), (15, 36, 57), (37, 58, 16), (59, 17, 38), (18, 39, 60), (40, 61, 19), (62, 20, 41)]

  /** Group `g` holds bytes g, g + 21 and g + 42, rotated. */
  function Rotated(g: nat): (nat, nat, nat) {
    if g % 3 == 0 then (g, g + 21, g + 42) else if g % 3 == 1 then (g + 21, g + 42, g) else (g + 42, g, g + 21)
  }

  lemma OrderIsRotated(g: nat)
    requires g < 21
    ensures ORDER[g] == Rotated(g)
  {
  }

  function Word(b2: Byte, b1: Byte, b0: Byte): nat {
    b2 * 65536 + b1 * 256 + b0
  }

  function Group(c: seq<Byte>, g: nat): string
    requires |c| == 64 && g < 21
  {
    OrderIsRotated(g);
    Base64(Word(c[ORDER[g].0], c[ORDER[g].1], c[ORDER[g].2]), 4)
  }

  /** The first `n` groups. */
  function Groups(c: seq<Byte>, n: nat): (r: string)
    requires |c| == 64 && n <= 21
    ensures |r| == 4 * n
  {
    if n == 0 then "" else Groups(c, n - 1) + Group(c, n - 1)
  }

  function EncodeDigest(c: seq<Byte>): (r: string)
    requires |c| == 64
    ensures |r| == 86
  {
    Groups(c, 21) + Base64(c[63], 2)
  }

  /** The byte at index `i`, read back from the printed text. */
  function DecodedByte(text: string, i: nat): nat
    requires |text| == 86 && i < 64
  {
    if i == 63 then Base64Value(text[84..]) else
    var g, column := i % 21, i / 21;
    var w := Base64Value(text[4 * g..4 * g + 4]);
    var place := (column + 3 - g % 3) % 3;
    if place == 0 then w / 65536 else if place == 1 then w / 256 % 256 else w % 256
  }

  lemma {:induction false} GroupsHold(c: seq<Byte>, n: nat, g: nat)
    requires |c| == 64 && g < n <= 21
    ensures Groups(c, n)[4 * g..4 * g + 4] == Group(c, g)
  {
    hide Group;
    if g < n - 1 {
      GroupsHold(c, n - 1, g);
      assert Groups(c, n)[4 * g..4 * g + 4] == Groups(c, n - 1)[4 * g..4 * g + 4];
    }
  }

  lemma WordParts(b2: Byte, b1: Byte, b0: Byte)
    ensures Word(b2, b1, b0) < Power64(4)
    ensures Word(b2, b1, b0) / 65536 == b2
    ensures Word(b2, b1, b0) / 256 % 256 == b1
    ensures Word(b2, b1, b0) % 256 == b0
  {
    assert Power64(4) == 16777216;
    assert Word(b2, b1, b0) / 256 == b2 * 256 + b1;
  }

  /** Which of the three bytes of its group byte `i` is. */
  lemma PlaceInGroup(i: nat)
    requires i < 63
    ensures var g, place := i % 21, (i / 21 + 3 - i % 21 % 3) % 3;
      i == if place == 0 then Rotated(g).0 else if place == 1 then Rotated(g).1 else Rotated(g).2
  {
  }

  /** Every byte can be read back from the printed digest. */
  lemma DigestRoundTrip(c: seq<Byte>, i: nat)
    requires |c| == 64 && i < 64
    ensures DecodedByte(EncodeDigest(c), i) == c[i]
  {
    hide Base64, Base64Value, Groups, Word, Power64;
    if i == 63 {
      assert EncodeDigest(c)[84..] == Base64(c[63], 2);
      OneByteFits(c[63]);
      Base64RoundTrip(c[63], 2);
    } else {
      var g := i % 21;
      GroupIsPrinted(c, g);
      OrderIsRotated(g);
      PlaceInGroup(i);
      hide EncodeDigest, Rotated;
      var (x, y, z) := Rotated(g);
      WordParts(c[x], c[y], c[z]);
      Base64RoundTrip(Word(c[x], c[y], c[z]), 4);
    }
  }

  lemma GroupIsPrinted(c: seq<Byte>, g: nat)
    requires |c| == 64 && g < 21
    ensures EncodeDigest(c)[4 * g..4 * g + 4] == Group(c, g)
  {
    GroupsHold(c, 21, g);
    hide Group, Groups, Base64;
  }

  lemma OneByteFits(b: Byte)
    ensures b < Power64(2)
  {
    assert Power64(2) == 4096;
  }

  /** Different digests print differently. */
  lemma EncodeInjective(c: seq<Byte>, d: seq<Byte>)
    requires |c| == 64 && |d| == 64 && EncodeDigest(c) == EncodeDigest(d)
    ensures c == d
  {
    forall i | 0 <= i < 64
      ensures c[i] == d[i]
    {
      DigestRoundTrip(c, i);
      DigestRoundTrip(d, i);
    }
  }

  lemma {:induction false} GroupsAreLetters(c: seq<Byte>, n: nat, i: nat)
    requires |c| == 64 && n <= 21 && i < 4 * n
    ensures IsLetter(Groups(c, n)[i])
  {
    if i < 4 * (n - 1) {
      GroupsAreLetters(c, n - 1, i);
    } else {
      OrderIsRotated(n - 1);
      var (x, y, z) := Rotated(n - 1);
      WordParts(c[x], c[y], c[z]);
      Base64RoundTrip(Word(c[x], c[y], c[z]), 4);
      assert Groups(c, n)[i] == Group(c, n - 1)[i - 4 * (n - 1)];
    }
  }

  /** The printed digest is 86 letters of the alphabet. */
  lemma EncodedIsLetters(c: seq<Byte>, i: nat)
    requires |c| == 64 && i < 86
    ensures IsLetter(EncodeDigest(c)[i])
  {
    if i < 84 {
      GroupsAreLetters(c, 21, i);
    } else {
      OneByteFits(c[63]);
      Base64RoundTrip(c[63], 2);
    }
  }

  // ---- hashing a password ---------------------------------------------------------------------------

  const DEFAULT_ROUNDS := 5000
  const MIN_ROUNDS := 1000
  const MAX_ROUNDS := 999_999_999

  function Prefix(rounds: Option<nat>): string {
    "$6$" + if rounds.None? then "" else "rounds=" + Decimal(rounds.value) + "$"
  }

  function RoundCount(rounds: Option<nat>): nat {
    if rounds.None? then DEFAULT_ROUNDS else rounds.value
  }

  /** The stored form of a password. */
  function Crypted(sha: seq<Byte> -> seq<Byte>, password: string, salt: string, rounds: Option<nat>): string
    requires Is512(sha)
  {
    Prefix(rounds) + salt + "$" + EncodeDigest(Digest(sha, password, salt, RoundCount(rounds)))
  }

  method ShaOfBits(sha: seq<Byte> -> seq<Byte>, p: seq<Byte>, s: seq<Byte>) returns (c: seq<Byte>)
    requires Is512(sha)
    ensures c == FirstDigest(sha, p, s)
  {
    var b := sha(p + s + p);
    var stretched := Stretch(b, |p|);
    var input := p + s + stretched;
    ghost var start := input;
    var n: nat := |p|;
    while n > 0
      invariant input + LengthBits(n, b, p) == start + LengthBits(|p|, b, p)
      decreases n
    {
      var piece := if n % 2 == 1 then b else p;
      assert input + (piece + LengthBits(n / 2, b, p)) == (input + piece) + LengthBits(n / 2, b, p);
      input := input + piece;
      n := n / 2;
    }
    assert input + LengthBits(0, b, p) == input;
    c := sha(input);
  }

  method RunRounds(sha: seq<Byte> -> seq<Byte>, first: seq<Byte>, p: seq<Byte>, s: seq<Byte>, rounds: nat) returns (c: seq<Byte>)
    ensures c == Rounds(sha, rounds, first, p, s)
  {
    c := first;
    for i := 0 to rounds
      invariant c == Rounds(sha, i, first, p, s)
    {
      var front, last := if i % 2 == 1 then p else c, if i % 2 == 1 then c else p;
      var input := front;
      if i % 3 != 0 {
        input := input + s;
      }
      assert input == front + if i % 3 != 0 then s else [];
      if i % 7 != 0 {
        input := input + p;
      }
      assert input == front + (if i % 3 != 0 then s else []) + if i % 7 != 0 then p else [];
      c := sha(input + last);
    }
  }

  method PrintBase64(value: nat, chars: nat) returns (out: string)
    ensures out == Base64(value, chars)
  {
    out := "";
    var w := value;
    for i := 0 to chars
      invariant out + Base64(w, chars - i) == Base64(value, chars)
    {
      assert out + ([Letter(w % 64)] + Base64(w / 64, chars - i - 1)) == (out + [Letter(w % 64)]) + Base64(w / 64, chars - i - 1);
      out := out + [Letter(w % 64)];
      w := w / 64;
    }
    assert out + Base64(w, 0) == out;
  }

  method PrintDigest(c: seq<Byte>) returns (out: string)
    requires |c| == 64
    ensures out == EncodeDigest(c)
  {
    out := "";
    for g := 0 to |ORDER|
      invariant out == Groups(c, g)
    {
      OrderIsRotated(g);
      var group := PrintBase64(Word(c[ORDER[g].0], c[ORDER[g].1], c[ORDER[g].2]), 4);
      out := out + group;
    }
    var last := PrintBase64(c[63], 2);
    out := out + last;
  }

  method Sha512CryptText(sha: seq<Byte> -> seq<Byte>, password: string, salt: string, rounds: Option<nat>) returns (text: string)
    requires Is512(sha)
    ensures text == Crypted(sha, password, salt, rounds)
  {
    var p, s := Utf8(password), Utf8(salt);
    var c := ShaOfBits(sha, p, s);
    var pBytes := Stretch(sha(Times(p, |p|)), |p|);
    var extra: nat := c[0];
    var sBytes := Stretch(sha(Times(s, 16 + extra)), |s|);
    c := RunRounds(sha, c, pBytes, sBytes, RoundCount(rounds));
    assert c == Digest(sha, password, salt, RoundCount(rounds));
    hide Digest, EncodeDigest;
    var out := PrintDigest(c);
    text := Prefix(rounds) + salt + "$" + out;
  }

  // ---- checking a password ----------------------------------------------------------------------------

  /** Whether `t` is a salt, a dollar sign and 86 letters; the salt. */
  function SaltOf(t: string): (salt: Option<string>) {
    if |t| < 87 || t[|t| - 87] != '$' || |t| - 87 > 16 then None
    else if '$' in t[..|t| - 87] || exists i :: |t| - 86 <= i < |t| && !IsLetter(t[i]) then None
    else Some(t[..|t| - 87])
  }

  /** A leading "rounds=N$": its digits and what follows. */
  function RoundsOf(t: string): (r: Option<(string, string)>)
    ensures r.Some? ==> AllDigits(r.value.0) && r.value.0 != ""
  {
    if |t| < 7 || t[..7] != "rounds=" then None else
    var n := LeadingDigits(t[7..]);
    assert t[7..][..n] == t[7..7 + n];
    if n == 0 || 7 + n >= |t| || t[7 + n] != '$' then None else Some((t[7..7 + n], t[8 + n..]))
  }

  /** The digits of the rounds part, if there is one, and the salt of a stored hash of this form. */
  function Parsed(stored: string): (r: Option<(Option<string>, string)>)
    ensures r.Some? && r.value.0.Some? ==> AllDigits(r.value.0.value)
  {
    if |stored| < 3 || stored[..3] != "$6$" then None else
    var rest := stored[3..];
    var rounds := RoundsOf(rest);
    if rounds.Some? && SaltOf(rounds.value.1).Some? then Some((Some(rounds.value.0), SaltOf(rounds.value.1).value))
    else if SaltOf(rest).Some? then Some((None, SaltOf(rest).value))
    else None
  }

  function Clamp(n: nat): nat {
    if n < MIN_ROUNDS then MIN_ROUNDS else if n > MAX_ROUNDS then MAX_ROUNDS else n
  }

  method VerifySha512Crypt(sha: seq<Byte> -> seq<Byte>, password: string, stored: string) returns (ok: bool)
    requires Is512(sha)
    ensures ok <==> Verifies(sha, password, stored)
  {
    var m := Parsed(stored);
    if m.None? {
      return false;
    }
    var rounds := if m.value.0.None? then None else Some(Clamp(DigitsValue(m.value.0.value)));
    var actual := Sha512CryptText(sha, password, m.value.1, rounds);
    ok := actual == stored;
  }

  predicate Verifies(sha: seq<Byte> -> seq<Byte>, password: string, stored: string)
    requires Is512(sha)
  {
    var m := Parsed(stored);
    m.Some? &&
    var rounds := if m.value.0.None? then None else Some(Clamp(DigitsValue(m.value.0.value)));
    Crypted(sha, password, m.value.1, rounds) == stored
  }

  // ---- printing and parsing agree ----------------------------------------------------------------------

  predicate GoodSalt(salt: string) {
    |salt| <= 16 && '$' !in salt
  }

  predicate GoodRounds(rounds: Option<nat>) {
    rounds.None? || MIN_ROUNDS <= rounds.value <= MAX_ROUNDS
  }

  lemma SaltFound(salt: string, text: string)
    requires GoodSalt(salt) && |text| == 86 && forall i :: 0 <= i < 86 ==> IsLetter(text[i])
    ensures SaltOf(salt + "$" + text) == Some(salt)
  {
    var t := salt + "$" + text;
    assert t[..|t| - 87] == salt;
    forall i | |t| - 86 <= i < |t|
      ensures IsLetter(t[i])
    {
      assert t[i] == text[i - (|t| - 86)];
    }
  }

  lemma {:induction false} LeadingDigitsOf(d: string, t: string)
    requires AllDigits(d) && (t == "" || !IsDigit(t[0]))
    ensures LeadingDigits(d + t) == |d|
  {
    if d == "" {
      assert d + t == t;
    } else {
      LeadingDigitsOf(d[1..], t);
      assert (d + t)[1..] == d[1..] + t;
    }
  }

  lemma RoundsFound(digits: string, rest: string)
    requires AllDigits(digits) && digits != ""
    ensures RoundsOf("rounds=" + digits + "$" + rest) == Some((digits, rest))
  {
    var t := "rounds=" + digits + "$" + rest;
    var tail := "$" + rest;
    assert t[7..] == digits + tail;
    LeadingDigitsOf(digits, tail);
    assert t[7..7 + |digits|] == digits && t[8 + |digits|..] == rest;
  }

  /** Without a rounds part nothing before the digest can be taken for one. */
  lemma NoRoundsMistaken(salt: string, text: string)
    requires GoodSalt(salt) && |text| == 86 && forall i :: 0 <= i < 86 ==> IsLetter(text[i])
    ensures var r := RoundsOf(salt + "$" + text); r.None? || SaltOf(r.value.1).None?
  {
    var t := salt + "$" + text;
    var r := RoundsOf(t);
    if r.Some? {
      var n := LeadingDigits(t[7..]);
      assert t[7 + n] == '$';
      assert forall i :: |salt| < i < |t| ==> IsLetter(t[i]);
      assert forall i :: 0 <= i < |salt| ==> t[i] == salt[i];
      assert 7 + n == |salt|;
      assert r.value.1 == text;
    }
  }

  /** A stored hash is read back as the rounds and salt it was made with. */
  lemma ParsePrinted(salt: string, rounds: Option<nat>, text: string)
    requires GoodSalt(salt) && |text| == 86 && forall i :: 0 <= i < 86 ==> IsLetter(text[i])
    ensures Parsed(Prefix(rounds) + salt + "$" + text)
         == Some((if rounds.None? then None else Some(Decimal(rounds.value)), salt))
  {
    hide RoundsOf, SaltOf;
    var stored := Prefix(rounds) + salt + "$" + text;
    SaltFound(salt, text);
    if rounds.None? {
      assert stored[3..] == salt + "$" + text;
      NoRoundsMistaken(salt, text);
    } else {
      var rest := salt + "$" + text;
      assert stored[3..] == "rounds=" + Decimal(rounds.value) + "$" + rest;
      RoundsFound(Decimal(rounds.value), rest);
    }
  }

  /**
   * A hash made for a salt of at most 16 characters without dollar sign verifies a password exactly when the password's
   * digest is the stored one: in particular the password it was made for.
   */
  lemma VerifiesIffSameDigest(sha: seq<Byte> -> seq<Byte>, password: string, other: string, salt: string, rounds: Option<nat>)
    requires Is512(sha) && GoodSalt(salt) && GoodRounds(rounds)
    ensures Verifies(sha, other, Crypted(sha, password, salt, rounds))
       <==> Digest(sha, other, salt, RoundCount(rounds)) == Digest(sha, password, salt, RoundCount(rounds))
  {
    hide Digest, EncodeDigest, Parsed;
    var c, d := Digest(sha, password, salt, RoundCount(rounds)), Digest(sha, other, salt, RoundCount(rounds));
    forall i | 0 <= i < 86
      ensures IsLetter(EncodeDigest(c)[i])
    {
      EncodedIsLetters(c, i);
    }
    ParsePrinted(salt, rounds, EncodeDigest(c));
    if rounds.Some? {
      DecimalRoundTrip(rounds.value);
    }
    var head := Prefix(rounds) + salt + "$";
    if head + EncodeDigest(d) == head + EncodeDigest(c) {
      assert EncodeDigest(d) == (head + EncodeDigest(d))[|head|..];
      assert EncodeDigest(c) == (head + EncodeDigest(c))[|head|..];
      EncodeInjective(d, c);
    }
  }

  /** A stored hash whose rounds are written any other way than in plain decimal within the limits is never accepted. */
  lemma OddRoundsNeverVerify(sha: seq<Byte> -> seq<Byte>, password: string, stored: string)
    requires Is512(sha) && Verifies(sha, password, stored) && Parsed(stored).value.0.Some?
    ensures var digits := Parsed(stored).value.0.value;
      exists n :: MIN_ROUNDS <= n <= MAX_ROUNDS && digits == Decimal(n)
  {
    hide Digest, EncodeDigest, Parsed;
    var (digits, salt) := Parsed(stored).value;
    var n := Clamp(DigitsValue(digits.value));
    var c := Digest(sha, password, salt, n);
    forall i | 0 <= i < 86
      ensures IsLetter(EncodeDigest(c)[i])
    {
      EncodedIsLetters(c, i);
    }
    ParsedSaltIsGood(stored);
    ParsePrinted(salt, Some(n), EncodeDigest(c));
  }

  lemma ParsedSaltIsGood(stored: string)
    requires Parsed(stored).Some?
    ensures GoodSalt(Parsed(stored).value.1)
  {
    hide RoundsOf;
  }
}
