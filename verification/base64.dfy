/**
 * `base64.urlsafe_b64encode(b).decode("ascii").rstrip("=")`: the base64
 * encoding with the URL- and filename-safe alphabet of section 5 of
 * RFC 4648, with its `=` padding removed, as wheel RECORD files write
 * digests.
 */
module Base64 {

  import opened Wrappers

  type Byte = x: int | 0 <= x < 256

  /** A 6-bit value as the url-safe alphabet writes it: `A`-`Z`, `a`-`z`, `0`-`9`, `-`, `_`. */
  function Sym(v: int): (c: char)
    requires 0 <= v < 64
  {
    if v < 26 then ('A' as int + v) as char
    else if v < 52 then ('a' as int + (v - 26)) as char
    else if v < 62 then ('0' as int + (v - 52)) as char
    else if v == 62 then '-'
    else '_'
  }

  predicate IsSym(c: char) {
    ('A' <= c <= 'Z') || ('a' <= c <= 'z') || ('0' <= c <= '9') || c == '-' || c == '_'
  }

  /** The 6-bit value of an alphabet character. */
  function Val(c: char): (v: int)
    requires IsSym(c)
    ensures 0 <= v < 64
  {
    if 'A' <= c <= 'Z' then c as int - 'A' as int
    else if 'a' <= c <= 'z' then c as int - 'a' as int + 26
    else if '0' <= c <= '9' then c as int - '0' as int + 52
    else if c == '-' then 62
    else 63
  }

  /** Every 6-bit value has its own character, and it is never the padding character. */
  lemma SymVal(v: int)
    requires 0 <= v < 64
    ensures IsSym(Sym(v)) && Val(Sym(v)) == v && Sym(v) != '='
  {
  }

  /** Three bytes as four characters. */
  function Quad(b0: Byte, b1: Byte, b2: Byte): string {
    [Sym(b0 / 4), Sym((b0 % 4) * 16 + b1 / 16), Sym((b1 % 16) * 4 + b2 / 64), Sym(b2 % 64)]
  }

  /** A final pair of bytes as three characters. */
  function Triple(b0: Byte, b1: Byte): string {
    [Sym(b0 / 4), Sym((b0 % 4) * 16 + b1 / 16), Sym((b1 % 16) * 4)]
  }

  /** A final single byte as two characters. */
  function Pair(b0: Byte): string {
    [Sym(b0 / 4), Sym((b0 % 4) * 16)]
  }

  /** The characters that stand for the data, without padding. */
  function Digits(b: seq<Byte>): (s: string)
    decreases |b|
  {
    if |b| >= 3 then Quad(b[0], b[1], b[2]) + Digits(b[3..])
    else if |b| == 2 then Triple(b[0], b[1])
    else if |b| == 1 then Pair(b[0])
    else []
  }

  /** The `=` characters that pad the digits of `n` bytes to a multiple of four characters. */
  function Padding(n: nat): string {
    if n % 3 == 1 then "==" else if n % 3 == 2 then "=" else ""
  }

  /** `base64.urlsafe_b64encode`: the digits, padded with `=` to a multiple of four characters. */
  function Encode(b: seq<Byte>): string {
    Digits(b) + Padding(|b|)
  }

  /** `s.rstrip(c)` for one character `c`. */
  function StripEnd(s: string, c: char): (r: string)
    ensures r == [] || r[|r| - 1] != c
  {
    if s != [] && s[|s| - 1] == c then StripEnd(s[..|s| - 1], c) else s
  }

  /** `_b64`: the url-safe encoding with the padding stripped. */
  function UrlB64(b: seq<Byte>): (s: string)
    ensures s == Digits(b) && |s| == (4 * |b| + 2) / 3
    ensures forall i :: 0 <= i < |s| ==> IsSym(s[i]) && s[i] != '='
  {
    DigitsAlphabet(b);
    DigitsLength(b);
    StripEndPadding(Digits(b), Padding(|b|), '=');
    StripEnd(Encode(b), '=')
  }

  /** Every digit is an alphabet character. */
  lemma {:induction false} DigitsAlphabet(b: seq<Byte>)
    ensures forall i :: 0 <= i < |Digits(b)| ==> IsSym(Digits(b)[i])
    decreases |b|
  {
    if |b| >= 3 {
      DigitsAlphabet(b[3..]);
      SymVal(b[0] / 4);
      SymVal((b[0] % 4) * 16 + b[1] / 16);
      SymVal((b[1] % 16) * 4 + b[2] / 64);
      SymVal(b[2] % 64);
    } else if |b| == 2 {
      SymVal(b[0] / 4);
      SymVal((b[0] % 4) * 16 + b[1] / 16);
      SymVal((b[1] % 16) * 4);
    } else if |b| == 1 {
      SymVal(b[0] / 4);
      SymVal((b[0] % 4) * 16);
    }
  }

  /** Four characters per full group, then two or three for one or two leftover bytes: ⌈4n/3⌉ in all. */
  lemma {:induction false} DigitsLength(b: seq<Byte>)
    ensures |Digits(b)| == (4 * |b| + 2) / 3
    decreases |b|
  {
    if |b| >= 3 {
      DigitsLength(b[3..]);
    }
  }

  /** The padded encoding is a whole number of four-character groups. */
  lemma EncodeLength(b: seq<Byte>)
    ensures |Encode(b)| % 4 == 0
  {
    DigitsLength(b);
    PaddedLength(|b|);
  }

  /** ⌈4n/3⌉ digits and the padding of `n` bytes make a whole number of four-character groups. */
  lemma PaddedLength(n: nat)
    ensures ((4 * n + 2) / 3 + |Padding(n)|) % 4 == 0
  {
    var q, r := n / 3, n % 3;
    if r == 0 {
      DivThree(4 * n + 2, 4 * q, 2);
      FourTimes(q);
    } else if r == 1 {
      DivThree(4 * n + 2, 4 * q + 2, 0);
      FourTimes(q + 1);
    } else {
      DivThree(4 * n + 2, 4 * q + 3, 1);
      FourTimes(q + 1);
    }
  }

  lemma DivThree(x: int, a: int, c: int)
    requires x == 3 * a + c && 0 <= c < 3
    ensures x / 3 == a
  {
  }

  lemma FourTimes(k: nat)
    ensures (4 * k) % 4 == 0
  {
  }

  /** Stripping `c` from text that does not end in `c`, followed by `c`s, leaves the text. */
  lemma {:induction false} StripEndPadding(x: string, pad: string, c: char)
    requires x == [] || x[|x| - 1] != c
    requires forall i :: 0 <= i < |pad| ==> pad[i] == c
    ensures StripEnd(x + pad, c) == x
    decreases |pad|
  {
    if pad == [] {
      assert x + pad == x;
    } else {
      assert (x + pad)[..|x + pad| - 1] == x + pad[..|pad| - 1];
      StripEndPadding(x, pad[..|pad| - 1], c);
    }
  }
  /** A SHA-256 digest, 32 bytes, is written with 43 characters. */
  lemma DigestLength(b: seq<Byte>)
    requires |b| == 32
    ensures |UrlB64(b)| == 43
  {
  }

  /** The first (up to) four characters are alphabet characters. */
  predicate GroupOk(s: string)
    requires |s| >= 2
  {
    IsSym(s[0]) && IsSym(s[1]) && (|s| < 3 || IsSym(s[2])) && (|s| < 4 || IsSym(s[3]))
  }

  /** Reading unpadded url-safe base64 back into bytes; `None` for a stray character or a dangling one. */
  function Decode(s: string): (r: Option<seq<Byte>>)
    decreases |s|
  {
    if s == [] then Some([])
    else if |s| == 1 then None
    else if !GroupOk(s) then None
    else if |s| == 2 then
      Some([Val(s[0]) * 4 + Val(s[1]) / 16])
    else if |s| == 3 then
      Some([Val(s[0]) * 4 + Val(s[1]) / 16, (Val(s[1]) % 16) * 16 + Val(s[2]) / 4])
    else
      var rest := Decode(s[4..]);
      if rest.None? then None
      else Some([Val(s[0]) * 4 + Val(s[1]) / 16, (Val(s[1]) % 16) * 16 + Val(s[2]) / 4, (Val(s[2]) % 4) * 64 + Val(s[3])] + rest.value)
  }

  lemma Split16(x: int, y: int)
    requires x >= 0 && 0 <= y < 16
    ensures (x * 16 + y) / 16 == x && (x * 16 + y) % 16 == y
  {
  }

  lemma Split4(x: int, y: int)
    requires x >= 0 && 0 <= y < 4
    ensures (x * 4 + y) / 4 == x && (x * 4 + y) % 4 == y
  {
  }

  /** How the two characters straddling the first and second byte share their bits. */
  lemma FirstBits(b0: Byte, b1: Byte)
    ensures (b0 / 4) * 4 + ((b0 % 4) * 16 + b1 / 16) / 16 == b0
    ensures ((b0 % 4) * 16 + b1 / 16) % 16 == b1 / 16
  {
    Split16(b0 % 4, b1 / 16);
  }

  /** How the two characters straddling the second and third byte share their bits. */
  lemma SecondBits(b1: Byte, b2: Byte)
    ensures (b1 / 16) * 16 + ((b1 % 16) * 4 + b2 / 64) / 4 == b1
    ensures ((b1 % 16) * 4 + b2 / 64) % 4 == b2 / 64
  {
    Split4(b1 % 16, b2 / 64);
  }

  lemma QuadBack(b0: Byte, b1: Byte, b2: Byte)
    ensures var q := Quad(b0, b1, b2);
      && IsSym(q[0]) && IsSym(q[1]) && IsSym(q[2]) && IsSym(q[3])
      && Val(q[0]) * 4 + Val(q[1]) / 16 == b0
      && (Val(q[1]) % 16) * 16 + Val(q[2]) / 4 == b1
      && (Val(q[2]) % 4) * 64 + Val(q[3]) == b2
  {
    var v0, v1, v2, v3 := b0 / 4, (b0 % 4) * 16 + b1 / 16, (b1 % 16) * 4 + b2 / 64, b2 % 64;
    SymVal(v0);
    SymVal(v1);
    SymVal(v2);
    SymVal(v3);
    FirstBits(b0, b1);
    SecondBits(b1, b2);
  }

  lemma TripleBack(b0: Byte, b1: Byte)
    ensures var t := Triple(b0, b1);
      && IsSym(t[0]) && IsSym(t[1]) && IsSym(t[2])
      && Val(t[0]) * 4 + Val(t[1]) / 16 == b0
      && (Val(t[1]) % 16) * 16 + Val(t[2]) / 4 == b1
  {
    SymVal(b0 / 4);
    SymVal((b0 % 4) * 16 + b1 / 16);
    SymVal((b1 % 16) * 4);
    FirstBits(b0, b1);
    SecondBits(b1, 0);
  }

  lemma PairBack(b0: Byte)
    ensures var p := Pair(b0);
      && IsSym(p[0]) && IsSym(p[1])
      && Val(p[0]) * 4 + Val(p[1]) / 16 == b0
  {
    SymVal(b0 / 4);
    SymVal((b0 % 4) * 16);
    FirstBits(b0, 0);
  }

  lemma DecodePair(b0: Byte)
    ensures Decode(Pair(b0)) == Some([b0])
  {
    PairBack(b0);
  }

  lemma DecodeTriple(b0: Byte, b1: Byte)
    ensures Decode(Triple(b0, b1)) == Some([b0, b1])
  {
    TripleBack(b0, b1);
  }

  lemma DecodeQuad(b0: Byte, b1: Byte, b2: Byte, rest: string, tail: seq<Byte>)
    requires Decode(rest) == Some(tail)
    ensures Decode(Quad(b0, b1, b2) + rest) == Some([b0, b1, b2] + tail)
  {
    var s := Quad(b0, b1, b2) + rest;
    QuadBack(b0, b1, b2);
    assert s[4..] == rest;
    assert s[..4] == Quad(b0, b1, b2);
  }

  /** Decoding the digits gives the bytes back. */
  lemma {:induction false} DecodeDigits(b: seq<Byte>)
    ensures Decode(Digits(b)) == Some(b)
    decreases |b|
  {
    if |b| >= 3 {
      DecodeDigits(b[3..]);
      DecodeQuad(b[0], b[1], b[2], Digits(b[3..]), b[3..]);
      assert b == [b[0], b[1], b[2]] + b[3..];
    } else if |b| == 2 {
      DecodeTriple(b[0], b[1]);
      assert b == [b[0], b[1]];
    } else if |b| == 1 {
      DecodePair(b[0]);
      assert b == [b[0]];
    }
  }

  /** `_b64` loses nothing: the digest can be read back from its RECORD text. */
  lemma UrlB64RoundTrip(b: seq<Byte>)
    ensures Decode(UrlB64(b)) == Some(b)
  {
    DecodeDigits(b);
  }
}
