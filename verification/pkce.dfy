/**
 * The base64url encoding of section 5 of RFC 4648 ("URL and Filename safe"
 * alphabet), as produced by Python's `base64.urlsafe_b64encode`, together with
 * the unpadded form that section 3.2 of RFC 4648 allows and an independent
 * decoder that serves as its inverse.
 */
module Base64Url {
  import opened Common

  type Byte = x: int | 0 <= x < 256
  type Sextet = x: int | 0 <= x < 64

  const Pad: char := '='

  /** The character that encodes a 6-bit group (Table 2 of RFC 4648). */
  function CharOf(v: Sextet): char {
    if v < 26 then ('A' as int + v) as char
    else if v < 52 then ('a' as int + (v - 26)) as char
    else if v < 62 then ('0' as int + (v - 52)) as char
    else if v == 62 then '-'
    else '_'
  }

  /** The 6-bit group a character of the alphabet stands for. */
  function ValueOf(c: char): Option<Sextet> {
    if 'A' <= c <= 'Z' then Some(c as int - 'A' as int)
    else if 'a' <= c <= 'z' then Some(c as int - 'a' as int + 26)
    else if '0' <= c <= '9' then Some(c as int - '0' as int + 52)
    else if c == '-' then Some(62)
    else if c == '_' then Some(63)
    else None
  }

  lemma ValueOfCharOf(v: Sextet)
    ensures ValueOf(CharOf(v)) == Some(v)
    ensures CharOf(v) != Pad
  {
  }

  /** Four characters for three bytes. */
  function Quad(b0: Byte, b1: Byte, b2: Byte): string {
    [CharOf(b0 / 4), CharOf((b0 % 4) * 16 + b1 / 16), CharOf((b1 % 16) * 4 + b2 / 64), CharOf(b2 % 64)]
  }

  /** Three characters for a final group of two bytes. */
  function Triple(b0: Byte, b1: Byte): string {
    [CharOf(b0 / 4), CharOf((b0 % 4) * 16 + b1 / 16), CharOf((b1 % 16) * 4)]
  }

  /** Two characters for a final single byte. */
  function Pair(b0: Byte): string {
    [CharOf(b0 / 4), CharOf((b0 % 4) * 16)]
  }

  /** `urlsafe_b64encode(b)`: the padded encoding, a multiple of four characters. */
  function Encode(b: seq<Byte>): string
    decreases |b|
  {
    if |b| == 0 then ""
    else if |b| == 1 then Pair(b[0]) + [Pad, Pad]
    else if |b| == 2 then Triple(b[0], b[1]) + [Pad]
    else Quad(b[0], b[1], b[2]) + Encode(b[3..])
  }

  /** The encoding with the padding left off (section 3.2 of RFC 4648). */
  function EncodeUnpadded(b: seq<Byte>): (s: string)
    ensures |s| == (4 * |b| + 2) / 3
    ensures Pad !in s
    decreases |b|
  {
    if |b| == 0 then ""
    else if |b| == 1 then Pair(b[0])
    else if |b| == 2 then Triple(b[0], b[1])
    else Quad(b[0], b[1], b[2]) + EncodeUnpadded(b[3..])
  }

  /** Number of `=` characters the padded encoding appends. */
  function PaddingLength(n: nat): nat {
    if n % 3 == 0 then 0 else 3 - n % 3
  }

  /** One step of both encoders on a full three-byte group. */
  lemma EncodeStep(b: seq<Byte>)
    requires |b| >= 3
    ensures Encode(b) == Quad(b[0], b[1], b[2]) + Encode(b[3..])
    ensures EncodeUnpadded(b) == Quad(b[0], b[1], b[2]) + EncodeUnpadded(b[3..])
  {
  }

  /** The padded encoding is the unpadded one followed by its padding run. */
  lemma {:induction false} EncodeIsUnpaddedPlusPadding(b: seq<Byte>)
    ensures Encode(b) == EncodeUnpadded(b) + Repeat(Pad, PaddingLength(|b|))
    decreases |b|
  {
    if |b| >= 3 {
      var q, t := Quad(b[0], b[1], b[2]), b[3..];
      var pad := Repeat(Pad, PaddingLength(|b|));
      assert PaddingLength(|b|) == PaddingLength(|t|);
      EncodeIsUnpaddedPlusPadding(t);
      EncodeStep(b);
      assert Encode(b) == q + (EncodeUnpadded(t) + pad);
      assert q + (EncodeUnpadded(t) + pad) == (q + EncodeUnpadded(t)) + pad;
    } else {
      EncodeShort(b);
    }
  }

  /** The final group of fewer than three bytes carries its padding. */
  lemma EncodeShort(b: seq<Byte>)
    requires |b| < 3
    ensures Encode(b) == EncodeUnpadded(b) + Repeat(Pad, PaddingLength(|b|))
  {
    if |b| == 1 {
      EncodeOneByte(b);
    } else if |b| == 2 {
      EncodeTwoBytes(b);
    }
  }

  lemma EncodeOneByte(b: seq<Byte>)
    requires |b| == 1
    ensures Encode(b) == EncodeUnpadded(b) + Repeat(Pad, PaddingLength(|b|))
  {
    assert Repeat(Pad, 2) == [Pad, Pad];
  }

  lemma EncodeTwoBytes(b: seq<Byte>)
    requires |b| == 2
    ensures Encode(b) == EncodeUnpadded(b) + Repeat(Pad, PaddingLength(|b|))
  {
    assert Repeat(Pad, 1) == [Pad];
  }

  /** `urlsafe_b64encode(b).rstrip("=")` is exactly the unpadded encoding. */
  lemma StripPaddedEncoding(b: seq<Byte>)
    ensures RStrip(Encode(b), Pad) == EncodeUnpadded(b)
  {
    EncodeIsUnpaddedPlusPadding(b);
    var u := EncodeUnpadded(b);
    assert |u| == 0 || u[|u| - 1] != Pad by {
      if |u| > 0 {
        assert u[|u| - 1] in u;
      }
    }
    RStripPadding(u, Pad, PaddingLength(|b|));
  }

  /** Decodes an unpadded base64url string; `None` when it cannot be an encoding. */
  function DecodeUnpadded(s: string): Option<seq<Byte>>
    decreases |s|
  {
    if |s| == 0 then Some([])
    else if |s| == 1 then None
    else if ValueOf(s[0]).None? || ValueOf(s[1]).None? then None
    else
      var c0, c1 := ValueOf(s[0]).value, ValueOf(s[1]).value;
      var b0: Byte := c0 * 4 + c1 / 16;
      if |s| == 2 then Some([b0])
      else if ValueOf(s[2]).None? then None
      else
        var c2 := ValueOf(s[2]).value;
        var b1: Byte := (c1 % 16) * 16 + c2 / 4;
        if |s| == 3 then Some([b0, b1])
        else if ValueOf(s[3]).None? then None
        else
          var c3 := ValueOf(s[3]).value;
          var b2: Byte := (c2 % 4) * 64 + c3;
          match DecodeUnpadded(s[4..])
          case None => None
          case Some(rest) => Some([b0, b1, b2] + rest)
  }

  /** Regrouping three bytes into four sextets and back loses nothing. */
  lemma RegroupQuad(b0: Byte, b1: Byte, b2: Byte)
    ensures (b0 / 4) * 4 + ((b0 % 4) * 16 + b1 / 16) / 16 == b0
    ensures (((b0 % 4) * 16 + b1 / 16) % 16) * 16 + ((b1 % 16) * 4 + b2 / 64) / 4 == b1
    ensures (((b1 % 16) * 4 + b2 / 64) % 4) * 64 + b2 % 64 == b2
  {
    var h1 := b1 / 16;
    assert 0 <= h1 < 16;
    var h2 := b2 / 64;
    assert 0 <= h2 < 4;
    assert ((b0 % 4) * 16 + h1) / 16 == b0 % 4;
    assert ((b0 % 4) * 16 + h1) % 16 == h1;
    assert ((b1 % 16) * 4 + h2) / 4 == b1 % 16;
    assert ((b1 % 16) * 4 + h2) % 4 == h2;
  }

  lemma DecodeQuad(b0: Byte, b1: Byte, b2: Byte, rest: string)
    ensures DecodeUnpadded(Quad(b0, b1, b2) + rest)
         == (match DecodeUnpadded(rest) case None => None case Some(r) => Some([b0, b1, b2] + r))
  {
    var s := Quad(b0, b1, b2) + rest;
    ValueOfCharOf(b0 / 4);
    ValueOfCharOf((b0 % 4) * 16 + b1 / 16);
    ValueOfCharOf((b1 % 16) * 4 + b2 / 64);
    ValueOfCharOf(b2 % 64);
    RegroupQuad(b0, b1, b2);
    assert s[4..] == rest;
  }

  lemma DecodePair(b0: Byte)
    ensures DecodeUnpadded(Pair(b0)) == Some([b0])
  {
    var c1 := (b0 % 4) * 16;
    ValueOfCharOf(b0 / 4);
    ValueOfCharOf(c1);
    assert (b0 / 4) * 4 + c1 / 16 == b0;
  }

  lemma DecodeTriple(b0: Byte, b1: Byte)
    ensures DecodeUnpadded(Triple(b0, b1)) == Some([b0, b1])
  {
    var c1 := (b0 % 4) * 16 + b1 / 16;
    var c2 := (b1 % 16) * 4;
    ValueOfCharOf(b0 / 4);
    ValueOfCharOf(c1);
    ValueOfCharOf(c2);
    RegroupQuad(b0, b1, 0);
    assert c2 / 4 == b1 % 16;
    assert (b0 / 4) * 4 + c1 / 16 == b0;
    assert (c1 % 16) * 16 + c2 / 4 == b1;
  }

  /** Decoding undoes the unpadded encoding: no two byte strings share an encoding. */
  lemma {:induction false} DecodeEncodeUnpadded(b: seq<Byte>)
    ensures DecodeUnpadded(EncodeUnpadded(b)) == Some(b)
    decreases |b|
  {
    if |b| == 1 {
      DecodePair(b[0]);
      assert EncodeUnpadded(b) == Pair(b[0]);
      assert [b[0]] == b;
    } else if |b| == 2 {
      DecodeTriple(b[0], b[1]);
      assert EncodeUnpadded(b) == Triple(b[0], b[1]);
      assert [b[0], b[1]] == b;
    } else if |b| >= 3 {
      DecodeEncodeUnpadded(b[3..]);
      EncodeStep(b);
      DecodeQuad(b[0], b[1], b[2], EncodeUnpadded(b[3..]));
      assert [b[0], b[1], b[2]] + b[3..] == b;
    }
  }
}

/**
 * PKCE code-challenge derivation, section 4.2 of RFC 7636, as
 * `create_code_challenge` in the server's v1 router performs it.
 */
module Pkce {
  import opened Common
  import opened Base64Url

  /** A SHA-256 digest: always 32 bytes. */
  type Digest = d: seq<Byte> | |d| == 32 witness seq(32, _ => 0)

  datatype ChallengeError = InvalidChallengeMethod

  /**
   * `create_code_challenge(verifier, challengeMethod)`. SHA-256 of the verifier's UTF-8
   * bytes is the parameter `sha256`; the hash itself is not modelled.
   */
  function CreateCodeChallenge(verifier: string, challengeMethod: string, sha256: string -> Digest): (r: Result<string, ChallengeError>)
    ensures challengeMethod == "plain" ==> r == Ok(verifier)
    ensures challengeMethod == "S256" ==> r.Ok? && r.value == EncodeUnpadded(sha256(verifier))
    ensures challengeMethod == "S256" ==> |r.value| == 43 && Pad !in r.value
    ensures challengeMethod == "S256" ==> DecodeUnpadded(r.value) == Some(sha256(verifier))
    ensures challengeMethod != "plain" && challengeMethod != "S256" ==> r == Err(InvalidChallengeMethod)
  {
    if challengeMethod == "plain" then Ok(verifier)
    else if challengeMethod == "S256" then
      var digest := sha256(verifier);
      StripPaddedEncoding(digest);
      DecodeEncodeUnpadded(digest);
      Ok(RStrip(Encode(digest), Pad))
    else Err(InvalidChallengeMethod)
  }
}
