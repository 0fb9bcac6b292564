/** `HashingService.CreateSHA256`: the SHA-256 digest of the UTF-8 bytes of a
    string, written as lowercase hexadecimal, two characters per byte (the
    .NET format "x2"). The digest and the UTF-8 encoding are library calls and
    enter as parameters; only the hex formatting is modelled. */
module Security {
  import opened Wrappers

  newtype byte = x: int | 0 <= x < 256

  /** A SHA-256 digest: FIPS 180-4 fixes its length at 32 bytes. */
  type Digest = d: seq<byte> | |d| == 32 witness seq(32, _ => 0 as byte)

  /** The characters "x2" can produce: 0-9 and a-f. */
  predicate IsLowerHexDigit(c: char)
  {
    '0' <= c <= '9' || 'a' <= c <= 'f'
  }

  /** The lowercase hex digit of a nibble. */
  function HexDigit(n: int): (c: char)
    requires 0 <= n < 16
    ensures IsLowerHexDigit(c)
  {
    if n < 10 then ('0' as int + n) as char else ('a' as int + n - 10) as char
  }

  /** The value of a lowercase hex digit; none for any other character. */
  function NibbleValue(c: char): (r: Option<int>)
    ensures r.Some? <==> IsLowerHexDigit(c)
    ensures r.Some? ==> 0 <= r.value < 16 && HexDigit(r.value) == c
  {
    if '0' <= c <= '9' then Some(c as int - '0' as int)
    else if 'a' <= c <= 'f' then Some(c as int - 'a' as int + 10)
    else None
  }

  lemma NibbleOfHexDigit(n: int)
    requires 0 <= n < 16
    ensures NibbleValue(HexDigit(n)) == Some(n)
  {
  }

  /** `b.ToString("x2")`: high nibble, then low nibble, zero-padded. */
  function ByteToHex(b: byte): (s: string)
  {
    [HexDigit(b as int / 16), HexDigit(b as int % 16)]
  }

  /** The hex text of a byte sequence: each byte's two digits, in byte order, with no separators. */
  function LowerHex(bs: seq<byte>): (s: string)
    ensures |s| == 2 * |bs|
  {
    if bs == [] then "" else ByteToHex(bs[0]) + LowerHex(bs[1..])
  }

  /** Characters 2i and 2i+1 are the high and low nibble of byte i. */
  lemma {:induction false} LowerHexAt(bs: seq<byte>, i: nat)
    requires i < |bs|
    ensures LowerHex(bs)[2 * i] == HexDigit(bs[i] as int / 16)
    ensures LowerHex(bs)[2 * i + 1] == HexDigit(bs[i] as int % 16)
  {
    if i > 0 {
      LowerHexAt(bs[1..], i - 1);
    }
  }

  /** Every character of the hex text is a lowercase hex digit. */
  lemma {:induction false} LowerHexIsLowercase(bs: seq<byte>)
    ensures forall k :: 0 <= k < |LowerHex(bs)| ==> IsLowerHexDigit(LowerHex(bs)[k])
  {
    forall k | 0 <= k < |LowerHex(bs)|
      ensures IsLowerHexDigit(LowerHex(bs)[k])
    {
      LowerHexAt(bs, k / 2);
    }
  }

  /** Appending one byte appends its two digits: the step of the encoding loop. */
  lemma {:induction false} LowerHexSnoc(bs: seq<byte>, b: byte)
    ensures LowerHex(bs + [b]) == LowerHex(bs) + ByteToHex(b)
  {
    if bs == [] {
      assert bs + [b] == [b];
    } else {
      assert (bs + [b])[1..] == bs[1..] + [b];
      LowerHexSnoc(bs[1..], b);
    }
  }

  /** Reads hex text back two digits at a time; none when the length is odd
      or a character is not a lowercase hex digit. */
  function DecodeHex(s: string): Option<seq<byte>>
    decreases |s|
  {
    if |s| == 0 then Some([])
    else if |s| == 1 then None
    else
      match (NibbleValue(s[0]), NibbleValue(s[1]), DecodeHex(s[2..]))
      case (Some(hi), Some(lo), Some(rest)) => Some([(hi * 16 + lo) as byte] + rest)
      case _ => None
  }

  /** Decoding the hex text pairwise yields exactly the bytes encoded. */
  lemma {:induction false} DecodeLowerHex(bs: seq<byte>)
    ensures DecodeHex(LowerHex(bs)) == Some(bs)
  {
    if bs != [] {
      var s := LowerHex(bs);
      var b := bs[0] as int;
      assert s == ByteToHex(bs[0]) + LowerHex(bs[1..]);
      assert s[2..] == LowerHex(bs[1..]);
      NibbleOfHexDigit(b / 16);
      NibbleOfHexDigit(b % 16);
      DecodeLowerHex(bs[1..]);
      assert [(b / 16 * 16 + b % 16) as byte] + bs[1..] == bs;
    }
  }

  /** Only the hex text of a byte sequence decodes to it: the encoding is injective and has no other spellings. */
  lemma {:induction false} DecodeHexOnlyLowerHex(s: string, bs: seq<byte>)
    requires DecodeHex(s) == Some(bs)
    ensures LowerHex(bs) == s
    decreases |s|
  {
    if |s| >= 2 {
      var hi := NibbleValue(s[0]).value;
      var lo := NibbleValue(s[1]).value;
      var rest := DecodeHex(s[2..]).value;
      DecodeHexOnlyLowerHex(s[2..], rest);
      assert bs == [(hi * 16 + lo) as byte] + rest;
      assert bs[1..] == rest;
      assert (hi * 16 + lo) / 16 == hi && (hi * 16 + lo) % 16 == lo;
      assert s == [s[0], s[1]] + s[2..];
    }
  }

  /** The encoding loop of `CreateSHA256` over the digest of the input's UTF-8
      bytes: the result is the lowercase hex text of the digest, 64 characters. */
  method CreateSha256(input: string, utf8: string -> seq<byte>, sha256: seq<byte> -> Digest) returns (hex: string)
    ensures hex == LowerHex(sha256(utf8(input)))
    ensures |hex| == 64
    ensures forall k :: 0 <= k < |hex| ==> IsLowerHexDigit(hex[k])
    ensures DecodeHex(hex) == Some(sha256(utf8(input)))
  {
    var hashBytes := sha256(utf8(input));
    var sb := "";
    for i := 0 to |hashBytes|
      invariant sb == LowerHex(hashBytes[..i])
    {
      assert hashBytes[..i + 1] == hashBytes[..i] + [hashBytes[i]];
      LowerHexSnoc(hashBytes[..i], hashBytes[i]);
      sb := sb + ByteToHex(hashBytes[i]);
    }
    assert hashBytes[..|hashBytes|] == hashBytes;
    hex := sb;
    LowerHexIsLowercase(hashBytes);
    DecodeLowerHex(hashBytes);
  }
}
