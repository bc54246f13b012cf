/** Deterministic GUIDs: SHA-256 of the UTF-8 bytes, first 16 bytes kept, version
    nibble forced to 5 (byte 6) and variant bits forced to `10` (byte 8), as in
    sections 4.1.1 and 4.1.3 of RFC 4122; and the .NET `ToString("D")` text form. */
module Guids {
  import opened Strings

  /** A SHA-256 digest. */
  type Digest = s: seq<bv8> | |s| == 32 witness [0, 0, 0, 0, 0, 0, 0, 0, 0, 0, 0, 0, 0, 0, 0, 0, 0, 0, 0, 0, 0, 0, 0, 0, 0, 0, 0, 0, 0, 0, 0, 0]

  /** The 16 raw bytes handed to the .NET `Guid(ReadOnlySpan<byte>)` constructor. */
  type GuidBytes = s: seq<bv8> | |s| == 16 witness [0, 0, 0, 0, 0, 0, 0, 0, 0, 0, 0, 0, 0, 0, 0, 0]

  /** The two foreign library calls the derivation rests on: `Encoding.UTF8.GetBytes`
      and `SHA256.HashData`. Neither is modelled; nothing is assumed of them beyond
      their types (in particular, no injectivity). */
  datatype Hashing = Hashing(utf8: string -> seq<bv8>, sha256: seq<bv8> -> Digest)

  const EmptyGuid: GuidBytes := [0, 0, 0, 0, 0, 0, 0, 0, 0, 0, 0, 0, 0, 0, 0, 0]

  /** Byte 6 carries version 5 in its high nibble and byte 8 the RFC 4122 variant `10`. */
  predicate IsVersion5(g: GuidBytes) {
    g[6] & 0xF0 == 0x50 && g[8] & 0xC0 == 0x80
  }

  /** `a` and `b` agree on every bit the masking keeps. */
  predicate AgreeOutsideMasks(a: GuidBytes, b: GuidBytes) {
    && (forall k :: 0 <= k < 16 && k != 6 && k != 8 ==> a[k] == b[k])
    && a[6] & 0x0F == b[6] & 0x0F
    && a[8] & 0x3F == b[8] & 0x3F
  }

  /** The two in-place writes `g[6] = (g[6] & 0x0F) | 0x50; g[8] = (g[8] & 0x3F) | 0x80`. */
  function SetVersionAndVariant(g: GuidBytes): (r: GuidBytes)
    ensures IsVersion5(r)
    ensures AgreeOutsideMasks(g, r)
  {
    g[6 := (g[6] & 0x0F) | 0x50][8 := (g[8] & 0x3F) | 0x80]
  }

  /** Masking an already masked GUID changes nothing; exactly the version-5 GUIDs are
      left unchanged. */
  lemma SetVersionAndVariantFixedPoints(g: GuidBytes)
    ensures SetVersionAndVariant(g) == g <==> IsVersion5(g)
  {
    var r := SetVersionAndVariant(g);
    if IsVersion5(g) {
      assert r[6] == g[6] && r[8] == g[8];
      assert forall k :: 0 <= k < 16 ==> r[k] == g[k];
    }
  }

  lemma SetVersionAndVariantIdempotent(g: GuidBytes)
    ensures SetVersionAndVariant(SetVersionAndVariant(g)) == SetVersionAndVariant(g)
  {
    SetVersionAndVariantFixedPoints(SetVersionAndVariant(g));
  }

  /** Two inputs give the same GUID exactly when they agree on every bit the masking keeps. */
  lemma SetVersionAndVariantInjective(a: GuidBytes, b: GuidBytes)
    ensures SetVersionAndVariant(a) == SetVersionAndVariant(b) <==> AgreeOutsideMasks(a, b)
  {
    var ra, rb := SetVersionAndVariant(a), SetVersionAndVariant(b);
    if AgreeOutsideMasks(a, b) {
      assert forall k :: 0 <= k < 16 ==> ra[k] == rb[k];
    }
  }

  /** The GUID a digest maps to: its first 16 bytes, masked. */
  function FromDigest(d: Digest): (g: GuidBytes)
    ensures IsVersion5(g) && g != EmptyGuid
    ensures AgreeOutsideMasks(d[..16], g)
  {
    var g := SetVersionAndVariant(d[..16]);
    assert g[6] != 0;
    g
  }

  /** `StringExtensions.ToDeterministicGuid`. */
  function ToDeterministicGuid(input: string, h: Hashing): (g: GuidBytes)
    ensures IsVersion5(g) && g != EmptyGuid
    ensures AgreeOutsideMasks(h.sha256(h.utf8(input))[..16], g)
  {
    FromDigest(h.sha256(h.utf8(input)))
  }

  /** Bytes 16..31 of the digest never influence the GUID. */
  lemma OnlyFirstSixteenDigestBytesMatter(d1: Digest, d2: Digest)
    requires d1[..16] == d2[..16]
    ensures FromDigest(d1) == FromDigest(d2)
  {
  }

  /** Digests whose first 16 bytes differ outside the six overwritten bits give different GUIDs. */
  lemma DistinctDigestsDistinctGuids(d1: Digest, d2: Digest)
    requires !AgreeOutsideMasks(d1[..16], d2[..16])
    ensures FromDigest(d1) != FromDigest(d2)
  {
    SetVersionAndVariantInjective(d1[..16], d2[..16]);
  }

  // ---------------------------------------------------------------- text form

  predicate IsLowerHex(c: char) {
    '0' <= c <= '9' || 'a' <= c <= 'f'
  }

  function HexDigit(n: nat): (c: char)
    requires n < 16
    ensures IsLowerHex(c)
  {
    if n < 10 then ('0' as int + n) as char else ('a' as int + n - 10) as char
  }

  function HexValue(c: char): (n: nat)
    requires IsLowerHex(c)
    ensures n < 16 && HexDigit(n) == c
  {
    if c <= '9' then c as int - '0' as int else c as int - 'a' as int + 10
  }

  /** Two lower-case hex digits, high nibble first. */
  function Hex2(b: bv8): (s: string)
    ensures |s| == 2 && IsLowerHex(s[0]) && IsLowerHex(s[1])
  {
    [HexDigit(b as int / 16), HexDigit(b as int % 16)]
  }

  function ReadHex2(hi: char, lo: char): bv8
    requires IsLowerHex(hi) && IsLowerHex(lo)
  {
    (HexValue(hi) * 16 + HexValue(lo)) as bv8
  }

  lemma HexValueHexDigit(n: nat)
    requires n < 16
    ensures HexValue(HexDigit(n)) == n
  {
  }

  lemma ByteAsInt(x: bv8)
    ensures (x as int / 16) * 16 + x as int % 16 == x as int
    ensures (x as int) as bv8 == x
  {
  }

  lemma ReadHex2Digits(hi: nat, lo: nat)
    requires hi < 16 && lo < 16
    ensures ReadHex2(HexDigit(hi), HexDigit(lo)) == (hi * 16 + lo) as bv8
  {
    HexValueHexDigit(hi);
    HexValueHexDigit(lo);
  }

  lemma ReadHex2Hex2(b: bv8)
    ensures ReadHex2(Hex2(b)[0], Hex2(b)[1]) == b
  {
    ReadHex2Digits(b as int / 16, b as int % 16);
    ByteAsInt(b);
  }

  lemma HighNibble(x: bv8)
    ensures (x >> 4) as int == x as int / 16
  {
  }

  predicate IsHexString(s: string) {
    |s| % 2 == 0 && forall i :: 0 <= i < |s| ==> IsLowerHex(s[i])
  }

  /** Each byte as two hex digits, in order. */
  function HexBytes(bs: seq<bv8>): (s: string)
    ensures |s| == 2 * |bs| && IsHexString(s)
  {
    if |bs| == 0 then "" else Hex2(bs[0]) + HexBytes(bs[1..])
  }

  /** Byte `i` is printed at positions `2i` and `2i + 1`. */
  lemma {:induction false} HexBytesAt(bs: seq<bv8>, i: int)
    requires 0 <= i < |bs|
    ensures HexBytes(bs)[2 * i] == Hex2(bs[i])[0] && HexBytes(bs)[2 * i + 1] == Hex2(bs[i])[1]
  {
    var head, rest := Hex2(bs[0]), HexBytes(bs[1..]);
    assert HexBytes(bs) == head + rest;
    if i > 0 {
      HexBytesAt(bs[1..], i - 1);
      var j := 2 * (i - 1);
      assert 2 * i == j + 2;
      assert (head + rest)[j + 2] == rest[j] && (head + rest)[j + 3] == rest[j + 1];
    }
  }

  function ReadHexBytes(s: string): (bs: seq<bv8>)
    requires IsHexString(s)
    ensures |bs| == |s| / 2
  {
    if |s| == 0 then [] else [ReadHex2(s[0], s[1])] + ReadHexBytes(s[2..])
  }

  lemma {:induction false} ReadHexBytesHexBytes(bs: seq<bv8>)
    ensures ReadHexBytes(HexBytes(bs)) == bs
  {
    if |bs| > 0 {
      var s := HexBytes(bs);
      assert s[2..] == HexBytes(bs[1..]);
      ReadHex2Hex2(bs[0]);
      ReadHexBytesHexBytes(bs[1..]);
    }
  }

  /** The bytes in the order `ToString("D")` prints them. .NET reads bytes 0-3, 4-5
      and 6-7 as little-endian integers, so those groups appear reversed; bytes 8-15
      appear in order. The reordering is its own inverse. */
  function DisplayOrder(g: GuidBytes): (d: GuidBytes)
    ensures d[0] == g[3] && d[1] == g[2] && d[2] == g[1] && d[3] == g[0]
    ensures d[4] == g[5] && d[5] == g[4] && d[6] == g[7] && d[7] == g[6]
    ensures d[8..] == g[8..]
  {
    [g[3], g[2], g[1], g[0], g[5], g[4], g[7], g[6]] + g[8..]
  }

  lemma DisplayOrderInvolution(g: GuidBytes)
    ensures DisplayOrder(DisplayOrder(g)) == g
  {
    var d := DisplayOrder(DisplayOrder(g));
    assert forall k :: 8 <= k < 16 ==> d[k] == DisplayOrder(g)[k] == g[k];
  }

  /** 32 hex digits grouped 8-4-4-4-12. */
  function Dashed(h: string): (s: string)
    requires |h| == 32
    ensures |s| == 36
  {
    h[..8] + "-" + h[8..12] + "-" + h[12..16] + "-" + h[16..20] + "-" + h[20..]
  }

  function Undashed(s: string): string
    requires |s| == 36
  {
    s[..8] + s[9..13] + s[14..18] + s[19..23] + s[24..]
  }

  lemma UndashedDashed(h: string)
    requires |h| == 32
    ensures Undashed(Dashed(h)) == h
  {
    var s := Dashed(h);
    assert s[..8] == h[..8];
    assert s[9..13] == h[8..12];
    assert s[14..18] == h[12..16];
    assert s[19..23] == h[16..20];
    assert s[24..] == h[20..];
    assert h == h[..8] + h[8..12] + h[12..16] + h[16..20] + h[20..];
  }

  /** `Guid.ToString("D")`: 32 lower-case hex digits in groups 8-4-4-4-12. */
  function FormatD(g: GuidBytes): (s: string)
    ensures |s| == 36
  {
    Dashed(HexBytes(DisplayOrder(g)))
  }

  predicate IsDString(s: string) {
    |s| == 36 && IsHexString(Undashed(s))
  }

  /** Reads a "D" string back into the raw bytes it was formatted from. */
  function ParseD(s: string): GuidBytes
    requires IsDString(s)
  {
    var d := ReadHexBytes(Undashed(s));
    DisplayOrder(d)
  }

  /** `ParseD` inverts `FormatD`, so the text form loses nothing. */
  lemma ParseFormatD(g: GuidBytes)
    ensures IsDString(FormatD(g))
    ensures ParseD(FormatD(g)) == g
  {
    var h := HexBytes(DisplayOrder(g));
    UndashedDashed(h);
    ReadHexBytesHexBytes(DisplayOrder(g));
    DisplayOrderInvolution(g);
  }

  lemma FormatDInjective(a: GuidBytes, b: GuidBytes)
    requires FormatD(a) == FormatD(b)
    ensures a == b
  {
    ParseFormatD(a);
    ParseFormatD(b);
  }

  /** `input.ToDeterministicGuid().ToString("D")`, the form stored as a point id. */
  function DeterministicId(input: string, h: Hashing): string {
    FormatD(ToDeterministicGuid(input, h))
  }

  /** Because of the byte swap, the version digit `5` of the raw byte 6 shows at text
      position 16, while position 14 (where RFC 4122 puts the version) shows the high
      nibble of raw byte 7; the variant digit at position 19 is one of `8 9 a b`. */
  lemma DeterministicIdDigits(input: string, h: Hashing)
    ensures DeterministicId(input, h)[16] == '5'
    ensures DeterministicId(input, h)[14] == Hex2(ToDeterministicGuid(input, h)[7])[0]
    ensures DeterministicId(input, h)[19] in "89ab"
  {
    var g := ToDeterministicGuid(input, h);
    VersionDigit(g);
    Position14(g);
    VariantDigit(g);
  }

  lemma VersionDigit(g: GuidBytes)
    requires IsVersion5(g)
    ensures FormatD(g)[16] == '5'
  {
    var d := DisplayOrder(g);
    HexBytesAt(d, 7);
    assert FormatD(g)[16] == HexBytes(d)[2 * 7];
    assert g[6] >> 4 == 5;
    HighNibble(g[6]);
  }

  lemma Position14(g: GuidBytes)
    ensures FormatD(g)[14] == Hex2(g[7])[0]
  {
    var d := DisplayOrder(g);
    HexBytesAt(d, 6);
    assert FormatD(g)[14] == HexBytes(d)[2 * 6];
  }

  lemma VariantDigit(g: GuidBytes)
    requires IsVersion5(g)
    ensures FormatD(g)[19] in "89ab"
  {
    var d := DisplayOrder(g);
    HexBytesAt(d, 8);
    assert FormatD(g)[19] == HexBytes(d)[2 * 8];
    assert 8 <= g[8] >> 4 <= 11;
    HighNibble(g[8]);
  }

  /** Different digest prefixes (outside the masked bits) give different stored ids. */
  lemma DistinctDigestsDistinctIds(s1: string, s2: string, h: Hashing)
    requires !AgreeOutsideMasks(h.sha256(h.utf8(s1))[..16], h.sha256(h.utf8(s2))[..16])
    ensures DeterministicId(s1, h) != DeterministicId(s2, h)
  {
    DistinctDigestsDistinctGuids(h.sha256(h.utf8(s1)), h.sha256(h.utf8(s2)));
    if DeterministicId(s1, h) == DeterministicId(s2, h) {
      FormatDInjective(ToDeterministicGuid(s1, h), ToDeterministicGuid(s2, h));
    }
  }
}
