/** The checksum engine's public side: CRC-32 rendered as eight lowercase
    hex digits, the hex rendering of a SHA-256 digest, and the dispatch
    between the two. */
module Checksum {
  import opened JsText
  import opened Hex
  import opened CrcRegister
  import Types

  /** The last line of `crc32`: `((crc ^ 0xffffffff) >>> 0).toString(16)
      .padStart(8, '0')`. The complemented register is below 16^8, so the
      numeral is exactly eight lowercase digits, and they denote it. */
  function Finish(crc: bv32): (r: JsString)
    ensures |r| == 8 && IsLowerHex(r)
    ensures FromHex(r) == (crc ^ 0xFFFF_FFFF) as nat
  {
    assert Pow16(8) == 0x1_0000_0000;
    Render((crc ^ 0xFFFF_FFFF) as nat, 8)
  }

  /** `crc32(str)`. */
  function Crc32(s: JsString): (r: JsString)
    ensures |r| == 8 && IsLowerHex(r)
    ensures FromHex(r) == (Register(s) ^ 0xFFFF_FFFF) as nat
  {
    Finish(Register(s))
  }

  /** The loop of `crc32`: one `Update` per code unit, from the seed, then
      the final rendering. */
  method ComputeCrc32(s: JsString) returns (r: JsString)
    ensures r == Crc32(s)
  {
    var crc := Seed;
    var i := 0;
    while i < |s|
      invariant 0 <= i <= |s|
      invariant crc == Register(s[..i])
    {
      assert s[..i + 1] == s[..i] + [s[i]];
      RegisterSnoc(s[..i], s[i]);
      crc := Update(crc, s[i]);
      i := i + 1;
    }
    assert s[..i] == s;
    r := Finish(crc);
  }

  /** The empty string's checksum is eight zeros: the seed complemented is 0. */
  lemma Crc32OfEmpty()
    ensures Crc32([]) == [0x30, 0x30, 0x30, 0x30, 0x30, 0x30, 0x30, 0x30]
  {
    assert (Seed ^ 0xFFFF_FFFF) as nat == 0;
    assert ToHex(0) == [0x30];
  }

  /** A known answer: the CRC-32 of `"a"` is `e8b7be43`, the published
      check value, reached through one table lookup at slot 0x9e. */
  lemma Crc32OfA()
    ensures (Register([0x61]) ^ 0xFFFF_FFFF) as nat == 0xE8B7_BE43
    ensures Crc32([0x61]) == [0x65, 0x38, 0x62, 0x37, 0x62, 0x65, 0x34, 0x33]
  {
    assert Steps(0x9e, 1) == 0x4f;
    assert Steps(0x9e, 2) == 0xEDB8_8307;
    assert Steps(0x9e, 3) == 0x9B64_C2A3;
    assert Steps(0x9e, 4) == 0xA00A_E271;
    assert Steps(0x9e, 5) == 0xBDBD_F218;
    assert Steps(0x9e, 6) == 0x5EDE_F90C;
    assert Steps(0x9e, 7) == 0x2F6F_7C86;
    assert Steps(0x9e, 8) == 0x17B7_BE43;
    assert TableIndex(Seed, 0x61) == 0x9e;
    assert Table()[0x9e] == 0x17B7_BE43;
    assert [0x61 as CodeUnit][..0] == [];
    assert Register([0x61]) == 0x1748_41BC;
  }

  /** Strings whose code units agree in their low eight bits share a
      checksum: `charCodeAt` values above 255 lose their high byte. */
  lemma Crc32LowBytes(s: JsString, t: JsString)
    requires |s| == |t|
    requires forall i :: 0 <= i < |s| ==> s[i] & 0xFF == t[i] & 0xFF
    ensures Crc32(s) == Crc32(t)
  {
    LowBytesDecide(s, t);
  }

  /** One byte of a digest. */
  type Byte = b: nat | b < 256

  /** A SHA-256 digest: 32 bytes. */
  type Digest = d: seq<Byte> | |d| == 32 witness seq(32, _ => 0)

  /** `b.toString(16).padStart(2, '0')` for each byte, joined: two digits
      per byte. */
  function HexOfBytes(bytes: seq<Byte>): (r: JsString)
    ensures |r| == 2 * |bytes| && IsLowerHex(r)
  {
    if |bytes| == 0 then []
    else
      assert Pow16(2) == 256;
      Render(bytes[0], 2) + HexOfBytes(bytes[1..])
  }

  /** Reads a string of digit pairs back as bytes, the inverse of
      `HexOfBytes`. */
  function BytesOfHex(s: JsString): seq<nat>
    requires |s| % 2 == 0 && IsLowerHex(s)
  {
    if |s| == 0 then [] else [FromHex(s[..2])] + BytesOfHex(s[2..])
  }

  lemma {:induction false} HexOfBytesRoundTrip(bytes: seq<Byte>)
    ensures BytesOfHex(HexOfBytes(bytes)) == bytes
  {
    if |bytes| > 0 {
      var r := HexOfBytes(bytes);
      assert Pow16(2) == 256;
      var first := Render(bytes[0], 2);
      assert r[..2] == first;
      assert r[2..] == HexOfBytes(bytes[1..]);
      HexOfBytesRoundTrip(bytes[1..]);
    }
  }

  /** The rendering of a whole digest: 64 lowercase hex digits that read
      back as the digest. */
  function HexOfDigest(bytes: Digest): (r: JsString)
    ensures |r| == 64 && IsLowerHex(r)
    ensures BytesOfHex(r) == bytes
  {
    HexOfBytesRoundTrip(bytes);
    HexOfBytes(bytes)
  }

  /** `sha256(str)`. Encoding the string as UTF-8 and hashing it are done by
      the platform; `digest` stands for that whole step. */
  function Sha256(s: JsString, digest: JsString -> Digest): (r: JsString)
    ensures |r| == 64 && IsLowerHex(r)
    ensures BytesOfHex(r) == digest(s)
  {
    HexOfDigest(digest(s))
  }

  /** `computeChecksum(data, algo)`: CRC-32 for `crc32`, SHA-256 otherwise.
      Either way the result is lowercase hex that reads back as the chosen
      algorithm's value over the whole of `data`. */
  function ComputeChecksum(data: JsString, algo: Types.ChecksumAlgo, digest: JsString -> Digest): (r: JsString)
    ensures IsLowerHex(r)
    ensures algo.Crc32? ==> |r| == 8 && FromHex(r) == (Register(data) ^ 0xFFFF_FFFF) as nat
    ensures algo.Sha256? ==> |r| == 64 && BytesOfHex(r) == digest(data)
  {
    if algo.Crc32? then Crc32(data) else Sha256(data, digest)
  }
}
