/** The CRC-32 register of the checksum engine: the IEEE 802.3 frame check
    sequence with the reflected polynomial 0xEDB88320 and an all-ones seed,
    computed a byte at a time through a 256-entry table.

    The JavaScript code mixes signed and unsigned 32-bit views of the
    register (`^` yields an int32, `>>>` a uint32), but every operation it
    applies is a bitwise one on the low 32 bits, so the register is exactly
    a `bv32` here. */
module CrcRegister {
  import opened JsText

  const Polynomial: bv32 := 0xEDB8_8320
  const Seed: bv32 := 0xFFFF_FFFF

  /** One shift of the reflected register: if the low bit is set, shift and
      fold in the polynomial, otherwise just shift. */
  function Step(c: bv32): bv32
  {
    if c & 1 == 1 then Polynomial ^ (c >> 1) else c >> 1
  }

  /** `n` shifts of the register. */
  function Steps(c: bv32, n: nat): bv32
  {
    if n == 0 then c else Step(Steps(c, n - 1))
  }

  /** The lookup table: entry `i` is the register after eight shifts of `i`. */
  function Table(): (t: seq<bv32>)
    ensures |t| == 256
  {
    seq(256, i requires 0 <= i < 256 => Steps(i as bv32, 8))
  }

  /** The table-building loop run once at load time. */
  method BuildTable() returns (table: seq<bv32>)
    ensures |table| == 256
    ensures forall i :: 0 <= i < 256 ==> table[i] == Steps(i as bv32, 8)
    ensures table == Table()
  {
    table := [];
    var i := 0;
    while i < 256
      invariant 0 <= i <= 256 && |table| == i
      invariant forall k :: 0 <= k < i ==> table[k] == Steps(k as bv32, 8)
    {
      var c: bv32 := i as bv32;
      var j := 0;
      while j < 8
        invariant 0 <= j <= 8
        invariant c == Steps(i as bv32, j)
      {
        c := Step(c);
        j := j + 1;
      }
      table := table + [c];
      i := i + 1;
    }
  }

  /** The table slot `(crc ^ code) & 0xff` that one code unit selects. It is
      always in range, and only the low byte of the register and of the code
      unit decide it. */
  function TableIndex(crc: bv32, code: CodeUnit): (k: nat)
    ensures k < 256
    ensures k as bv32 == (crc & 0xFF) ^ ((code as bv32) & 0xFF)
  {
    ((crc ^ (code as bv32)) & 0xFF) as nat
  }

  /** One iteration of the CRC loop. */
  function Update(crc: bv32, code: CodeUnit): bv32
  {
    Table()[TableIndex(crc, code)] ^ (crc >> 8)
  }

  /** The register after the loop has consumed `s`: a left fold of `Update`
      starting from the all-ones seed. */
  function Register(s: JsString): bv32
  {
    if |s| == 0 then Seed else Update(Register(s[..|s| - 1]), s[|s| - 1])
  }

  /** Appending one code unit applies one loop iteration to the register. */
  lemma RegisterSnoc(s: JsString, c: CodeUnit)
    ensures Register(s + [c]) == Update(Register(s), c)
  {
    assert (s + [c])[..|s|] == s;
  }

  /** The table slot depends on a code unit only through its low byte. */
  lemma SameIndex(crc: bv32, a: CodeUnit, b: CodeUnit)
    requires a & 0xFF == b & 0xFF
    ensures TableIndex(crc, a) == TableIndex(crc, b)
  {
    assert (crc ^ (a as bv32)) & 0xFF == (crc ^ (b as bv32)) & 0xFF;
  }

  /** The high byte of each code unit never reaches the table, so strings
      whose code units agree in their low eight bits share a register. */
  lemma {:induction false} LowBytesDecide(s: JsString, t: JsString)
    requires |s| == |t|
    requires forall i :: 0 <= i < |s| ==> s[i] & 0xFF == t[i] & 0xFF
    ensures Register(s) == Register(t)
  {
    if |s| > 0 {
      var n := |s| - 1;
      LowBytesDecide(s[..n], t[..n]);
      SameIndex(Register(s[..n]), s[n], t[n]);
    }
  }
}
