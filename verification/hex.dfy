/** Base-16 rendering as JavaScript writes it: `n.toString(16)` gives the
    shortest lowercase numeral and `padStart(width, '0')` widens it with
    leading zeros. Both checksum renderings are built from these two. */
module Hex {
  import opened JsText

  /** The code units `0`-`9` and `a`-`f`. */
  predicate IsHexDigit(c: CodeUnit)
  {
    (0x30 <= c <= 0x39) || (0x61 <= c <= 0x66)
  }

  predicate IsLowerHex(s: JsString)
  {
    forall i :: 0 <= i < |s| ==> IsHexDigit(s[i])
  }

  /** The value a hex digit stands for. */
  function DigitValue(c: CodeUnit): (d: nat)
    requires IsHexDigit(c)
    ensures d < 16
  {
    if c <= 0x39 then (c - 0x30) as nat else (c - 0x61) as nat + 10
  }

  /** The lowercase digit for a value below 16. */
  function Digit(d: nat): (c: CodeUnit)
    requires d < 16
    ensures IsHexDigit(c) && DigitValue(c) == d
  {
    if d < 10 then 0x30 + d as CodeUnit else 0x57 + d as CodeUnit
  }

  /** The number a hex numeral denotes, most significant digit first. */
  function FromHex(s: JsString): nat
    requires IsLowerHex(s)
  {
    if |s| == 0 then 0 else FromHex(s[..|s| - 1]) * 16 + DigitValue(s[|s| - 1])
  }

  function Pow16(k: nat): (p: nat)
    ensures p >= 1
  {
    if k == 0 then 1 else 16 * Pow16(k - 1)
  }

  /** `n.toString(16)`: the shortest numeral, with no leading zero except
      for `0` itself. */
  function ToHex(n: nat): (r: JsString)
    ensures 1 <= |r| && IsLowerHex(r)
    ensures FromHex(r) == n
    ensures |r| > 1 ==> r[0] != 0x30
    decreases n
  {
    if n < 16 then [Digit(n)]
    else
      var high := ToHex(n / 16);
      var r := high + [Digit(n % 16)];
      assert r[..|r| - 1] == high;
      r
  }

  /** `s.padStart(width, '0')`. */
  function PadStart(s: JsString, width: nat): (r: JsString)
    ensures |s| >= width ==> r == s
    ensures |s| < width ==> |r| == width && r[width - |s|..] == s
    ensures forall i :: 0 <= i < |r| - |s| ==> r[i] == 0x30
  {
    if |s| >= width then s else seq(width - |s|, _ => 0x30 as CodeUnit) + s
  }

  /** `n.toString(16).padStart(width, '0')`: a lowercase numeral for `n` of
      at least `width` digits, and of exactly `width` digits when `n` fits. */
  function Render(n: nat, width: nat): (r: JsString)
    ensures IsLowerHex(r) && FromHex(r) == n
    ensures 1 <= width && n < Pow16(width) ==> |r| == width
    ensures width <= |r|
  {
    var digits := ToHex(n);
    var r := PadStart(digits, width);
    LeadingZeros(r, |r| - |digits|);
    assert 1 <= width && n < Pow16(width) ==> |digits| <= width by {
      if 1 <= width && n < Pow16(width) {
        ToHexLength(n, width);
      }
    }
    r
  }

  /** Leading zeros do not change the value of a numeral. */
  lemma {:induction false} LeadingZeros(s: JsString, k: nat)
    requires IsLowerHex(s) && k <= |s|
    requires forall i :: 0 <= i < k ==> s[i] == 0x30
    ensures FromHex(s) == FromHex(s[k..])
    decreases |s|
  {
    if k == |s| {
      if k > 0 {
        assert s[..|s| - 1][..] == s[..|s| - 1];
        LeadingZeros(s[..|s| - 1], k - 1);
      }
    } else {
      var init := s[..|s| - 1];
      assert init[k..] == s[k..][..|s[k..]| - 1];
      LeadingZeros(init, k);
    }
  }

  /** A value below 16^width needs at most `width` digits. */
  lemma {:induction false} ToHexLength(n: nat, width: nat)
    requires 1 <= width && n < Pow16(width)
    ensures |ToHex(n)| <= width
    decreases n
  {
    if n >= 16 {
      assert Pow16(width) == 16 * Pow16(width - 1);
      assert n / 16 < Pow16(width - 1);
      assert width - 1 >= 1;
      ToHexLength(n / 16, width - 1);
    }
  }
}
