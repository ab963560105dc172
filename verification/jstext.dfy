/** JavaScript strings as the framing code sees them: sequences of UTF-16
    code units, which is what `length`, `slice` and `charCodeAt` work on. */
module JsText {

  /** One UTF-16 code unit, the value `charCodeAt` returns (0..65535). */
  type CodeUnit = bv16

  type JsString = seq<CodeUnit>

  /** `s.slice(start, end)` for non-negative bounds: both ends are clamped to
      the length, and an end before the start gives the empty string. */
  function Slice(s: JsString, start: nat, end: nat): (r: JsString)
    ensures start < |s| && start < end ==> 1 <= |r|
    ensures |r| <= end - start || end < start
  {
    var from := if start < |s| then start else |s|;
    var to := if end < |s| then end else |s|;
    if from < to then s[from..to] else []
  }

  /** The strings of `parts` joined end to end, as `parts.join('')`. */
  function Concat(parts: seq<JsString>): JsString
  {
    if |parts| == 0 then [] else parts[0] + Concat(parts[1..])
  }
}
