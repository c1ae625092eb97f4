/** The two display rules: the label shown for a `_calcN` reference and the
    truncated result text placed beside each line. */
module Presentation {
  import opened Wrappers
  import opened Text
  import opened Cells

  /** Keep `s` when it has at most `limit` characters, else its first
      `keep` characters followed by `...`. */
  function Truncate(s: string, limit: nat, keep: nat): (r: string)
    requires keep <= limit
    ensures |s| <= limit ==> r == s
    ensures |s| > limit ==> |r| == keep + 3 && r[..keep] == s[..keep] && r[keep..] == "..."
  {
    if |s| > limit then s[..keep] + "..." else s
  }

  /** When the marker fits in the limit, truncating twice changes nothing:
      a truncated text is never truncated again. This follows from the
      contract of `Truncate` alone. */
  lemma TruncateIdempotent(s: string, limit: nat, keep: nat)
    requires keep + 3 <= limit
    ensures Truncate(Truncate(s, limit, keep), limit, keep) == Truncate(s, limit, keep)
    ensures |Truncate(s, limit, keep)| <= limit
  {
  }

  /** `generateReferenceLabel`: the trimmed line cut to 20 characters, `" = "`,
      and the result text cut to 10 characters. */
  function GenerateReferenceLabel(line: string, resultText: string): (r: string)
    ensures 3 <= |r| <= 33
  {
    Truncate(Trim(line), 20, 17) + " = " + Truncate(resultText, 10, 7)
  }

  /** The label is a preview of at most 20 characters and a result text of
      at most 10, around `" = "`; each is left whole when within its limit
      and otherwise is its first 17 (respectively 7) characters and `...`. */
  lemma GenerateReferenceLabelShape(line: string, resultText: string)
    ensures var r := GenerateReferenceLabel(line, resultText);
            exists preview, text ::
              && r == preview + " = " + text
              && |preview| <= 20 && |text| <= 10
              && (|Trim(line)| <= 20 ==> preview == Trim(line))
              && (|Trim(line)| > 20 ==> preview == Trim(line)[..17] + "...")
              && (|resultText| <= 10 ==> text == resultText)
              && (|resultText| > 10 ==> text == resultText[..7] + "...")
  {
    var preview, text := Truncate(Trim(line), 20, 17), Truncate(resultText, 10, 7);
    assert |preview| > 17 ==> preview == preview[..17] + preview[17..];
    assert |text| > 7 ==> text == text[..7] + text[7..];
  }

  /** `result + ""`: the text of a results entry, as the label and the
      widget print it (`show` renders a value). */
  function ResultText(c: Cell, show: Value -> string): (t: string)
    ensures c.ErrorMarker? ==> t == "..."
    ensures c.Undefined? ==> t == "undefined"
    ensures c.Computed? ==> t == show(c.value)
  {
    match c
    case Blank => ""
    case ErrorMarker => "..."
    case Undefined => "undefined"
    case Computed(v) => show(v)
  }

  /** The text `updateUI` shows beside a line whose entry is `c`: nothing
      for `undefined` or `""`, otherwise the entry's text, kept when it has
      at most 40 characters and else cut to its first 37 and `...`. */
  function DisplayResult(c: Cell, show: Value -> string): (r: Option<string>)
    ensures r.None? <==> c.Undefined? || c.Blank?
    ensures c == ErrorMarker ==> r == Some("...")
    ensures r.Some? ==> |r.value| <= 40
    ensures r.Some? && |ResultText(c, show)| <= 40 ==> r.value == ResultText(c, show)
    ensures r.Some? && |ResultText(c, show)| > 40 ==> r.value == ResultText(c, show)[..37] + "..."
  {
    if c.Undefined? || c.Blank? then None else Some(Truncate(ResultText(c, show), 40, 37))
  }
}
