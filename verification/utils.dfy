/** `Utils.truncateText`, the one piece of `Utils` with a contract worth
    stating. */
module Utils {
  import opened Wrappers

  /** The default `maxLength`. */
  const DefaultMaxLength := 100

  /** `substring(0, n)` treats a negative end as zero. */
  function ClampedEnd(n: int): nat {
    if n < 0 then 0 else n
  }

  /** `truncateText(text, maxLength)`: `''` for a missing or empty text, the
      text itself when it fits, and otherwise its first `maxLength`
      characters followed by `'...'`. */
  function TruncateText(text: Option<string>, maxLength: int): (r: string)
    ensures text.None? || text == Some("") ==> r == ""
    ensures text.Some? && 0 < |text.value| <= maxLength ==> r == text.value
    ensures text.Some? && 0 < |text.value| && maxLength < |text.value| ==>
      && |r| == ClampedEnd(maxLength) + 3
      && text.value[..ClampedEnd(maxLength)] <= r
      && r[ClampedEnd(maxLength)..] == "..."
  {
    if text.None? || |text.value| == 0 then ""
    else if |text.value| > maxLength then text.value[..ClampedEnd(maxLength)] + "..."
    else text.value
  }

  /** `truncateText(text)` with `maxLength` left at its default: at most 100
      characters of the text survive before the dots. */
  function TruncateTextDefault(text: Option<string>): (r: string)
    ensures text.Some? && |text.value| <= DefaultMaxLength ==> r == text.GetOr("")
    ensures |r| <= DefaultMaxLength + 3
  {
    TruncateText(text, DefaultMaxLength)
  }

  /** Truncating an already truncated text changes nothing. */
  lemma TruncateTextIdempotent(text: Option<string>, maxLength: int)
    ensures var r := TruncateText(text, maxLength);
      TruncateText(Some(r), maxLength) == r
  {
    var r := TruncateText(text, maxLength);
    if text.Some? && 0 < |text.value| && maxLength < |text.value| {
      assert r[..ClampedEnd(maxLength)] == text.value[..ClampedEnd(maxLength)];
    }
  }
}
