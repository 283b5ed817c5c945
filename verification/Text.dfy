/** Blanks and trimming, as the scripts' text functions have them. */
module Text {
  /** What `trim` removes. */
  predicate White(c: char) {
    c == ' ' || '\t' <= c <= '\r' || c == '\U{A0}' || c == '\U{1680}' || '\U{2000}' <= c <= '\U{200A}' ||
    c == '\U{2028}' || c == '\U{2029}' || c == '\U{202F}' || c == '\U{205F}' || c == '\U{3000}' || c == '\U{FEFF}'
  }

  /** The first position from `low` on, before `high`, that is not blank. */
  function InkFrom(s: string, low: nat, high: nat): (r: nat)
    requires low <= high <= |s|
    ensures low <= r <= high
    decreases high - low
  {
    if low < high && White(s[low]) then InkFrom(s, low + 1, high) else low
  }

  /** The end of the last run of non-blanks from `low` on, before `high`. */
  function InkBefore(s: string, low: nat, high: nat): (r: nat)
    requires low <= high <= |s|
    ensures low <= r <= high
    decreases high
  {
    if low < high && White(s[high - 1]) then InkBefore(s, low, high - 1) else high
  }

  /** The text from `low` to `high`, trimmed. */
  function TrimSlice(s: string, low: nat, high: nat): (r: string)
    ensures |r| <= |s| && (low <= high ==> |r| <= high - low)
  {
    if low <= high <= |s| then
      var first := InkFrom(s, low, high);
      s[first..InkBefore(s, first, high)]
    else []
  }

  function Trim(s: string): (r: string)
    ensures |r| <= |s|
  {
    TrimSlice(s, 0, |s|)
  }
}
