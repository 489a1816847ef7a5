/** JavaScript's String.prototype.trim, as the backend and the client use it to
    decide whether a message is empty. */
module Text {

  /** The code points that ECMAScript's `trim` strips: the WhiteSpace
      production (tab, vertical tab, form feed, space, no-break space,
      byte order mark and every other space separator) and the
      LineTerminator production (line feed, carriage return, line and
      paragraph separators). */
  predicate IsWhitespace(c: char) {
    var n := c as int;
    || n == 0x09 || n == 0x0A || n == 0x0B || n == 0x0C || n == 0x0D
    || n == 0x20 || n == 0xA0 || n == 0x1680
    || (0x2000 <= n <= 0x200A)
    || n == 0x2028 || n == 0x2029 || n == 0x202F || n == 0x205F
    || n == 0x3000 || n == 0xFEFF
  }

  /** Every character of `s` is whitespace (so the empty string is blank). */
  predicate IsBlank(s: string) {
    forall i :: 0 <= i < |s| ==> IsWhitespace(s[i])
  }

  /** Every character of `s` from position `lo` up to `hi` is whitespace. */
  predicate BlankBetween(s: string, lo: nat, hi: nat)
    requires hi <= |s|
  {
    forall i :: lo <= i < hi ==> IsWhitespace(s[i])
  }

  /** The position of the first non-whitespace character at or after `i`,
      or `|s|` if there is none: where the text left after stripping the
      leading whitespace begins. */
  function SkipLeading(s: string, i: nat): (n: nat)
    requires i <= |s|
    ensures i <= n <= |s| && BlankBetween(s, i, n)
    ensures n == |s| || !IsWhitespace(s[n])
    decreases |s| - i
  {
    if i < |s| && IsWhitespace(s[i]) then SkipLeading(s, i + 1) else i
  }

  /** The position just after the last non-whitespace character of
      `s[lo..j]`, or `lo` if there is none: where the text left after
      stripping the trailing whitespace ends. */
  function SkipTrailing(s: string, lo: nat, j: nat): (n: nat)
    requires lo <= j <= |s|
    ensures lo <= n <= j && BlankBetween(s, n, j)
    ensures n == lo || !IsWhitespace(s[n - 1])
    decreases j
  {
    if j > lo && IsWhitespace(s[j - 1]) then SkipTrailing(s, lo, j - 1) else j
  }

  /** `s` without leading and trailing whitespace: what is left is the part
      of `s` between a blank prefix and a blank suffix, it starts and ends
      with a non-whitespace character, and nothing is left exactly when `s`
      is blank. */
  function Trim(s: string): (r: string)
    ensures var lo := SkipLeading(s, 0);
      && lo + |r| <= |s| && r == s[lo..lo + |r|]
      && BlankBetween(s, 0, lo) && BlankBetween(s, lo + |r|, |s|)
    ensures r == [] || (!IsWhitespace(r[0]) && !IsWhitespace(r[|r| - 1]))
    ensures r == [] <==> IsBlank(s)
  {
    var lo := SkipLeading(s, 0);
    var hi := SkipTrailing(s, lo, |s|);
    s[lo..hi]
  }
}
