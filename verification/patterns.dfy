/** The pieces the scraper's regular expressions are built from: the
    character classes, the end of a run of characters of one class (what a
    greedy `[...]*` consumes) and a literal at a position. */
module Patterns {

  /** The ASCII characters that `str.split()`, `str.strip()` and the regex
      class `\s` treat as whitespace: tab, line feed, vertical tab, form
      feed and carriage return (0x09 to 0x0D), the four separators 0x1C to
      0x1F, and space (0x20). */
  predicate IsSpace(c: char) {
    '\t' <= c <= '\r' || '\U{1C}' <= c <= ' '
  }

  /** `\d`, restricted to ASCII. */
  predicate IsDigit(c: char) {
    '0' <= c <= '9'
  }

  /** The class `[\d,]`. */
  predicate IsNumberChar(c: char) {
    IsDigit(c) || c == ','
  }

  /** The class `[-\d.]`. */
  predicate IsCoordChar(c: char) {
    c == '-' || c == '.' || IsDigit(c)
  }

  /** The character classes that occur under a greedy repetition. */
  datatype Class = Space | Digit | NumberChar | CoordChar

  predicate In(k: Class, c: char) {
    match k
    case Space => IsSpace(c)
    case Digit => IsDigit(c)
    case NumberChar => IsNumberChar(c)
    case CoordChar => IsCoordChar(c)
  }

  /** The end of the maximal run of characters satisfying `p` that starts at
      `i`: what a greedy `[...]*` consumes from `i`. */
  function RunEnd(s: string, i: nat, p: Class): (j: nat)
    requires i <= |s|
    ensures i <= j <= |s|
    ensures forall k :: i <= k < j ==> In(p, s[k])
    ensures j == |s| || !In(p, s[j])
    decreases |s| - i
  {
    if i < |s| && In(p, s[i]) then RunEnd(s, i + 1, p) else i
  }

  /** The start of the maximal run of characters satisfying `p` that ends
      at `j`. */
  function RunStart(s: string, j: nat, p: Class): (i: nat)
    requires j <= |s|
    ensures i <= j
    ensures forall k :: i <= k < j ==> In(p, s[k])
    ensures i == 0 || !In(p, s[i - 1])
  {
    if j > 0 && In(p, s[j - 1]) then RunStart(s, j - 1, p) else j
  }

  /** A run stops exactly where a character outside the class, or the end
      of the text, comes after characters of the class. */
  lemma {:induction false} RunEndAt(s: string, i: nat, j: nat, p: Class)
    requires i <= j <= |s|
    requires forall k :: i <= k < j ==> In(p, s[k])
    requires j == |s| || !In(p, s[j])
    ensures RunEnd(s, i, p) == j
    decreases j - i
  {
    if i < j {
      RunEndAt(s, i + 1, j, p);
    }
  }

  /** The literal `lit` occurs in `s` at position `i`. */
  predicate LitAt(s: string, i: nat, lit: string) {
    i + |lit| <= |s| && s[i..i + |lit|] == lit
  }
}
