/** The string functions of Python that the scraper relies on, restricted to
    ASCII: whitespace tests, prefix and substring tests, `strip`, `split` and
    `' '.join`, `lower`, and the decimal conversions `str(n)` and `int(s)`. */
module Text {
  import opened Options
  import opened Patterns

  predicate AllSpace(s: string) {
    forall i :: 0 <= i < |s| ==> IsSpace(s[i])
  }

  predicate AllDigits(s: string) {
    forall i :: 0 <= i < |s| ==> IsDigit(s[i])
  }

  /** `s.startswith(p)` */
  predicate StartsWith(s: string, p: string) {
    |p| <= |s| && s[..|p|] == p
  }

  /** `s.endswith(p)` */
  predicate EndsWith(s: string, p: string) {
    |p| <= |s| && s[|s| - |p|..] == p
  }

  predicate OccursAt(s: string, t: string, k: int) {
    0 <= k && k + |t| <= |s| && s[k..k + |t|] == t
  }

  /** `t in s` for two strings. */
  predicate Contains(s: string, t: string) {
    exists k | 0 <= k <= |s| - |t| :: OccursAt(s, t, k)
  }

  // ---------------------------------------------------------------------------
  // strip

  /** `s` is `r` surrounded by whitespace only, with `r` starting at `a`. */
  predicate StripsTo(s: string, r: string, a: int) {
    0 <= a && a + |r| <= |s| && s[a..a + |r|] == r && AllSpace(s[..a]) && AllSpace(s[a + |r|..])
  }

  /** `s.strip()`: the text between the leading and the trailing whitespace. */
  function Strip(s: string): (r: string)
    ensures r == [] || (!IsSpace(r[0]) && !IsSpace(r[|r| - 1]))
    ensures exists a :: StripsTo(s, r, a)
    ensures r == [] <==> AllSpace(s)
  {
    var a := RunEnd(s, 0, Space);
    var b := RunStart(s, |s|, Space);
    if b <= a then
      assert a == |s|;
      assert StripsTo(s, [], 0) by {
        assert s[0..0] == [] && s[..0] == [] && s[0..] == s;
      }
      []
    else
      var r := s[a..b];
      assert StripsTo(s, r, a) by {
        assert forall k :: 0 <= k < a ==> s[..a][k] == s[k];
        assert forall k :: 0 <= k < |s| - b ==> s[b..][k] == s[b + k];
      }
      assert s[a] == r[0];
      r
  }

  // ---------------------------------------------------------------------------
  // split and join

  /** A token of `str.split()`: non-empty and free of whitespace. */
  predicate IsWord(w: string) {
    |w| > 0 && forall i :: 0 <= i < |w| ==> !IsSpace(w[i])
  }

  /** Length of the longest prefix of `s` that holds no whitespace. */
  function WordLength(s: string): (n: nat)
    ensures n <= |s|
    ensures forall i :: 0 <= i < n ==> !IsSpace(s[i])
    ensures n == |s| || IsSpace(s[n])
  {
    if |s| == 0 || IsSpace(s[0]) then 0 else 1 + WordLength(s[1..])
  }

  /** `s.split()` with no separator: the maximal runs of non-whitespace, in order. */
  function Split(s: string): (ws: seq<string>)
    ensures forall k :: 0 <= k < |ws| ==> IsWord(ws[k])
    decreases |s|
  {
    if |s| == 0 then []
    else if IsSpace(s[0]) then Split(s[1..])
    else
      var n := WordLength(s);
      [s[..n]] + Split(s[n..])
  }

  /** `' '.join(ws)` */
  function Join(ws: seq<string>): string {
    if |ws| == 0 then []
    else if |ws| == 1 then ws[0]
    else ws[0] + " " + Join(ws[1..])
  }

  /** A string with no leading, trailing or repeated whitespace, and no
      whitespace other than the plain space. */
  predicate IsNormalised(s: string) {
    && (forall i :: 0 <= i < |s| ==> IsSpace(s[i]) ==> s[i] == ' ')
    && (|s| > 0 ==> s[0] != ' ' && s[|s| - 1] != ' ')
    && (forall i :: 0 <= i < |s| - 1 ==> s[i] == ' ' ==> s[i + 1] != ' ')
  }

  /** `' '.join(s.split())` */
  function Normalise(s: string): string {
    Join(Split(s))
  }

  lemma {:induction false} JoinOfWords(ws: seq<string>)
    requires forall k :: 0 <= k < |ws| ==> IsWord(ws[k])
    ensures IsNormalised(Join(ws))
    ensures |ws| > 0 ==> |Join(ws)| > 0
  {
    if |ws| > 1 {
      var w, j := ws[0], Join(ws[1..]);
      JoinOfWords(ws[1..]);
      var s := w + " " + j;
      assert Join(ws) == s;
      forall i | 0 <= i < |s| && IsSpace(s[i]) ensures s[i] == ' ' {
        if i > |w| {
          assert s[i] == j[i - |w| - 1];
        }
      }
      forall i | 0 <= i < |s| - 1 && s[i] == ' ' ensures s[i + 1] != ' ' {
        if i == |w| {
          assert s[i + 1] == j[0];
        } else if i > |w| {
          assert s[i] == j[i - |w| - 1] && s[i + 1] == j[i - |w|];
        }
      }
    }
  }

  lemma {:induction false} SplitJoin(ws: seq<string>)
    requires forall k :: 0 <= k < |ws| ==> IsWord(ws[k])
    ensures Split(Join(ws)) == ws
  {
    if |ws| == 0 {
    } else if |ws| == 1 {
      SplitWord(ws[0]);
    } else {
      var w, j := ws[0], Join(ws[1..]);
      SplitJoin(ws[1..]);
      SplitWordThenSpace(w, j);
      assert Join(ws) == w + (" " + j);
      assert ws == [w] + ws[1..];
    }
  }

  lemma SplitWord(w: string)
    requires IsWord(w)
    ensures Split(w) == [w]
  {
    assert w + [] == w;
    WordLengthOfWord(w, []);
    assert w[..|w|] == w && w[|w|..] == [];
  }

  lemma {:induction false} WordLengthOfWord(w: string, rest: string)
    requires forall i :: 0 <= i < |w| ==> !IsSpace(w[i])
    requires rest == [] || IsSpace(rest[0])
    ensures WordLength(w + rest) == |w|
  {
    if |w| > 0 {
      WordLengthOfWord(w[1..], rest);
      assert (w + rest)[1..] == w[1..] + rest;
    }
  }

  lemma SplitWordThenSpace(w: string, j: string)
    requires IsWord(w)
    ensures Split(w + (" " + j)) == [w] + Split(j)
  {
    var s := w + (" " + j);
    WordLengthOfWord(w, " " + j);
    assert s[..|w|] == w;
    assert s[|w|..] == " " + j;
    assert (" " + j)[1..] == j;
  }

  /** Normalising twice is the same as normalising once: the tokens of the
      normalised text are the tokens of the original. */
  lemma NormaliseIdempotent(s: string)
    ensures Split(Normalise(s)) == Split(s)
    ensures Normalise(Normalise(s)) == Normalise(s)
    ensures IsNormalised(Normalise(s))
  {
    SplitJoin(Split(s));
    JoinOfWords(Split(s));
  }

  /** A string has no tokens exactly when it is all whitespace. */
  lemma {:induction false} SplitEmpty(s: string)
    ensures Split(s) == [] <==> AllSpace(s)
    decreases |s|
  {
    if |s| > 0 {
      if IsSpace(s[0]) {
        SplitEmpty(s[1..]);
        assert AllSpace(s) <==> AllSpace(s[1..]) by {
          if AllSpace(s[1..]) {
            forall i | 0 <= i < |s| ensures IsSpace(s[i]) {
              if i > 0 { assert s[i] == s[1..][i - 1]; }
            }
          }
        }
      }
    }
  }

  // ---------------------------------------------------------------------------
  // lower

  function LowerChar(c: char): char {
    if 'A' <= c <= 'Z' then (c as int + 32) as char else c
  }

  /** `s.lower()` on ASCII letters. */
  function Lower(s: string): (r: string)
    ensures |r| == |s|
  {
    seq(|s|, i requires 0 <= i < |s| => LowerChar(s[i]))
  }

  predicate HasNoCapitals(s: string) {
    forall k :: 0 <= k < |s| ==> !('A' <= s[k] <= 'Z')
  }

  /** Lower-casing leaves exactly the strings without capitals unchanged,
      and its result has none, so doing it twice is doing it once. */
  lemma LowerFixed(s: string)
    ensures Lower(s) == s <==> HasNoCapitals(s)
    ensures HasNoCapitals(Lower(s))
    ensures Lower(Lower(s)) == Lower(s)
  {
    if !HasNoCapitals(s) {
      var k :| 0 <= k < |s| && 'A' <= s[k] <= 'Z';
      assert Lower(s)[k] != s[k];
    }
  }

  // ---------------------------------------------------------------------------
  // decimal numbers

  function DigitChar(d: nat): char
    requires d < 10
  {
    ('0' as int + d) as char
  }

  function DigitValue(c: char): nat
    requires IsDigit(c)
  {
    c as int - '0' as int
  }

  /** The value of a string of decimal digits. */
  function DecimalValue(s: string): nat
    requires AllDigits(s)
  {
    if |s| == 0 then 0 else 10 * DecimalValue(s[..|s| - 1]) + DigitValue(s[|s| - 1])
  }

  /** `str(n)` for a non-negative integer. */
  function NatToString(n: nat): (s: string)
    ensures |s| > 0 && AllDigits(s)
    ensures |s| > 1 ==> s[0] != '0'
    ensures DecimalValue(s) == n
  {
    if n < 10 then [DigitChar(n)]
    else
      var t := NatToString(n / 10);
      var s := t + [DigitChar(n % 10)];
      assert s[..|s| - 1] == t;
      s
  }

  /** `str(n)` is one-to-one. */
  lemma NatToStringInjective(m: nat, n: nat)
    ensures NatToString(m) == NatToString(n) ==> m == n
  {
  }

  /** `str(i)` for any integer. */
  function IntToString(i: int): string {
    if i < 0 then "-" + NatToString(-i) else NatToString(i)
  }

  /** Digits grouped by single underscores, as `int()` accepts: "1_000". */
  predicate IsDigitGroups(s: string) {
    && |s| > 0
    && IsDigit(s[0]) && IsDigit(s[|s| - 1])
    && (forall i :: 0 <= i < |s| ==> IsDigit(s[i]) || s[i] == '_')
    && (forall i :: 0 <= i < |s| - 1 ==> s[i] == '_' ==> s[i + 1] != '_')
  }

  function DropUnderscores(s: string): (r: string)
    ensures (forall i :: 0 <= i < |s| ==> IsDigit(s[i]) || s[i] == '_') ==> AllDigits(r)
    ensures AllDigits(s) ==> r == s
  {
    if |s| == 0 then []
    else (if s[0] == '_' then [] else [s[0]]) + DropUnderscores(s[1..])
  }

  /** `int(t)` on text that has already been stripped: an optional sign and
      underscore-grouped digits. None stands for the ValueError raised on
      anything else. */
  function ParseInt(t: string): (r: Option<int>)
    ensures r.Some? <==> IsDigitGroups(t) || (|t| > 1 && (t[0] == '+' || t[0] == '-') && IsDigitGroups(t[1..]))
    ensures r.Some? ==> |t| > 0 && IsDigit(t[|t| - 1])
    ensures r.Some? ==> forall i :: 0 < i < |t| ==> IsDigit(t[i]) || t[i] == '_'
    ensures r.Some? && r.value < 0 ==> t[0] == '-'
  {
    var signed := |t| > 0 && (t[0] == '+' || t[0] == '-');
    var body := if signed then t[1..] else t;
    if IsDigitGroups(body) then
      var v: int := DecimalValue(DropUnderscores(body));
      Some(if signed && t[0] == '-' then -v else v)
    else
      None
  }

  /** `int(str(i)) == i` */
  lemma ParseIntRoundTrip(i: int)
    ensures ParseInt(IntToString(i)) == Some(i)
  {
    if i < 0 {
      var d := NatToString(-i);
      assert IntToString(i)[1..] == d;
    }
  }
}
