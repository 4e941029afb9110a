/** The free-text extractors of get_meritage_page.py and the patterns the
    row parsers search with, each written as a sequence of pieces of the
    `Regex` fragment and searched with `GroupOf`, the model of
    `re.search(...).group(n)`. */
module Extractors {
  import opened Options
  import opened Patterns
  import opened Text
  import opened Regex

  // ---------------------------------------------------------------------------
  // extract_price (get_meritage_page.py:40-45)

  /** `\$[\d,]+`, reported whole. */
  const PricePattern: seq<Piece> := [Lit("$"), Run(NumberChar, true)]

  /** A dollar sign directly followed by a digit or comma sits at `i`. */
  predicate PriceStartsAt(s: string, i: int) {
    0 <= i && i + 1 < |s| && s[i] == '$' && IsNumberChar(s[i + 1])
  }

  /** A price token: a dollar sign and at least one digit or comma. */
  predicate IsPriceToken(t: string) {
    |t| >= 2 && t[0] == '$' && forall k :: 1 <= k < |t| ==> IsNumberChar(t[k])
  }

  lemma PriceToken(s: string, i: nat, e: nat)
    requires PriceStartsAt(s, i) && e == RunEnd(s, i + 1, NumberChar)
    ensures IsPriceToken(s[i..e])
  {
    var t := s[i..e];
    forall k | 1 <= k < |t| ensures IsNumberChar(t[k]) {
      assert t[k] == s[i + k];
    }
  }

  /** An attempt of the price pattern at `i` succeeds exactly at a dollar
      sign followed by a digit or comma, and reports the dollar sign with the
      whole run of digits and commas after it. */
  lemma {:induction false} PriceAttempt(s: string, i: nat)
    requires i <= |s|
    ensures MatchesAt(PricePattern, s, i) <==> PriceStartsAt(s, i)
    ensures PriceStartsAt(s, i) ==> Group(PricePattern, s, i, 0, 2) == s[i..RunEnd(s, i + 1, NumberChar)]
    ensures PriceStartsAt(s, i) ==> IsPriceToken(Group(PricePattern, s, i, 0, 2))
  {
    if PriceStartsAt(s, i) {
      var e := RunEnd(s, i + 1, NumberChar);
      assert Step(PricePattern[0], s, i) == Some(i + 1);
      assert Step(PricePattern[1], s, i + 1) == Some(e);
      StepsMatch(PricePattern, s, [i, i + 1, e]);
      PriceToken(s, i, e);
    } else if MatchesAt(PricePattern, s, i) {
      PositionsStep(PricePattern, s, i, 0);
      PositionsStep(PricePattern, s, i, 1);
      assert false;
    }
  }

  /** `extract_price(text)`: None for empty text or when no dollar sign is
      followed by a digit or comma; otherwise the leftmost such dollar sign
      with the whole run of digits and commas after it. */
  function ExtractPrice(text: string): (r: Option<string>)
    ensures r.None? <==> forall i :: 0 <= i < |text| ==> !PriceStartsAt(text, i)
    ensures r.Some? ==> IsPriceToken(r.value)
    ensures r.Some? ==> exists i :: && PriceStartsAt(text, i)
                                    && (forall j :: 0 <= j < i ==> !PriceStartsAt(text, j))
                                    && r.value == text[i..RunEnd(text, i + 1, NumberChar)]
  {
    if text == [] then None
    else
      var r := GroupOf(PricePattern, text, 0, 2);
      if r.Some? then
        var i := Find(PricePattern, text).value;
        PriceAttempt(text, i);
        forall j | 0 <= j < i ensures !PriceStartsAt(text, j) {
          PriceAttempt(text, j);
        }
        r
      else
        forall i | 0 <= i < |text| ensures !PriceStartsAt(text, i) {
          PriceAttempt(text, i);
        }
        r
  }

  // ---------------------------------------------------------------------------
  // extract_sqft (get_meritage_page.py:57-62), on the lower-cased text

  /** `([\d,]+)\s*sq\s*ft`, group 1 spanning the first piece. */
  const SqftPattern: seq<Piece> := [Run(NumberChar, true), Run(Space, false), Lit("sq"), Run(Space, false), Lit("ft")]

  /** `t.replace(',', '')` */
  function RemoveCommas(t: string): (r: string)
    ensures forall k :: 0 <= k < |r| ==> r[k] != ','
    ensures (forall k :: 0 <= k < |t| ==> IsNumberChar(t[k])) ==> AllDigits(r)
    ensures r == [] <==> forall k :: 0 <= k < |t| ==> t[k] == ','
  {
    if |t| == 0 then []
    else
      var rest := RemoveCommas(t[1..]);
      assert (forall k :: 0 <= k < |t| ==> t[k] == ',') <==>
             t[0] == ',' && forall k :: 0 <= k < |t[1..]| ==> t[1..][k] == ',';
      (if t[0] == ',' then [] else [t[0]]) + rest
  }

  /** A digit survives the removal of commas. */
  lemma {:induction false} RemoveCommasKeepsDigit(t: string, k: nat)
    requires k < |t| && IsDigit(t[k])
    ensures RemoveCommas(t) != []
  {
    if k > 0 {
      RemoveCommasKeepsDigit(t[1..], k - 1);
    }
  }

  /** `extract_sqft(text)` as written: the leftmost number before "sq ft"
      in the lower-cased text, with its commas removed. A number made only
      of commas yields the empty string. */
  function ExtractSqft(text: string): (r: Option<string>)
    ensures text == [] ==> r.None?
    ensures text != [] ==> (r.None? <==> forall i :: 0 <= i <= |text| ==> !MatchesAt(SqftPattern, Lower(text), i))
    ensures r.Some? ==> AllDigits(r.value)
    ensures r.Some? ==> exists i :: && FoundAt(SqftPattern, Lower(text), i)
                                    && r.value == RemoveCommas(Lower(text)[i..RunEnd(Lower(text), i, NumberChar)])
  {
    if text == [] then None
    else
      match RunGroupOf(SqftPattern, Lower(text), 0)
      case None => None
      case Some(g) => Some(RemoveCommas(g))
  }

  /** A number, "sq" and "ft", with only whitespace between them, at `i`
      of `s`, with no digit or comma before `i`, is the match: the number
      spans `i..n` and the words begin at `a` and at `b`. */
  lemma SqftAt(s: string, i: nat, n: nat, a: nat, b: nat)
    requires i < n <= a && a + 2 <= b && b + 2 <= |s|
    requires forall k :: 0 <= k < i ==> !IsNumberChar(s[k])
    requires forall k :: i <= k < n ==> IsNumberChar(s[k])
    requires forall k :: n <= k < a ==> IsSpace(s[k])
    requires forall k :: a + 2 <= k < b ==> IsSpace(s[k])
    requires s[a] == 's' && s[a + 1] == 'q' && s[b] == 'f' && s[b + 1] == 't'
    ensures FoundAt(SqftPattern, s, i) && Group(SqftPattern, s, i, 0, 1) == s[i..n]
  {
    var t := [i, n, a, a + 2, b, b + 2];
    assert s[b..b + 2] == "ft";
    LitStep(s, b, "ft");
    assert Chain(SqftPattern, s, t, 4);
    RunStep(s, a + 2, b, Space, false);
    assert Chain(SqftPattern, s, t, 3);
    assert s[a..a + 2] == "sq";
    LitStep(s, a, "sq");
    assert Chain(SqftPattern, s, t, 2);
    RunStep(s, n, a, Space, false);
    assert Chain(SqftPattern, s, t, 1);
    RunStep(s, i, n, NumberChar, true);
    ChainMatch(SqftPattern, s, t);
    GroupFromPositions(SqftPattern, s, i, t, 0, 1);
    NoRunBefore(SqftPattern, s, i);
  }

  /** Lower-casing neither makes nor unmakes a digit or a comma. */
  lemma LowerNumberChar(c: char)
    ensures IsNumberChar(LowerChar(c)) <==> IsNumberChar(c)
    ensures IsNumberChar(c) ==> LowerChar(c) == c
  {
  }

  /** Where the parts of `p + d + " sq ft" + q` sit once it is lower-cased. */
  lemma SqftPhraseLayout(p: string, d: string, q: string)
    requires forall k :: 0 <= k < |p| ==> !IsNumberChar(p[k])
    requires |d| > 0 && forall k :: 0 <= k < |d| ==> IsNumberChar(d[k])
    ensures var s := Lower(p + d + " sq ft" + q); var i := |p|; var n := i + |d|;
      && |s| == n + 6 + |q|
      && (forall k :: 0 <= k < i ==> !IsNumberChar(s[k]))
      && s[i..n] == d && (forall k :: i <= k < n ==> IsNumberChar(s[k]))
      && s[n] == ' ' && s[n + 1] == 's' && s[n + 2] == 'q' && s[n + 3] == ' ' && s[n + 4] == 'f' && s[n + 5] == 't'
  {
    var u := p + d + " sq ft" + q;
    var s := Lower(u);
    var i := |p|;
    var n := i + |d|;
    forall k | 0 <= k < i
      ensures !IsNumberChar(s[k])
    {
      assert u[k] == p[k];
      LowerNumberChar(u[k]);
    }
    forall k | i <= k < n
      ensures s[k] == d[k - i]
    {
      assert u[k] == d[k - i];
      LowerNumberChar(u[k]);
    }
    assert s[i..n] == d;
    assert u[n..n + 6] == " sq ft";
    assert u[n] == ' ' && u[n + 1] == 's' && u[n + 2] == 'q' && u[n + 3] == ' ' && u[n + 4] == 'f' && u[n + 5] == 't';
  }

  /** On a text without capitals that starts with a number, "sq" and "ft",
      `extract_sqft` reads back that number without its commas. */
  lemma ExtractSqftAt(s: string, n: nat, a: nat, b: nat)
    requires HasNoCapitals(s)
    requires 0 < n <= a && a + 2 <= b && b + 2 <= |s|
    requires forall k :: 0 <= k < n ==> IsNumberChar(s[k])
    requires forall k :: n <= k < a ==> IsSpace(s[k])
    requires forall k :: a + 2 <= k < b ==> IsSpace(s[k])
    requires s[a] == 's' && s[a + 1] == 'q' && s[b] == 'f' && s[b + 1] == 't'
    ensures ExtractSqft(s) == Some(RemoveCommas(s[..n]))
  {
    assert GroupOf(SqftPattern, s, 0, 1) == Some(s[..n]) by {
      SqftAt(s, 0, n, a, b);
      GroupAt(SqftPattern, s, 0, 1, 0);
    }
    LowerFixed(s);
    assert Lower(s) == s;
  }

  /** A number written before " sq ft", after text with no digit or comma
      in it, is read back without its commas, whatever the case of the
      letters around it. */
  lemma ExtractSqftOfPhrase(p: string, d: string, q: string)
    requires forall k :: 0 <= k < |p| ==> !IsNumberChar(p[k])
    requires |d| > 0 && forall k :: 0 <= k < |d| ==> IsNumberChar(d[k])
    ensures ExtractSqft(p + d + " sq ft" + q) == Some(RemoveCommas(d))
  {
    var u := p + d + " sq ft" + q;
    var s := Lower(u);
    assert RunGroupOf(SqftPattern, s, 0) == Some(d) by {
      SqftPhraseGroup(p, d, q);
    }
    assert u != [];
  }

  /** The number of `p + d + " sq ft" + q` is the group of the lower-cased
      text's match. */
  lemma SqftPhraseGroup(p: string, d: string, q: string)
    requires forall k :: 0 <= k < |p| ==> !IsNumberChar(p[k])
    requires |d| > 0 && forall k :: 0 <= k < |d| ==> IsNumberChar(d[k])
    ensures GroupOf(SqftPattern, Lower(p + d + " sq ft" + q), 0, 1) == Some(d)
  {
    var s := Lower(p + d + " sq ft" + q);
    var i := |p|;
    var n := |p| + |d|;
    SqftPhraseLayout(p, d, q);
    assert i < n && n + 6 <= |s|;
    assert forall k :: 0 <= k < i ==> !IsNumberChar(s[k]);
    assert forall k :: i <= k < n ==> IsNumberChar(s[k]);
    assert s[n] == ' ' && s[n + 1] == 's' && s[n + 2] == 'q' && s[n + 3] == ' ' && s[n + 4] == 'f' && s[n + 5] == 't';
    assert s[i..n] == d;
    SqftPhraseAt(s, i, n);
  }

  /** A number at `i..n` followed by " sq ft", with no digit or comma
      before it, is the group of the match. */
  lemma SqftPhraseAt(s: string, i: nat, n: nat)
    requires i < n && n + 6 <= |s|
    requires forall k :: 0 <= k < i ==> !IsNumberChar(s[k])
    requires forall k :: i <= k < n ==> IsNumberChar(s[k])
    requires s[n] == ' ' && s[n + 1] == 's' && s[n + 2] == 'q' && s[n + 3] == ' ' && s[n + 4] == 'f' && s[n + 5] == 't'
    ensures GroupOf(SqftPattern, s, 0, 1) == Some(s[i..n])
  {
    SqftAt(s, i, n, n + 1, n + 4);
    GroupAt(SqftPattern, s, 0, 1, i);
  }

  /** `extract_sqft` returns the empty string, not None, when the number
      before "sq ft" is made only of commas. */
  lemma ExtractSqftCommasOnly(c: string)
    requires |c| > 0 && forall k :: 0 <= k < |c| ==> c[k] == ','
    ensures ExtractSqft(c + "sq ft") == Some([])
  {
    var s := c + "sq ft";
    var n := |c|;
    assert forall k :: 0 <= k < n ==> s[k] == c[k];
    assert s[..n] == c;
    assert s[n] == 's' && s[n + 1] == 'q' && s[n + 2] == ' ' && s[n + 3] == 'f' && s[n + 4] == 't';
    assert HasNoCapitals(s);
    ExtractSqftAt(s, n, n, n + 3);
  }

  /** The evidently intended `extract_sqft`: a number with no digit in it
      counts as no match, so a result is a non-empty string of digits. */
  function ExtractSqftDigits(text: string): (r: Option<string>)
    ensures r.Some? ==> |r.value| > 0 && AllDigits(r.value)
    ensures r.Some? ==> ExtractSqft(text) == r
    ensures r.None? ==> ExtractSqft(text).None? || ExtractSqft(text) == Some([])
  {
    match ExtractSqft(text)
    case Some(d) => if d == [] then None else Some(d)
    case None => None
  }

  /** On every phrase whose number holds a digit, after text with no digit
      or comma in it, the corrected extractor reads the number back. */
  lemma ExtractSqftDigitsOfPhrase(p: string, d: string, q: string)
    requires forall k :: 0 <= k < |p| ==> !IsNumberChar(p[k])
    requires |d| > 0 && forall k :: 0 <= k < |d| ==> IsNumberChar(d[k])
    requires exists k :: 0 <= k < |d| && IsDigit(d[k])
    ensures ExtractSqftDigits(p + d + " sq ft" + q) == Some(RemoveCommas(d))
  {
    ExtractSqftOfPhrase(p, d, q);
    var k :| 0 <= k < |d| && IsDigit(d[k]);
    RemoveCommasKeepsDigit(d, k);
  }

  /** On a number made only of commas, the corrected extractor finds none. */
  lemma ExtractSqftDigitsCommasOnly(c: string)
    requires |c| > 0 && forall k :: 0 <= k < |c| ==> c[k] == ','
    ensures ExtractSqftDigits(c + "sq ft") == None
  {
    ExtractSqftCommasOnly(c);
  }

  // ---------------------------------------------------------------------------
  // extract_beds_baths (get_meritage_page.py:47-55), case-sensitive

  /** `(\d+)\s*(?:Bedroom|Bed|BR)`, group 1 spanning the first piece. */
  const BedsPattern: seq<Piece> := [Run(Digit, true), Run(Space, false), Alt(["Bedroom", "Bed", "BR"])]

  /** `(\d+(?:\.\d+)?)\s*(?:Bathroom|Bath|BA)`, group 1 spanning the first
      two pieces. */
  const BathsPattern: seq<Piece> := [Run(Digit, true), Opt('.', Digit), Run(Space, false), Alt(["Bathroom", "Bath", "BA"])]

  /** A whole number, or a whole number, a dot and a fraction: digits and
      at most one dot, which is neither first nor last. */
  predicate IsDecimalNumber(t: string) {
    && |t| > 0 && IsDigit(t[0]) && IsDigit(t[|t| - 1])
    && (forall k :: 0 <= k < |t| ==> IsDigit(t[k]) || t[k] == '.')
    && (forall j, k :: 0 <= j < k < |t| && t[j] == '.' ==> t[k] != '.')
  }

  /** The group of a successful bathroom attempt is a decimal number. */
  lemma BathsGroup(s: string, i: nat)
    requires MatchesAt(BathsPattern, s, i)
    ensures IsDecimalNumber(Group(BathsPattern, s, i, 0, 2))
    ensures OccursAt(s, Group(BathsPattern, s, i, 0, 2), i)
  {
    BathsDecimal(s, i);
    GroupOccurs(BathsPattern, s, i, 2);
  }

  /** A group that starts with the match occurs where the match starts. */
  lemma GroupOccurs(ps: seq<Piece>, s: string, i: nat, b: nat)
    requires MatchesAt(ps, s, i) && b <= |ps|
    ensures OccursAt(s, Group(ps, s, i, 0, b), i)
  {
    GroupSpan(ps, s, i, 0, b);
  }

  /** The first two pieces of a bathroom match span a decimal number. */
  lemma BathsDecimal(s: string, i: nat)
    requires MatchesAt(BathsPattern, s, i)
    ensures IsDecimalNumber(Group(BathsPattern, s, i, 0, 2))
  {
    var w := Group(BathsPattern, s, i, 0, 1);
    var f := Group(BathsPattern, s, i, 1, 2);
    assert |w| > 0 && AllDigits(w) by {
      RunGroup(BathsPattern, s, i, 0);
    }
    assert f == [] || (|f| >= 2 && f[0] == '.' && AllDigits(f[1..])) by {
      OptGroup(BathsPattern, s, i, 1);
    }
    GroupSplit(BathsPattern, s, i, 0, 1, 2);
    DecimalOfParts(w, f);
  }

  /** Digits, optionally followed by a dot and more digits, make a decimal
      number. */
  lemma DecimalOfParts(w: string, f: string)
    requires |w| > 0 && AllDigits(w)
    requires f == [] || (|f| >= 2 && f[0] == '.' && AllDigits(f[1..]))
    ensures IsDecimalNumber(w + f)
  {
    var t := w + f;
    assert forall k :: |w| < k < |t| ==> t[k] == f[1..][k - |w| - 1];
  }

  /** The bedroom count of `text`: the digits of the leftmost match. */
  function FindBeds(text: string): (r: Option<string>)
    ensures r.None? <==> forall i :: 0 <= i <= |text| ==> !MatchesAt(BedsPattern, text, i)
    ensures r.Some? ==> |r.value| > 0 && AllDigits(r.value)
    ensures r.Some? ==> exists i :: FoundAt(BedsPattern, text, i) && r.value == text[i..RunEnd(text, i, Digit)]
  {
    RunGroupOf(BedsPattern, text, 0)
  }

  /** The number `t` that occurs in `s` and ends at `e` cannot be read any
      further: no digit follows it, and, when it has no fraction, no dot
      followed by a digit does either. */
  predicate NumberEndsAt(s: string, e: int, t: string) {
    && 0 <= e <= |s|
    && (e == |s| || !IsDigit(s[e]))
    && ('.' !in t ==> !(e + 1 < |s| && s[e] == '.' && IsDigit(s[e + 1])))
  }

  /** The number a bathroom attempt captures is as long as it can be: the
      greedy groups give nothing back. */
  lemma BathsMaximal(s: string, i: nat)
    requires MatchesAt(BathsPattern, s, i)
    ensures NumberEndsAt(s, i + |Group(BathsPattern, s, i, 0, 2)|, Group(BathsPattern, s, i, 0, 2))
  {
    var t := Positions(BathsPattern, s, i);
    PositionsStep(BathsPattern, s, i, 0);
    PositionsStep(BathsPattern, s, i, 1);
    NumberStepsEnd(s, t[0], t[1], t[2]);
    var g := Group(BathsPattern, s, i, 0, 2);
    assert g == s[i..t[2]];
    if t[2] == t[1] {
      assert forall k :: 0 <= k < |g| ==> g[k] == s[i + k] && IsDigit(s[i + k]);
    } else {
      assert g[t[1] - i] == s[t[1]] == '.';
    }
  }

  /** Where the digits and the optional fraction stop, no digit follows,
      and where there is no fraction, no dot and digit follow either. */
  lemma NumberStepsEnd(s: string, a: nat, b: nat, c: nat)
    requires a <= |s| && b <= |s|
    requires Step(Run(Digit, true), s, a) == Some(b) && Step(Opt('.', Digit), s, b) == Some(c)
    ensures a < b <= c <= |s| && (c == |s| || !IsDigit(s[c]))
    ensures c == b ==> !(c + 1 < |s| && s[c] == '.' && IsDigit(s[c + 1]))
    ensures c != b ==> s[b] == '.'
    ensures forall k :: a <= k < b ==> IsDigit(s[k])
  {
  }

  /** `t` is what the leftmost bathroom match, starting at `i`, captures:
      a decimal number written at `i` and read as far as it goes. */
  predicate BathsCapture(text: string, i: int, t: string) {
    && FoundAt(BathsPattern, text, i)
    && IsDecimalNumber(t) && OccursAt(text, t, i) && NumberEndsAt(text, i + |t|, t)
  }

  /** A capture that stops early is not one: a number at the same place
      that goes on is refused by the shorter one's end. */
  lemma CaptureNotPrefix(text: string, i: nat, t: string, u: string)
    requires IsDecimalNumber(t) && IsDecimalNumber(u) && |t| < |u|
    requires OccursAt(text, t, i) && OccursAt(text, u, i)
    ensures !NumberEndsAt(text, i + |t|, t)
  {
    var e := i + |t|;
    assert text[e] == u[|t|];
    assert forall k :: 0 <= k < |t| ==> t[k] == u[k];
    if !IsDigit(text[e]) {
      assert u[|t|] == '.';
      assert u[|t| + 1] != '.';
      assert e + 1 < |text| && IsDigit(text[e + 1]) by {
        assert text[e + 1] == u[|t| + 1];
      }
      assert '.' !in t by {
        forall k | 0 <= k < |t| ensures t[k] != '.' {
          assert u[k] != '.';
        }
      }
    }
  }

  /** The capture is unique: for "2.5 Bath" it is "2.5" and never "2". */
  lemma {:induction false} BathsCaptureUnique(text: string, i: int, j: int, t: string, u: string)
    requires BathsCapture(text, i, t) && BathsCapture(text, j, u)
    ensures i == j && t == u
  {
    assert i == j by {
      FoundAtUnique(BathsPattern, text, i, j);
    }
    SameStartNumber(text, i, t, u);
  }

  /** Two numbers written at the same place, each read as far as it goes,
      are the same number. */
  lemma SameStartNumber(text: string, i: nat, t: string, u: string)
    requires IsDecimalNumber(t) && IsDecimalNumber(u)
    requires OccursAt(text, t, i) && OccursAt(text, u, i)
    requires NumberEndsAt(text, i + |t|, t) && NumberEndsAt(text, i + |u|, u)
    ensures t == u
  {
    if |t| < |u| {
      CaptureNotPrefix(text, i, t, u);
    } else if |u| < |t| {
      CaptureNotPrefix(text, i, u, t);
    } else {
      assert forall k :: 0 <= k < |t| ==> t[k] == text[i + k] == u[k];
    }
  }

  lemma BathsCaptureAt(text: string, i: nat)
    requires FoundAt(BathsPattern, text, i)
    ensures BathsCapture(text, i, Group(BathsPattern, text, i, 0, 2))
  {
    BathsGroup(text, i);
    BathsMaximal(text, i);
  }

  /** The bathroom count of `text`: the number of the leftmost match, with
      its fraction when it has one, read as far as it goes. */
  function FindBaths(text: string): (r: Option<string>)
    ensures r.None? <==> forall i :: 0 <= i <= |text| ==> !MatchesAt(BathsPattern, text, i)
    ensures r.Some? ==> IsDecimalNumber(r.value)
    ensures r.Some? ==> exists i :: BathsCapture(text, i, r.value)
  {
    match Find(BathsPattern, text)
    case None => None
    case Some(i) =>
      BathsCaptureAt(text, i);
      Some(Group(BathsPattern, text, i, 0, 2))
  }

  /** A count, an optional fraction, a space and a bathroom word at `i` of
      `s`, with no digit before `i`, is the match: the count with its
      fraction spans `i..m`. */
  lemma BathsAt(s: string, i: nat, n: nat, m: nat, w: string)
    requires w == "Bathroom" || w == "Bath" || w == "BA"
    requires i < n <= m && m + 1 + |w| <= |s|
    requires forall k :: 0 <= k < i ==> !IsDigit(s[k])
    requires forall k :: i <= k < n ==> IsDigit(s[k])
    requires m == n || (m > n + 1 && s[n] == '.' && forall k :: n < k < m ==> IsDigit(s[k]))
    requires s[m] == ' ' && LitAt(s, m + 1, w)
    ensures FoundAt(BathsPattern, s, i) && Group(BathsPattern, s, i, 0, 2) == s[i..m]
  {
    var t := BathsSteps(s, i, n, m, w);
    StepsMatch(BathsPattern, s, t);
    GroupFromPositions(BathsPattern, s, i, t, 0, 2);
    NoRunBefore(BathsPattern, s, i);
  }

  /** The positions a match of a bathroom phrase at `i` passes through,
      each piece stepping from one to the next. */
  lemma BathsSteps(s: string, i: nat, n: nat, m: nat, w: string) returns (t: seq<nat>)
    requires w == "Bathroom" || w == "Bath" || w == "BA"
    requires i < n <= m && m + 1 + |w| <= |s|
    requires forall k :: i <= k < n ==> IsDigit(s[k])
    requires m == n || (m > n + 1 && s[n] == '.' && forall k :: n < k < m ==> IsDigit(s[k]))
    requires s[m] == ' ' && LitAt(s, m + 1, w)
    ensures |t| == |BathsPattern| + 1 && t[0] == i && t[2] == m
    ensures forall k :: 0 <= k < |BathsPattern| ==> t[k] <= |s| && Step(BathsPattern[k], s, t[k]) == Some(t[k + 1])
  {
    var ps := BathsPattern;
    assert ps[3] == Alt(["Bathroom", "Bath", "BA"]);
    var e := Step(ps[3], s, m + 1);
    assert e.Some? by {
      assert LitAt(s, m + 1, ps[3].options[if w == "Bathroom" then 0 else if w == "Bath" then 1 else 2]);
    }
    t := [i, n, m, m + 1, e.value];
    forall k | 0 <= k < |ps|
      ensures t[k] <= |s| && Step(ps[k], s, t[k]) == Some(t[k + 1])
    {
      if k < 3 {
        BathsNumberStep(s, i, n, m, w, k);
      }
    }
  }

  /** The count, the fraction and the space of a bathroom phrase at `i` are
      one step each. */
  lemma BathsNumberStep(s: string, i: nat, n: nat, m: nat, w: string, k: nat)
    requires |w| > 0 && w[0] == 'B' && k < 3
    requires i < n <= m && m + 1 + |w| <= |s|
    requires forall k :: i <= k < n ==> IsDigit(s[k])
    requires m == n || (m > n + 1 && s[n] == '.' && forall k :: n < k < m ==> IsDigit(s[k]))
    requires s[m] == ' ' && LitAt(s, m + 1, w)
    ensures var t := [i, n, m, m + 1];
            Step(BathsPattern[k], s, t[k]) == Some(t[k + 1])
  {
    var ps := BathsPattern;
    if k == 0 {
      assert ps[0] == Run(Digit, true) && !IsDigit(s[n]);
      RunStep(s, i, n, Digit, true);
    } else if k == 1 {
      assert ps[1] == Opt('.', Digit);
      if m > n {
        RunEndAt(s, n + 1, m, Digit);
      }
    } else {
      assert ps[2] == Run(Space, false);
      LitHead(s, m + 1, w);
      RunStep(s, m, m + 1, Space, false);
    }
  }

  /** A count, with or without a fraction, written before " Bath", " BA"
      or " Bathroom", after text with no digit in it, is read back whole. */
  lemma FindBathsOfPhrase(p: string, d: string, f: string, w: string, q: string)
    requires forall k :: 0 <= k < |p| ==> !IsDigit(p[k])
    requires |d| > 0 && AllDigits(d)
    requires f == [] || (|f| >= 2 && f[0] == '.' && AllDigits(f[1..]))
    requires w == "Bathroom" || w == "Bath" || w == "BA"
    ensures FindBaths(p + d + f + " " + w + q) == Some(d + f)
  {
    var s := p + d + f + " " + w + q;
    var i, n, m := |p|, |p| + |d|, |p| + |d| + |f|;
    assert s[i..m] == d + f && s[m] == ' ' && s[m + 1..m + 1 + |w|] == w;
    assert LitAt(s, m + 1, w);
    assert forall k :: 0 <= k < i ==> s[k] == p[k];
    assert forall k :: i <= k < n ==> s[k] == d[k - i];
    assert forall k :: n < k < m ==> s[k] == f[1..][k - n - 1];
    BathsAt(s, i, n, m, w);
    FoundAtUnique(BathsPattern, s, i, Find(BathsPattern, s).value);
  }

  /** `extract_beds_baths(text)`: both counts are None for empty text, and
      otherwise each is the group of its own leftmost match. */
  function ExtractBedsBaths(text: string): (r: (Option<string>, Option<string>))
    ensures text == [] ==> r == (None, None)
    ensures text != [] ==> (r.0.None? <==> forall i :: 0 <= i <= |text| ==> !MatchesAt(BedsPattern, text, i))
    ensures text != [] ==> (r.1.None? <==> forall i :: 0 <= i <= |text| ==> !MatchesAt(BathsPattern, text, i))
    ensures r.0.Some? ==> |r.0.value| > 0 && AllDigits(r.0.value)
    ensures r.0.Some? ==> exists i :: FoundAt(BedsPattern, text, i) && r.0.value == text[i..RunEnd(text, i, Digit)]
    ensures r.1.Some? ==> IsDecimalNumber(r.1.value)
    ensures r.1.Some? ==> exists i :: BathsCapture(text, i, r.1.value)
  {
    if text == [] then (None, None) else (FindBeds(text), FindBaths(text))
  }

  /** A count, a space and "Bedroom", "Bed" or "BR" at `i` of `s`, with no
      digit before `i`, is the match: the count spans `i..n`. */
  lemma BedsAt(s: string, i: nat, n: nat, w: string)
    requires w == "Bedroom" || w == "Bed" || w == "BR"
    requires i < n && n + 1 + |w| <= |s|
    requires forall k :: 0 <= k < i ==> !IsDigit(s[k])
    requires forall k :: i <= k < n ==> IsDigit(s[k])
    requires s[n] == ' ' && LitAt(s, n + 1, w)
    ensures FoundAt(BedsPattern, s, i) && Group(BedsPattern, s, i, 0, 1) == s[i..n]
  {
    var ps := BedsPattern;
    assert ps[2] == Alt(["Bedroom", "Bed", "BR"]);
    LitHead(s, n + 1, w);
    RunStep(s, i, n, Digit, true);
    RunStep(s, n, n + 1, Space, false);
    var e := Step(ps[2], s, n + 1);
    assert e.Some? by {
      assert LitAt(s, n + 1, ps[2].options[if w == "Bedroom" then 0 else if w == "Bed" then 1 else 2]);
    }
    StepsMatch(ps, s, [i, n, n + 1, e.value]);
    NoRunBefore(ps, s, i);
  }

  /** A count written before " Bedroom", " Bed" or " BR", after text with no
      digit in it, is read back. */
  lemma FindBedsOfPhrase(p: string, d: string, w: string, q: string)
    requires forall k :: 0 <= k < |p| ==> !IsDigit(p[k])
    requires |d| > 0 && AllDigits(d)
    requires w == "Bedroom" || w == "Bed" || w == "BR"
    ensures FindBeds(p + d + " " + w + q) == Some(d)
  {
    var s := p + d + " " + w + q;
    var i, n := |p|, |p| + |d|;
    assert s[i..n] == d && s[n] == ' ' && s[n + 1..n + 1 + |w|] == w;
    assert LitAt(s, n + 1, w);
    assert forall k :: 0 <= k < i ==> s[k] == p[k];
    assert forall k :: i <= k < n ==> s[k] == d[k - i];
    BedsAt(s, i, n, w);
    GroupAt(BedsPattern, s, 0, 1, i);
  }

  /** Every bedroom match holds a capital 'B': a text without one has no
      bedroom count. */
  lemma NoBedsWithoutCapital(s: string)
    requires forall k :: 0 <= k < |s| ==> s[k] != 'B'
    ensures FindBeds(s) == None
  {
    forall i | 0 <= i <= |s| ensures !MatchesAt(BedsPattern, s, i) {
      NoBedsAttempt(s, i);
    }
  }

  /** No bedroom attempt succeeds in a text without a capital 'B'. */
  lemma NoBedsAttempt(s: string, i: nat)
    requires i <= |s| && forall k :: 0 <= k < |s| ==> s[k] != 'B'
    ensures !MatchesAt(BedsPattern, s, i)
  {
    var units := BedsPattern[2].options;
    assert units == ["Bedroom", "Bed", "BR"];
    assert forall m :: 0 <= m < |units| ==> |units[m]| > 0 && units[m][0] == 'B';
    if MatchesAt(BedsPattern, s, i) {
      AltStart(BedsPattern, s, i, 2, 'B');
      assert false;
    }
  }

  /** The unit words are matched case-sensitively: a count followed by
      " bed" is no bedroom count. */
  lemma BedsCaseSensitive(d: string)
    requires |d| > 0 && AllDigits(d)
    ensures ExtractBedsBaths(d + " bed").0 == None
  {
    var s := d + " bed";
    assert forall k :: 0 <= k < |d| ==> s[k] == d[k];
    assert forall k :: |d| <= k < |s| ==> s[k] == " bed"[k - |d|];
    NoBedsWithoutCapital(s);
  }

  // ---------------------------------------------------------------------------
  // Row details (get_meritage_page.py:245-247 and 345-348)

  /** `<word>\s+(\d+)`, group 1 spanning the last piece. */
  function CountedPattern(word: string): seq<Piece> {
    [Lit(word), Run(Space, true), Run(Digit, true)]
  }

  /** `re.search(word + r'\s+(\d+)', text).group(1)`, or None. */
  function CountAfter(text: string, word: string): (r: Option<string>)
    ensures r.None? <==> forall i :: 0 <= i <= |text| ==> !MatchesAt(CountedPattern(word), text, i)
    ensures r.Some? ==> |r.value| > 0 && AllDigits(r.value)
    ensures r.Some? ==> exists i :: && FoundAt(CountedPattern(word), text, i)
                                    && var j := Positions(CountedPattern(word), text, i)[2];
                                       r.value == text[j..RunEnd(text, j, Digit)]
  {
    var r := RunGroupOf(CountedPattern(word), text, 2);
    if r.Some? then
      assert FoundAt(CountedPattern(word), text, Find(CountedPattern(word), text).value);
      r
    else r
  }

  /** No attempt of a pattern that opens with a literal succeeds before
      `i` when the text up to the last character of the literal placed at
      `i` holds no occurrence of the literal. */
  lemma NoEarlierMatch(ps: seq<Piece>, s: string, i: nat)
    requires |ps| > 0 && ps[0].Lit? && |ps[0].text| > 0 && i + |ps[0].text| <= |s|
    requires !Contains(s[..i + |ps[0].text| - 1], ps[0].text)
    ensures forall j :: 0 <= j < i ==> !MatchesAt(ps, s, j)
  {
    var w := ps[0].text;
    var h := s[..i + |w| - 1];
    forall j | 0 <= j < i ensures !MatchesAt(ps, s, j) {
      if MatchesAt(ps, s, j) {
        PositionsStep(ps, s, j, 0);
        assert s[j..j + |w|] == w;
        assert h[j..j + |w|] == s[j..j + |w|];
        assert OccursAt(h, w, j);
      }
    }
  }

  /** The word, whitespace and a count at `i` is a match. */
  lemma CountedAt(s: string, word: string, i: nat, b: nat, c: nat)
    requires i + |word| < b < c <= |s| && s[i..i + |word|] == word
    requires forall k :: i + |word| <= k < b ==> IsSpace(s[k])
    requires forall k :: b <= k < c ==> IsDigit(s[k])
    requires c == |s| || !IsDigit(s[c])
    ensures MatchesAt(CountedPattern(word), s, i) && Group(CountedPattern(word), s, i, 2, 3) == s[b..c]
  {
    var ps := CountedPattern(word);
    var a := i + |word|;
    var t := [i, a, b, c];
    RunStep(s, b, c, Digit, true);
    assert Chain(ps, s, t, 2);
    RunStep(s, a, b, Space, true);
    assert Chain(ps, s, t, 1);
    LitStep(s, i, word);
    ChainMatch(ps, s, t);
    GroupFromPositions(ps, s, i, t, 2, 3);
  }

  /** A count written after its word and some whitespace is read back, when
      the word occurs nowhere before it. */
  lemma CountAfterOfPhrase(p: string, word: string, sp: string, d: string, q: string)
    requires |word| > 0 && !Contains(p + word[..|word| - 1], word)
    requires |sp| > 0 && AllSpace(sp)
    requires |d| > 0 && AllDigits(d)
    requires q == [] || !IsDigit(q[0])
    ensures CountAfter(p + word + sp + d + q, word) == Some(d)
  {
    var s := p + word + sp + d + q;
    var i := |p|;
    var b := i + |word| + |sp|;
    var c := b + |d|;
    assert s[i..i + |word|] == word && s[b..c] == d;
    assert s[..i + |word| - 1] == p + word[..|word| - 1];
    assert forall k :: i + |word| <= k < b ==> s[k] == sp[k - i - |word|];
    assert forall k :: b <= k < c ==> s[k] == d[k - b];
    assert c < |s| ==> s[c] == q[0];
    CountedAt(s, word, i, b, c);
    NoEarlierMatch(CountedPattern(word), s, i);
    GroupAt(CountedPattern(word), s, 2, 3, i);
  }

  /** `Approx\.\s+([\d,]+)\s+sq\.\s+ft\.`, group 1 spanning the third piece. */
  const ApproxPattern: seq<Piece> :=
    [Lit("Approx."), Run(Space, true), Run(NumberChar, true), Run(Space, true), Lit("sq."), Run(Space, true), Lit("ft.")]

  /** The number of the leftmost "Approx. N sq. ft." phrase, commas kept. */
  function ApproxArea(text: string): (r: Option<string>)
    ensures r.None? <==> forall i :: 0 <= i <= |text| ==> !MatchesAt(ApproxPattern, text, i)
    ensures r.Some? ==> |r.value| > 0 && forall k :: 0 <= k < |r.value| ==> IsNumberChar(r.value[k])
    ensures r.Some? ==> exists i :: && FoundAt(ApproxPattern, text, i)
                                    && var j := Positions(ApproxPattern, text, i)[2];
                                       r.value == text[j..RunEnd(text, j, NumberChar)]
  {
    var r := RunGroupOf(ApproxPattern, text, 2);
    if r.Some? then
      assert FoundAt(ApproxPattern, text, Find(ApproxPattern, text).value);
      r
    else r
  }

  /** Where each piece of a match of "Approx. N sq. ft." at `i` stops, the
      number being `n` characters long. */
  function ApproxPositions(i: nat, n: nat): (t: seq<nat>)
    ensures |t| == |ApproxPattern| + 1 && t[0] == i
  {
    [i, i + 7, i + 8, i + 8 + n, i + 9 + n, i + 12 + n, i + 13 + n, i + 16 + n]
  }

  /** The first three pieces of the area pattern step over "Approx. N"
      written at `i`. */
  lemma ApproxHeadStep(s: string, i: nat, n: nat, k: nat)
    requires 0 < n && i + 9 + n <= |s| && k < 3
    requires LitAt(s, i, "Approx.") && s[i + 7] == ' '
    requires forall k :: i + 8 <= k < i + 8 + n ==> IsNumberChar(s[k])
    requires s[i + 8 + n] == ' '
    ensures var t := ApproxPositions(i, n);
            t[k] <= |s| && Step(ApproxPattern[k], s, t[k]) == Some(t[k + 1])
  {
    var ps, t := ApproxPattern, ApproxPositions(i, n);
    if k == 0 {
      assert ps[0] == Lit("Approx.") && t[0] == i && t[1] == i + 7;
      LitStep(s, i, "Approx.");
    } else if k == 1 {
      assert ps[1] == Run(Space, true) && t[1] == i + 7 && t[2] == i + 8;
      RunOneStep(s, i + 7, Space);
    } else {
      assert ps[2] == Run(NumberChar, true) && t[2] == i + 8 && t[3] == i + 8 + n;
      RunStep(s, i + 8, i + 8 + n, NumberChar, true);
    }
  }

  /** The last four pieces of the area pattern step over " sq. ft." written
      after a number of `n` characters at `i + 8`. */
  lemma ApproxTailStep(s: string, i: nat, n: nat, k: nat)
    requires i + 16 + n <= |s| && 3 <= k < 7
    requires s[i + 8 + n] == ' ' && LitAt(s, i + 9 + n, "sq.") && s[i + 12 + n] == ' ' && LitAt(s, i + 13 + n, "ft.")
    ensures var t := ApproxPositions(i, n);
            t[k] <= |s| && Step(ApproxPattern[k], s, t[k]) == Some(t[k + 1])
  {
    var ps, t := ApproxPattern, ApproxPositions(i, n);
    if k == 3 {
      assert ps[3] == Run(Space, true) && t[3] == i + 8 + n && t[4] == i + 9 + n;
      LitHead(s, i + 9 + n, "sq.");
      RunOneStep(s, i + 8 + n, Space);
    } else if k == 4 {
      assert ps[4] == Lit("sq.") && t[4] == i + 9 + n && t[5] == i + 12 + n;
      LitStep(s, i + 9 + n, "sq.");
    } else if k == 5 {
      assert ps[5] == Run(Space, true) && t[5] == i + 12 + n && t[6] == i + 13 + n;
      LitHead(s, i + 13 + n, "ft.");
      RunOneStep(s, i + 12 + n, Space);
    } else {
      assert ps[6] == Lit("ft.") && t[6] == i + 13 + n && t[7] == i + 16 + n;
      LitStep(s, i + 13 + n, "ft.");
    }
  }

  /** "Approx. N sq. ft." at `i` is a match. */
  lemma ApproxAt(s: string, i: nat, n: nat)
    requires 0 < n && i + 16 + n <= |s|
    requires LitAt(s, i, "Approx.") && s[i + 7] == ' '
    requires forall k :: i + 8 <= k < i + 8 + n ==> IsNumberChar(s[k])
    requires s[i + 8 + n] == ' ' && LitAt(s, i + 9 + n, "sq.") && s[i + 12 + n] == ' ' && LitAt(s, i + 13 + n, "ft.")
    ensures MatchesAt(ApproxPattern, s, i) && Group(ApproxPattern, s, i, 2, 3) == s[i + 8..i + 8 + n]
  {
    var t := ApproxPositions(i, n);
    ApproxSteps(s, i, n);
    StepsMatch(ApproxPattern, s, t);
    GroupFromPositions(ApproxPattern, s, i, t, 2, 3);
  }

  /** Every piece of the area pattern steps over its part of "Approx. N sq.
      ft." written at `i`. */
  lemma ApproxSteps(s: string, i: nat, n: nat)
    requires 0 < n && i + 16 + n <= |s|
    requires LitAt(s, i, "Approx.") && s[i + 7] == ' '
    requires forall k :: i + 8 <= k < i + 8 + n ==> IsNumberChar(s[k])
    requires s[i + 8 + n] == ' ' && LitAt(s, i + 9 + n, "sq.") && s[i + 12 + n] == ' ' && LitAt(s, i + 13 + n, "ft.")
    ensures var t := ApproxPositions(i, n);
            forall k :: 0 <= k < |ApproxPattern| ==> t[k] <= |s| && Step(ApproxPattern[k], s, t[k]) == Some(t[k + 1])
  {
    var t := ApproxPositions(i, n);
    forall k | 0 <= k < |ApproxPattern|
      ensures t[k] <= |s| && Step(ApproxPattern[k], s, t[k]) == Some(t[k + 1])
    {
      if k < 3 {
        ApproxHeadStep(s, i, n, k);
      } else {
        ApproxTailStep(s, i, n, k);
      }
    }
  }

  /** Where the parts of `p + "Approx. " + d + " sq. ft." + q` sit. */
  lemma ApproxLayout(p: string, d: string, q: string)
    requires |d| > 0 && forall k :: 0 <= k < |d| ==> IsNumberChar(d[k])
    ensures var s := p + "Approx. " + d + " sq. ft." + q;
            var i, n := |p|, |d|;
            && i + 16 + n <= |s|
            && LitAt(s, i, "Approx.") && s[i + 7] == ' ' && s[i + 8..i + 8 + n] == d
            && s[..i + 6] == p + "Approx"
            && s[i + 8 + n] == ' ' && LitAt(s, i + 9 + n, "sq.") && s[i + 12 + n] == ' '
            && LitAt(s, i + 13 + n, "ft.")
            && forall k :: i + 8 <= k < i + 8 + n ==> IsNumberChar(s[k])
  {
    var s := p + "Approx. " + d + " sq. ft." + q;
    var i, n := |p|, |d|;
    assert s[i..i + 8] == "Approx. ";
    assert s[i..i + 7] == "Approx.";
    assert s[..i + 6] == p + "Approx";
    assert s[i + 8 + n..i + 16 + n] == " sq. ft.";
    assert s[i + 9 + n..i + 12 + n] == "sq.";
    assert s[i + 13 + n..i + 16 + n] == "ft.";
    assert forall k :: i + 8 <= k < i + 8 + n ==> s[k] == d[k - i - 8];
  }

  /** The area written in "Approx. N sq. ft." is read back, commas kept,
      when "Approx." occurs nowhere before it. */
  lemma ApproxAreaOfPhrase(p: string, d: string, q: string)
    requires !Contains(p + "Approx", "Approx.")
    requires |d| > 0 && forall k :: 0 <= k < |d| ==> IsNumberChar(d[k])
    ensures ApproxArea(p + "Approx. " + d + " sq. ft." + q) == Some(d)
  {
    var s := p + "Approx. " + d + " sq. ft." + q;
    var i, n := |p|, |d|;
    ApproxLayout(p, d, q);
    assert MatchesAt(ApproxPattern, s, i) && Group(ApproxPattern, s, i, 2, 3) == d by {
      ApproxAt(s, i, n);
    }
    assert forall j :: 0 <= j < i ==> !MatchesAt(ApproxPattern, s, j) by {
      assert ApproxPattern[0] == Lit("Approx.");
      NoEarlierMatch(ApproxPattern, s, i);
    }
    GroupAt(ApproxPattern, s, 2, 3, i);
  }

  // ---------------------------------------------------------------------------
  // Map link (get_meritage_page.py:285-292)

  /** `daddr=([-\d.]+),([-\d.]+)`, groups spanning the second and the
      fourth piece. */
  const DaddrPattern: seq<Piece> := [Lit("daddr="), Run(CoordChar, true), Lit(","), Run(CoordChar, true)]

  /** A coordinate as the pattern captures it: a non-empty run of `[-\d.]`. */
  predicate IsCoordinate(t: string) {
    |t| > 0 && forall k :: 0 <= k < |t| ==> IsCoordChar(t[k])
  }

  /** The groups of a map-link match are coordinates, written after
      `daddr=` and a comma, and the longitude runs up to a character outside
      `[-\d.]` or the end of the link. */
  lemma DaddrGroups(s: string, i: nat)
    requires MatchesAt(DaddrPattern, s, i)
    ensures var lat := Group(DaddrPattern, s, i, 1, 2);
            var lon := Group(DaddrPattern, s, i, 3, 4);
            IsCoordinate(lat) && IsCoordinate(lon) && DaddrParam(s, i, lat, lon)
  {
    DaddrCoordinates(s, i);
    DaddrText(s, i);
    GroupOccurs(DaddrPattern, s, i, 4);
    DaddrEnd(s, i);
    GroupSpan(DaddrPattern, s, i, 0, 4);
  }

  /** `s` holds the parameter `daddr=lat,lon` at `i`, and the longitude runs
      up to a character outside `[-\d.]` or the end of `s`. */
  predicate DaddrParam(s: string, i: int, lat: string, lon: string) {
    && OccursAt(s, "daddr=" + lat + "," + lon, i)
    && var e := i + 7 + |lat| + |lon|;
       e == |s| || !IsCoordChar(s[e])
  }

  /** A map-link match stops where the longitude's run does. */
  lemma DaddrEnd(s: string, i: nat)
    requires MatchesAt(DaddrPattern, s, i)
    ensures var e := Positions(DaddrPattern, s, i)[4]; e == |s| || !IsCoordChar(s[e])
  {
    PositionsStep(DaddrPattern, s, i, 3);
    assert DaddrPattern[3] == Run(CoordChar, true);
  }

  /** Both groups of a map-link match are coordinates. */
  lemma DaddrCoordinates(s: string, i: nat)
    requires MatchesAt(DaddrPattern, s, i)
    ensures IsCoordinate(Group(DaddrPattern, s, i, 1, 2)) && IsCoordinate(Group(DaddrPattern, s, i, 3, 4))
  {
    RunGroup(DaddrPattern, s, i, 1);
    RunGroup(DaddrPattern, s, i, 3);
  }

  /** The whole match is `daddr=`, the latitude, a comma and the longitude. */
  lemma DaddrText(s: string, i: nat)
    requires MatchesAt(DaddrPattern, s, i)
    ensures Group(DaddrPattern, s, i, 0, 4)
         == "daddr=" + Group(DaddrPattern, s, i, 1, 2) + "," + Group(DaddrPattern, s, i, 3, 4)
  {
    LitGroup(DaddrPattern, s, i, 0);
    LitGroup(DaddrPattern, s, i, 2);
    GroupSplit(DaddrPattern, s, i, 0, 1, 2);
    GroupSplit(DaddrPattern, s, i, 0, 2, 3);
    GroupSplit(DaddrPattern, s, i, 0, 3, 4);
  }

  /** The latitude and longitude of the leftmost `daddr=` parameter. */
  function ParseDaddr(href: string): (r: Option<(string, string)>)
    ensures r.None? <==> forall i :: 0 <= i <= |href| ==> !MatchesAt(DaddrPattern, href, i)
    ensures r.Some? ==> IsCoordinate(r.value.0) && IsCoordinate(r.value.1)
    ensures r.Some? ==> Contains(href, "daddr=" + r.value.0 + "," + r.value.1)
    ensures r.Some? ==> exists i :: FoundAt(DaddrPattern, href, i) && DaddrParam(href, i, r.value.0, r.value.1)
  {
    match Find(DaddrPattern, href)
    case None => None
    case Some(i) =>
      var lat, lon := Group(DaddrPattern, href, i, 1, 2), Group(DaddrPattern, href, i, 3, 4);
      DaddrGroups(href, i);
      assert FoundAt(DaddrPattern, href, i) && DaddrParam(href, i, lat, lon);
      Some((lat, lon))
  }

  /** A `daddr=` parameter at `i` with its two coordinates is a match. */
  lemma DaddrAt(s: string, i: nat, b: nat, c: nat)
    requires i + 6 < b && b + 1 < c <= |s|
    requires s[i..i + 6] == "daddr=" && s[b] == ','
    requires forall k :: i + 6 <= k < b ==> IsCoordChar(s[k])
    requires forall k :: b + 1 <= k < c ==> IsCoordChar(s[k])
    requires c == |s| || !IsCoordChar(s[c])
    ensures MatchesAt(DaddrPattern, s, i)
    ensures Group(DaddrPattern, s, i, 1, 2) == s[i + 6..b] && Group(DaddrPattern, s, i, 3, 4) == s[b + 1..c]
  {
    var t := [i, i + 6, b, b + 1, c];
    RunStep(s, b + 1, c, CoordChar, true);
    assert Chain(DaddrPattern, s, t, 3);
    assert s[b..b + 1] == ",";
    LitStep(s, b, ",");
    assert Chain(DaddrPattern, s, t, 2);
    RunStep(s, i + 6, b, CoordChar, true);
    assert Chain(DaddrPattern, s, t, 1);
    LitStep(s, i, "daddr=");
    ChainMatch(DaddrPattern, s, t);
    GroupFromPositions(DaddrPattern, s, i, t, 1, 2);
    GroupFromPositions(DaddrPattern, s, i, t, 3, 4);
  }

  /** A `daddr=` parameter at `i` with no other one starting earlier is the
      reported match. */
  lemma DaddrFoundAt(s: string, i: nat, b: nat, c: nat)
    requires i + 6 < b && b + 1 < c <= |s|
    requires !Contains(s[..i + 5], "daddr=")
    requires s[i..i + 6] == "daddr=" && s[b] == ','
    requires forall k :: i + 6 <= k < b ==> IsCoordChar(s[k])
    requires forall k :: b + 1 <= k < c ==> IsCoordChar(s[k])
    requires c == |s| || !IsCoordChar(s[c])
    ensures FoundAt(DaddrPattern, s, i)
    ensures Group(DaddrPattern, s, i, 1, 2) == s[i + 6..b] && Group(DaddrPattern, s, i, 3, 4) == s[b + 1..c]
  {
    DaddrAt(s, i, b, c);
    assert DaddrPattern[0] == Lit("daddr=");
    NoEarlierMatch(DaddrPattern, s, i);
  }

  /** Where the parts of `p + "daddr=" + lat + "," + lon + q` sit. */
  lemma LinkLayout(p: string, lat: string, lon: string, q: string)
    requires IsCoordinate(lat) && IsCoordinate(lon)
    requires q == [] || !IsCoordChar(q[0])
    ensures var s := p + "daddr=" + lat + "," + lon + q;
            var i := |p|; var b := i + 6 + |lat|; var c := b + 1 + |lon|;
            && c <= |s| && s[..i + 5] == p + "daddr"
            && s[i..i + 6] == "daddr=" && s[i + 6..b] == lat && s[b] == ',' && s[b + 1..c] == lon
            && (forall k :: i + 6 <= k < b ==> IsCoordChar(s[k]))
            && (forall k :: b + 1 <= k < c ==> IsCoordChar(s[k]))
            && (c == |s| || !IsCoordChar(s[c]))
  {
    var s := p + "daddr=" + lat + "," + lon + q;
    var i := |p|;
    var b := i + 6 + |lat|;
    var c := b + 1 + |lon|;
    assert s[i..i + 6] == "daddr=" && s[i + 6..b] == lat && s[b] == ',' && s[b + 1..c] == lon;
    assert s[..i + 5] == p + "daddr";
    assert forall k :: i + 6 <= k < b ==> s[k] == lat[k - i - 6];
    assert forall k :: b + 1 <= k < c ==> s[k] == lon[k - b - 1];
    assert c < |s| ==> s[c] == q[0];
  }

  /** In a map link whose prefix does not itself hold a `daddr=`, the
      parameter after the prefix is the reported match, with the coordinates
      as its groups. */
  lemma LinkMatch(p: string, lat: string, lon: string, q: string)
    requires !Contains(p + "daddr", "daddr=")
    requires IsCoordinate(lat) && IsCoordinate(lon)
    requires q == [] || !IsCoordChar(q[0])
    ensures var s := p + "daddr=" + lat + "," + lon + q;
            && FoundAt(DaddrPattern, s, |p|)
            && Group(DaddrPattern, s, |p|, 1, 2) == lat && Group(DaddrPattern, s, |p|, 3, 4) == lon
  {
    var s := p + "daddr=" + lat + "," + lon + q;
    var i := |p|;
    LinkLayout(p, lat, lon, q);
    DaddrFoundAt(s, i, i + 6 + |lat|, i + 7 + |lat| + |lon|);
  }

  /** A map link `p + "daddr=" + lat + "," + lon + q` gives back exactly the
      coordinates written into it, when no `daddr=` starts earlier (one
      that straddles the parameter's own "daddr" included) and the
      longitude is not followed by more `[-\d.]`. */
  lemma ParseDaddrOfLink(p: string, lat: string, lon: string, q: string)
    requires !Contains(p + "daddr", "daddr=")
    requires IsCoordinate(lat) && IsCoordinate(lon)
    requires q == [] || !IsCoordChar(q[0])
    ensures ParseDaddr(p + "daddr=" + lat + "," + lon + q) == Some((lat, lon))
  {
    var s := p + "daddr=" + lat + "," + lon + q;
    LinkMatch(p, lat, lon, q);
    FoundAtUnique(DaddrPattern, s, |p|, Find(DaddrPattern, s).value);
  }
}
