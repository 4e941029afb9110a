/** What the homesite rows and the homeplan rows of a community page share:
    a heading with a link, and a details line from which the bed count,
    the bath count and the area are read and given their units
    (get_meritage_page.py:245-250 and 341-348). */
module Rows {
  import opened Options
  import opened Patterns
  import opened Text
  import opened Extractors
  import opened Urls

  /** A row's `<h3>`: its text, and the `href` of the link inside it, if
      there is a link. */
  datatype Title = Title(text: string, href: Option<string>)

  /** `h3.text.strip()` */
  function TitleText(t: Option<Title>): Option<string> {
    if t.Some? then Some(Strip(t.value.text)) else None
  }

  /** The row's link, with the origin put in front of it unconditionally. */
  function TitleLink(t: Option<Title>): (r: Option<string>)
    ensures r.Some? <==> t.Some? && t.value.href.Some?
    ensures r.Some? ==> StartsWith(r.value, Origin) && r.value[|Origin|..] == t.value.href.value
  {
    if t.Some? && t.value.href.Some? then Some(PrefixOrigin(t.value.href.value)) else None
  }

  /** The stripped text of an optional element. */
  function StrippedText(e: Option<string>): Option<string> {
    if e.Some? then Some(Strip(e.value)) else None
  }

  const BedUnit: string := "bd"
  const BathUnit: string := "ba"
  const AreaUnit: string := " ft²"

  /** The number read after "Bed" in the details line, followed by "bd". */
  function RowBeds(details: Option<string>): (r: Option<string>)
    ensures r.Some? <==> details.Some? && CountAfter(details.value, "Bed").Some?
    ensures r.Some? ==> r.value == CountAfter(details.value, "Bed").value + BedUnit
    ensures r.Some? ==> |r.value| > 2 && EndsWith(r.value, BedUnit) && AllDigits(r.value[..|r.value| - 2])
  {
    if details.Some? then
      match CountAfter(details.value, "Bed")
      case None => None
      case Some(d) =>
        assert |d| > 0 && AllDigits(d);
        assert (d + BedUnit)[..|d|] == d;
        Some(d + BedUnit)
    else None
  }

  /** The number read after "Bath" in the details line, followed by "ba". */
  function RowBaths(details: Option<string>): (r: Option<string>)
    ensures r.Some? <==> details.Some? && CountAfter(details.value, "Bath").Some?
    ensures r.Some? ==> r.value == CountAfter(details.value, "Bath").value + BathUnit
    ensures r.Some? ==> |r.value| > 2 && EndsWith(r.value, BathUnit) && AllDigits(r.value[..|r.value| - 2])
  {
    if details.Some? then
      match CountAfter(details.value, "Bath")
      case None => None
      case Some(d) =>
        assert |d| > 0 && AllDigits(d);
        assert (d + BathUnit)[..|d|] == d;
        Some(d + BathUnit)
    else None
  }

  /** The number of the "Approx. N sq. ft." phrase, commas kept, followed by
      " ft²". */
  function RowArea(details: Option<string>): (r: Option<string>)
    ensures r.Some? <==> details.Some? && ApproxArea(details.value).Some?
    ensures r.Some? ==> r.value == ApproxArea(details.value).value + AreaUnit
    ensures r.Some? ==> |r.value| > 4 && EndsWith(r.value, AreaUnit)
    ensures r.Some? ==> forall k :: 0 <= k < |r.value| - 4 ==> IsNumberChar(r.value[k])
  {
    if details.Some? then
      match ApproxArea(details.value)
      case None => None
      case Some(d) => Some(d + AreaUnit)
    else None
  }

  /** "Bed", some whitespace and a count give that count in beds, wherever
      the first "Bed" of the details line is: after "Bed 3", the line
      "Bed 3 Bath 2" gives "3bd". */
  lemma RowBedsOfPhrase(p: string, sp: string, d: string, q: string)
    requires !Contains(p + "Be", "Bed")
    requires |sp| > 0 && AllSpace(sp)
    requires |d| > 0 && AllDigits(d)
    requires q == [] || !IsDigit(q[0])
    ensures RowBeds(Some(p + "Bed" + sp + d + q)) == Some(d + "bd")
  {
    assert "Bed"[..2] == "Be";
    CountAfterOfPhrase(p, "Bed", sp, d, q);
  }

  /** "Bath", some whitespace and a count give that count in baths, wherever
      the first "Bath" of the details line is. */
  lemma RowBathsOfPhrase(p: string, sp: string, d: string, q: string)
    requires !Contains(p + "Bat", "Bath")
    requires |sp| > 0 && AllSpace(sp)
    requires |d| > 0 && AllDigits(d)
    requires q == [] || !IsDigit(q[0])
    ensures RowBaths(Some(p + "Bath" + sp + d + q)) == Some(d + "ba")
  {
    assert "Bath"[..3] == "Bat";
    CountAfterOfPhrase(p, "Bath", sp, d, q);
  }

  /** "Approx. N sq. ft." gives N square feet, wherever the first "Approx."
      of the details line is. */
  lemma RowAreaOfPhrase(p: string, d: string, q: string)
    requires !Contains(p + "Approx", "Approx.")
    requires |d| > 0 && forall k :: 0 <= k < |d| ==> IsNumberChar(d[k])
    ensures RowArea(Some(p + "Approx. " + d + " sq. ft." + q)) == Some(d + " ft²")
  {
    ApproxAreaOfPhrase(p, d, q);
  }
}
