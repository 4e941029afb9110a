/** The labelled detail columns of a community or plan page: a heading and,
    after it, a span holding the value. The community page reads its bed,
    bath and stories ranges from the FIRST column with the right heading;
    the plan page's half-bath lookup keeps looking until a headed column
    has a span, and its stories lookup until one holds a whole number. */
module Columns {
  import opened Options
  import opened Text

  /** A column's first `<h3>`: its text, and the text of the `<span>` that
      follows it, if there is one. */
  datatype Heading = Heading(text: string, span: Option<string>)

  /** A detail column and its first heading, if it has one. */
  datatype Column = Column(heading: Option<Heading>)

  /** `h3 and h3.text.strip() == title` */
  predicate Headed(c: Column, title: string) {
    c.heading.Some? && Strip(c.heading.value.text) == title
  }

  /** `span.text.strip()` for the span after the column's heading. */
  function SpanText(c: Column): Option<string> {
    if c.heading.Some? && c.heading.value.span.Some? then Some(Strip(c.heading.value.span.value)) else None
  }

  /** What a lookup for `title` sees in one column: another heading, or
      the heading it wants together with the value under it. */
  datatype Entry = Other | Wanted(value: Option<string>)

  function EntryOf(c: Column, title: string): (e: Entry)
    ensures e.Wanted? <==> Headed(c, title)
  {
    if Headed(c, title) then Wanted(SpanText(c)) else Other
  }

  function Entries(cols: seq<Column>, title: string): (es: seq<Entry>)
    ensures |es| == |cols|
    ensures forall k :: 0 <= k < |cols| ==> es[k] == EntryOf(cols[k], title)
  {
    seq(|cols|, k requires 0 <= k < |cols| => EntryOf(cols[k], title))
  }

  /** Entry `k` is the first wanted one. */
  predicate FirstWanted(es: seq<Entry>, k: int) {
    0 <= k < |es| && es[k].Wanted? && forall j :: 0 <= j < k ==> es[j].Other?
  }

  /** The value under the first wanted heading, looking no further. */
  function FirstWantedValue(es: seq<Entry>): (r: Option<string>)
    ensures (forall k :: 0 <= k < |es| ==> es[k].Other?) ==> r.None?
    ensures forall k :: FirstWanted(es, k) ==> r == es[k].value
  {
    if |es| == 0 then None
    else if es[0].Wanted? then es[0].value
    else
      var r := FirstWantedValue(es[1..]);
      assert forall k :: FirstWanted(es, k) ==> FirstWanted(es[1..], k - 1);
      r
  }

  /** A wanted heading with a value under it. */
  predicate Answers(e: Entry) {
    e.Wanted? && e.value.Some?
  }

  /** The value under the first wanted heading that has one. */
  function FirstAnswerValue(es: seq<Entry>): (r: Option<string>)
    ensures r.None? <==> forall k :: 0 <= k < |es| ==> !Answers(es[k])
    ensures forall k :: 0 <= k < |es| && Answers(es[k]) && (forall j :: 0 <= j < k ==> !Answers(es[j])) ==> r == es[k].value
  {
    if |es| == 0 then None
    else if Answers(es[0]) then es[0].value
    else
      var r := FirstAnswerValue(es[1..]);
      assert forall k :: 0 < k < |es| ==> es[1..][k - 1] == es[k];
      r
  }

  /** The community page's range lookup (get_meritage_page.py:188-212): the
      first column headed `title` decides, and yields its span's text, or
      nothing when it has no span; no later column is consulted. */
  function FirstHeadingValue(cols: seq<Column>, title: string): (r: Option<string>)
    ensures (forall k :: 0 <= k < |cols| ==> !Headed(cols[k], title)) ==> r.None?
    ensures forall k :: FirstWanted(Entries(cols, title), k) ==> r == SpanText(cols[k])
  {
    FirstWantedValue(Entries(cols, title))
  }

  /** The plan page's half-bath lookup (get_meritage_page.py:432-438): the
      `break` sits inside `if span`, so the first column headed `title` that
      HAS a span decides. */
  function FirstAnswer(cols: seq<Column>, title: string): (r: Option<string>)
    ensures r.None? <==> forall k :: 0 <= k < |cols| ==> !(Headed(cols[k], title) && SpanText(cols[k]).Some?)
    ensures forall k :: 0 <= k < |cols| && Headed(cols[k], title) && SpanText(cols[k]).Some? &&
                        (forall j :: 0 <= j < k ==> !(Headed(cols[j], title) && SpanText(cols[j]).Some?))
                        ==> r == SpanText(cols[k])
  {
    var es := Entries(cols, title);
    assert forall k :: 0 <= k < |cols| ==> (Answers(es[k]) <==> Headed(cols[k], title) && SpanText(cols[k]).Some?);
    FirstAnswerValue(es)
  }

  /** When the first wanted heading has a value, both lookups agree. */
  lemma LookupsAgree(es: seq<Entry>, k: nat)
    requires FirstWanted(es, k) && es[k].value.Some?
    ensures FirstWantedValue(es) == FirstAnswerValue(es) == es[k].value
  {
    assert forall j :: 0 <= j < k ==> !Answers(es[j]);
  }

  /** A headed column without a value hides a later one from the community
      lookup, but not from the half-bath lookup. */
  lemma LookupsDiffer(title: string, v: string)
    requires Strip(title) == title
    ensures var cols := [Column(Some(Heading(title, None))), Column(Some(Heading(title, Some(v))))];
            FirstHeadingValue(cols, title) == None && FirstAnswer(cols, title) == Some(Strip(v))
  {
    var cols := [Column(Some(Heading(title, None))), Column(Some(Heading(title, Some(v))))];
    var es := Entries(cols, title);
    assert es[0] == Wanted(None) && es[1] == Wanted(Some(Strip(v)));
    assert FirstWanted(es, 0);
  }

  /** The story count a column offers: its span's text as a whole number,
      when it is headed "Stories" and `int()` accepts that text. */
  function StoryCount(c: Column): Option<int> {
    if Headed(c, "Stories") && SpanText(c).Some? then ParseInt(SpanText(c).value) else None
  }

  /** The plan page's stories lookup (get_meritage_page.py:442-474): a
      column without a span and a span `int()` rejects both let the search
      go on, so the first column with a whole-number story count decides. */
  function Stories(cols: seq<Column>): (r: Option<int>)
    ensures r.None? <==> forall k :: 0 <= k < |cols| ==> StoryCount(cols[k]).None?
    ensures forall k :: 0 <= k < |cols| && StoryCount(cols[k]).Some? && (forall j :: 0 <= j < k ==> StoryCount(cols[j]).None?)
                        ==> r == StoryCount(cols[k])
  {
    var xs := seq(|cols|, k requires 0 <= k < |cols| => StoryCount(cols[k]));
    assert forall k :: 0 <= k < |cols| ==> xs[k] == StoryCount(cols[k]);
    FirstSome(xs)
  }
}
