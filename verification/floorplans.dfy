/** The floor-plan entries of a plan page (get_meritage_page.py:440-474):
    one entry per story, named by its ordinal, all showing the first image
    of the page's tab panels. */
module Floorplans {
  import opened Options
  import opened Patterns
  import opened Text
  import opened Images
  import opened Columns

  const Suffix: string := " Floor Floorplan"

  /** The name of floor `i`: "1st", "2nd" and "3rd", and from then on the
      number followed by "th", so 21 gives "21th". */
  function FloorName(i: int): (r: string)
    ensures EndsWith(r, Suffix) && |r| > |Suffix|
    ensures 1 <= i <= 3 ==> r == ["1st", "2nd", "3rd"][i - 1] + Suffix
    ensures i > 3 ==> r == NatToString(i) + ("th" + Suffix)
  {
    if i == 1 then "1st" + Suffix
    else if i == 2 then "2nd" + Suffix
    else if i == 3 then "3rd" + Suffix
    else IntToString(i) + "th" + Suffix
  }

  /** `str(21)` */
  lemma TwentyOne()
    ensures IntToString(21) == "21"
  {
    assert NatToString(2) == [DigitChar(2)];
    assert DigitChar(2) == '2' && DigitChar(1) == '1';
  }

  /** Floor 21 is named with "th" like every floor after the third. */
  lemma TwentyFirstFloor()
    ensures FloorName(21) == "21th Floor Floorplan"
  {
    TwentyOne();
    assert FloorName(21) == "21" + "th" + Suffix;
  }

  lemma AppendCancel(a: string, b: string, t: string)
    ensures a + t == b + t ==> a == b
  {
    if a + t == b + t {
      assert |a| == |b|;
      assert a == (a + t)[..|a|] && b == (b + t)[..|b|];
    }
  }

  /** Different floors get different names. */
  lemma FloorNamesDistinct(i: int, j: int)
    requires i >= 1 && j >= 1 && i != j
    ensures FloorName(i) != FloorName(j)
  {
    if i > 3 && j > 3 {
      NatToStringInjective(i, j);
      AppendCancel(NatToString(i), NatToString(j), "th" + Suffix);
    } else if i > 3 || j > 3 {
      var n := if i > 3 then i else j;
      var m := if i > 3 then j else i;
      var d := NatToString(n);
      var name := FloorName(n);
      assert name[1] == 't' || IsDigit(name[1]) by {
        if |d| == 1 {
          assert name[1] == 't';
        } else {
          assert name[1] == d[1];
        }
      }
      var other := FloorName(m);
      assert other[1] == 's' || other[1] == 'n' || other[1] == 'r';
      assert other[1] != name[1];
    } else {
      assert FloorName(i)[0] != FloorName(j)[0];
    }
  }

  /** One floor-plan entry: the floor's name and the image shown for it. */
  datatype FloorplanImage = FloorplanImage(name: string, imageUrl: string)

  /** The first tab panel of a page and its first image tag, if any. */
  datatype Panel = Panel(img: Option<Img>)

  /** A page without tabs, or with tabs and the first tab panel in them
      (None when the tabs hold no panel). */
  datatype Tabs = NoTabs | Tabs(firstPanel: Option<Panel>)

  /** The image every floor shows: the first panel's image source, when the
      panel and its image exist and the source is non-empty. A missing
      panel stops the plan page (the attribute lookup on None raises), so it
      shows no image either. The source is used as read, not resolved. */
  function PanelImage(tabs: Tabs): (r: Option<string>)
    ensures r.Some? <==> tabs.Tabs? && tabs.firstPanel.Some? && tabs.firstPanel.value.img.Some? &&
                          Truthy(Source(tabs.firstPanel.value.img.value))
    ensures r.Some? ==> r.value != [] && r == Source(tabs.firstPanel.value.img.value)
  {
    match tabs
    case NoTabs => None
    case Tabs(panel) =>
      if panel.Some? && panel.value.img.Some? && Truthy(Source(panel.value.img.value)) then Source(panel.value.img.value)
      else None
  }

  /** The entries of a plan with the given story count: floors 1 to n in
      order when `int()` accepted the count and the tabs show an image;
      none for a rejected count, a count below 1, or no image. */
  function FloorplanImages(stories: Option<int>, tabs: Tabs): (r: seq<FloorplanImage>)
    ensures stories.None? || stories.value < 1 || PanelImage(tabs).None? ==> r == []
    ensures stories.Some? && PanelImage(tabs).Some? ==> |r| == if stories.value > 0 then stories.value else 0
    ensures forall k :: 0 <= k < |r| ==> r[k].name == FloorName(k + 1) && Some(r[k].imageUrl) == PanelImage(tabs)
  {
    if stories.Some? && stories.value > 0 && PanelImage(tabs).Some? then
      var src := PanelImage(tabs).value;
      seq(stories.value, k requires 0 <= k < stories.value => FloorplanImage(FloorName(k + 1), src))
    else []
  }

  /** No two entries of a plan share a name, and all show the same image. */
  lemma FloorplanImagesDistinct(stories: Option<int>, tabs: Tabs)
    ensures var r := FloorplanImages(stories, tabs);
            forall a, b :: 0 <= a < b < |r| ==> r[a].name != r[b].name && r[a].imageUrl == r[b].imageUrl
  {
    var r := FloorplanImages(stories, tabs);
    if r != [] {
      NumberedDistinct(r, r[0].imageUrl);
    }
  }

  /** Names from the first floor on are pairwise distinct. */
  lemma FloorNamesAllDistinct()
    ensures forall i, j :: 1 <= i < j ==> FloorName(i) != FloorName(j)
  {
    forall i, j | 1 <= i < j ensures FloorName(i) != FloorName(j) {
      FloorNamesDistinct(i, j);
    }
  }

  /** Entries numbered from the first floor on have distinct names. */
  lemma NumberedDistinct(r: seq<FloorplanImage>, src: string)
    requires forall k :: 0 <= k < |r| ==> r[k].name == FloorName(k + 1) && r[k].imageUrl == src
    ensures forall a, b :: 0 <= a < b < |r| ==> r[a].name != r[b].name && r[a].imageUrl == r[b].imageUrl
  {
    FloorNamesAllDistinct();
  }

  /** The floor-plan entries of a plan page: the story count comes from the
      first column whose "Stories" value `int()` accepts. */
  function PlanFloorplans(cols: seq<Column>, tabs: Tabs): (r: seq<FloorplanImage>)
    ensures (forall k :: 0 <= k < |cols| ==> StoryCount(cols[k]).None?) ==> r == []
    ensures PanelImage(tabs).None? ==> r == []
    ensures forall k :: 0 <= k < |cols| && StoryCount(cols[k]).Some? &&
                        (forall j :: 0 <= j < k ==> StoryCount(cols[j]).None?) && PanelImage(tabs).Some?
                        ==> |r| == if StoryCount(cols[k]).value > 0 then StoryCount(cols[k]).value else 0
    ensures forall k :: 0 <= k < |r| ==> r[k].name == FloorName(k + 1) && Some(r[k].imageUrl) == PanelImage(tabs)
  {
    FloorplanImages(Stories(cols), tabs)
  }
}
