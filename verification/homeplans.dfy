/** The home plans of a community page (get_meritage_page.py:337-489): each
    `floorplan-vertical` block becomes a plan row, and the plan's own page,
    when it can be fetched, adds the included features, the half-bath count
    and one floor-plan entry per story. */
module Homeplans {
  import opened Options
  import opened Text
  import opened Urls
  import opened Images
  import opened Columns
  import opened Features
  import opened Floorplans
  import opened Rows

  /** The image box of a plan block: either it holds a lazy-load script,
      with the `src` its `<img ... src="...">` text captures (None when the
      script holds no such tag), or it holds a plain image tag, if any. */
  datatype ImageBox = LazyScript(captured: Option<string>) | PlainImage(img: Option<Img>)

  /** A plan page: its feature sections, its detail columns and its tabs. */
  datatype PlanPage = PlanPage(sections: seq<Section>, columns: seq<Column>, tabs: Tabs)

  /** A `floorplan-vertical` block: the heading of its content part, its top
      and bottom details, its image box, and the page its link leads to
      (None when fetching it fails). */
  datatype PlanBlock = PlanBlock(
    title: Option<Title>, topDetails: Option<string>, bottomDetails: Option<string>,
    imageBox: Option<ImageBox>, page: Option<PlanPage>)

  datatype Homeplan = Homeplan(
    name: Option<string>, url: Option<string>, price: Option<string>,
    beds: Option<string>, baths: Option<string>, halfBaths: Option<string>, sqft: Option<string>,
    status: string, imageUrl: Option<string>,
    floorplanImages: seq<FloorplanImage>, includedFeatures: seq<Feature>)

  /** The plan's image: the source captured from the lazy-load script or
      read off the plain image tag, resolved when it is a non-empty
      relative address, and kept as read otherwise. */
  function PlanImage(box: Option<ImageBox>): (r: Option<string>)
    ensures Truthy(r) ==> IsAbsolute(r.value)
    ensures box.None? || box.value == LazyScript(None) || box.value == PlainImage(None) ==> r.None?
    ensures box.Some? && box.value.LazyScript? && box.value.captured.Some? ==> r == ResolveKeep(box.value.captured)
    ensures box.Some? && box.value.PlainImage? && box.value.img.Some? ==> r == ResolveKeep(Source(box.value.img.value))
  {
    match box
    case None => None
    case Some(LazyScript(captured)) => if captured.Some? then ResolveKeep(captured) else None
    case Some(PlainImage(img)) => if img.Some? then ResolveKeep(Source(img.value)) else None
  }

  /** The heading title of the half-bath column on a plan page. */
  const HalfBathTitle: string := "Half Bathrooms"

  /** The plan row read from the block itself, before its page is visited. */
  function RowOf(b: PlanBlock): (p: Homeplan)
    ensures p.status == "Actively selling" && p.halfBaths.None?
    ensures p.floorplanImages == [] && p.includedFeatures == []
  {
    Homeplan(
      TitleText(b.title), TitleLink(b.title), StrippedText(b.topDetails),
      RowBeds(b.bottomDetails), RowBaths(b.bottomDetails), None, RowArea(b.bottomDetails),
      "Actively selling", PlanImage(b.imageBox), [], [])
  }

  /** What the plan's page adds. */
  function WithPage(p: Homeplan, page: PlanPage): (r: Homeplan)
    ensures r.(halfBaths := p.halfBaths, floorplanImages := p.floorplanImages, includedFeatures := p.includedFeatures) == p
    ensures r.includedFeatures == IncludedFeatures(page.sections)
    ensures r.halfBaths == FirstAnswer(page.columns, HalfBathTitle)
    ensures r.floorplanImages == PlanFloorplans(page.columns, page.tabs)
  {
    p.(
      includedFeatures := IncludedFeatures(page.sections),
      halfBaths := FirstAnswer(page.columns, HalfBathTitle),
      floorplanImages := PlanFloorplans(page.columns, page.tabs))
  }

  /** A plan row; its page is visited only when the row has a link. */
  function ShapePlan(b: PlanBlock): (r: Homeplan)
    ensures r.status == "Actively selling"
    ensures r.url.Some? <==> b.title.Some? && b.title.value.href.Some?
    ensures r.url.None? || b.page.None? ==> r.halfBaths.None? && r.floorplanImages == [] && r.includedFeatures == []
    ensures forall k :: 0 <= k < |r.includedFeatures| ==> r.includedFeatures[k].sectionIndex <= 3
  {
    var p := RowOf(b);
    if p.url.Some? && b.page.Some? then
      IncludedFeaturesIndexes(b.page.value.sections);
      WithPage(p, b.page.value)
    else p
  }

  /** The plans of a community page, one per block, in order. */
  function ShapeHomeplans(blocks: seq<PlanBlock>): (r: seq<Homeplan>)
    ensures |r| == |blocks|
    ensures forall k :: 0 <= k < |r| ==> r[k] == ShapePlan(blocks[k])
  {
    seq(|blocks|, k requires 0 <= k < |blocks| => ShapePlan(blocks[k]))
  }
}
