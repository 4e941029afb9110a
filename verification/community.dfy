/** One community page as `fetch_page` turns it into a record
    (get_meritage_page.py:156-212 and 228-510): its images, the ranges of
    its detail columns, its homesites and its plans. */
module Community {
  import opened Options
  import opened Urls
  import opened Images
  import opened Columns
  import opened Homesites
  import opened Homeplans

  /** The parts of a community page the record is built from: its slide
      show, its detail columns, its quick-move-in section (None when the
      page has none) and its plan blocks. */
  datatype CommunityPage = CommunityPage(
    slides: seq<Slide>, columns: seq<Column>, quickMoveIns: Option<seq<Qmi>>, plans: seq<PlanBlock>)

  datatype Record = Record(
    images: seq<string>, bedRange: Option<string>, bathRange: Option<string>, storiesRange: Option<string>,
    homesites: seq<Homesite>, homeplans: seq<Homeplan>)

  function PlanImages(plans: seq<Homeplan>): (r: seq<Option<string>>)
    ensures |r| == |plans| && forall k :: 0 <= k < |plans| ==> r[k] == plans[k].imageUrl
  {
    seq(|plans|, k requires 0 <= k < |plans| => plans[k].imageUrl)
  }

  function SitesImages(sites: seq<Homesite>): (r: seq<SiteImages>)
    ensures |r| == |sites| && forall k :: 0 <= k < |sites| ==> r[k] == SiteImages(sites[k].imageUrl, sites[k].images)
  {
    seq(|sites|, k requires 0 <= k < |sites| => SiteImages(sites[k].imageUrl, sites[k].images))
  }

  /** The record of a community page. `pick` stands for the random choice
      among the fallback images. */
  function Scrape(page: CommunityPage, pick: nat): (c: Record)
    ensures |c.images| <= 1
    ensures FirstImage(page.slides) != [] ==> c.images == FirstImage(page.slides)
    ensures forall k :: 0 <= k < |c.images| ==> IsAbsolute(c.images[k])
    ensures c.homeplans == ShapeHomeplans(page.plans) && c.homesites == ShapeHomesites(page.quickMoveIns)
    ensures FirstImage(page.slides) == [] ==>
              c.images == Fallback([], PlanImages(c.homeplans), SitesImages(c.homesites), pick)
    ensures c.bedRange == FirstHeadingValue(page.columns, "Bedrooms")
    ensures c.bathRange == FirstHeadingValue(page.columns, "Full Bathrooms")
    ensures c.storiesRange == FirstHeadingValue(page.columns, "Stories")
  {
    var sites := ShapeHomesites(page.quickMoveIns);
    var plans := ShapeHomeplans(page.plans);
    var images := Fallback(FirstImage(page.slides), PlanImages(plans), SitesImages(sites), pick);
    assert forall k :: 0 <= k < |images| ==> IsAbsolute(images[k]) by {
      if FirstImage(page.slides) == [] && images != [] {
        FallbackAbsolute(plans, sites, images[0]);
      }
    }
    Record(
      images,
      FirstHeadingValue(page.columns, "Bedrooms"),
      FirstHeadingValue(page.columns, "Full Bathrooms"),
      FirstHeadingValue(page.columns, "Stories"),
      sites, plans)
  }

  /** Every fallback candidate is an absolute address: plan and homesite
      images are resolved when non-empty, and slide-show images always. */
  lemma FallbackAbsolute(plans: seq<Homeplan>, sites: seq<Homesite>, x: string)
    requires forall j :: 0 <= j < |sites| ==> ImagesAbsolute(sites[j])
    requires forall j :: 0 <= j < |plans| ==> Truthy(plans[j].imageUrl) ==> IsAbsolute(plans[j].imageUrl.value)
    requires x in Candidates(PlanImages(plans), SitesImages(sites))
    ensures IsAbsolute(x)
  {
    var ps, ss := PlanImages(plans), SitesImages(sites);
    if x in PlanCandidates(ps) {
      var k :| 0 <= k < |ps| && Truthy(ps[k]) && ps[k].value == x;
    } else {
      assert x in SiteCandidates(ss);
      var k :| 0 <= k < |ss| && SiteOffers(ss[k], x);
    }
  }

  /** The candidates a page without a slide-show image chooses among. */
  function PageCandidates(page: CommunityPage): seq<string> {
    Candidates(PlanImages(ShapeHomeplans(page.plans)), SitesImages(ShapeHomesites(page.quickMoveIns)))
  }

  /** A record has no image exactly when the slide show gives none and no
      plan or homesite offers one; otherwise its one image is the slide
      show's or a candidate. */
  lemma ScrapeImages(page: CommunityPage, pick: nat)
    ensures var c := Scrape(page, pick);
            && (c.images == [] <==> FirstImage(page.slides) == [] && PageCandidates(page) == [])
            && (FirstImage(page.slides) == [] && c.images != [] ==> c.images[0] in PageCandidates(page))
  {
    var c := Scrape(page, pick);
    CandidatesEmpty(PlanImages(c.homeplans), SitesImages(c.homesites));
  }

  /** Without a slide-show image, every candidate is the record's image for
      some value of the random pick. */
  lemma ScrapeCanShowAny(page: CommunityPage, x: string)
    requires FirstImage(page.slides) == [] && x in PageCandidates(page)
    ensures exists pick: nat :: Scrape(page, pick).images == [x]
  {
    var plans, sites := ShapeHomeplans(page.plans), ShapeHomesites(page.quickMoveIns);
    FallbackCanChooseAny(PlanImages(plans), SitesImages(sites), x);
    var pick: nat :| Fallback([], PlanImages(plans), SitesImages(sites), pick) == [x];
    assert Scrape(page, pick).images == [x];
  }
}
