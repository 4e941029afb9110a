/** The quick-move-in homesites of a community page
    (get_meritage_page.py:228-335): each `qmi-vertical` block with a middle
    part becomes a homesite row, and the row's own page, when it can be
    fetched, adds coordinates, an overview and the images of its slide
    show. */
module Homesites {
  import opened Options
  import opened Patterns
  import opened Text
  import opened Extractors
  import opened Urls
  import opened Images
  import opened Rows

  // ---------------------------------------------------------------------------
  // Address and name

  /** The address: the paragraph's text with its whitespace runs collapsed
      to single spaces, or None when there is no paragraph or it is blank. */
  function ShapeAddress(p: Option<string>): (r: Option<string>)
    ensures r.None? <==> p.None? || AllSpace(p.value)
    ensures r.Some? ==> r.value != [] && IsNormalised(r.value) && Split(r.value) == Split(Strip(p.value))
  {
    if p.None? then None
    else
      var raw := Strip(p.value);
      if raw == [] then None
      else
        NormaliseIdempotent(raw);
        SplitEmpty(raw);
        JoinOfWords(Split(raw));
        Some(Normalise(raw))
  }

  /** A five-digit postal code. */
  predicate IsPostalCode(z: string) {
    |z| == 5 && AllDigits(z)
  }

  /** `re.sub(r'\s+\d{5}$', '', address)` on a normalised address: a final
      space and exactly five digits are removed; any other address is kept. */
  function StripPostal(a: string): (r: string)
    requires IsNormalised(a)
    ensures IsNormalised(r)
    ensures r == a || (|a| == |r| + 6 && a == r + " " + a[|r| + 1..] && IsPostalCode(a[|r| + 1..]))
    ensures a != [] ==> r != []
  {
    if |a| >= 6 && a[|a| - 6] == ' ' && AllDigits(a[|a| - 5..]) then
      var r := a[..|a| - 6];
      assert a == r + " " + a[|a| - 5..];
      assert r != [] && r[|r| - 1] != ' ' by {
        assert a[0] != ' ' && a[|a| - 6] == ' ';
        assert a[|a| - 7] != ' ';
      }
      r
    else a
  }

  /** The name of an address ending in a postal code is the address without it. */
  lemma StripPostalOf(r: string, z: string)
    requires IsPostalCode(z) && IsNormalised(r + " " + z)
    ensures StripPostal(r + " " + z) == r
  {
    var a := r + " " + z;
    assert a[|a| - 6] == ' ' && a[|a| - 5..] == z && a[..|a| - 6] == r;
  }

  /** An address that does not end in a space and five digits is its own name. */
  lemma StripPostalKeeps(a: string)
    requires IsNormalised(a)
    requires !(|a| >= 6 && a[|a| - 6] == ' ' && IsPostalCode(a[|a| - 5..]))
    ensures StripPostal(a) == a
  {
  }

  /** Six digits after the space are not a postal code: the name keeps them. */
  lemma SixDigitsKept(r: string, z: string)
    requires |z| == 6 && AllDigits(z) && IsNormalised(r + " " + z)
    ensures StripPostal(r + " " + z) == r + " " + z
  {
    var a := r + " " + z;
    assert a[|a| - 6] == z[0];
  }

  // ---------------------------------------------------------------------------
  // The row's own page

  /** The article of a homesite page: the `href` of its first map link (a
      plain link to maps.google.com) and the texts of its paragraphs. */
  datatype Article = Article(mapHref: Option<string>, paragraphs: seq<string>)

  /** A homesite page: its article, if found, and its slide show. */
  datatype SitePage = SitePage(article: Option<Article>, slides: seq<Slide>)

  /** A paragraph that can be the overview: its stripped text does not open
      with "Plan #", and its text mentions neither "Estimated Completion"
      nor "Home Address". */
  predicate IsOverview(p: string) {
    !StartsWith(Strip(p), "Plan #") && !Contains(p, "Estimated Completion") && !Contains(p, "Home Address")
  }

  function OverviewCandidate(p: string): Option<string> {
    if IsOverview(p) then Some(Strip(p)) else None
  }

  /** The overview: the stripped text of the first paragraph that can be
      one, or None when no paragraph can. */
  function Overview(ps: seq<string>): (r: Option<string>)
    ensures r.None? <==> forall k :: 0 <= k < |ps| ==> !IsOverview(ps[k])
    ensures forall k :: 0 <= k < |ps| && IsOverview(ps[k]) && (forall j :: 0 <= j < k ==> !IsOverview(ps[j]))
                        ==> r == Some(Strip(ps[k]))
  {
    var cs := seq(|ps|, k requires 0 <= k < |ps| => OverviewCandidate(ps[k]));
    assert forall k :: 0 <= k < |ps| ==> (cs[k].Some? <==> IsOverview(ps[k]));
    FirstSome(cs)
  }

  // ---------------------------------------------------------------------------
  // Rows

  /** The middle part of a homesite block: its paragraph, heading, top
      details (the price) and bottom details (beds, baths, area). */
  datatype Mid = Mid(p: Option<string>, title: Option<Title>, topDetails: Option<string>, bottomDetails: Option<string>)

  /** A `qmi-vertical` block: its middle part (None when the block has no
      content part or the content has no middle part), the image tag of its
      image box, and the page its link leads to (None when fetching it
      fails). */
  datatype Qmi = Qmi(mid: Option<Mid>, image: Option<Img>, page: Option<SitePage>)

  datatype Homesite = Homesite(
    address: Option<string>, name: Option<string>, plan: Option<string>, id: string,
    price: Option<string>, beds: Option<string>, baths: Option<string>, sqft: Option<string>,
    status: string, imageUrl: Option<string>, url: Option<string>,
    latitude: Option<string>, longitude: Option<string>, overview: Option<string>, images: seq<string>)

  /** The name of a homesite: its address without the postal code. */
  function SiteName(address: Option<string>): (r: Option<string>)
    requires address.Some? ==> IsNormalised(address.value)
    ensures r.Some? <==> address.Some?
  {
    if address.Some? then Some(StripPostal(address.value)) else None
  }

  /** The row read from the block itself, before its page is visited. */
  function RowOf(index: nat, m: Mid, image: Option<Img>): (h: Homesite)
    ensures h.id == NatToString(index + 1) && h.status == "Available"
  {
    var address := ShapeAddress(m.p);
    Homesite(
      address, SiteName(address), TitleText(m.title), NatToString(index + 1),
      StrippedText(m.topDetails), RowBeds(m.bottomDetails), RowBaths(m.bottomDetails), RowArea(m.bottomDetails),
      "Available", if image.Some? then ResolveKeep(Source(image.value)) else None, TitleLink(m.title),
      None, None, None, [])
  }

  /** The coordinates of the map link's `daddr=` parameter, when the page
      has an article with a map link and the link holds the parameter. */
  function MapCoordinates(page: SitePage): (c: Option<(string, string)>)
    ensures c.Some? ==> page.article.Some? && page.article.value.mapHref.Some?
    ensures page.article.Some? && page.article.value.mapHref.Some? ==> c == ParseDaddr(page.article.value.mapHref.value)
  {
    if page.article.Some? && page.article.value.mapHref.Some? then ParseDaddr(page.article.value.mapHref.value) else None
  }

  /** What the row's page adds: the coordinates of the map link's `daddr=`
      parameter, the overview and the slide-show images. */
  function WithPage(h: Homesite, page: SitePage): (r: Homesite)
    ensures r.(latitude := h.latitude, longitude := h.longitude, overview := h.overview, images := h.images) == h
    ensures r.images == SlideImages(page.slides)
    ensures page.article.Some? && Overview(page.article.value.paragraphs).Some? ==> r.overview == Overview(page.article.value.paragraphs)
    ensures page.article.None? || Overview(page.article.value.paragraphs).None? ==> r.overview == h.overview
    ensures var c := MapCoordinates(page);
            && (c.Some? ==> r.latitude == Some(c.value.0) && r.longitude == Some(c.value.1))
            && (c.None? ==> r.latitude == h.latitude && r.longitude == h.longitude)
  {
    var coords := MapCoordinates(page);
    h.(
      latitude := if coords.Some? then Some(coords.value.0) else h.latitude,
      longitude := if coords.Some? then Some(coords.value.1) else h.longitude,
      overview := if page.article.Some? && Overview(page.article.value.paragraphs).Some? then Overview(page.article.value.paragraphs) else h.overview,
      images := SlideImages(page.slides))
  }

  /** Every image address a homesite carries is absolute. */
  predicate ImagesAbsolute(h: Homesite) {
    && (Truthy(h.imageUrl) ==> IsAbsolute(h.imageUrl.value))
    && forall k :: 0 <= k < |h.images| ==> IsAbsolute(h.images[k])
  }

  /** The homesite of block number `index`, or None when the block has no
      middle part. Its page is visited only when the row has a link. */
  function ShapeHomesite(index: nat, q: Qmi): (r: Option<Homesite>)
    ensures r.Some? <==> q.mid.Some?
    ensures r.Some? ==> r.value.id == NatToString(index + 1)
    ensures r.Some? && r.value.address.Some? ==> IsNormalised(r.value.address.value) && r.value.address.value != []
    ensures r.Some? && r.value.url.None? ==> r.value.images == [] && r.value.overview.None? && r.value.latitude.None?
    ensures r.Some? ==> ImagesAbsolute(r.value)
  {
    if q.mid.None? then None
    else
      var h := RowOf(index, q.mid.value, q.image);
      if h.url.Some? && q.page.Some? then Some(WithPage(h, q.page.value)) else Some(h)
  }

  /** The homesite of every block, the blocks numbered from `start`. */
  function BlockRows(qs: seq<Qmi>, start: nat): (r: seq<Option<Homesite>>)
    ensures |r| == |qs| && forall k :: 0 <= k < |qs| ==> r[k] == ShapeHomesite(start + k, qs[k])
  {
    seq(|qs|, k requires 0 <= k < |qs| => ShapeHomesite(start + k, qs[k]))
  }

  /** The homesites of the blocks, numbered from `start`, in order: the
      j-th homesite is the row of the j-th block with a middle part, with
      that block's own number as its id, and the blocks without one are
      skipped without giving up their numbers. */
  function HomesitesFrom(qs: seq<Qmi>, start: nat): (r: seq<Homesite>)
    ensures var ix := SomeIndexes(BlockRows(qs, start));
            && |r| == |ix|
            && forall j :: 0 <= j < |r| ==>
                 ShapeHomesite(start + ix[j], qs[ix[j]]) == Some(r[j]) && r[j].id == NatToString(start + ix[j] + 1)
    ensures forall j :: 0 <= j < |r| ==> AllDigits(r[j].id) && start + j + 1 <= DecimalValue(r[j].id) <= start + |qs|
    ensures forall a, b :: 0 <= a < b < |r| ==> DecimalValue(r[a].id) < DecimalValue(r[b].id)
    ensures forall j :: 0 <= j < |r| ==> ImagesAbsolute(r[j])
  {
    var rows := BlockRows(qs, start);
    var ix := SomeIndexes(rows);
    var r := Somes(rows);
    assert forall j :: 0 <= j < |r| ==> ShapeHomesite(start + ix[j], qs[ix[j]]) == Some(r[j]);
    r
  }

  /** The homesites of a community page; none without a quick-move-in
      section. */
  function ShapeHomesites(section: Option<seq<Qmi>>): (r: seq<Homesite>)
    ensures section.None? ==> r == []
    ensures section.Some? ==> |r| <= |section.value|
    ensures forall j :: 0 <= j < |r| ==> ImagesAbsolute(r[j])
  {
    if section.Some? then HomesitesFrom(section.value, 0) else []
  }

  /** No two homesites of a page share an id. */
  lemma HomesiteIdsDistinct(section: Option<seq<Qmi>>)
    ensures var r := ShapeHomesites(section);
            forall a, b :: 0 <= a < b < |r| ==> r[a].id != r[b].id
  {
    var r := ShapeHomesites(section);
    forall a, b | 0 <= a < b < |r| ensures r[a].id != r[b].id {
      assert DecimalValue(r[a].id) < DecimalValue(r[b].id);
    }
  }

  /** Ids count every block, kept or not: when the first block has no middle
      part, the first homesite gets the id "2". */
  lemma SkippedBlockShiftsIds(skipped: Qmi, q: Qmi)
    requires skipped.mid.None? && q.mid.Some?
    ensures var r := ShapeHomesites(Some([skipped, q]));
            |r| == 1 && r[0].id == "2"
  {
    var rows := BlockRows([skipped, q], 0);
    assert rows[0].None? && rows[1].Some?;
    assert rows[..1][..0] == [];
    assert SomeIndexes(rows[..1]) == [];
    assert SomeIndexes(rows) == [1];
    var r := HomesitesFrom([skipped, q], 0);
    assert r[0].id == NatToString(2);
    assert NatToString(2) == [DigitChar(2)];
  }
}
