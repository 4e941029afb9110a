/** Image sources: how a source is read off an `<img>` tag, resolved,
    collected from a slide show, and, when a community page shows none,
    chosen from the images of its plans and homesites. */
module Images {
  import opened Options
  import opened Text
  import opened Urls

  /** An attribute value used as a condition: present and non-empty. */
  predicate Truthy(v: Option<string>) {
    v.Some? && v.value != []
  }

  /** `a or b` on two attribute values. */
  function Or(a: Option<string>, b: Option<string>): (r: Option<string>)
    ensures Truthy(r) <==> Truthy(a) || Truthy(b)
  {
    if Truthy(a) then a else b
  }

  /** The two attributes an image tag may carry its address in. */
  datatype Img = Img(src: Option<string>, dataCsrc: Option<string>)

  /** `img.get('src') or img.get('data-csrc')` */
  function Source(img: Img): (r: Option<string>)
    ensures Truthy(r) <==> Truthy(img.src) || Truthy(img.dataCsrc)
    ensures Truthy(img.src) ==> r == img.src
  {
    Or(img.src, img.dataCsrc)
  }

  /** The image source of a homesite or homeplan row: a non-empty relative
      source is resolved, and whatever else was read is kept as it is. */
  function ResolveKeep(src: Option<string>): (r: Option<string>)
    ensures Truthy(r) <==> Truthy(src)
    ensures Truthy(src) ==> IsAbsolute(r.value)
    ensures Truthy(src) && IsAbsolute(src.value) ==> r == src
    ensures Truthy(src) && !IsAbsolute(src.value) ==> r == Some(Origin + src.value)
    ensures !Truthy(src) ==> r == src
  {
    if Truthy(src) then Some(Absolutise(src.value)) else src
  }

  /** Resolving a resolved source changes nothing. */
  lemma ResolveKeepIdempotent(src: Option<string>)
    ensures ResolveKeep(ResolveKeep(src)) == ResolveKeep(src)
  {
    if Truthy(src) {
      AbsolutiseFixed(src.value);
    }
  }

  // ---------------------------------------------------------------------------
  // Slide shows

  /** What the scrapers look at in one slide of a slide show: the first span
      that carries a `data-lazy` attribute (its `src` and `data-csrc`), the
      `data-lazy` value of the hidden-image span, and the slide's
      orbit-image tag. */
  datatype Slide = Slide(lazySpan: Option<Img>, hiddenLazy: Option<string>, orbitImage: Option<Img>)

  /** The community page's first image: the first slide's lazy span's
      source, kept only when it is non-empty and relative, and then
      resolved; an absolute source is dropped. */
  function FirstImage(slides: seq<Slide>): (r: seq<string>)
    ensures |r| <= 1
    ensures r != [] <==>
              |slides| > 0 && slides[0].lazySpan.Some? &&
              Truthy(Source(slides[0].lazySpan.value)) && !IsAbsolute(Source(slides[0].lazySpan.value).value)
    ensures r != [] ==> r == [Absolutise(Source(slides[0].lazySpan.value).value)]
  {
    if |slides| > 0 && slides[0].lazySpan.Some? then
      var src := Source(slides[0].lazySpan.value);
      if Truthy(src) && !IsAbsolute(src.value) then [PrefixOrigin(src.value)] else []
    else []
  }

  /** The loading placeholder a slide shows before its image arrives. */
  const Placeholder: string := "meritageLoadingCommunityHero.gif"

  /** The image one slide of a homesite page contributes: its hidden-image
      `data-lazy` value, resolved, whenever that is non-empty; otherwise the
      orbit image's source, but only when it is non-empty, relative and not
      the placeholder, and then with the origin put in front of it. */
  function SlideImage(s: Slide): (r: Option<string>)
    ensures r.Some? ==> IsAbsolute(r.value)
    ensures Truthy(s.hiddenLazy) ==> r.Some? && (IsAbsolute(s.hiddenLazy.value) ==> r == s.hiddenLazy)
    ensures Truthy(s.hiddenLazy) && !IsAbsolute(s.hiddenLazy.value) ==> r == Some(Origin + s.hiddenLazy.value)
    ensures !Truthy(s.hiddenLazy) ==>
              (r.Some? <==> s.orbitImage.Some? && Truthy(Source(s.orbitImage.value)) &&
                            !IsAbsolute(Source(s.orbitImage.value).value) &&
                            !EndsWith(Source(s.orbitImage.value).value, Placeholder))
    ensures !Truthy(s.hiddenLazy) && r.Some? ==> r.value == Origin + Source(s.orbitImage.value).value
  {
    if Truthy(s.hiddenLazy) then Some(Absolutise(s.hiddenLazy.value))
    else if s.orbitImage.Some? then
      var src := Source(s.orbitImage.value);
      if Truthy(src) && !IsAbsolute(src.value) && !EndsWith(src.value, Placeholder) then Some(PrefixOrigin(src.value))
      else None
    else None
  }

  /** What each slide contributes, slide by slide. */
  function PerSlide(slides: seq<Slide>): (r: seq<Option<string>>)
    ensures |r| == |slides| && forall k :: 0 <= k < |slides| ==> r[k] == SlideImage(slides[k])
  {
    seq(|slides|, k requires 0 <= k < |slides| => SlideImage(slides[k]))
  }

  /** The images of a homesite page: the j-th image is the one of the j-th
      slide that contributes one, so the images follow the slides' order
      and every contributing slide gives exactly one of them. */
  function SlideImages(slides: seq<Slide>): (r: seq<string>)
    ensures var ix := SomeIndexes(PerSlide(slides));
            |r| == |ix| && forall j :: 0 <= j < |r| ==> SlideImage(slides[ix[j]]) == Some(r[j])
    ensures forall k :: 0 <= k < |r| ==> IsAbsolute(r[k])
  {
    var r := Somes(PerSlide(slides));
    assert forall k :: 0 <= k < |r| ==> IsAbsolute(r[k]) by {
      forall k | 0 <= k < |r| ensures IsAbsolute(r[k]) {
        assert SlideImage(slides[SomeIndexes(PerSlide(slides))[k]]) == Some(r[k]);
      }
    }
    r
  }

  /** An address is among a page's images exactly when some slide
      contributes it. */
  lemma SlideImagesMembers(slides: seq<Slide>, x: string)
    ensures x in SlideImages(slides) <==> exists k :: 0 <= k < |slides| && SlideImage(slides[k]) == Some(x)
  {
    var per := PerSlide(slides);
    SomesMembers(per, x);
    if exists k :: 0 <= k < |slides| && SlideImage(slides[k]) == Some(x) {
      var k :| 0 <= k < |slides| && SlideImage(slides[k]) == Some(x);
      assert per[k] == Some(x);
    }
  }

  // ---------------------------------------------------------------------------
  // The community image fallback (get_meritage_page.py:491-510)

  /** The images a homesite row carries into the fallback. */
  datatype SiteImages = SiteImages(imageUrl: Option<string>, images: seq<string>)

  function PlanCandidates(planUrls: seq<Option<string>>): (r: seq<string>)
    ensures forall c :: c in r <==> exists k :: 0 <= k < |planUrls| && Truthy(planUrls[k]) && planUrls[k].value == c
  {
    if |planUrls| == 0 then []
    else
      var rest := PlanCandidates(planUrls[1..]);
      assert forall k :: 0 < k < |planUrls| ==> planUrls[k] == planUrls[1..][k - 1];
      (if Truthy(planUrls[0]) then [planUrls[0].value] else []) + rest
  }

  function SiteCandidates(sites: seq<SiteImages>): (r: seq<string>)
    ensures forall c :: c in r <==> exists k :: 0 <= k < |sites| && SiteOffers(sites[k], c)
  {
    if |sites| == 0 then []
    else
      var s := sites[0];
      var rest := SiteCandidates(sites[1..]);
      assert forall k :: 0 < k < |sites| ==> sites[k] == sites[1..][k - 1];
      (if Truthy(s.imageUrl) then [s.imageUrl.value] else []) + s.images + rest
  }

  /** A homesite offers its own non-empty image and every image of its page. */
  predicate SiteOffers(s: SiteImages, c: string) {
    (Truthy(s.imageUrl) && s.imageUrl.value == c) || c in s.images
  }

  /** Every non-empty plan image, then each homesite's non-empty image
      followed by the images of its page. */
  function Candidates(planUrls: seq<Option<string>>, sites: seq<SiteImages>): seq<string> {
    PlanCandidates(planUrls) + SiteCandidates(sites)
  }

  /** No plan has a non-empty image, and no homesite has a non-empty image
      or images of its page. */
  predicate NoCandidates(planUrls: seq<Option<string>>, sites: seq<SiteImages>) {
    && (forall k :: 0 <= k < |planUrls| ==> !Truthy(planUrls[k]))
    && (forall k :: 0 <= k < |sites| ==> !Truthy(sites[k].imageUrl) && sites[k].images == [])
  }

  /** The candidate list is empty exactly when nothing offers an image. */
  lemma CandidatesEmpty(planUrls: seq<Option<string>>, sites: seq<SiteImages>)
    ensures Candidates(planUrls, sites) == [] <==> NoCandidates(planUrls, sites)
  {
    var c := Candidates(planUrls, sites);
    if c != [] {
      assert c[0] in PlanCandidates(planUrls) || c[0] in SiteCandidates(sites);
    }
    if !NoCandidates(planUrls, sites) {
      if exists k :: 0 <= k < |planUrls| && Truthy(planUrls[k]) {
        var k :| 0 <= k < |planUrls| && Truthy(planUrls[k]);
        assert planUrls[k].value in PlanCandidates(planUrls);
      } else {
        var k :| 0 <= k < |sites| && (Truthy(sites[k].imageUrl) || sites[k].images != []);
        var x := if Truthy(sites[k].imageUrl) then sites[k].imageUrl.value else sites[k].images[0];
        assert SiteOffers(sites[k], x);
        assert x in SiteCandidates(sites);
      }
    }
  }

  lemma ModSmall(k: nat, n: nat)
    requires k < n
    ensures k % n == k
  {
  }

  /** Every candidate is the one chosen for some value of the random pick. */
  lemma FallbackCanChooseAny(planUrls: seq<Option<string>>, sites: seq<SiteImages>, x: string)
    requires x in Candidates(planUrls, sites)
    ensures exists pick: nat :: Fallback([], planUrls, sites, pick) == [x]
  {
    var c := Candidates(planUrls, sites);
    var k :| 0 <= k < |c| && c[k] == x;
    ModSmall(k, |c|);
    assert Fallback([], planUrls, sites, k) == [c[k % |c|]];
  }

  /** The community's images after the fallback: the page's own images when
      it has any; otherwise one candidate chosen at random (the choice is
      the parameter `pick`), or none when there is no candidate. */
  function Fallback(images: seq<string>, planUrls: seq<Option<string>>, sites: seq<SiteImages>, pick: nat): (r: seq<string>)
    ensures images != [] ==> r == images
    ensures images == [] ==> |r| <= 1
    ensures images == [] ==> (r == [] <==> NoCandidates(planUrls, sites))
    ensures images == [] && r != [] ==> r[0] in Candidates(planUrls, sites)
  {
    if images != [] then images
    else
      var c := Candidates(planUrls, sites);
      CandidatesEmpty(planUrls, sites);
      if c == [] then [] else [c[pick % |c|]]
  }
}
