/** Discovery of the community pages (get_meritage_api_links.py): the city
    links of the home page, the community links of every city page, and the
    decision whether a links file is written. Pages are given as the `href`
    values of the anchors the scraper looks at, None for an anchor without
    the attribute. */
module Discovery {
  import opened Options
  import opened Text
  import opened Urls
  import opened Images

  // ---------------------------------------------------------------------------
  // Links and first-seen order

  /** The non-empty hrefs, each made absolute, in order. */
  function Resolved(hrefs: seq<Option<string>>): (r: seq<string>)
    ensures |r| <= |hrefs|
    ensures forall k :: 0 <= k < |r| ==> IsAbsolute(r[k])
    ensures forall x :: x in r ==> IsAbsolute(x)
    decreases |hrefs|
  {
    if |hrefs| == 0 then []
    else
      var h := hrefs[|hrefs| - 1];
      Resolved(hrefs[..|hrefs| - 1]) + (if Truthy(h) then [Absolutise(h.value)] else [])
  }

  /** A link is resolved from the hrefs exactly when some non-empty href
      makes it. */
  lemma {:induction false} ResolvedMembers(hrefs: seq<Option<string>>, x: string)
    ensures x in Resolved(hrefs) <==> exists k :: 0 <= k < |hrefs| && Truthy(hrefs[k]) && Absolutise(hrefs[k].value) == x
    decreases |hrefs|
  {
    if |hrefs| > 0 {
      var init := hrefs[..|hrefs| - 1];
      ResolvedMembers(init, x);
      if x in Resolved(init) {
        var k :| 0 <= k < |init| && Truthy(init[k]) && Absolutise(init[k].value) == x;
        assert hrefs[k] == init[k];
      }
      if exists k :: 0 <= k < |hrefs| && Truthy(hrefs[k]) && Absolutise(hrefs[k].value) == x {
        var k :| 0 <= k < |hrefs| && Truthy(hrefs[k]) && Absolutise(hrefs[k].value) == x;
        if k < |init| {
          assert init[k] == hrefs[k];
        }
      }
    }
  }

  lemma {:induction false} ResolvedAppend(a: seq<Option<string>>, b: seq<Option<string>>)
    ensures Resolved(a + b) == Resolved(a) + Resolved(b)
    decreases |b|
  {
    if |b| == 0 {
      assert a + b == a;
    } else {
      var init, h := b[..|b| - 1], b[|b| - 1];
      var tail := if Truthy(h) then [Absolutise(h.value)] else [];
      ResolvedAppend(a, init);
      assert (a + b)[..|a + b| - 1] == a + init && (a + b)[|a + b| - 1] == h;
      assert Resolved(a + b) == Resolved(a + init) + tail;
      assert Resolved(b) == Resolved(init) + tail;
    }
  }

  predicate NoDuplicates(xs: seq<string>) {
    forall a, b :: 0 <= a < b < |xs| ==> xs[a] != xs[b]
  }

  /** The links in the order they are first seen, each kept once. */
  function Dedup(xs: seq<string>): (r: seq<string>)
    ensures NoDuplicates(r)
    ensures forall x :: x in r <==> x in xs
    decreases |xs|
  {
    if |xs| == 0 then []
    else
      var d := Dedup(xs[..|xs| - 1]);
      var x := xs[|xs| - 1];
      assert forall y :: y in xs <==> y in xs[..|xs| - 1] || y == x;
      if x in d then d else d + [x]
  }

  /** The position at which `x` is first seen. */
  function FirstIndex(xs: seq<string>, x: string): (i: nat)
    requires x in xs
    ensures i < |xs| && xs[i] == x
    ensures forall j :: 0 <= j < i ==> xs[j] != x
  {
    if xs[0] == x then 0 else 1 + FirstIndex(xs[1..], x)
  }

  lemma FirstIndexExtend(xs: seq<string>, y: string, x: string)
    requires x in xs
    ensures FirstIndex(xs + [y], x) == FirstIndex(xs, x)
  {
    var i, j := FirstIndex(xs + [y], x), FirstIndex(xs, x);
    assert (xs + [y])[j] == x;
  }

  /** One more link is added at the end unless it was seen before. */
  lemma DedupSnoc(xs: seq<string>, x: string)
    ensures Dedup(xs + [x]) == if x in xs then Dedup(xs) else Dedup(xs) + [x]
  {
    assert (xs + [x])[..|xs|] == xs;
  }

  /** The links keep the order in which they were first seen. */
  lemma {:induction false} DedupOrder(xs: seq<string>)
    ensures var r := Dedup(xs);
            forall a, b :: 0 <= a < b < |r| ==> FirstIndex(xs, r[a]) < FirstIndex(xs, r[b])
    decreases |xs|
  {
    if |xs| > 0 {
      var init, x := xs[..|xs| - 1], xs[|xs| - 1];
      assert xs == init + [x];
      DedupOrder(init);
      DedupSnoc(init, x);
      var d := Dedup(init);
      var r := Dedup(xs);
      forall y | y in d ensures FirstIndex(xs, y) == FirstIndex(init, y) < |init| {
        FirstIndexExtend(init, x, y);
      }
      forall a, b | 0 <= a < b < |r| ensures FirstIndex(xs, r[a]) < FirstIndex(xs, r[b]) {
        assert r[a] == d[a] && r[a] in d;
        if b < |d| {
          assert r[b] == d[b] && r[b] in d;
        } else {
          assert x !in init && r[b] == x;
        }
      }
    }
  }

  /** Links that are already distinct are kept as they are. */
  lemma {:induction false} DedupDistinct(xs: seq<string>)
    requires NoDuplicates(xs)
    ensures Dedup(xs) == xs
    decreases |xs|
  {
    if |xs| > 0 {
      var init := xs[..|xs| - 1];
      DedupDistinct(init);
      assert xs[|xs| - 1] !in init by {
        forall k | 0 <= k < |init| ensures init[k] != xs[|xs| - 1] {
          assert init[k] == xs[k];
        }
      }
      assert init + [xs[|xs| - 1]] == xs;
    }
  }

  // ---------------------------------------------------------------------------
  // City links

  /** The loop of `get_city_links` over the hrefs of the `city-link` anchors:
      each non-empty href is made absolute and added unless it is already
      there. */
  method CollectLinks(hrefs: seq<Option<string>>) returns (links: seq<string>)
    ensures links == Dedup(Resolved(hrefs))
    ensures NoDuplicates(links)
    ensures forall x :: x in links <==> x in Resolved(hrefs)
  {
    links := [];
    for i := 0 to |hrefs|
      invariant links == Dedup(Resolved(hrefs[..i]))
    {
      var h := hrefs[i];
      assert hrefs[..i + 1][..i] == hrefs[..i];
      ghost var seen := Resolved(hrefs[..i]);
      assert Resolved(hrefs[..i + 1]) == seen + (if Truthy(h) then [Absolutise(h.value)] else []);
      if Truthy(h) {
        DedupSnoc(seen, Absolutise(h.value));
      } else {
        assert seen + [] == seen;
      }
      if h.Some? && h.value != [] {
        var href := h.value;
        if !StartsWith(href, "http") {
          href := Origin + href;
        }
        if href !in links {
          links := links + [href];
        }
      }
    }
    assert hrefs[..|hrefs|] == hrefs;
  }

  /** The city links of the home page; none when loading it fails. */
  function CityLinks(home: Option<seq<Option<string>>>): (r: seq<string>)
    ensures home.None? ==> r == []
    ensures NoDuplicates(r)
    ensures forall k :: 0 <= k < |r| ==> IsAbsolute(r[k])
    ensures home.Some? ==> forall x :: x in r <==> x in Resolved(home.value)
    ensures home.Some? ==> forall a, b :: 0 <= a < b < |r| ==>
              r[a] in Resolved(home.value) && r[b] in Resolved(home.value) &&
              FirstIndex(Resolved(home.value), r[a]) < FirstIndex(Resolved(home.value), r[b])
  {
    if home.Some? then
      var xs := Resolved(home.value);
      var d := Dedup(xs);
      DedupOrder(xs);
      assert forall a, b :: 0 <= a < b < |d| ==> d[a] in xs && d[b] in xs && FirstIndex(xs, d[a]) < FirstIndex(xs, d[b]) by {
        forall a, b | 0 <= a < b < |d| ensures d[a] in xs && d[b] in xs && FirstIndex(xs, d[a]) < FirstIndex(xs, d[b]) {
          assert d[a] in d && d[b] in d;
          assert FirstIndex(xs, Dedup(xs)[a]) < FirstIndex(xs, Dedup(xs)[b]);
        }
      }
      d
    else []
  }

  // ---------------------------------------------------------------------------
  // Community links

  /** A city page: for each `community-horizontal` container, the hrefs of
      its `button--blue--solid` anchors. */
  datatype CityPage = CityPage(containers: seq<seq<Option<string>>>)

  function Flatten(containers: seq<seq<Option<string>>>): (hs: seq<Option<string>>) {
    if |containers| == 0 then [] else containers[0] + Flatten(containers[1..])
  }

  /** The hrefs of all pages that loaded, page after page; a page that failed
      (None) adds none. */
  function CommunityHrefs(pages: seq<Option<CityPage>>): (hs: seq<Option<string>>) {
    if |pages| == 0 then []
    else (if pages[0].Some? then Flatten(pages[0].value.containers) else []) + CommunityHrefs(pages[1..])
  }

  lemma {:induction false} CommunityHrefsAppend(a: seq<Option<CityPage>>, b: seq<Option<CityPage>>)
    ensures CommunityHrefs(a + b) == CommunityHrefs(a) + CommunityHrefs(b)
  {
    if |a| > 0 {
      assert (a + b)[1..] == a[1..] + b;
      CommunityHrefsAppend(a[1..], b);
    } else {
      assert a + b == b;
    }
  }

  /** The community links gathered from the city pages. The links are
      distinct and are exactly the resolved hrefs of the pages that loaded;
      their order is that of first sight, one order among those the final
      conversion through a set may give. */
  function CommunityLinks(pages: seq<Option<CityPage>>): (r: seq<string>)
    ensures NoDuplicates(r)
    ensures forall x :: x in r <==> x in Resolved(CommunityHrefs(pages))
    ensures forall k :: 0 <= k < |r| ==> IsAbsolute(r[k])
  {
    Dedup(Resolved(CommunityHrefs(pages)))
  }

  /** The links of a list of city pages are the links of its two halves. */
  lemma CommunityLinksUnion(a: seq<Option<CityPage>>, b: seq<Option<CityPage>>, x: string)
    ensures x in CommunityLinks(a + b) <==> x in CommunityLinks(a) || x in CommunityLinks(b)
  {
    CommunityHrefsAppend(a, b);
    ResolvedAppend(CommunityHrefs(a), CommunityHrefs(b));
  }

  /** A city page that fails adds no links and does not stop the pages after
      it from adding theirs. */
  lemma FailedPageAddsNothing(a: seq<Option<CityPage>>, b: seq<Option<CityPage>>)
    ensures CommunityLinks(a + [None] + b) == CommunityLinks(a + b)
  {
    var nb: seq<Option<CityPage>> := [None] + b;
    assert nb[1..] == b;
    assert CommunityHrefs(nb) == CommunityHrefs(b);
    assert a + [None] + b == a + nb;
    CommunityHrefsAppend(a, nb);
    CommunityHrefsAppend(a, b);
  }

  /** The pages of the city links: the pages in `loaded` load, any other
      fails. */
  function Visit(cities: seq<string>, loaded: map<string, CityPage>): (ps: seq<Option<CityPage>>)
    ensures |ps| == |cities|
    ensures forall k :: 0 <= k < |cities| ==> (ps[k].Some? <==> cities[k] in loaded)
  {
    seq(|cities|, k requires 0 <= k < |cities| => if cities[k] in loaded then Some(loaded[cities[k]]) else None)
  }

  // ---------------------------------------------------------------------------
  // The run

  /** How `main` ends: no city links, no community links, or the links file
      written with the given links. */
  datatype Outcome = NoCityLinks | NoCommunityLinks | LinksFile(links: seq<string>)

  /** `main`: stops when there are no city links, stops when the city pages
      give no community links, and writes the links otherwise. */
  function Discover(home: Option<seq<Option<string>>>, loaded: map<string, CityPage>): (o: Outcome)
    ensures o.NoCityLinks? <==> CityLinks(home) == []
    ensures o.NoCommunityLinks? <==> CityLinks(home) != [] && CommunityLinks(Visit(CityLinks(home), loaded)) == []
    ensures o.LinksFile? ==> o.links != [] && NoDuplicates(o.links) && forall k :: 0 <= k < |o.links| ==> IsAbsolute(o.links[k])
  {
    var cities := CityLinks(home);
    if cities == [] then NoCityLinks
    else
      var links := CommunityLinks(Visit(cities, loaded));
      if links == [] then NoCommunityLinks else LinksFile(links)
  }

  /** Without city links, no city page is looked at: the outcome does not
      depend on which pages would load. */
  lemma NoCitiesNoPages(home: Option<seq<Option<string>>>, l1: map<string, CityPage>, l2: map<string, CityPage>)
    requires CityLinks(home) == []
    ensures Discover(home, l1) == Discover(home, l2) == NoCityLinks
  {
  }

  /** A written links file holds exactly the resolved hrefs of the city
      pages that loaded. */
  lemma LinksFileContents(home: Option<seq<Option<string>>>, loaded: map<string, CityPage>, x: string)
    requires Discover(home, loaded).LinksFile?
    ensures x in Discover(home, loaded).links <==> x in Resolved(CommunityHrefs(Visit(CityLinks(home), loaded)))
  {
  }
}
