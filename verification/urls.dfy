/** How the scrapers turn the links and image sources they find into full
    addresses, and how they derive names from an address. */
module Urls {
  import opened Options
  import opened Text

  /** The site every relative link is resolved against. */
  const Origin: string := "https://www.meritagehomes.com"

  /** A link the scrapers leave alone: one that starts with "http". */
  predicate IsAbsolute(h: string) {
    StartsWith(h, "http")
  }

  /** `h if h.startswith('http') else ORIGIN + h`: the conditional resolution
      applied to city links, community links and image sources. */
  function Absolutise(h: string): (r: string)
    ensures IsAbsolute(r)
    ensures IsAbsolute(h) ==> r == h
    ensures !IsAbsolute(h) ==> StartsWith(r, Origin) && r[|Origin|..] == h
  {
    if IsAbsolute(h) then h else Origin + h
  }

  /** Resolution leaves exactly the absolute links unchanged, so resolving a
      resolved link changes nothing. */
  lemma AbsolutiseFixed(h: string)
    ensures Absolutise(h) == h <==> IsAbsolute(h)
    ensures Absolutise(Absolutise(h)) == Absolutise(h)
  {
  }

  /** Resolution is one-to-one on relative links. */
  lemma AbsolutiseInjective(g: string, h: string)
    requires !IsAbsolute(g) && !IsAbsolute(h)
    ensures Absolutise(g) == Absolutise(h) ==> g == h
  {
    if Absolutise(g) == Absolutise(h) {
      assert g == Absolutise(g)[|Origin|..];
    }
  }

  /** `f"https://www.meritagehomes.com{href}"`: the unconditional prefix the
      homesite and homeplan rows put in front of their links. */
  function PrefixOrigin(href: string): (r: string)
    ensures |r| == |Origin| + |href|
    ensures StartsWith(r, Origin) && r[|Origin|..] == href
  {
    Origin + href
  }

  /** The unconditional prefix agrees with resolution exactly on relative
      links; an absolute link gets a second origin in front of it. */
  lemma PrefixOriginAgrees(href: string)
    ensures PrefixOrigin(href) == Absolutise(href) <==> !IsAbsolute(href)
  {
    if IsAbsolute(href) {
      assert |PrefixOrigin(href)| != |href|;
    }
  }

  // ---------------------------------------------------------------------------
  // Names derived from an address

  predicate NoSlash(s: string) {
    forall i :: 0 <= i < |s| ==> s[i] != '/'
  }

  /** `s.split('/')[-1]`: the text after the last slash, or all of `s`
      when it has none. */
  function LastSegment(s: string): (r: string)
    ensures EndsWith(s, r) && NoSlash(r)
    ensures |r| < |s| ==> s[|s| - |r| - 1] == '/'
  {
    if |s| == 0 || s[|s| - 1] == '/' then []
    else
      var r := LastSegment(s[..|s| - 1]) + [s[|s| - 1]];
      assert s[..|s| - 1][|s| - |r|..] + [s[|s| - 1]] == s[|s| - |r|..];
      r
  }

  /** The last segment is the only slash-free tail that is all of `s` or
      follows a slash. */
  lemma {:induction false} LastSegmentOf(p: string, seg: string)
    requires NoSlash(seg)
    requires p == [] || p[|p| - 1] == '/'
    ensures LastSegment(p + seg) == seg
    decreases |seg|
  {
    var s := p + seg;
    if |seg| == 0 {
      assert s == p;
    } else {
      var init, c := seg[..|seg| - 1], seg[|seg| - 1];
      assert s[..|s| - 1] == p + init && s[|s| - 1] == c && c != '/';
      assert NoSlash(init);
      LastSegmentOf(p, init);
      assert LastSegment(s) == LastSegment(p + init) + [c];
      assert init + [c] == seg;
    }
  }

  /** `url.split('/')[-1]` names the output file of a community page
      (get_meritage_page.py:69). */
  function CommunityName(url: string): (r: string)
    ensures NoSlash(r) && EndsWith(url, r)
  {
    LastSegment(url)
  }

  /** `s.rstrip('/')` */
  function TrimSlashes(s: string): (r: string)
    ensures StartsWith(s, r)
    ensures r == [] || r[|r| - 1] != '/'
    ensures forall i :: |r| <= i < |s| ==> s[i] == '/'
  {
    if |s| == 0 || s[|s| - 1] != '/' then s
    else
      var r := TrimSlashes(s[..|s| - 1]);
      assert s[..|r|] == s[..|s| - 1][..|r|];
      r
  }

  /** `url.rstrip('/').split('/')[-1] or 'index'`: the name under which a
      city page is saved (get_meritage_api_links.py:90). */
  function PageFilename(url: string): (r: string)
    ensures |r| > 0 && NoSlash(r)
    ensures (forall i :: 0 <= i < |url| ==> url[i] == '/') ==> r == "index"
  {
    var seg := LastSegment(TrimSlashes(url));
    if seg == [] then "index" else seg
  }

  /** A page address ending in a segment and any number of slashes is saved
      under that segment. */
  lemma PageFilenameOf(p: string, seg: string, slashes: string)
    requires |seg| > 0 && NoSlash(seg)
    requires p == [] || p[|p| - 1] == '/'
    requires forall i :: 0 <= i < |slashes| ==> slashes[i] == '/'
    ensures PageFilename(p + seg + slashes) == seg
  {
    TrimSlashesOf(p + seg, slashes);
    LastSegmentOf(p, seg);
  }

  lemma {:induction false} TrimSlashesOf(s: string, slashes: string)
    requires s != [] && s[|s| - 1] != '/'
    requires forall i :: 0 <= i < |slashes| ==> slashes[i] == '/'
    ensures TrimSlashes(s + slashes) == s
    decreases |slashes|
  {
    if |slashes| == 0 {
      assert s + slashes == s;
    } else {
      var init := slashes[..|slashes| - 1];
      assert (s + slashes)[..|s + slashes| - 1] == s + init;
      TrimSlashesOf(s, init);
    }
  }
}
