/** Finding the attendance articles on the search result page: keep the
    anchors whose text contains the keyword, resolve their `href` against
    the site's origin, and drop repeated URLs through a set. */
module Links {
  import opened Wrappers
  import opened PyStr

  /** The search keyword, "来場者数と入場チケット販売数について". */
  const Keyword: string := "来場者数と入場チケット販売数について"
  const BaseUrl: string := "https://www.expo2025.or.jp"
  const Scheme: string := "http"

  /** An `<a>` element of the page: its text and its `href`, if it has one. */
  datatype Anchor = Anchor(text: string, href: Option<string>)

  /** `find_all("a", href=True)` keeps anchors with an `href`; of those, the
      ones whose text contains the keyword are followed. */
  predicate Selected(a: Anchor, keyword: string) {
    a.href.Some? && Contains(a.text, keyword)
  }

  /** `href if href.startswith("http") else base_url + href`: an absolute
      `href` is kept, a relative one is appended to the origin; either way
      the result ends with the `href`, and is absolute whenever the origin is. */
  function Resolve(href: string, base: string): (url: string)
    ensures |href| <= |url| && url[|url| - |href|..] == href
    ensures StartsWith(base, Scheme) ==> StartsWith(url, Scheme)
    ensures StartsWith(href, Scheme) ==> url == href
    ensures !StartsWith(href, Scheme) ==> url == base + href
  {
    if StartsWith(href, Scheme) then href
    else
      assert (base + href)[|base|..] == href;
      assert StartsWith(base, Scheme) ==> (base + href)[..|Scheme|] == base[..|Scheme|];
      base + href
  }

  /** Resolving a resolved link changes nothing. */
  lemma ResolveIdempotent(href: string, base: string)
    requires StartsWith(base, Scheme)
    ensures Resolve(Resolve(href, base), base) == Resolve(href, base)
  {
  }

  /** A site-relative `href` is put behind the origin. */
  lemma SampleRelative(href: string)
    requires href == "/news/a"
    ensures Resolve(href, BaseUrl) == "https://www.expo2025.or.jp/news/a"
  {
    assert href[0] != Scheme[0];
  }

  /** The resolved links of the selected anchors, in page order. */
  function MatchingLinks(anchors: seq<Anchor>, keyword: string, base: string): (links: seq<string>)
    ensures |links| <= |anchors|
  {
    if anchors == [] then []
    else
      var a := anchors[|anchors| - 1];
      MatchingLinks(anchors[..|anchors| - 1], keyword, base)
        + (if Selected(a, keyword) then [Resolve(a.href.value, base)] else [])
  }

  /** Anchor `i` is selected and resolves to `u`. */
  ghost predicate LinkFrom(anchors: seq<Anchor>, keyword: string, base: string, i: int, u: string) {
    0 <= i < |anchors| && Selected(anchors[i], keyword) && u == Resolve(anchors[i].href.value, base)
  }

  lemma MatchingLinksLast(anchors: seq<Anchor>, keyword: string, base: string)
    requires anchors != []
    ensures var n := |anchors| - 1;
      MatchingLinks(anchors, keyword, base) == MatchingLinks(anchors[..n], keyword, base)
        + (if Selected(anchors[n], keyword) then [Resolve(anchors[n].href.value, base)] else [])
  {
  }

  /** Every link comes from a selected anchor. */
  lemma {:induction false} MatchingLinksSound(anchors: seq<Anchor>, keyword: string, base: string, u: string)
    requires u in MatchingLinks(anchors, keyword, base)
    ensures exists i :: LinkFrom(anchors, keyword, base, i, u)
    decreases |anchors|
  {
    var n := |anchors| - 1;
    var front := anchors[..n];
    MatchingLinksLast(anchors, keyword, base);
    if u in MatchingLinks(front, keyword, base) {
      MatchingLinksSound(front, keyword, base, u);
      var i :| LinkFrom(front, keyword, base, i, u);
      assert LinkFrom(anchors, keyword, base, i, u);
    } else {
      assert LinkFrom(anchors, keyword, base, n, u);
    }
  }

  /** Every selected anchor contributes its resolved link. */
  lemma {:induction false} MatchingLinksComplete(anchors: seq<Anchor>, keyword: string, base: string, i: int, u: string)
    requires LinkFrom(anchors, keyword, base, i, u)
    ensures u in MatchingLinks(anchors, keyword, base)
    decreases |anchors|
  {
    var n := |anchors| - 1;
    var front := anchors[..n];
    MatchingLinksLast(anchors, keyword, base);
    if i < n {
      assert LinkFrom(front, keyword, base, i, u);
      MatchingLinksComplete(front, keyword, base, i, u);
    }
  }

  /** A URL is among the links exactly when some selected anchor resolves to it. */
  lemma MatchingLinksMembers(anchors: seq<Anchor>, keyword: string, base: string, u: string)
    ensures u in MatchingLinks(anchors, keyword, base) <==> exists i :: LinkFrom(anchors, keyword, base, i, u)
  {
    if u in MatchingLinks(anchors, keyword, base) {
      MatchingLinksSound(anchors, keyword, base, u);
    }
    if exists i :: LinkFrom(anchors, keyword, base, i, u) {
      var i :| LinkFrom(anchors, keyword, base, i, u);
      MatchingLinksComplete(anchors, keyword, base, i, u);
    }
  }

  /** The loop over `soup.find_all("a", href=True)` appending to `article_links`. */
  method ExtractLinks(anchors: seq<Anchor>, keyword: string, base: string) returns (links: seq<string>)
    ensures links == MatchingLinks(anchors, keyword, base)
  {
    links := [];
    for i := 0 to |anchors|
      invariant links == MatchingLinks(anchors[..i], keyword, base)
    {
      var a := anchors[i];
      assert anchors[..i + 1][..i] == anchors[..i];
      if Selected(a, keyword) {
        links := links + [Resolve(a.href.value, base)];
      }
    }
    assert anchors[..|anchors|] == anchors;
  }

  /** The links of `s` as a set. */
  function Members(s: seq<string>): (m: set<string>)
    ensures forall u :: u in m <==> u in s
    ensures m == {} <==> s == []
  {
    assert s != [] ==> s[0] in s;
    set u | u in s
  }

  predicate Distinct(s: seq<string>) {
    forall i, j :: 0 <= i < j < |s| ==> s[i] != s[j]
  }

  /** `list(set(article_links))`: every link once, in an order the set
      chooses. */
  method Dedup(links: seq<string>) returns (unique: seq<string>)
    ensures Distinct(unique)
    ensures Members(unique) == Members(links)
  {
    var pending := Members(links);
    unique := [];
    while pending != {}
      invariant Distinct(unique)
      invariant forall u :: u in unique ==> u !in pending
      invariant Members(unique) + pending == Members(links)
      decreases pending
    {
      var u :| u in pending;
      unique := unique + [u];
      pending := pending - {u};
    }
  }

  /** A reference order for the same links: each one where it first appears. */
  function FirstSeen(xs: seq<string>): (r: seq<string>)
    ensures Distinct(r)
    ensures Members(r) == Members(xs)
  {
    if xs == [] then []
    else
      var init := xs[..|xs| - 1];
      var front := FirstSeen(init);
      var last := xs[|xs| - 1];
      assert xs == init + [last];
      assert Members(xs) == Members(init) + {last};
      if last in front then front else front + [last]
  }
}
