/** A concrete site on which the crawl order can be followed by hand: the
    seed page links, in this order, to `/a`, `/b?x=1` and `/a/`, and every
    other page is an HTML page without links. */
module Scenarios {

  import opened Wrappers
  import opened Urls
  import opened Html
  import opened CrawlSpec

  const Seed := Url("https", "ex.com", "", "")
  const PageA := Url("https", "ex.com", "/a", "")
  const PageB := Url("https", "ex.com", "/b", "x=1")
  const PageASlash := Url("https", "ex.com", "/a/", "")

  function Anchor(href: string): Node {
    Node(true, "a", [("href", href)], [])
  }

  const Empty := Node(false, "", [], [])
  const Home := Node(false, "", [], [Anchor("/a"), Anchor("/b?x=1"), Anchor("/a/")])

  function Resolve(base: Url, href: string): Option<Url> {
    if href == "/a" then Some(PageA)
    else if href == "/b?x=1" then Some(PageB)
    else if href == "/a/" then Some(PageASlash)
    else None
  }

  function Fetch(key: string): Outcome {
    if key == "https://ex.com" then Response(200, "text/html", Some(Home))
    else Response(200, "text/html; charset=utf-8", Some(Empty))
  }

  const Site := Web(Fetch, Resolve, {"https://ex.com", "https://ex.com/a"})

  lemma Keys()
    ensures NormalizeUrl(Seed) == "https://ex.com"
    ensures NormalizeUrl(PageA) == "https://ex.com/a"
    ensures NormalizeUrl(PageASlash) == "https://ex.com/a"
    ensures NormalizeUrl(PageB) == ""
  {
    assert Joined(Seed) == "https://ex.com";
    assert Joined(Seed)[|Joined(Seed)| - 1..] == "m";
    assert Joined(PageA) == "https://ex.com/a";
    assert Joined(PageA)[|Joined(PageA)| - 1..] == "a";
    assert Joined(PageASlash) == "https://ex.com/a/";
    assert Joined(PageASlash)[..|Joined(PageASlash)| - 1] == "https://ex.com/a";
  }

  lemma SiteClosed()
    ensures Closed(Site) && InScope(Site, Seed)
  {
    Keys();
  }

  lemma HtmlContentTypes()
    ensures Strings.Contains("text/html", "text/html")
    ensures Strings.Contains("text/html; charset=utf-8", "text/html")
  {
    assert Strings.HasPrefix("text/html", "text/html");
    assert "text/html; charset=utf-8"[..|"text/html"|] == "text/html";
  }

  lemma HomeLinks()
    ensures Links(Site, Seed, Home) == [PageA, PageB, PageASlash]
  {
    var cs := Home.children;
    assert Links(Site, Seed, cs[0]) == [PageA];
    assert Links(Site, Seed, cs[1]) == [PageB];
    assert Links(Site, Seed, cs[2]) == [PageASlash];
    assert cs[..1][..0] == [] && cs[..2][..1] == cs[..1] && cs[..3][..2] == cs[..2] && cs[..3] == cs;
  }

  /** Page `/a` is recorded and, having no links, adds nothing else. */
  lemma CrawlPageA(s: State)
    requires "https://ex.com/a" !in s.visited
    ensures Closed(Site) && InScope(Site, PageA)
    ensures Crawl(Site, s, PageA) == Record(s, "https://ex.com/a")
  {
    SiteClosed();
    Keys();
    HtmlContentTypes();
    var s1 := Record(s, "https://ex.com/a");
    assert !DeadEnd(Site, "https://ex.com/a");
    assert VisitLinks(Site, s1, PageA, Empty) == s1 by {
      VisitLinksIsCrawlAll(Site, s1, PageA, Empty);
    }
  }

  /** Crawling the seed records it, then crawls the links of its page in
      document order. */
  lemma CrawlSeed()
    ensures Closed(Site) && InScope(Site, Seed) && AllInScope(Site, [PageA, PageB, PageASlash])
    ensures Crawl(Site, Initial, Seed) == CrawlAll(Site, Record(Initial, "https://ex.com"), [PageA, PageB, PageASlash])
  {
    SiteClosed();
    Keys();
    HtmlContentTypes();
    var s1 := Record(Initial, "https://ex.com");
    assert !DeadEnd(Site, "https://ex.com");
    assert Crawl(Site, Initial, Seed) == VisitLinks(Site, s1, Seed, Home);
    HomeLinks();
    VisitLinksIsCrawlAll(Site, s1, Seed, Home);
  }

  /** `/a` is new; `/b?x=1` is ignored for its query; `/a/` has the key of
      `/a`, which is already visited. */
  lemma CrawlHomeLinks(s: State)
    requires s == Record(Initial, "https://ex.com")
    ensures Closed(Site) && AllInScope(Site, [PageA, PageB, PageASlash])
    ensures CrawlAll(Site, s, [PageA, PageB, PageASlash]) == Record(s, "https://ex.com/a")
  {
    SiteClosed();
    Keys();
    var links := [PageA, PageB, PageASlash];
    var s2 := Record(s, "https://ex.com/a");
    assert links[..2][..1] == [PageA] && links[..2] == [PageA, PageB] && links[..3] == links;
    CrawlAllSingle(Site, s, PageA);
    CrawlPageA(s);
    var t1 := CrawlAll(Site, s, [PageA]);
    assert t1 == s2;
    var t2 := CrawlAll(Site, s, [PageA, PageB]);
    assert t2 == Crawl(Site, t1, PageB);
    assert t2 == s2;
    assert CrawlAll(Site, s, links) == Crawl(Site, t2, PageASlash);
    assert "https://ex.com/a" in s2.visited;
  }

  /** The link with a query is dropped, `/a/` is the same page as `/a`, and
      the output lists the seed and `/a` in discovery order. */
  lemma DiscoveryOrder()
    ensures Closed(Site) && InScope(Site, Seed)
    ensures Run(Site, Seed, []).urls == ["https://ex.com", "https://ex.com/a"]
  {
    CrawlSeed();
    CrawlHomeLinks(Record(Initial, "https://ex.com"));
    RecordTwice("https://ex.com", "https://ex.com/a");
  }

  lemma RecordTwice(a: string, b: string)
    ensures Record(Record(Initial, a), b).urls == [a, b]
  {
  }
}
