/** The crawler of main.go in its own imperative form: an object holding the
    `visited` set and the `urls` output that `crawl` and `visitLinks` update in
    place, with the attribute loop (and its early `break`) and the sibling loop
    written out. Each method is proved to compute the corresponding function
    of `CrawlSpec`. */
module Crawling {

  import opened Wrappers
  import opened Strings
  import opened Urls
  import opened Html
  import opened CrawlSpec
  import opened Sitemap

  class Crawler {
    const web: Web
    var visited: set<string>
    var urls: seq<string>

    /** The abstract value of the shared state. */
    function Abstract(): State
      reads this
    {
      State(visited, urls)
    }

    ghost predicate Valid()
      reads this
    {
      Closed(web) && Inv(Abstract())
    }

    /** `make(map[string]bool)` and an empty `urls` slice. */
    constructor (web: Web)
      requires Closed(web)
      ensures Valid() && this.web == web
      ensures Abstract() == Initial
    {
      this.web := web;
      visited := {};
      urls := [];
    }

    /** `crawl(u, &urls, visited)`. */
    method Crawl(u: Url)
      requires Valid() && InScope(web, u)
      modifies this
      decreases |web.universe - visited|, 0
      ensures Valid()
      ensures Abstract() == CrawlSpec.Crawl(web, old(Abstract()), u)
    {
      ghost var s0 := Abstract();
      var normalized := NormalizeUrl(u);
      if normalized == "" || normalized in visited {
        return;
      }
      visited := visited + {normalized};
      urls := urls + [normalized];
      ExtendsKeepsInv(s0, Abstract()) by {
        assert urls[|s0.urls|..] == [normalized];
      }
      assert web.universe - s0.visited == (web.universe - visited) + {normalized};

      var resp := web.fetch(normalized);
      if resp.FetchError? {
        return;
      }
      if resp.status != StatusOK {
        return;
      }
      if !Contains(resp.contentType, "text/html") {
        return;
      }
      if resp.doc.None? {
        return;
      }
      VisitLinks(u, resp.doc.value);
    }

    /** `visitLinks(baseURL, n, &urls, visited)`: the link of `n` first, then
        the children in sibling order. */
    method VisitLinks(base: Url, n: Node)
      requires Valid()
      modifies this
      decreases |web.universe - visited|, 1, n
      ensures Valid()
      ensures Abstract() == CrawlSpec.VisitLinks(web, old(Abstract()), base, n)
    {
      ghost var s0 := Abstract();
      FollowAnchor(base, n);
      MeasureNonIncreasing(web, s0, Abstract());
      VisitChildren(base, n.children);
    }

    /** The `for c := n.FirstChild; c != nil; c = c.NextSibling` loop of
        `visitLinks`: each child in turn, sharing the state. */
    method VisitChildren(base: Url, cs: seq<Node>)
      requires Valid()
      modifies this
      decreases |web.universe - visited|, 1, cs
      ensures Valid()
      ensures Abstract() == CrawlSpec.VisitChildren(web, old(Abstract()), base, cs)
    {
      ghost var s0 := Abstract();
      var k := 0;
      while k < |cs|
        invariant k <= |cs|
        invariant Valid()
        invariant Abstract() == CrawlSpec.VisitChildren(web, s0, base, cs[..k])
        invariant s0.visited <= visited
      {
        VisitChildrenStep(web, s0, base, cs, k);
        MeasureNonIncreasing(web, s0, Abstract());
        VisitLinks(base, cs[k]);
        k := k + 1;
      }
      VisitChildrenAll(web, s0, base, cs);
    }

    /** The attribute loop of `visitLinks`: for an `<a>` element, scan the
        attributes up to the first `href`, crawl its target when it resolves to
        the same host and its key is fresh, and stop there (the `break`). */
    method FollowAnchor(base: Url, n: Node)
      requires Valid()
      modifies this
      decreases |web.universe - visited|, 1, n, 0
      ensures Valid()
      ensures Abstract() == FollowLink(web, old(Abstract()), base, n)
    {
      ghost var s0 := Abstract();
      if n.isElement && n.tag == "a" {
        var i := 0;
        while i < |n.attrs|
          invariant i <= |n.attrs|
          invariant forall j :: 0 <= j < i ==> n.attrs[j].0 != "href"
          invariant Abstract() == s0
        {
          var (key, val) := n.attrs[i];
          if key == "href" {
            assert HrefIndex(n.attrs) == i;
            var link := web.resolve(base, val);
            assert ResolvedInScope(web, link);
            if link.Some? && link.value.host == base.host {
              var normalizedLink := NormalizeUrl(link.value);
              if normalizedLink != "" && normalizedLink !in visited {
                Crawl(link.value);
              }
            }
            break;
          }
          i := i + 1;
        }
      }
    }
  }

  /** `main` after flag parsing: give up without output when the domain is
      empty or does not parse; otherwise crawl the seed, then each additional
      URL that resolves against it, all sharing one crawler, and turn the
      output into the sitemap document. */
  method Generate(web: Web, parse: string -> Option<Url>, domain: string, additional: seq<string>)
    returns (sitemap: Option<UrlSet>)
    requires Closed(web)
    requires parse(domain).Some? ==> InScope(web, parse(domain).value)
    ensures sitemap.None? <==> domain == "" || parse(domain).None?
    ensures sitemap.Some? ==> Lists(sitemap.value, Run(web, parse(domain).value, additional).urls)
    ensures sitemap.Some? ==> NoDup(Run(web, parse(domain).value, additional).urls)
  {
    if domain == "" {
      return None;
    }
    var parsed := parse(domain);
    if parsed.None? {
      return None;
    }
    var baseUrl := parsed.value;

    var crawler := new Crawler(web);
    crawler.Crawl(baseUrl);
    ghost var afterSeed := crawler.Abstract();

    var i := 0;
    while i < |additional|
      invariant i <= |additional|
      invariant crawler.Valid() && crawler.web == web
      invariant crawler.Abstract() == CrawlExtra(web, afterSeed, baseUrl, additional[..i])
    {
      CrawlExtraStep(web, afterSeed, baseUrl, additional, i);
      var fullUrl := web.resolve(baseUrl, additional[i]);
      assert ResolvedInScope(web, fullUrl);
      if fullUrl.Some? {
        crawler.Crawl(fullUrl.value);
      }
      i := i + 1;
    }
    assert additional[..i] == additional;

    RunOutput(web, baseUrl, additional);
    var doc := BuildUrlSet(crawler.urls);
    return Some(doc);
  }
}
