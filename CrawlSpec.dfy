/** The crawler of main.go (`crawl`, `visitLinks` and the driver in `main`)
    as functions from the crawl state before a call to the state after it.
    The network and the HTML parser are replaced by the oracles of `Web`; the
    methods of `Crawling.Crawler` are proved to compute exactly these
    functions, and the lemmas below state what the source promises of them. */
module CrawlSpec {

  import opened Wrappers
  import opened Strings
  import opened Urls
  import opened Html

  /** `http.StatusOK`: the only status whose page is parsed for links. */
  const StatusOK := 200

  /** What fetching a page yields: a transport error, or a response with its
      status, its Content-Type header and the parsed document (`None` when
      `html.Parse` fails on the body). */
  datatype Outcome = FetchError | Response(status: int, contentType: string, doc: Option<Node>)

  /** The environment of one crawl: `fetch` stands for `http.Get` on a key,
      `resolve` for `base.Parse(href)` (reference resolution, `None` on a parse
      error), and `universe` is a finite set of keys that every resolved link
      stays within (see `Closed`); it bounds the crawl and is not part of the
      running program. */
  datatype Web = Web(fetch: string -> Outcome, resolve: (Url, string) -> Option<Url>, universe: set<string>)

  /** The key of `u` is ignored ("") or lies in the universe. */
  predicate InScope(w: Web, u: Url) {
    NormalizeUrl(u) == "" || NormalizeUrl(u) in w.universe
  }

  /** A resolved link is well formed, as what `base.Parse` returns is, and
      in scope. */
  predicate ResolvedInScope(w: Web, link: Option<Url>) {
    link.Some? ==> WellFormed(link.value) && InScope(w, link.value)
  }

  /** The finiteness assumption: every link the resolver can produce is in
      scope (and well formed). */
  ghost predicate Closed(w: Web) {
    forall base: Url, href: string :: ResolvedInScope(w, w.resolve(base, href))
  }

  /** The two structures shared by every call: the `visited` map (as the set
      of keys marked true) and the output slice `urls`. */
  datatype State = State(visited: set<string>, urls: seq<string>)

  const Initial := State({}, [])

  function Elems(xs: seq<string>): set<string> {
    set x | x in xs
  }

  predicate NoDup(xs: seq<string>) {
    forall i, j :: 0 <= i < j < |xs| ==> xs[i] != xs[j]
  }

  /** The bookkeeping invariant: no key is output twice, and the visited keys
      are exactly the output keys. */
  predicate Inv(s: State) {
    NoDup(s.urls) && Elems(s.urls) == s.visited
  }

  /** `r` is reached from `s` by recording fresh keys: `visited` only grows,
      the old output is a prefix of the new one, and the keys appended are
      distinct, were not visited before, and are exactly the keys that became
      visited. */
  ghost predicate Extends(s: State, r: State) {
    && s.urls <= r.urls
    && s.visited <= r.visited
    && NoDup(r.urls[|s.urls|..])
    && Elems(r.urls[|s.urls|..]) !! s.visited
    && r.visited == s.visited + Elems(r.urls[|s.urls|..])
  }

  /** `k` is the key of some well-formed, query-free URL on host `h`. */
  ghost predicate KeyOnHost(k: string, h: string) {
    exists v: Url :: WellFormed(v) && v.host == h && v.rawQuery == "" && NormalizeUrl(v) == k
  }

  /** A key is on one host only, the one read back from it: two URLs whose
      `Host` differs in any way, port included, never share a key. */
  lemma KeyOnOneHost(k: string, h: string)
    requires KeyOnHost(k, h)
    ensures HostOfKey(k) == h
    ensures forall h' :: KeyOnHost(k, h') ==> h' == h
  {
    forall h' | KeyOnHost(k, h') ensures HostOfKey(k) == h' {
      var v :| WellFormed(v) && v.host == h' && v.rawQuery == "" && NormalizeUrl(v) == k;
      HostOfKeyIsHost(v);
    }
  }

  /** Every key appended between `s` and `r` is a key on host `h`. */
  ghost predicate AppendsOnHost(s: State, r: State, h: string) {
    |s.urls| <= |r.urls| && forall i :: |s.urls| <= i < |r.urls| ==> KeyOnHost(r.urls[i], h)
  }

  /** The state after `crawl` records `key` (main.go lines 87-88). */
  function Record(s: State, key: string): (r: State)
    ensures |r.urls| == |s.urls| + 1 && r.urls[|s.urls|] == key && key in r.visited
    ensures Inv(s) && key !in s.visited ==> Inv(r)
  {
    var r := State(s.visited + {key}, s.urls + [key]);
    assert Elems(r.urls) == Elems(s.urls) + {key};
    r
  }

  /** The fetch of `key` gives no document to follow links in: a transport
      error, a status other than 200, a Content-Type without `text/html`, or a
      body that does not parse. */
  function DeadEnd(w: Web, key: string): (dead: bool)
    ensures !dead <==> && w.fetch(key).Response?
                       && w.fetch(key).status == StatusOK
                       && (exists i :: OccursAt(w.fetch(key).contentType, "text/html", i))
                       && w.fetch(key).doc.Some?
  {
    match w.fetch(key)
    case FetchError => true
    case Response(status, contentType, doc) =>
      ContainsIff(contentType, "text/html");
      status != StatusOK || !Contains(contentType, "text/html") || doc.None?
  }

  function Measure(w: Web, s: State): nat {
    |w.universe - s.visited|
  }

  /** `crawl(u, &urls, visited)`. */
  function Crawl(w: Web, s: State, u: Url): (r: State)
    requires Closed(w) && InScope(w, u)
    decreases Measure(w, s), 0
    ensures Extends(s, r)
    ensures WellFormed(u) ==> AppendsOnHost(s, r, u.host)
    ensures NormalizeUrl(u) == "" || NormalizeUrl(u) in s.visited ==> r == s
    ensures NormalizeUrl(u) != "" && NormalizeUrl(u) !in s.visited ==>
              |r.urls| > |s.urls| && r.urls[|s.urls|] == NormalizeUrl(u)
    ensures NormalizeUrl(u) != "" && NormalizeUrl(u) !in s.visited && DeadEnd(w, NormalizeUrl(u)) ==>
              r == Record(s, NormalizeUrl(u))
  {
    var key := NormalizeUrl(u);
    if key == "" || key in s.visited then
      assert s.urls[|s.urls|..] == [];
      s
    else
      var s1 := Record(s, key);
      RecordFresh(w, s, u);
      if DeadEnd(w, key) then
        s1
      else
        var r := VisitLinks(w, s1, u, w.fetch(key).doc.value);
        ExtendsTrans(s, s1, r);
        if WellFormed(u) then
          HostTrans(s, s1, r, u.host);
          r
        else
          r
  }

  /** Recording a fresh key extends the state with that key alone, on the
      host of its URL, and brings the crawl one step closer to the bound. */
  lemma RecordFresh(w: Web, s: State, u: Url)
    requires InScope(w, u) && NormalizeUrl(u) != "" && NormalizeUrl(u) !in s.visited
    ensures Extends(s, Record(s, NormalizeUrl(u)))
    ensures WellFormed(u) ==> AppendsOnHost(s, Record(s, NormalizeUrl(u)), u.host)
    ensures Measure(w, Record(s, NormalizeUrl(u))) < Measure(w, s)
  {
    var key := NormalizeUrl(u);
    var s1 := Record(s, key);
    assert s1.urls[|s.urls|..] == [key];
    if WellFormed(u) {
      assert KeyOnHost(key, u.host);
    }
    assert w.universe - s.visited == (w.universe - s1.visited) + {key};
  }

  /** The link `visitLinks` follows from node `n` itself (not its children):
      the first `href` of an `<a>` element, resolved against `base`, kept only
      when it resolves and names the same host as `base`
      (main.go lines 125-129). */
  function FollowedLink(w: Web, base: Url, n: Node): (link: Option<Url>)
    ensures link.Some? ==> link.value.host == base.host
    ensures link.Some? ==> Href(n).Some? && link == w.resolve(base, Href(n).value)
    ensures link.Some? <==> Href(n).Some? && w.resolve(base, Href(n).value).Some?
                                          && w.resolve(base, Href(n).value).value.host == base.host
  {
    match Href(n)
    case None => None
    case Some(href) =>
      match w.resolve(base, href)
      case None => None
      case Some(link) => if link.host == base.host then Some(link) else None
  }

  /** The first half of `visitLinks`: follow the link of `n` when there is
      one and its key is fresh (main.go lines 125-141). */
  function FollowLink(w: Web, s: State, base: Url, n: Node): (r: State)
    requires Closed(w)
    decreases Measure(w, s), 1, n, 0
    ensures Extends(s, r)
    ensures AppendsOnHost(s, r, base.host)
  {
    match FollowedLink(w, base, n)
    case None =>
      assert s.urls[|s.urls|..] == [];
      s
    case Some(link) =>
      var key := NormalizeUrl(link);
      assert ResolvedInScope(w, w.resolve(base, Href(n).value));
      if key != "" && key !in s.visited then
        Crawl(w, s, link)
      else
        assert s.urls[|s.urls|..] == [];
        s
  }

  /** `visitLinks(base, n, &urls, visited)`: follow the link of `n`, then
      visit the children in document order. */
  function VisitLinks(w: Web, s: State, base: Url, n: Node): (r: State)
    requires Closed(w)
    decreases Measure(w, s), 1, n
    ensures Extends(s, r)
    ensures AppendsOnHost(s, r, base.host)
  {
    var s1 := FollowLink(w, s, base, n);
    MeasureNonIncreasing(w, s, s1);
    var r := VisitChildren(w, s1, base, n.children);
    ExtendsTrans(s, s1, r);
    HostTrans(s, s1, r, base.host);
    r
  }

  /** The sibling loop of `visitLinks`, over the first `|cs|` children. */
  function VisitChildren(w: Web, s: State, base: Url, cs: seq<Node>): (r: State)
    requires Closed(w)
    decreases Measure(w, s), 1, cs
    ensures Extends(s, r)
    ensures AppendsOnHost(s, r, base.host)
  {
    if cs == [] then
      assert s.urls[|s.urls|..] == [];
      s
    else
      var t := VisitChildren(w, s, base, cs[..|cs| - 1]);
      MeasureNonIncreasing(w, s, t);
      var r := VisitLinks(w, t, base, cs[|cs| - 1]);
      ExtendsTrans(s, t, r);
      HostTrans(s, t, r, base.host);
      r
  }

  /** One more iteration of the sibling loop visits one more child. */
  lemma VisitChildrenStep(w: Web, s: State, base: Url, cs: seq<Node>, k: nat)
    requires Closed(w) && k < |cs|
    ensures VisitChildren(w, s, base, cs[..k + 1]) == VisitLinks(w, VisitChildren(w, s, base, cs[..k]), base, cs[k])
  {
    assert cs[..k + 1][..k] == cs[..k];
  }

  /** After the sibling loop, every child has been visited. */
  lemma VisitChildrenAll(w: Web, s: State, base: Url, cs: seq<Node>)
    requires Closed(w)
    ensures VisitChildren(w, s, base, cs[..|cs|]) == VisitChildren(w, s, base, cs)
  {
    assert cs[..|cs|] == cs;
  }

  lemma MeasureNonIncreasing(w: Web, s: State, t: State)
    requires s.visited <= t.visited
    ensures Measure(w, t) <= Measure(w, s)
  {
    var a, b := w.universe - t.visited, w.universe - s.visited;
    assert b == a + (b - a) && a * (b - a) == {};
  }

  lemma ExtendsTrans(s: State, t: State, r: State)
    requires Extends(s, t) && Extends(t, r)
    ensures Extends(s, r)
  {
    var a, b := t.urls[|s.urls|..], r.urls[|t.urls|..];
    assert r.urls[|s.urls|..] == a + b;
    assert Elems(a + b) == Elems(a) + Elems(b);
    forall i, j | 0 <= i < j < |a + b|
      ensures (a + b)[i] != (a + b)[j]
    {
      if i < |a| && |a| <= j {
        assert (a + b)[i] in Elems(a);
        assert (a + b)[j] in Elems(b);
      }
    }
  }

  lemma HostTrans(s: State, t: State, r: State, h: string)
    requires Extends(s, t) && Extends(t, r)
    requires AppendsOnHost(s, t, h) && AppendsOnHost(t, r, h)
    ensures AppendsOnHost(s, r, h)
  {
    forall i | |s.urls| <= i < |r.urls|
      ensures KeyOnHost(r.urls[i], h)
    {
      if i < |t.urls| {
        assert r.urls[i] == t.urls[i];
      }
    }
  }

  /** Extending a state keeps the bookkeeping invariant, so every call of
      `crawl` and `visitLinks` keeps it. */
  lemma ExtendsKeepsInv(s: State, r: State)
    requires Inv(s) && Extends(s, r)
    ensures Inv(r)
  {
    var a, b := s.urls, r.urls[|s.urls|..];
    assert r.urls == a + b;
    assert Elems(a + b) == Elems(a) + Elems(b);
    forall i, j | 0 <= i < j < |a + b|
      ensures (a + b)[i] != (a + b)[j]
    {
      if i < |a| && |a| <= j {
        assert (a + b)[i] in Elems(a);
        assert (a + b)[j] in Elems(b);
      }
    }
  }

  lemma CrawlKeepsInv(w: Web, s: State, u: Url)
    requires Closed(w) && InScope(w, u) && Inv(s)
    ensures Inv(Crawl(w, s, u))
  {
    ExtendsKeepsInv(s, Crawl(w, s, u));
  }

  lemma VisitLinksKeepsInv(w: Web, s: State, base: Url, n: Node)
    requires Closed(w) && Inv(s)
    ensures Inv(VisitLinks(w, s, base, n))
  {
    ExtendsKeepsInv(s, VisitLinks(w, s, base, n));
  }

  // ---------------------------------------------------------------------
  // A reference for visitLinks: the links of a tree in document order.

  /** The links `visitLinks` follows in the tree `n`, in depth-first
      pre-order: the link of `n` itself, then those of each child in turn. */
  function Links(w: Web, base: Url, n: Node): seq<Url>
    decreases n, 1
  {
    (match FollowedLink(w, base, n) case None => [] case Some(link) => [link])
      + LinksOfChildren(w, base, n.children)
  }

  function LinksOfChildren(w: Web, base: Url, cs: seq<Node>): seq<Url>
    decreases cs
  {
    if cs == [] then [] else LinksOfChildren(w, base, cs[..|cs| - 1]) + Links(w, base, cs[|cs| - 1])
  }

  /** Every followed link in a tree is on the host of `base`. */
  lemma {:induction false} LinksOnHost(w: Web, base: Url, n: Node)
    ensures forall i :: 0 <= i < |Links(w, base, n)| ==> Links(w, base, n)[i].host == base.host
    decreases n, 1
  {
    LinksOfChildrenOnHost(w, base, n.children);
  }

  lemma {:induction false} LinksOfChildrenOnHost(w: Web, base: Url, cs: seq<Node>)
    ensures forall i :: 0 <= i < |LinksOfChildren(w, base, cs)| ==> LinksOfChildren(w, base, cs)[i].host == base.host
    decreases cs
  {
    if cs != [] {
      LinksOfChildrenOnHost(w, base, cs[..|cs| - 1]);
      LinksOnHost(w, base, cs[|cs| - 1]);
    }
  }

  predicate AllInScope(w: Web, links: seq<Url>) {
    forall i :: 0 <= i < |links| ==> InScope(w, links[i])
  }

  /** Crawling a list of URLs one after another. */
  function CrawlAll(w: Web, s: State, links: seq<Url>): (r: State)
    requires Closed(w) && AllInScope(w, links)
    ensures Extends(s, r)
  {
    if links == [] then
      assert s.urls[|s.urls|..] == [];
      s
    else
      var t := CrawlAll(w, s, links[..|links| - 1]);
      var r := Crawl(w, t, links[|links| - 1]);
      ExtendsTrans(s, t, r);
      r
  }

  lemma CrawlAllSingle(w: Web, s: State, link: Url)
    requires Closed(w) && InScope(w, link)
    ensures AllInScope(w, [link])
    ensures CrawlAll(w, s, [link]) == Crawl(w, s, link)
  {
    assert [link][..0] == [];
  }

  lemma {:induction false} CrawlAllAppend(w: Web, s: State, a: seq<Url>, b: seq<Url>)
    requires Closed(w) && AllInScope(w, a) && AllInScope(w, b)
    ensures AllInScope(w, a + b)
    ensures CrawlAll(w, s, a + b) == CrawlAll(w, CrawlAll(w, s, a), b)
    decreases |b|
  {
    if b == [] {
      assert a + b == a;
    } else {
      assert (a + b)[..|a + b| - 1] == a + b[..|b| - 1];
      CrawlAllAppend(w, s, a, b[..|b| - 1]);
    }
  }

  lemma {:induction false} LinksInScope(w: Web, base: Url, n: Node)
    requires Closed(w)
    ensures AllInScope(w, Links(w, base, n))
    decreases n, 1
  {
    LinksOfChildrenInScope(w, base, n.children);
    if FollowedLink(w, base, n).Some? {
      assert ResolvedInScope(w, w.resolve(base, Href(n).value));
    }
  }

  lemma {:induction false} LinksOfChildrenInScope(w: Web, base: Url, cs: seq<Node>)
    requires Closed(w)
    ensures AllInScope(w, LinksOfChildren(w, base, cs))
    decreases cs
  {
    if cs != [] {
      LinksOfChildrenInScope(w, base, cs[..|cs| - 1]);
      LinksInScope(w, base, cs[|cs| - 1]);
    }
  }

  /** `visitLinks` on a tree is the same as crawling the tree's followed links
      in document order. The freshness test of `visitLinks` (main.go line 131)
      changes nothing, because `crawl` repeats it. */
  lemma {:induction false} VisitLinksIsCrawlAll(w: Web, s: State, base: Url, n: Node)
    requires Closed(w)
    ensures AllInScope(w, Links(w, base, n))
    ensures VisitLinks(w, s, base, n) == CrawlAll(w, s, Links(w, base, n))
    decreases n, 1
  {
    LinksInScope(w, base, n);
    var own := match FollowedLink(w, base, n) case None => [] case Some(link) => [link];
    LinksOfChildrenInScope(w, base, n.children);
    assert AllInScope(w, own) by {
      if own != [] { assert own[0] == Links(w, base, n)[0]; }
    }
    var s1 := CrawlAll(w, s, own);
    match FollowedLink(w, base, n) {
      case None =>
        assert s1 == s == FollowLink(w, s, base, n);
      case Some(link) =>
        assert own == [link];
        CrawlAllSingle(w, s, link);
        assert s1 == Crawl(w, s, link);
        assert FollowLink(w, s, base, n) == Crawl(w, s, link);
    }
    VisitChildrenIsCrawlAll(w, s1, base, n.children);
    CrawlAllAppend(w, s, own, LinksOfChildren(w, base, n.children));
  }

  lemma {:induction false} VisitChildrenIsCrawlAll(w: Web, s: State, base: Url, cs: seq<Node>)
    requires Closed(w)
    ensures AllInScope(w, LinksOfChildren(w, base, cs))
    ensures VisitChildren(w, s, base, cs) == CrawlAll(w, s, LinksOfChildren(w, base, cs))
    decreases cs
  {
    LinksOfChildrenInScope(w, base, cs);
    if cs != [] {
      var front, last := cs[..|cs| - 1], cs[|cs| - 1];
      VisitChildrenIsCrawlAll(w, s, base, front);
      var t := VisitChildren(w, s, base, front);
      VisitLinksIsCrawlAll(w, t, base, last);
      CrawlAllAppend(w, s, LinksOfChildren(w, base, front), Links(w, base, last));
    }
  }

  /** A crawl of a URL with a non-empty key leaves that key visited, whether
      it was visited before or is recorded now. */
  lemma CrawlVisitsKey(w: Web, s: State, u: Url)
    requires Closed(w) && InScope(w, u) && NormalizeUrl(u) != ""
    ensures NormalizeUrl(u) in Crawl(w, s, u).visited
  {
    var r := Crawl(w, s, u);
    if NormalizeUrl(u) !in s.visited {
      assert r.urls[|s.urls|..][0] == NormalizeUrl(u);
    }
  }

  /** Every URL of `links` has an empty key or a key in `visited`. */
  predicate KeysVisited(links: seq<Url>, visited: set<string>) {
    forall i :: 0 <= i < |links| ==> NormalizeUrl(links[i]) == "" || NormalizeUrl(links[i]) in visited
  }

  lemma KeysVisitedStep(links: seq<Url>, visited: set<string>, more: set<string>)
    requires links != [] && KeysVisited(links[..|links| - 1], visited) && visited <= more
    requires NormalizeUrl(links[|links| - 1]) == "" || NormalizeUrl(links[|links| - 1]) in more
    ensures KeysVisited(links, more)
  {
    forall i | 0 <= i < |links| - 1
      ensures NormalizeUrl(links[i]) == "" || NormalizeUrl(links[i]) in more
    {
      assert links[i] == links[..|links| - 1][i];
    }
  }

  /** Crawling a list of URLs leaves the key of every one of them visited,
      unless that key is empty. */
  lemma {:induction false} CrawlAllVisits(w: Web, s: State, links: seq<Url>)
    requires Closed(w) && AllInScope(w, links)
    ensures KeysVisited(links, CrawlAll(w, s, links).visited)
    decreases |links|
  {
    if links != [] {
      var front, last := links[..|links| - 1], links[|links| - 1];
      assert AllInScope(w, front) by {
        forall i | 0 <= i < |front| ensures InScope(w, front[i]) {
          assert front[i] == links[i];
        }
      }
      CrawlAllVisits(w, s, front);
      var t := CrawlAll(w, s, front);
      var r := Crawl(w, t, last);
      assert CrawlAll(w, s, links) == r;
      if NormalizeUrl(last) != "" {
        CrawlVisitsKey(w, t, last);
      }
      KeysVisitedStep(links, t.visited, r.visited);
    }
  }

  /** The links rule seen from `crawl`: when a fresh key's page is an HTML
      document, every link `visitLinks` follows in it (an `<a>` element's
      first `href`, resolved against the page's URL, on the same host) has
      its key visited once the crawl returns. */
  lemma CrawlFollowsLinks(w: Web, s: State, u: Url)
    requires Closed(w) && InScope(w, u)
    requires NormalizeUrl(u) != "" && NormalizeUrl(u) !in s.visited && !DeadEnd(w, NormalizeUrl(u))
    ensures KeysVisited(Links(w, u, w.fetch(NormalizeUrl(u)).doc.value), Crawl(w, s, u).visited)
  {
    var key := NormalizeUrl(u);
    var doc := w.fetch(key).doc.value;
    var s1 := Record(s, key);
    assert Crawl(w, s, u) == VisitLinks(w, s1, u, doc);
    VisitLinksIsCrawlAll(w, s1, u, doc);
    CrawlAllVisits(w, s1, Links(w, u, doc));
  }

  // ---------------------------------------------------------------------
  // The driver of main.go lines 58-72.

  /** The loop over the additional URLs: each is resolved against the base
      URL; one that does not resolve is skipped, the others are crawled. */
  function CrawlExtra(w: Web, s: State, base: Url, extra: seq<string>): (r: State)
    requires Closed(w)
    ensures Extends(s, r)
  {
    if extra == [] then
      assert s.urls[|s.urls|..] == [];
      s
    else
      var t := CrawlExtra(w, s, base, extra[..|extra| - 1]);
      assert ResolvedInScope(w, w.resolve(base, extra[|extra| - 1]));
      match w.resolve(base, extra[|extra| - 1])
      case None => t
      case Some(full) =>
        var r := Crawl(w, t, full);
        ExtendsTrans(s, t, r);
        r
  }

  /** One more iteration of the loop over the additional URLs. */
  lemma CrawlExtraStep(w: Web, s: State, base: Url, extra: seq<string>, i: nat)
    requires Closed(w) && i < |extra|
    ensures CrawlExtra(w, s, base, extra[..i + 1]) ==
              match w.resolve(base, extra[i])
              case None => CrawlExtra(w, s, base, extra[..i])
              case Some(full) => Crawl(w, CrawlExtra(w, s, base, extra[..i]), full)
  {
    assert extra[..i + 1][..i] == extra[..i];
    assert ResolvedInScope(w, w.resolve(base, extra[i]));
  }

  /** Every additional URL that resolves against `base` to a URL with a
      non-empty key has that key in `visited`. */
  predicate ExtraKeysVisited(w: Web, base: Url, extra: seq<string>, visited: set<string>) {
    forall i :: 0 <= i < |extra| && w.resolve(base, extra[i]).Some? && NormalizeUrl(w.resolve(base, extra[i]).value) != "" ==>
      NormalizeUrl(w.resolve(base, extra[i]).value) in visited
  }

  lemma ExtraKeysVisitedStep(w: Web, base: Url, extra: seq<string>, visited: set<string>, more: set<string>)
    requires extra != [] && ExtraKeysVisited(w, base, extra[..|extra| - 1], visited) && visited <= more
    requires var link := w.resolve(base, extra[|extra| - 1]);
             link.Some? && NormalizeUrl(link.value) != "" ==> NormalizeUrl(link.value) in more
    ensures ExtraKeysVisited(w, base, extra, more)
  {
    forall i | 0 <= i < |extra| - 1
      ensures w.resolve(base, extra[i]).Some? && NormalizeUrl(w.resolve(base, extra[i]).value) != "" ==>
                NormalizeUrl(w.resolve(base, extra[i]).value) in more
    {
      assert extra[i] == extra[..|extra| - 1][i];
    }
  }

  /** The loop of main.go lines 65-72 crawls every additional URL that
      resolves: its key, unless empty, is visited afterwards. */
  lemma {:induction false} CrawlExtraVisits(w: Web, s: State, base: Url, extra: seq<string>)
    requires Closed(w)
    ensures ExtraKeysVisited(w, base, extra, CrawlExtra(w, s, base, extra).visited)
    decreases |extra|
  {
    if extra != [] {
      var front, last := extra[..|extra| - 1], extra[|extra| - 1];
      CrawlExtraVisits(w, s, base, front);
      var t := CrawlExtra(w, s, base, front);
      var r := CrawlExtra(w, s, base, extra);
      assert ResolvedInScope(w, w.resolve(base, last));
      match w.resolve(base, last) {
        case None =>
          assert r == t;
        case Some(full) =>
          assert r == Crawl(w, t, full);
          if NormalizeUrl(full) != "" {
            CrawlVisitsKey(w, t, full);
          }
      }
      ExtraKeysVisitedStep(w, base, extra, t.visited, r.visited);
    }
  }

  /** The loop passes over the additional URLs that do not resolve: when
      none resolves, the state is unchanged. */
  lemma {:induction false} CrawlExtraSkips(w: Web, s: State, base: Url, extra: seq<string>)
    requires Closed(w)
    requires forall i :: 0 <= i < |extra| ==> w.resolve(base, extra[i]).None?
    ensures CrawlExtra(w, s, base, extra) == s
    decreases |extra|
  {
    if extra != [] {
      var front := extra[..|extra| - 1];
      assert forall i :: 0 <= i < |front| ==> front[i] == extra[i];
      CrawlExtraSkips(w, s, base, front);
      assert w.resolve(base, extra[|extra| - 1]).None?;
    }
  }

  /** A whole run: an empty state, the seed, then the additional URLs. */
  function Run(w: Web, seed: Url, extra: seq<string>): (r: State)
    requires Closed(w) && InScope(w, seed)
    ensures Extends(Initial, r)
    ensures Extends(Crawl(w, Initial, seed), r)
    ensures extra == [] ==> r == Crawl(w, Initial, seed)
  {
    ExtendsTrans(Initial, Crawl(w, Initial, seed), CrawlExtra(w, Crawl(w, Initial, seed), seed, extra));
    CrawlExtra(w, Crawl(w, Initial, seed), seed, extra)
  }

  /** The output of a run has no duplicates, its keys are exactly the visited
      ones, and it starts with the seed's key unless the seed is ignored. */
  lemma RunOutput(w: Web, seed: Url, extra: seq<string>)
    requires Closed(w) && InScope(w, seed)
    ensures Inv(Run(w, seed, extra))
    ensures NoDup(Run(w, seed, extra).urls)
    ensures NormalizeUrl(seed) != "" ==>
              |Run(w, seed, extra).urls| > 0 && Run(w, seed, extra).urls[0] == NormalizeUrl(seed)
    ensures NormalizeUrl(seed) == "" ==> Run(w, seed, extra) == CrawlExtra(w, Initial, seed, extra)
  {
    var s1 := Crawl(w, Initial, seed);
    ExtendsKeepsInv(Initial, s1);
    ExtendsKeepsInv(s1, Run(w, seed, extra));
  }

  /** The hosts of the additional URLs that resolve against `base`. */
  ghost function ExtraHosts(w: Web, base: Url, extra: seq<string>): set<string> {
    set j | 0 <= j < |extra| && w.resolve(base, extra[j]).Some? :: w.resolve(base, extra[j]).value.host
  }

  /** Every key appended between `s` and `r` is on one of `hosts`. */
  ghost predicate AppendsOnHosts(s: State, r: State, hosts: set<string>) {
    |s.urls| <= |r.urls| &&
    forall i :: |s.urls| <= i < |r.urls| ==> exists h :: h in hosts && KeyOnHost(r.urls[i], h)
  }

  /** Each additional URL is crawled on its own host, so the additional URLs
      only add keys on their hosts. */
  lemma {:induction false} CrawlExtraOnHosts(w: Web, s: State, base: Url, extra: seq<string>)
    requires Closed(w)
    ensures AppendsOnHosts(s, CrawlExtra(w, s, base, extra), ExtraHosts(w, base, extra))
    ensures forall i :: |s.urls| <= i < |CrawlExtra(w, s, base, extra).urls| ==>
              HostOfKey(CrawlExtra(w, s, base, extra).urls[i]) in ExtraHosts(w, base, extra)
  {
    var r := CrawlExtra(w, s, base, extra);
    if extra != [] {
      var front := extra[..|extra| - 1];
      CrawlExtraOnHosts(w, s, base, front);
      var t := CrawlExtra(w, s, base, front);
      assert ExtraHosts(w, base, front) <= ExtraHosts(w, base, extra) by {
        forall h | h in ExtraHosts(w, base, front) ensures h in ExtraHosts(w, base, extra) {
          var j :| 0 <= j < |front| && w.resolve(base, front[j]).Some? && w.resolve(base, front[j]).value.host == h;
          assert front[j] == extra[j];
        }
      }
      var last := |extra| - 1;
      assert ResolvedInScope(w, w.resolve(base, extra[last]));
      forall i | |s.urls| <= i < |r.urls|
        ensures exists h :: h in ExtraHosts(w, base, extra) && KeyOnHost(r.urls[i], h)
      {
        if i < |t.urls| {
          assert r.urls[i] == t.urls[i];
          var h :| h in ExtraHosts(w, base, front) && KeyOnHost(t.urls[i], h);
          assert h in ExtraHosts(w, base, extra);
        } else {
          var full := w.resolve(base, extra[last]).value;
          assert full.host in ExtraHosts(w, base, extra);
          assert KeyOnHost(r.urls[i], full.host);
        }
      }
    }
    HostsReadBack(s, r, ExtraHosts(w, base, extra));
  }

  /** The hosts a run may record keys on: the seed's and those of the
      additional URLs that resolve. */
  ghost function RunHosts(w: Web, seed: Url, extra: seq<string>): set<string> {
    {seed.host} + ExtraHosts(w, seed, extra)
  }

  /** Keys appended on `hosts` read back to a host in `hosts`. */
  lemma HostsReadBack(s: State, r: State, hosts: set<string>)
    requires AppendsOnHosts(s, r, hosts)
    ensures forall i :: |s.urls| <= i < |r.urls| ==> HostOfKey(r.urls[i]) in hosts
  {
    forall i | |s.urls| <= i < |r.urls| ensures HostOfKey(r.urls[i]) in hosts {
      var h :| h in hosts && KeyOnHost(r.urls[i], h);
      KeyOnOneHost(r.urls[i], h);
    }
  }

  /** Same-origin rule for a whole run: every output key is the key of a
      URL on the seed's host or on the host of one of the additional URLs
      that resolve, and reading the host back from any output key gives one
      of those hosts, port included. */
  lemma RunOnHosts(w: Web, seed: Url, extra: seq<string>)
    requires Closed(w) && InScope(w, seed) && WellFormed(seed)
    ensures AppendsOnHosts(Initial, Run(w, seed, extra), RunHosts(w, seed, extra))
    ensures forall i :: 0 <= i < |Run(w, seed, extra).urls| ==>
              HostOfKey(Run(w, seed, extra).urls[i]) in RunHosts(w, seed, extra)
  {
    var s1 := Crawl(w, Initial, seed);
    var r := Run(w, seed, extra);
    var hosts := RunHosts(w, seed, extra);
    CrawlExtraOnHosts(w, s1, seed, extra);
    assert AppendsOnHosts(s1, r, ExtraHosts(w, seed, extra));
    forall i | 0 <= i < |r.urls|
      ensures exists h :: h in hosts && KeyOnHost(r.urls[i], h)
    {
      if i < |s1.urls| {
        assert r.urls[i] == s1.urls[i];
        assert KeyOnHost(r.urls[i], seed.host) && seed.host in hosts;
      } else {
        var h :| h in ExtraHosts(w, seed, extra) && KeyOnHost(r.urls[i], h);
        assert h in hosts;
      }
    }
    HostsReadBack(Initial, r, hosts);
  }

  /** A whole run crawls the seed and every additional URL that resolves:
      all their non-empty keys are visited, so the sitemap lists them. */
  lemma RunVisitsSeedAndExtras(w: Web, seed: Url, extra: seq<string>)
    requires Closed(w) && InScope(w, seed)
    ensures NormalizeUrl(seed) != "" ==> NormalizeUrl(seed) in Run(w, seed, extra).visited
    ensures ExtraKeysVisited(w, seed, extra, Run(w, seed, extra).visited)
  {
    var s1 := Crawl(w, Initial, seed);
    if NormalizeUrl(seed) != "" {
      CrawlVisitsKey(w, Initial, seed);
    }
    CrawlExtraVisits(w, s1, seed, extra);
  }

  /** With no additional URLs, every output key is on the seed's host, and
      on no other: a page linking to another host, or to the same name with
      another port, never brings that host's pages into the output. */
  lemma RunOnSeedHost(w: Web, seed: Url)
    requires Closed(w) && InScope(w, seed) && WellFormed(seed)
    ensures AppendsOnHost(Initial, Run(w, seed, []), seed.host)
    ensures forall i :: 0 <= i < |Run(w, seed, []).urls| ==> HostOfKey(Run(w, seed, []).urls[i]) == seed.host
  {
    var r := Run(w, seed, []);
    forall i | 0 <= i < |r.urls| ensures HostOfKey(r.urls[i]) == seed.host {
      KeyOnOneHost(r.urls[i], seed.host);
    }
  }
}
