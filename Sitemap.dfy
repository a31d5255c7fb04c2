/** The sitemap document that `writeSitemap` builds from the crawl output
    before encoding it as XML: a `urlset` carrying the sitemaps.org 0.9
    namespace and one `url` record per output key, in order. */
module Sitemap {

  const SitemapNamespace := "http://www.sitemaps.org/schemas/sitemap/0.9"

  /** `Url{Loc: ...}`: one `<url><loc>...</loc></url>` entry. */
  datatype UrlEntry = UrlEntry(loc: string)

  /** `UrlSet{Xmlns: ..., URLs: ...}`: the `<urlset>` root. */
  datatype UrlSet = UrlSet(xmlns: string, urls: seq<UrlEntry>)

  /** `doc` is the sitemap of `keys`: the 0.9 namespace, and one entry per key
      holding that key, in the same order. */
  predicate Lists(doc: UrlSet, keys: seq<string>) {
    && doc.xmlns == SitemapNamespace
    && |doc.urls| == |keys|
    && forall i :: 0 <= i < |keys| ==> doc.urls[i].loc == keys[i]
  }

  /** The loop of `writeSitemap` that appends one `Url` per key. */
  method BuildUrlSet(keys: seq<string>) returns (doc: UrlSet)
    ensures Lists(doc, keys)
  {
    doc := UrlSet(SitemapNamespace, []);
    for i := 0 to |keys|
      invariant Lists(doc, keys[..i])
    {
      doc := doc.(urls := doc.urls + [UrlEntry(keys[i])]);
    }
  }
}
