/** URLs as the crawler sees them after Go's `net/url` has decomposed them, and
    the normaliser that turns a URL into the key used for deduplication
    (`normalizeURL` in main.go). */
module Urls {

  import opened Strings

  /** The four components of a `*url.URL` that the crawler reads. */
  datatype Url = Url(scheme: string, host: string, path: string, rawQuery: string)

  /** What `url.Parse` and reference resolution guarantee of the components
      the crawler reads: the scheme has no `:`, the host has no `/`, and the
      path is empty or starts with `/`. */
  predicate WellFormed(u: Url) {
    && ':' !in u.scheme
    && '/' !in u.host
    && (u.path == "" || u.path[0] == '/')
  }

  /** Scheme, `://`, host and path, concatenated. */
  function Joined(u: Url): string {
    u.scheme + "://" + u.host + u.path
  }

  /** The canonical key of `u`: the empty string ("ignore this URL") when it
      carries a query, else the joined URL with one trailing `/` removed. */
  function NormalizeUrl(u: Url): (key: string)
    ensures key == "" <==> u.rawQuery != ""
    ensures u.rawQuery == "" ==> HasPrefix(key, u.scheme + ":/")
    ensures u.rawQuery == "" && HasSuffix(Joined(u), "/") ==> key + "/" == Joined(u)
    ensures u.rawQuery == "" && !HasSuffix(Joined(u), "/") ==> key == Joined(u)
  {
    if u.rawQuery != "" then
      ""
    else
      var normalized := u.scheme + "://" + u.host + u.path;
      assert normalized[..|u.scheme| + 2] == u.scheme + ":/";
      TrimSuffix(normalized, "/")
  }

  /** A URL that the normaliser leaves as it is: no query and no final `/`. */
  predicate Canonical(u: Url) {
    u.rawQuery == "" && !HasSuffix(Joined(u), "/")
  }

  /** Two URLs whose paths differ only by one trailing `/` get the same key,
      when the shorter one does not itself end in `/`. */
  lemma TrailingSlashIgnored(u: Url)
    requires Canonical(u)
    ensures NormalizeUrl(u.(path := u.path + "/")) == NormalizeUrl(u) == Joined(u)
  {
    var v := u.(path := u.path + "/");
    assert Joined(v) == Joined(u) + "/";
    assert HasSuffix(Joined(v), "/");
  }

  /** Only one `/` is removed: a path ending in `//` keeps a final `/` in its
      key, so `.../a//` and `.../a` are different keys. */
  lemma OnlyOneSlashRemoved(u: Url)
    requires u.rawQuery == ""
    ensures NormalizeUrl(u.(path := u.path + "//")) == Joined(u) + "/"
    ensures HasSuffix(NormalizeUrl(u.(path := u.path + "//")), "/")
  {
    var v := u.(path := u.path + "//");
    assert Joined(v) == (Joined(u) + "/") + "/";
    assert HasSuffix(Joined(v), "/");
  }

  /** A key without a final `/` is a fixed point: any URL without a query
      whose components join to that key normalises to the key again. */
  lemma KeyIsFixedPoint(u: Url, v: Url)
    requires u.rawQuery == "" && v.rawQuery == ""
    requires Joined(v) == NormalizeUrl(u)
    requires !HasSuffix(NormalizeUrl(u), "/")
    ensures NormalizeUrl(v) == NormalizeUrl(u)
  {
  }

  /** A key that still ends in `/` is not a fixed point: re-normalising a URL
      that spells it out removes one more `/`. */
  lemma SlashKeyNotFixedPoint(u: Url, v: Url)
    requires u.rawQuery == "" && v.rawQuery == ""
    requires Joined(v) == NormalizeUrl(u)
    requires HasSuffix(NormalizeUrl(u), "/")
    ensures NormalizeUrl(v) + "/" == NormalizeUrl(u)
  {
  }

  /** The position of the first `c` in `s`, or `|s|` when there is none. */
  function FirstIndex(s: string, c: char): (i: nat)
    ensures i <= |s|
    ensures forall j :: 0 <= j < i ==> s[j] != c
    ensures i < |s| ==> s[i] == c
  {
    if s == [] then 0 else if s[0] == c then 0 else 1 + FirstIndex(s[1..], c)
  }

  /** The first `c` of `a + b` is at `|a|` when `a` has none and `b` is empty
      or starts with one. */
  lemma FirstIndexAfter(a: string, b: string, c: char)
    requires c !in a
    requires b == [] || b[0] == c
    ensures FirstIndex(a + b, c) == |a|
  {
    assert forall j :: 0 <= j < |a| ==> (a + b)[j] != c;
    assert b != [] ==> (a + b)[|a|] == c;
  }

  /** The host read back from a key: what follows the first `:` and the two
      `/` after it, up to the next `/`. */
  function HostOfKey(k: string): string {
    var i := FirstIndex(k, ':');
    if i + 3 <= |k| then
      var rest := k[i + 3..];
      rest[..FirstIndex(rest, '/')]
    else
      ""
  }

  /** The key of a well-formed URL without a query determines its host:
      reading the host back from the key gives the URL's host, port
      included. */
  lemma HostOfKeyIsHost(u: Url)
    requires WellFormed(u) && u.rawQuery == ""
    ensures HostOfKey(NormalizeUrl(u)) == u.host
  {
    var k := NormalizeUrl(u);
    if !HasSuffix(Joined(u), "/") {
      HostAfterScheme(u, k, u.path);
    } else if u.path != "" {
      var p := u.path[..|u.path| - 1];
      assert u.path == p + "/";
      assert Joined(u) == (u.scheme + "://" + u.host + p) + "/";
      assert k == (k + "/")[..|k|];
      HostAfterScheme(u, k, p);
    } else {
      assert Joined(u) == u.scheme + "://" + u.host;
      assert Joined(u)[|Joined(u)| - 1] == '/';
      assert u.host == "";
      assert k + "/" == u.scheme + "://";
      assert k == u.scheme + ":/";
      FirstIndexAfter(u.scheme, ":/", ':');
    }
  }

  lemma HostAfterScheme(u: Url, k: string, p: string)
    requires WellFormed(u) && (p == "" || p[0] == '/')
    requires k == u.scheme + "://" + u.host + p
    ensures HostOfKey(k) == u.host
  {
    assert k == u.scheme + ("://" + u.host + p);
    FirstIndexAfter(u.scheme, "://" + u.host + p, ':');
    assert k[|u.scheme| + 3..] == u.host + p;
    FirstIndexAfter(u.host, p, '/');
  }
}
