/** Page identity: `normalizeUrl` of StorageService (and its copies in the
    side panel and popup). The WHATWG URL parser is not modelled; it is a
    parameter `parse` that either rejects a string (the constructor throws)
    or splits it into origin, pathname, search and hash. */
module Url {
  import opened Base

  datatype UrlParts = UrlParts(origin: string, pathname: string, search: string, hash: string)

  /** `new URL(s)`: `None` when the constructor throws. */
  type Parser = string -> Option<UrlParts>

  /** `new URL(s).origin`, or `None` when `s` does not parse. */
  function OriginOf(parse: Parser, s: string): (r: Option<string>)
    ensures r.Some? <==> parse(s).Some?
    ensures r.Some? ==> r.value == parse(s).value.origin
  {
    match parse(s)
    case None => None
    case Some(p) => Some(p.origin)
  }

  /** A run of `n` slashes. */
  function Slashes(n: nat): (r: string)
    ensures |r| == n
    ensures forall k :: 0 <= k < n ==> r[k] == '/'
  {
    seq(n, _ => '/')
  }

  /** `path.replace(/\/+$/, "")`: the longest prefix of `path` that does not
      end in a slash, with only slashes cut off after it. */
  function StripTrailingSlashes(path: string): (r: string)
    ensures r <= path
    ensures forall k :: |r| <= k < |path| ==> path[k] == '/'
    ensures r == [] || r[|r| - 1] != '/'
  {
    if |path| > 0 && path[|path| - 1] == '/' then StripTrailingSlashes(path[..|path| - 1])
    else path
  }

  /** Appending slashes to a path does not change what stripping leaves. */
  lemma {:induction false} StripIgnoresAddedSlashes(core: string, n: nat)
    ensures StripTrailingSlashes(core + Slashes(n)) == StripTrailingSlashes(core)
  {
    if n > 0 {
      var longer := core + Slashes(n);
      assert longer[..|longer| - 1] == core + Slashes(n - 1);
      StripIgnoresAddedSlashes(core, n - 1);
    } else {
      assert core + Slashes(n) == core;
    }
  }

  /** `normalizeUrl(url)`: origin, then pathname without trailing slashes,
      then the query string; the fragment is dropped. A string the parser
      rejects is returned unchanged. */
  function Normalize(parse: Parser, url: string): (r: string)
    ensures parse(url).None? ==> r == url
    ensures parse(url).Some? ==>
              var p := parse(url).value;
              && p.origin <= r
              && r[|p.origin|..] == StripTrailingSlashes(p.pathname) + p.search
  {
    match parse(url)
    case None => url
    case Some(p) =>
      var r := p.origin + StripTrailingSlashes(p.pathname) + p.search;
      assert r[|p.origin|..] == StripTrailingSlashes(p.pathname) + p.search;
      r
  }

  /** Two URLs with the same origin and query whose paths differ only in
      trailing slashes, and perhaps in their fragments, get the same key:
      `https://a.com/path/?x=1`, `https://a.com/path?x=1` and
      `https://a.com/path/?x=1#frag` all become `https://a.com/path?x=1`. */
  lemma NormalizeIdentifiesVariants(parse: Parser, a: string, b: string, core: string, m: nat, n: nat)
    requires parse(a).Some? && parse(b).Some?
    requires parse(a).value.origin == parse(b).value.origin
    requires parse(a).value.search == parse(b).value.search
    requires parse(a).value.pathname == core + Slashes(m)
    requires parse(b).value.pathname == core + Slashes(n)
    ensures Normalize(parse, a) == Normalize(parse, b)
  {
    StripIgnoresAddedSlashes(core, m);
    StripIgnoresAddedSlashes(core, n);
  }

  /** What the parser must do for normalisation to be idempotent on `url`:
      re-parsing the normalised form gives back the same origin and query and
      a path that strips to the same thing (WHATWG turns an empty path back
      into `/`, which strips to the empty path again). */
  ghost predicate ReparsesConsistently(parse: Parser, url: string) {
    parse(url).Some? ==>
      var p := parse(url).value;
      var n := p.origin + StripTrailingSlashes(p.pathname) + p.search;
      && parse(n).Some?
      && parse(n).value.origin == p.origin
      && parse(n).value.search == p.search
      && StripTrailingSlashes(parse(n).value.pathname) == StripTrailingSlashes(p.pathname)
  }

  /** Normalising a stored key again leaves it alone, so a page entry's URL
      (the link the history list opens) is its own key when that page is
      scanned again. This rests on the parser assumption
      `ReparsesConsistently`, whose facts are exactly what the proof unfolds. */
  lemma NormalizeIdempotent(parse: Parser, url: string)
    requires ReparsesConsistently(parse, url)
    ensures Normalize(parse, Normalize(parse, url)) == Normalize(parse, url)
  {
  }
}
