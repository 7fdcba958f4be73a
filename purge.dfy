/**
 * The purge executor (lib/task/purge.go): from an event's URI it derives the cache
 * invalidation requests of every configured entry that matches, removes requests with a
 * URL already seen, and sends each one as an HTTP request or a CDN purge call.
 *
 * Go's map iteration order (the variant set, the header map) is unspecified; the methods
 * that range over those maps pick the next key with `:|`, so their contracts hold for
 * every order.
 */
module Purge {
  import opened Wrappers
  import opened Strings

  // ---------------------------------------------------------------------------
  // Data
  // ---------------------------------------------------------------------------

  /** One configured purge target (utils.PurgeEntryConfig). */
  datatype PurgeEntry = PurgeEntry(
    host: string,
    pathMatch: string,             // a regular expression, or "" for none
    uris: seq<string>,             // URL templates with #url# and #variants#
    variants: seq<string>,         // recognised variant codes
    httpMethod: string,            // an HTTP method, or "cloudflare" in any letter case
    headers: map<string, string>)  // header templates with #url# and #date#

  /** The parts of the parsed event URI (url.URL) that the computation reads. */
  datatype Uri = Uri(host: string, path: string, rawQuery: string, requestUri: string)

  /** What regexp.MatchString reports. */
  datatype RegexOutcome = Matched | NotMatched | RegexError(msg: string)

  /** The decoded event: `meta.uri` and `meta.dt`, the latter in milliseconds. */
  datatype PurgeEvent = PurgeEvent(uri: string, dt: int)

  /** One purge request before dispatch (`requestOptions`). */
  datatype RequestOptions = RequestOptions(httpMethod: string, url: string, headers: map<string, string>)

  function Elems(s: seq<RequestOptions>): set<RequestOptions>
  {
    set r | r in s
  }

  function Urls(s: seq<RequestOptions>): set<string>
  {
    set r | r in s :: r.url
  }

  // ---------------------------------------------------------------------------
  // Staleness
  // ---------------------------------------------------------------------------

  /** `time.Now().After(dt.Add(expiry))`: strictly later than the end of the window. */
  predicate IsStale(now: int, dt: int, expiry: int)
  {
    now > dt + expiry
  }

  // ---------------------------------------------------------------------------
  // Pieces of the URI
  // ---------------------------------------------------------------------------

  /** The last `&`-separated piece of the raw query ("" for an empty query). */
  function LastQuery(rawQuery: string): (r: string)
    ensures '&' !in r && |r| <= |rawQuery|
  {
    var queries := Split(rawQuery, '&');
    SplitLast(rawQuery, '&');
    queries[|queries| - 1]
  }

  /** The last query piece is the `&`-free suffix: the whole query, or what follows its last `&`. */
  lemma LastQuerySuffix(rawQuery: string)
    ensures var r := LastQuery(rawQuery);
            && r == rawQuery[|rawQuery| - |r|..]
            && (|r| < |rawQuery| ==> rawQuery[|rawQuery| - |r| - 1] == '&')
  {
    SplitLast(rawQuery, '&');
  }

  /**
   * The second `/`-separated piece of the path, or "" when the path has no `/`: a
   * `/`-free piece of the path.
   */
  function FirstPath(path: string): (r: string)
    ensures '/' !in r
    ensures '/' !in path ==> r == []
  {
    var components := Split(path, '/');
    SplitJoin(path, '/');
    assert '/' !in path ==> |components| == 1 by {
      if '/' !in path { SplitNoSeparator(path, '/'); }
    }
    if |components| > 1 then components[1] else []
  }

  /** The last query piece is what follows the last `&`. */
  lemma LastQueryAfterLastAmpersand(a: string, r: string)
    requires '&' !in r
    ensures LastQuery(a + "&" + r) == r
  {
    SplitAround(a, r, '&');
    SplitNoSeparator(r, '&');
  }

  /** A query without `&` is its own last piece. */
  lemma LastQueryWithoutAmpersand(q: string)
    requires '&' !in q
    ensures LastQuery(q) == q
  {
    SplitNoSeparator(q, '&');
  }

  /** The first path piece is the `/`-free run right after the first `/`. */
  lemma FirstPathAfterFirstSlash(a: string, r: string, b: string)
    requires '/' !in a && '/' !in r && (b == [] || b[0] == '/')
    ensures FirstPath(a + "/" + r + b) == r
  {
    SplitNoSeparator(a, '/');
    SplitNoSeparator(r, '/');
    if b == [] {
      assert a + "/" + r + b == a + ['/'] + r;
      SplitAround(a, r, '/');
    } else {
      assert a + "/" + r + b == a + ['/'] + (r + ['/'] + b[1..]);
      SplitAround(a, r + ['/'] + b[1..], '/');
      SplitAround(r, b[1..], '/');
    }
  }

  /** A path without `/` has no first path piece. */
  lemma FirstPathWithoutSlash(p: string)
    requires '/' !in p
    ensures FirstPath(p) == []
  {
    SplitNoSeparator(p, '/');
  }

  // ---------------------------------------------------------------------------
  // Which requests an event calls for (the reference definition)
  // ---------------------------------------------------------------------------

  /** The entry's host is the URI's, and its path pattern, when it has one, matches the path. */
  predicate EntryMatches(e: PurgeEntry, u: Uri, regex: (string, string) -> RegexOutcome)
  {
    e.host == u.host && (e.pathMatch == [] || regex(e.pathMatch, u.path) == Matched)
  }

  /** The keys of the `variants` map: the empty variant and every configured code. */
  function VariantSet(e: PurgeEntry): set<string>
  {
    {[]} + set v | v in e.variants
  }

  /**
   * A non-empty variant is skipped when the URI already names a recognised variant,
   * as its last query piece or as its first path piece.
   */
  predicate Skipped(variant: string, vs: set<string>, lastQuery: string, firstPath: string)
  {
    variant != [] && ((lastQuery != [] && lastQuery in vs) || (firstPath != [] && firstPath in vs))
  }

  /** The template with `#url#` bound to the request URI and `#variants#` to the variant. */
  function PrimaryUrl(template: string, u: Uri, variant: string): string
  {
    ReplaceAll(ReplaceAll(template, "#url#", u.requestUri), "#variants#", variant)
  }

  /** The short-link form: no variant in the template, `/wiki/` rewritten to `/<variant>/`. */
  function ShortLinkUrl(template: string, u: Uri, variant: string): string
  {
    ReplaceAll(ReplaceAll(ReplaceAll(template, "#url#", u.requestUri), "#variants#", ""), "/wiki/", "/" + variant + "/")
  }

  /** The requests one (template, variant) pair of entry `e` calls for. */
  function PairRequests(e: PurgeEntry, template: string, variant: string, u: Uri): set<RequestOptions>
  {
    var firstPath := FirstPath(u.path);
    if Skipped(variant, VariantSet(e), LastQuery(u.rawQuery), firstPath) then {}
    else
      {RequestOptions(e.httpMethod, PrimaryUrl(template, u, variant), e.headers)}
      + (if firstPath == "wiki" && variant != [] then
           {RequestOptions(e.httpMethod, ShortLinkUrl(template, u, variant), e.headers)}
         else {})
  }

  /** The requests of one template over the variants in `done`. */
  ghost function VariantsRequests(e: PurgeEntry, template: string, u: Uri, done: set<string>): set<RequestOptions>
  {
    set v, r | v in done && r in PairRequests(e, template, v, u) :: r
  }

  /** The requests of the templates `ts` of entry `e`. */
  ghost function TemplatesRequests(e: PurgeEntry, ts: seq<string>, u: Uri): set<RequestOptions>
  {
    if ts == [] then {}
    else TemplatesRequests(e, ts[..|ts| - 1], u) + VariantsRequests(e, ts[|ts| - 1], u, VariantSet(e))
  }

  /** The requests one entry calls for: those of its templates when it matches, none otherwise. */
  ghost function EntryRequests(e: PurgeEntry, u: Uri, regex: (string, string) -> RegexOutcome): set<RequestOptions>
  {
    if EntryMatches(e, u, regex) then TemplatesRequests(e, e.uris, u) else {}
  }

  /** The requests the entries `es` call for: those of every matching entry. */
  ghost function EntriesRequests(es: seq<PurgeEntry>, u: Uri, regex: (string, string) -> RegexOutcome): set<RequestOptions>
  {
    if es == [] then {}
    else EntriesRequests(es[..|es| - 1], u, regex) + EntryRequests(es[|es| - 1], u, regex)
  }

  /**
   * Entry `i` is the earliest entry that calls for a request with `r`'s URL, and it calls
   * for `r` itself: `r` comes before every other request with that URL in `handlePurge`'s
   * list, so it is the one `uniq` keeps.
   */
  ghost predicate FirstPlanner(es: seq<PurgeEntry>, u: Uri, regex: (string, string) -> RegexOutcome,
                               r: RequestOptions, i: int)
  {
    && 0 <= i < |es|
    && r in EntryRequests(es[i], u, regex)
    && forall i', r' :: 0 <= i' < i && r' in EntryRequests(es[i'], u, regex) ==> r'.url != r.url
  }

  lemma VariantsRequestsStep(e: PurgeEntry, template: string, u: Uri, done: set<string>, v: string)
    ensures VariantsRequests(e, template, u, done + {v})
         == VariantsRequests(e, template, u, done) + PairRequests(e, template, v, u)
  {
  }

  lemma {:induction false} TemplatesRequestsOrigin(e: PurgeEntry, ts: seq<string>, u: Uri, r: RequestOptions)
    ensures r in TemplatesRequests(e, ts, u)
        <==> exists j, v :: 0 <= j < |ts| && v in VariantSet(e) && r in PairRequests(e, ts[j], v, u)
  {
    if ts != [] {
      var init := ts[..|ts| - 1];
      TemplatesRequestsOrigin(e, init, u, r);
      if exists j, v :: 0 <= j < |ts| && v in VariantSet(e) && r in PairRequests(e, ts[j], v, u) {
        var j, v :| 0 <= j < |ts| && v in VariantSet(e) && r in PairRequests(e, ts[j], v, u);
        if j < |ts| - 1 {
          assert ts[j] == init[j];
        }
      }
    }
  }

  /**
   * Where every planned request comes from: a request is planned exactly when some
   * matching entry, one of its templates and one of its variants (not skipped) call for it.
   */
  lemma {:induction false} RequestOrigin(es: seq<PurgeEntry>, u: Uri, regex: (string, string) -> RegexOutcome, r: RequestOptions)
    ensures r in EntriesRequests(es, u, regex)
        <==> exists i, j, v :: 0 <= i < |es| && EntryMatches(es[i], u, regex) && 0 <= j < |es[i].uris|
                               && v in VariantSet(es[i]) && r in PairRequests(es[i], es[i].uris[j], v, u)
  {
    if es != [] {
      var init := es[..|es| - 1];
      var last := es[|es| - 1];
      RequestOrigin(init, u, regex, r);
      TemplatesRequestsOrigin(last, last.uris, u, r);
      if exists i, j, v :: 0 <= i < |es| && EntryMatches(es[i], u, regex) && 0 <= j < |es[i].uris|
                           && v in VariantSet(es[i]) && r in PairRequests(es[i], es[i].uris[j], v, u) {
        var i, j, v :| 0 <= i < |es| && EntryMatches(es[i], u, regex) && 0 <= j < |es[i].uris|
                       && v in VariantSet(es[i]) && r in PairRequests(es[i], es[i].uris[j], v, u);
        if i < |es| - 1 {
          assert es[i] == init[i];
        }
      }
      if r in EntriesRequests(init, u, regex) {
        var i, j, v :| 0 <= i < |init| && EntryMatches(init[i], u, regex) && 0 <= j < |init[i].uris|
                       && v in VariantSet(init[i]) && r in PairRequests(init[i], init[i].uris[j], v, u);
        assert init[i] == es[i];
      }
    }
  }

  /**
   * The empty variant of every template of every matching entry is always requested,
   * with the entry's method and headers.
   */
  lemma EmptyVariantRequested(es: seq<PurgeEntry>, u: Uri, regex: (string, string) -> RegexOutcome, i: nat, j: nat)
    requires i < |es| && EntryMatches(es[i], u, regex) && j < |es[i].uris|
    ensures RequestOptions(es[i].httpMethod, PrimaryUrl(es[i].uris[j], u, []), es[i].headers)
            in EntriesRequests(es, u, regex)
  {
    var r := RequestOptions(es[i].httpMethod, PrimaryUrl(es[i].uris[j], u, []), es[i].headers);
    assert [] in VariantSet(es[i]);
    assert r in PairRequests(es[i], es[i].uris[j], [], u);
    RequestOrigin(es, u, regex, r);
  }

  /**
   * For a `/wiki/...` URI, a non-skipped non-empty variant of a matching entry calls for
   * both the templated URL and the short-link rewrite.
   */
  lemma ShortLinkRequested(es: seq<PurgeEntry>, u: Uri, regex: (string, string) -> RegexOutcome, i: nat, j: nat, v: string)
    requires i < |es| && EntryMatches(es[i], u, regex) && j < |es[i].uris|
    requires v in es[i].variants && v != []
    requires !Skipped(v, VariantSet(es[i]), LastQuery(u.rawQuery), FirstPath(u.path))
    requires FirstPath(u.path) == "wiki"
    ensures RequestOptions(es[i].httpMethod, PrimaryUrl(es[i].uris[j], u, v), es[i].headers)
            in EntriesRequests(es, u, regex)
    ensures RequestOptions(es[i].httpMethod, ShortLinkUrl(es[i].uris[j], u, v), es[i].headers)
            in EntriesRequests(es, u, regex)
  {
    var e := es[i];
    var r1 := RequestOptions(e.httpMethod, PrimaryUrl(e.uris[j], u, v), e.headers);
    var r2 := RequestOptions(e.httpMethod, ShortLinkUrl(e.uris[j], u, v), e.headers);
    assert v in VariantSet(e);
    assert r1 in PairRequests(e, e.uris[j], v, u);
    assert r2 in PairRequests(e, e.uris[j], v, u);
    RequestOrigin(es, u, regex, r1);
    RequestOrigin(es, u, regex, r2);
  }

  /**
   * When the URI already names one of the entry's variants, the entry only purges the
   * templates bound to the empty variant.
   */
  lemma {:induction false} CanonicalUriPurgesOnlyEmptyVariant(e: PurgeEntry, ts: seq<string>, u: Uri)
    requires var lq, fp := LastQuery(u.rawQuery), FirstPath(u.path);
             (lq != [] && lq in e.variants) || (fp != [] && fp in e.variants)
    ensures TemplatesRequests(e, ts, u)
         == set t | t in ts :: RequestOptions(e.httpMethod, PrimaryUrl(t, u, []), e.headers)
  {
    if ts != [] {
      var init := ts[..|ts| - 1];
      var t := ts[|ts| - 1];
      CanonicalUriPurgesOnlyEmptyVariant(e, init, u);
      assert ts == init + [t];
      var primary := RequestOptions(e.httpMethod, PrimaryUrl(t, u, []), e.headers);
      assert [] in VariantSet(e);
      assert PairRequests(e, t, [], u) == {primary};
      forall r ensures r in VariantsRequests(e, t, u, VariantSet(e)) <==> r == primary {
        if r in VariantsRequests(e, t, u, VariantSet(e)) {
          var v :| v in VariantSet(e) && r in PairRequests(e, t, v, u);
          assert v == [];
        }
      }
    }
  }

  // ---------------------------------------------------------------------------
  // Templates without a variant placeholder
  // ---------------------------------------------------------------------------

  /**
   * A template in which, once `#url#` is bound, `#variants#` occurs nowhere gives every
   * variant the same primary URL: only the short-link rewrite then tells variants apart,
   * and `uniq` keeps one primary request.
   */
  lemma PrimaryUrlWithoutPlaceholder(template: string, u: Uri, v: string, w: string)
    requires forall i :: 0 <= i < |ReplaceAll(template, "#url#", u.requestUri)| ==>
               !OccursAt(ReplaceAll(template, "#url#", u.requestUri), "#variants#", i)
    ensures PrimaryUrl(template, u, v) == PrimaryUrl(template, u, w)
    ensures PrimaryUrl(template, u, v) == ReplaceAll(template, "#url#", u.requestUri)
  {
    var s := ReplaceAll(template, "#url#", u.requestUri);
    ReplaceAllAbsent(s, "#variants#", v);
    ReplaceAllAbsent(s, "#variants#", w);
  }

  // ---------------------------------------------------------------------------
  // uniq
  // ---------------------------------------------------------------------------

  /** Reference definition of `uniq`: an element is kept when no earlier input has its URL. */
  function Dedup(s: seq<RequestOptions>): seq<RequestOptions>
  {
    if s == [] then []
    else
      var kept := Dedup(s[..|s| - 1]);
      if s[|s| - 1].url in Urls(s[..|s| - 1]) then kept else kept + [s[|s| - 1]]
  }

  /** The input positions Dedup keeps, in increasing order. */
  function KeptIndices(s: seq<RequestOptions>): seq<nat>
  {
    if s == [] then []
    else
      var kept := KeptIndices(s[..|s| - 1]);
      if s[|s| - 1].url in Urls(s[..|s| - 1]) then kept else kept + [|s| - 1]
  }

  /** Position `i` holds the first input with its URL. */
  predicate IsFirst(s: seq<RequestOptions>, i: int)
  {
    0 <= i < |s| && forall j :: 0 <= j < i ==> s[j].url != s[i].url
  }

  lemma {:induction false} DedupUrls(s: seq<RequestOptions>)
    ensures Urls(Dedup(s)) == Urls(s)
  {
    if s != [] {
      var init := s[..|s| - 1];
      DedupUrls(init);
      assert s == init + [s[|s| - 1]];
      assert Urls(s) == Urls(init) + {s[|s| - 1].url};
    }
  }

  /** No two elements of the result share a URL. */
  lemma {:induction false} DedupDistinct(s: seq<RequestOptions>)
    ensures forall i, j :: 0 <= i < j < |Dedup(s)| ==> Dedup(s)[i].url != Dedup(s)[j].url
  {
    if s != [] {
      var init := s[..|s| - 1];
      DedupDistinct(init);
      DedupUrls(init);
      var d := Dedup(s);
      if s[|s| - 1].url !in Urls(init) {
        forall i | 0 <= i < |d| - 1 ensures d[i].url != d[|d| - 1].url {
          assert d[i] in Dedup(init);
        }
      }
    }
  }

  /**
   * The result is the input restricted to the positions that hold the first input with
   * their URL, in input order: a subsequence, and every first occurrence is in it.
   */
  lemma {:induction false} DedupKeepsFirstOccurrences(s: seq<RequestOptions>)
    ensures |KeptIndices(s)| == |Dedup(s)|
    ensures forall k, l :: 0 <= k < l < |KeptIndices(s)| ==> KeptIndices(s)[k] < KeptIndices(s)[l]
    ensures forall k :: 0 <= k < |KeptIndices(s)| ==>
              IsFirst(s, KeptIndices(s)[k]) && Dedup(s)[k] == s[KeptIndices(s)[k]]
    ensures forall i :: IsFirst(s, i) ==> i in KeptIndices(s)
  {
    if s != [] {
      var init := s[..|s| - 1];
      var n := |s| - 1;
      DedupKeepsFirstOccurrences(init);
      var idx := KeptIndices(s);
      var ki := KeptIndices(init);
      forall k | 0 <= k < |ki| ensures IsFirst(s, ki[k]) && s[ki[k]] == init[ki[k]] {
        assert IsFirst(init, ki[k]);
      }
      forall i | IsFirst(s, i) ensures i in idx {
        if i < n {
          assert IsFirst(init, i);
        } else {
          forall r | r in init ensures r.url != s[n].url {
            var j :| 0 <= j < |init| && init[j] == r;
            assert s[j] == init[j];
          }
        }
      }
      if s[n].url !in Urls(init) {
        assert IsFirst(s, n) by {
          forall j | 0 <= j < n ensures s[j].url != s[n].url {
            assert init[j] in init;
          }
        }
      }
    }
  }

  /** `uniq`: one pass with a `seen` set of URLs, keeping the first request for each URL. */
  method Uniq(input: seq<RequestOptions>) returns (res: seq<RequestOptions>)
    ensures res == Dedup(input)
    ensures forall i, j :: 0 <= i < j < |res| ==> res[i].url != res[j].url
    ensures Urls(res) == Urls(input)
    ensures Elems(res) <= Elems(input)
  {
    res := [];
    var seen: set<string> := {};
    for i := 0 to |input|
      invariant res == Dedup(input[..i])
      invariant seen == Urls(input[..i])
    {
      var val := input[i];
      assert input[..i + 1] == input[..i] + [val];
      if val.url !in seen {
        seen := seen + {val.url};
        res := res + [val];
      }
    }
    assert input[..|input|] == input;
    DedupDistinct(input);
    DedupUrls(input);
    DedupKeepsFirstOccurrences(input);
    forall r | r in res ensures r in input {
      var k :| 0 <= k < |res| && res[k] == r;
    }
  }

  // ---------------------------------------------------------------------------
  // handlePurge: building the request list
  // ---------------------------------------------------------------------------

  /** The `variants` map of one entry: the empty variant and every configured code. */
  method BuildVariantSet(variants: seq<string>) returns (vs: set<string>)
    ensures [] in vs
    ensures forall v :: v in vs <==> v == [] || v in variants
  {
    vs := {[]};
    for i := 0 to |variants|
      invariant forall v :: v in vs <==> v == [] || v in variants[..i]
    {
      vs := vs + {variants[i]};
      assert variants[..i + 1] == variants[..i] + [variants[i]];
    }
    assert variants[..|variants|] == variants;
  }

  /** The body of the inner loop of `handlePurge`: the requests of one (template, variant) pair. */
  method ExpandVariant(e: PurgeEntry, template: string, u: Uri, vs: set<string>, variant: string,
                       lastQuery: string, firstPath: string) returns (block: seq<RequestOptions>)
    requires vs == VariantSet(e)
    requires lastQuery == LastQuery(u.rawQuery) && firstPath == FirstPath(u.path)
    ensures Elems(block) == PairRequests(e, template, variant, u)
  {
    if variant != [] && ((lastQuery != [] && lastQuery in vs) || (firstPath != [] && firstPath in vs)) {
      return [];
    }
    var primary := RequestOptions(e.httpMethod,
      ReplaceAll(ReplaceAll(template, "#url#", u.requestUri), "#variants#", variant), e.headers);
    block := [primary];
    if firstPath == "wiki" && variant != [] {
      var shortLink := RequestOptions(e.httpMethod,
        ReplaceAll(ReplaceAll(ReplaceAll(template, "#url#", u.requestUri), "#variants#", ""), "/wiki/", "/" + variant + "/"),
        e.headers);
      block := block + [shortLink];
    }
  }

  /** The inner loop of `handlePurge`: one template over the variant set, in any order. */
  method ExpandTemplate(e: PurgeEntry, template: string, u: Uri, vs: set<string>,
                        lastQuery: string, firstPath: string) returns (ros: seq<RequestOptions>)
    requires vs == VariantSet(e)
    requires lastQuery == LastQuery(u.rawQuery) && firstPath == FirstPath(u.path)
    ensures Elems(ros) == VariantsRequests(e, template, u, vs)
  {
    ros := [];
    var remaining := vs;
    ghost var done: set<string> := {};
    while remaining != {}
      invariant done + remaining == vs
      invariant Elems(ros) == VariantsRequests(e, template, u, done)
      decreases |remaining|
    {
      var variant :| variant in remaining;
      VariantsRequestsStep(e, template, u, done, variant);
      var block := ExpandVariant(e, template, u, vs, variant, lastQuery, firstPath);
      assert Elems(ros + block) == Elems(ros) + Elems(block);
      ros := ros + block;
      done := done + {variant};
      remaining := remaining - {variant};
    }
  }

  /** The template loop of `handlePurge` for one matching entry: the requests of all its templates. */
  method ExpandEntry(entry: PurgeEntry, u: Uri, vs: set<string>, lastQuery: string, firstPath: string)
    returns (ros: seq<RequestOptions>)
    requires vs == VariantSet(entry)
    requires lastQuery == LastQuery(u.rawQuery) && firstPath == FirstPath(u.path)
    ensures Elems(ros) == TemplatesRequests(entry, entry.uris, u)
  {
    ros := [];
    for j := 0 to |entry.uris|
      invariant Elems(ros) == TemplatesRequests(entry, entry.uris[..j], u)
    {
      var block := ExpandTemplate(entry, entry.uris[j], u, vs, lastQuery, firstPath);
      assert entry.uris[..j + 1] == entry.uris[..j] + [entry.uris[j]];
      assert Elems(ros + block) == Elems(ros) + Elems(block);
      ros := ros + block;
    }
    assert entry.uris[..|entry.uris|] == entry.uris;
  }

  /** Every request an entry calls for carries that entry's method and header templates. */
  lemma EntryRequestsCarryEntry(e: PurgeEntry, u: Uri, regex: (string, string) -> RegexOutcome, r: RequestOptions)
    requires r in EntryRequests(e, u, regex)
    ensures r.httpMethod == e.httpMethod && r.headers == e.headers
  {
    TemplatesRequestsOrigin(e, e.uris, u, r);
    var j, v :| 0 <= j < |e.uris| && v in VariantSet(e) && r in PairRequests(e, e.uris[j], v, u);
  }

  /**
   * `acc` lists the requests of the first `n` entries in entry order: `origin[k]` is the
   * entry request `k` comes from, origins never decrease along the list, and every
   * request of each of those entries is listed under that entry.
   */
  ghost predicate InEntryOrder(es: seq<PurgeEntry>, u: Uri, regex: (string, string) -> RegexOutcome,
                               acc: seq<RequestOptions>, origin: seq<int>, n: int)
  {
    && |origin| == |acc|
    && (forall k :: 0 <= k < |acc| ==>
          0 <= origin[k] < n && origin[k] < |es| && acc[k] in EntryRequests(es[origin[k]], u, regex))
    && (forall k, l :: 0 <= k < l < |acc| ==> origin[k] <= origin[l])
    && (forall i, r :: 0 <= i < n && i < |es| && r in EntryRequests(es[i], u, regex) ==>
          exists q :: 0 <= q < |acc| && origin[q] == i && acc[q] == r)
  }

  /** Appending the requests of entry `n`, in any order, keeps the list in entry order. */
  lemma InEntryOrderAppend(es: seq<PurgeEntry>, u: Uri, regex: (string, string) -> RegexOutcome,
                           acc: seq<RequestOptions>, origin: seq<int>, n: nat, block: seq<RequestOptions>)
    requires n < |es| && InEntryOrder(es, u, regex, acc, origin, n)
    requires Elems(block) == EntryRequests(es[n], u, regex)
    ensures InEntryOrder(es, u, regex, acc + block, origin + seq(|block|, _ => n), n + 1)
  {
    AppendedFromEntry(es, u, regex, acc, origin, n, block);
    AppendedComplete(es, u, regex, acc, origin, n, block);
  }

  /** After the append, every request still comes from an entry, with origins in order. */
  lemma AppendedFromEntry(es: seq<PurgeEntry>, u: Uri, regex: (string, string) -> RegexOutcome,
                          acc: seq<RequestOptions>, origin: seq<int>, n: nat, block: seq<RequestOptions>)
    requires n < |es| && InEntryOrder(es, u, regex, acc, origin, n)
    requires Elems(block) == EntryRequests(es[n], u, regex)
    ensures var acc', origin' := acc + block, origin + seq(|block|, _ => n);
            && |origin'| == |acc'|
            && (forall k :: 0 <= k < |acc'| ==>
                  0 <= origin'[k] < n + 1 && origin'[k] < |es| && acc'[k] in EntryRequests(es[origin'[k]], u, regex))
            && (forall k, l :: 0 <= k < l < |acc'| ==> origin'[k] <= origin'[l])
  {
    var acc', origin' := acc + block, origin + seq(|block|, _ => n);
    forall k | 0 <= k < |acc'|
      ensures 0 <= origin'[k] < n + 1 && origin'[k] < |es| && acc'[k] in EntryRequests(es[origin'[k]], u, regex)
    {
      if k >= |acc| {
        assert acc'[k] == block[k - |acc|] && origin'[k] == n;
        assert block[k - |acc|] in Elems(block);
      } else {
        assert acc'[k] == acc[k] && origin'[k] == origin[k];
      }
    }
  }

  /** After the append, every request of the first `n + 1` entries is listed under its entry. */
  lemma AppendedComplete(es: seq<PurgeEntry>, u: Uri, regex: (string, string) -> RegexOutcome,
                         acc: seq<RequestOptions>, origin: seq<int>, n: nat, block: seq<RequestOptions>)
    requires n < |es| && InEntryOrder(es, u, regex, acc, origin, n)
    requires Elems(block) == EntryRequests(es[n], u, regex)
    ensures var acc', origin' := acc + block, origin + seq(|block|, _ => n);
            forall i, r :: 0 <= i < n + 1 && i < |es| && r in EntryRequests(es[i], u, regex) ==>
              exists q :: 0 <= q < |acc'| && origin'[q] == i && acc'[q] == r
  {
    var acc', origin' := acc + block, origin + seq(|block|, _ => n);
    forall i, r | 0 <= i < n + 1 && i < |es| && r in EntryRequests(es[i], u, regex)
      ensures exists q :: 0 <= q < |acc'| && origin'[q] == i && acc'[q] == r
    {
      if i == n {
        assert r in Elems(block);
        var m :| 0 <= m < |block| && block[m] == r;
        assert acc'[|acc| + m] == r && origin'[|acc| + m] == n;
      } else {
        var q :| 0 <= q < |acc| && origin[q] == i && acc[q] == r;
        assert acc'[q] == r && origin'[q] == i;
      }
    }
  }

  /**
   * In a list of all entries' requests in entry order, the first request with a URL comes
   * from the earliest entry that calls for that URL.
   */
  lemma InEntryOrderFirstAt(es: seq<PurgeEntry>, u: Uri, regex: (string, string) -> RegexOutcome,
                            acc: seq<RequestOptions>, origin: seq<int>, p: int)
    requires InEntryOrder(es, u, regex, acc, origin, |es|) && IsFirst(acc, p)
    ensures FirstPlanner(es, u, regex, acc[p], origin[p])
  {
    forall i', r' | 0 <= i' < origin[p] && r' in EntryRequests(es[i'], u, regex)
      ensures r'.url != acc[p].url
    {
      var q :| 0 <= q < |acc| && origin[q] == i' && acc[q] == r';
      assert q < p;
    }
  }

  /** So every request that `uniq` keeps comes from the earliest entry calling for its URL. */
  lemma InEntryOrderFirstPlanner(es: seq<PurgeEntry>, u: Uri, regex: (string, string) -> RegexOutcome,
                                 acc: seq<RequestOptions>, origin: seq<int>)
    requires InEntryOrder(es, u, regex, acc, origin, |es|)
    ensures forall r :: r in Dedup(acc) ==> exists i :: FirstPlanner(es, u, regex, r, i)
  {
    DedupKeepsFirstOccurrences(acc);
    var d, kept := Dedup(acc), KeptIndices(acc);
    forall r | r in d ensures exists i :: FirstPlanner(es, u, regex, r, i) {
      var k :| 0 <= k < |d| && d[k] == r;
      InEntryOrderFirstAt(es, u, regex, acc, origin, kept[k]);
    }
  }

  /**
   * The body of the entry loop of `handlePurge`: nothing for an entry of another host, with
   * a path pattern that does not match or that is not a valid expression; otherwise the
   * requests of all its templates.
   */
  method PlanEntry(entry: PurgeEntry, u: Uri, regex: (string, string) -> RegexOutcome,
                   lastQuery: string, firstPath: string) returns (block: seq<RequestOptions>)
    requires lastQuery == LastQuery(u.rawQuery) && firstPath == FirstPath(u.path)
    ensures Elems(block) == EntryRequests(entry, u, regex)
  {
    if entry.host != u.host {
      return [];
    }
    if entry.pathMatch != [] {
      var m := regex(entry.pathMatch, u.path);
      if m.RegexError? {
        return [];
      }
      if m.NotMatched? {
        return [];
      }
    }
    var vs := BuildVariantSet(entry.variants);
    assert vs == VariantSet(entry);
    block := ExpandEntry(entry, u, vs, lastQuery, firstPath);
  }

  /**
   * `handlePurge` up to the dispatch: the deduplicated requests of all matching entries.
   * An unparsable URI calls for no request. Otherwise no two requests share a URL, every
   * request is a planned one, every planned URL is requested, and the request kept for a
   * URL is one that the earliest entry planning that URL calls for (with its method and
   * headers).
   */
  method HandlePurge(entries: seq<PurgeEntry>, parsed: Option<Uri>, regex: (string, string) -> RegexOutcome)
    returns (ros: seq<RequestOptions>, ghost all: seq<RequestOptions>)
    ensures parsed.None? ==> ros == []
    ensures parsed.Some? ==> Elems(all) == EntriesRequests(entries, parsed.value, regex) && ros == Dedup(all)
    ensures forall i, j :: 0 <= i < j < |ros| ==> ros[i].url != ros[j].url
    ensures parsed.Some? ==> forall r :: r in ros ==> r in EntriesRequests(entries, parsed.value, regex)
    ensures parsed.Some? ==> Urls(ros) == set r | r in EntriesRequests(entries, parsed.value, regex) :: r.url
    ensures parsed.Some? ==> forall r :: r in ros ==> exists i :: FirstPlanner(entries, parsed.value, regex, r, i)
  {
    if parsed.None? {
      return [], [];
    }
    var u := parsed.value;
    var lastQuery := LastQuery(u.rawQuery);
    var firstPath := FirstPath(u.path);
    var acc: seq<RequestOptions> := [];
    ghost var origin: seq<int> := [];  // the entry each request of `acc` comes from
    for i := 0 to |entries|
      invariant Elems(acc) == EntriesRequests(entries[..i], u, regex)
      invariant InEntryOrder(entries, u, regex, acc, origin, i)
    {
      assert entries[..i + 1] == entries[..i] + [entries[i]];
      var block := PlanEntry(entries[i], u, regex, lastQuery, firstPath);
      assert Elems(acc + block) == Elems(acc) + Elems(block);
      InEntryOrderAppend(entries, u, regex, acc, origin, i, block);
      acc := acc + block;
      origin := origin + seq(|block|, _ => i);
    }
    assert entries[..|entries|] == entries;
    all := acc;
    ros := Uniq(acc);
    assert Urls(acc) == set r | r in EntriesRequests(entries, u, regex) :: r.url;
    InEntryOrderFirstPlanner(entries, u, regex, acc, origin);
  }

  // ---------------------------------------------------------------------------
  // Execute
  // ---------------------------------------------------------------------------

  /**
   * `PurgeExecutor.Execute`: a payload that does not decode returns its error; a stale
   * event is dropped; otherwise the deduplicated requests of the event are dispatched and
   * nil is returned, whatever becomes of them. `formatDate` is the RFC 3339 rendering of
   * an event date; the per-request call outcomes are as in `DispatchAll`.
   */
  method Execute(payload: Result<PurgeEvent>, now: int, expiry: int, entries: seq<PurgeEntry>,
                 parse: string -> Option<Uri>, regex: (string, string) -> RegexOutcome,
                 formatDate: int -> string, cdnConfigured: bool, purgeResults: nat -> Option<string>,
                 newRequests: nat -> Result<string>, transports: nat -> HttpOutcome)
    returns (err: Option<string>, dispatched: seq<RequestOptions>, outcomes: seq<Dispatch>)
    ensures payload.Err? ==> err == Some(payload.error) && dispatched == []
    ensures |outcomes| == |dispatched|
    ensures payload.Ok? ==> forall k :: 0 <= k < |dispatched| ==>
              Handled(dispatched[k], payload.value.uri, formatDate(payload.value.dt), cdnConfigured,
                      purgeResults(k), newRequests(k), transports(k), outcomes[k])
    ensures payload.Ok? ==> err == None
    ensures payload.Ok? && IsStale(now, payload.value.dt, expiry) ==> dispatched == []
    ensures payload.Ok? && parse(payload.value.uri).None? ==> dispatched == []
    ensures forall i, j :: 0 <= i < j < |dispatched| ==> dispatched[i].url != dispatched[j].url
    ensures payload.Ok? && !IsStale(now, payload.value.dt, expiry) && parse(payload.value.uri).Some? ==>
              var planned := EntriesRequests(entries, parse(payload.value.uri).value, regex);
              && (forall r :: r in dispatched ==> r in planned)
              && Urls(dispatched) == (set r | r in planned :: r.url)
              && forall r :: r in dispatched ==>
                   exists i :: FirstPlanner(entries, parse(payload.value.uri).value, regex, r, i)
  {
    if payload.Err? {
      return Some(payload.error), [], [];
    }
    var msg := payload.value;
    if now > msg.dt + expiry {
      return None, [], [];
    }
    ghost var all;
    dispatched, all := HandlePurge(entries, parse(msg.uri), regex);
    var failure;
    outcomes, failure := DispatchAll(dispatched, msg.uri, formatDate(msg.dt), cdnConfigured,
                                     purgeResults, newRequests, transports);
    err := None;
  }

  // ---------------------------------------------------------------------------
  // doRequest
  // ---------------------------------------------------------------------------

  /** How `doRequest` reports a response status in its log. */
  datatype StatusClass = PurgeSucceeded | QuietlyAccepted | PurgeWarning

  /** 2xx succeeds; any other status of 300 or more except 400 and 404 warns; the rest is quiet. */
  function Classify(status: int): (c: StatusClass)
    ensures c == PurgeSucceeded <==> 200 <= status < 300
    ensures c == PurgeWarning <==> status >= 300 && status != 400 && status != 404
  {
    if 200 <= status < 300 then PurgeSucceeded
    else if status != 404 && status != 400 && status >= 300 then PurgeWarning
    else QuietlyAccepted
  }

  /** ASCII upper-casing of one character. */
  function UpperChar(c: char): char
  {
    if 'a' <= c <= 'z' then (c as int - 32) as char else c
  }

  /**
   * textproto.CanonicalMIMEHeaderKey for header keys of letters, digits and `-`:
   * the first letter and every letter after `-` upper case, all others lower case.
   */
  function CanonicalKey(k: string): (r: string)
    ensures |r| == |k|
    ensures k != [] ==> r[0] == UpperChar(k[0])
    ensures forall i :: 0 < i < |k| && k[i - 1] == '-' ==> r[i] == UpperChar(k[i])
    ensures forall i :: 0 < i < |k| && k[i - 1] != '-' ==> r[i] == LowerChar(k[i])
  {
    CanonicalFrom(k, true)
  }

  /** The canonical form of `k`, its first letter upper-cased when `upper` holds. */
  function CanonicalFrom(k: string, upper: bool): (r: string)
    ensures |r| == |k|
    ensures k != [] ==> r[0] == if upper then UpperChar(k[0]) else LowerChar(k[0])
    ensures forall i :: 0 < i < |k| ==> r[i] == if k[i - 1] == '-' then UpperChar(k[i]) else LowerChar(k[i])
  {
    if k == [] then []
    else [if upper then UpperChar(k[0]) else LowerChar(k[0])] + CanonicalFrom(k[1..], k[0] == '-')
  }

  /** Every spelling of `host` names the Host header. */
  lemma HostKeyAnyCase(k: string)
    requires ToLower(k) == "host"
    ensures CanonicalKey(k) == "Host"
  {
    assert |k| == 4;
    assert LowerChar(k[0]) == 'h' && LowerChar(k[1]) == 'o' && LowerChar(k[2]) == 's' && LowerChar(k[3]) == 't';
    assert CanonicalFrom(k[4..], k[3] == '-') == [];
    assert CanonicalFrom(k[3..], false) == ['t'];
    assert CanonicalFrom(k[2..], false) == ['s', 't'];
    assert CanonicalFrom(k[1..], false) == ['o', 's', 't'];
  }

  /** A header template with `#url#` bound to the raw event URI and `#date#` to the date text. */
  function HeaderValue(template: string, rawUrl: string, dateStr: string): string
  {
    ReplaceAll(ReplaceAll(template, "#url#", rawUrl), "#date#", dateStr)
  }

  /**
   * `h` is what setting every template of `headers`, substituted, under its canonical key
   * gives, in some map order: every configured key is set; each set value is the
   * substituted template of a key with that canonical form; and when no two configured
   * keys share a canonical form, each key gets exactly its own template.
   */
  predicate HeadersSetFrom(h: map<string, string>, headers: map<string, string>, rawUrl: string, dateStr: string)
  {
    && h.Keys == (set k | k in headers :: CanonicalKey(k))
    && (forall c :: c in h ==> exists k :: k in headers && CanonicalKey(k) == c
                                          && h[c] == HeaderValue(headers[k], rawUrl, dateStr))
    && ((forall k1, k2 :: k1 in headers && k2 in headers && CanonicalKey(k1) == CanonicalKey(k2) ==> k1 == k2) ==>
          forall k :: k in headers ==> h[CanonicalKey(k)] == HeaderValue(headers[k], rawUrl, dateStr))
  }

  /** The header loop of `doRequest`: `req.Header.Set` of every substituted template, in map order. */
  method SetHeaders(headers: map<string, string>, rawUrl: string, dateStr: string)
    returns (h: map<string, string>)
    ensures HeadersSetFrom(h, headers, rawUrl, dateStr)
  {
    h := map[];
    var remaining := headers.Keys;
    while remaining != {}
      invariant remaining <= headers.Keys
      invariant h.Keys == set k | k in headers.Keys - remaining :: CanonicalKey(k)
      invariant forall c :: c in h ==> exists k :: k in headers.Keys - remaining && CanonicalKey(k) == c
                                                  && h[c] == HeaderValue(headers[k], rawUrl, dateStr)
      decreases |remaining|
    {
      var k :| k in remaining;
      h := h[CanonicalKey(k) := HeaderValue(headers[k], rawUrl, dateStr)];
      remaining := remaining - {k};
    }
  }

  /** What a non-CDN request looks like on the wire. */
  datatype HttpRequest = HttpRequest(httpMethod: string, url: string, host: string, headers: map<string, string>)

  /** What doRequest does with one request. */
  datatype Action =
    | CdnPurge(file: string)   // cloudflare PurgeCache of one URL
    | CdnSkipped               // cloudflare method without an API client
    | NotSent                  // http.NewRequestWithContext failed
    | Sent(req: HttpRequest)

  /** The outcome of sending an HTTP request: no response, or a response status. */
  datatype HttpOutcome = TransportError(msg: string) | Response(status: int)

  predicate IsCloudflare(httpMethod: string)
  {
    ToLower(httpMethod) == "cloudflare"
  }

  /** What became of one dispatched request: its error, its action and its logged status class. */
  datatype Dispatch = Dispatch(err: Option<string>, action: Action, logged: Option<StatusClass>)

  /**
   * `d` is what `doRequest` does with `ro` given the event URI `rawUrl`, the date text
   * `dateStr` and the outcomes of the calls it makes.
   */
  predicate Handled(ro: RequestOptions, rawUrl: string, dateStr: string,
                    cdnConfigured: bool, purgeResult: Option<string>,
                    newRequest: Result<string>, transport: HttpOutcome, d: Dispatch)
  {
    && (IsCloudflare(ro.httpMethod) && !cdnConfigured ==> d.err == None && d.action == CdnSkipped)
    && (IsCloudflare(ro.httpMethod) && cdnConfigured ==> d.err == purgeResult && d.action == CdnPurge(ro.url))
    && (!IsCloudflare(ro.httpMethod) && newRequest.Err? ==> d.err == Some(newRequest.error) && d.action == NotSent)
    && (!IsCloudflare(ro.httpMethod) && newRequest.Ok? ==>
          && d.action.Sent?
          && d.action.req.httpMethod == ro.httpMethod && d.action.req.url == ro.url
          && HeadersSetFrom(d.action.req.headers, ro.headers, rawUrl, dateStr)
          && d.action.req.host == (if "Host" in d.action.req.headers && d.action.req.headers["Host"] != []
                                   then d.action.req.headers["Host"] else newRequest.value)
          && d.err == (if transport.TransportError? then Some(transport.msg) else None)
          && d.logged == (if transport.Response? then Some(Classify(transport.status)) else None))
  }

  /**
   * `doRequest` with the nil-API branch of `doCloudFlarePurge`. `newRequest` is what
   * http.NewRequestWithContext reports (the URL's host, or an error), `transport` what
   * client.Do reports, `purgeResult` the PurgeCache error, if any.
   * Only a construction, transport or CDN API error is returned: every response, whatever
   * its status, yields nil.
   */
  method DoRequest(ro: RequestOptions, rawUrl: string, dateStr: string,
                   cdnConfigured: bool, purgeResult: Option<string>,
                   newRequest: Result<string>, transport: HttpOutcome)
    returns (err: Option<string>, action: Action, logged: Option<StatusClass>)
    ensures Handled(ro, rawUrl, dateStr, cdnConfigured, purgeResult, newRequest, transport, Dispatch(err, action, logged))
    ensures err.Some? ==> (IsCloudflare(ro.httpMethod) && purgeResult.Some?) || newRequest.Err? || transport.TransportError?
  {
    logged := None;
    if ToLower(ro.httpMethod) == "cloudflare" {
      if !cdnConfigured {
        return None, CdnSkipped, None;
      }
      return purgeResult, CdnPurge(ro.url), None;
    }
    if newRequest.Err? {
      return Some(newRequest.error), NotSent, None;
    }
    var headers := SetHeaders(ro.headers, rawUrl, dateStr);
    var host := newRequest.value;
    if "Host" in headers && headers["Host"] != [] {
      host := headers["Host"];
    }
    action := Sent(HttpRequest(ro.httpMethod, ro.url, host, headers));
    match transport
    case TransportError(msg) =>
      err := Some(msg);
    case Response(status) =>
      logged := Some(Classify(status));
      err := None;
  }

  /**
   * The dispatch of `handlePurge`: `doRequest` of every request with the event URI `item`
   * and the date text `dateStr`, one after the other. The outcomes of request `k`'s calls
   * are `purgeResults(k)`, `newRequests(k)` and `transports(k)`. `failure` is what the
   * wait reports: nil when every request succeeded, otherwise one of their errors.
   */
  method DispatchAll(ros: seq<RequestOptions>, item: string, dateStr: string, cdnConfigured: bool,
                     purgeResults: nat -> Option<string>, newRequests: nat -> Result<string>,
                     transports: nat -> HttpOutcome)
    returns (outcomes: seq<Dispatch>, failure: Option<string>)
    ensures |outcomes| == |ros|
    ensures forall k :: 0 <= k < |ros| ==>
              Handled(ros[k], item, dateStr, cdnConfigured, purgeResults(k), newRequests(k), transports(k), outcomes[k])
    ensures failure.None? <==> forall k :: 0 <= k < |outcomes| ==> outcomes[k].err.None?
    ensures failure.Some? ==> exists k :: 0 <= k < |outcomes| && outcomes[k].err == failure
  {
    outcomes := [];
    failure := None;
    for k := 0 to |ros|
      invariant |outcomes| == k
      invariant forall j :: 0 <= j < k ==>
                  Handled(ros[j], item, dateStr, cdnConfigured, purgeResults(j), newRequests(j), transports(j), outcomes[j])
      invariant failure.None? <==> forall j :: 0 <= j < k ==> outcomes[j].err.None?
      invariant failure.Some? ==> exists j :: 0 <= j < k && outcomes[j].err == failure
    {
      var err, action, logged := DoRequest(ros[k], item, dateStr, cdnConfigured, purgeResults(k), newRequests(k), transports(k));
      outcomes := outcomes + [Dispatch(err, action, logged)];
      if failure.None? && err.Some? {
        failure := err;
      }
    }
  }
}
