/** HttpCacheKeyStrategy and CacheKeyBuilder: which requests are cached, under which key, for how long. */
module CacheKeys {
  import opened Options
  import opened Strings

  type Pair = (string, string)

  // ---------- normalizeQueryParams ----------

  /** Query parameters in insertion order, as jobs hold them: string values under distinct names. */
  predicate DistinctNames(params: seq<Pair>) {
    forall i, j :: 0 <= i < j < |params| ==> params[i].0 != params[j].0
  }

  function Insert(p: Pair, sorted: seq<Pair>): seq<Pair> {
    if sorted == [] || LexLess(p.0, sorted[0].0) then [p] + sorted
    else [sorted[0]] + Insert(p, sorted[1..])
  }

  function SortByName(params: seq<Pair>): seq<Pair> {
    if params == [] then [] else Insert(params[0], SortByName(params[1..]))
  }

  function PrintPair(p: Pair): string {
    p.0 + "=" + p.1
  }

  function PrintAll(params: seq<Pair>): seq<string> {
    seq(|params|, i requires 0 <= i < |params| => PrintPair(params[i]))
  }

  function NormalizeQueryParams(params: seq<Pair>): string {
    Join(PrintAll(SortByName(params)), '&')
  }

  ghost predicate Ascending(params: seq<Pair>) {
    forall i, j :: 0 <= i < j < |params| ==> LexLess(params[i].0, params[j].0)
  }

  lemma {:induction false} InsertSorts(p: Pair, sorted: seq<Pair>)
    requires Ascending(sorted) && forall q :: q in sorted ==> q.0 != p.0
    ensures Ascending(Insert(p, sorted))
    ensures forall q :: q in Insert(p, sorted) <==> q == p || q in sorted
  {
    if sorted != [] {
      var first, rest := sorted[0], sorted[1..];
      LexTotal(p.0, first.0);
      assert forall q :: q in sorted <==> q == first || q in rest;
      if LexLess(p.0, first.0) {
        forall i | 0 <= i < |sorted| ensures LexLess(p.0, sorted[i].0) {
          if i > 0 {
            LexTransitive(p.0, first.0, sorted[i].0);
          }
        }
      } else {
        InsertSorts(p, rest);
        var tail := Insert(p, rest);
        forall i | 0 <= i < |tail| ensures LexLess(first.0, tail[i].0) {
          assert tail[i] in tail;
          if tail[i] != p {
            var k :| 0 <= k < |rest| && rest[k] == tail[i];
            assert sorted[k + 1] == tail[i];
          }
        }
      }
    }
  }

  lemma {:induction false} SortByNameSorts(params: seq<Pair>)
    requires DistinctNames(params)
    ensures Ascending(SortByName(params))
    ensures forall q :: q in SortByName(params) <==> q in params
  {
    if params != [] {
      var rest := params[1..];
      SortByNameSorts(rest);
      forall q | q in SortByName(rest) ensures q.0 != params[0].0 {
        var k :| 0 <= k < |rest| && rest[k] == q;
        assert params[k + 1] == q;
      }
      InsertSorts(params[0], SortByName(rest));
      assert forall q :: q in params <==> q == params[0] || q in rest;
    }
  }

  lemma {:induction false} AscendingUnique(a: seq<Pair>, b: seq<Pair>)
    requires Ascending(a) && Ascending(b) && forall q :: q in a <==> q in b
    ensures a == b
  {
    if a != [] { assert a[0] in a; }
    if b != [] { assert b[0] in b; }
    if a != [] {
      assert a[0] in b && b[0] in a;
      var i :| 0 <= i < |b| && b[i] == a[0];
      var j :| 0 <= j < |a| && a[j] == b[0];
      LexTotal(a[0].0, b[0].0);
      assert i == 0 && j == 0;
      AscendingTail(a);
      AscendingTail(b);
      AscendingUnique(a[1..], b[1..]);
      assert a == [a[0]] + a[1..] && b == [b[0]] + b[1..];
    }
  }

  lemma AscendingTail(a: seq<Pair>)
    requires Ascending(a) && a != []
    ensures Ascending(a[1..]) && forall q :: q in a[1..] <==> q in a && q != a[0]
  {
    LexTotal(a[0].0, a[0].0);
    forall i | 1 <= i < |a| ensures a[i] != a[0] {
      assert LexLess(a[0].0, a[i].0);
    }
  }

  /** The parameter string does not depend on the order in which parameters were given. */
  lemma OrderDoesNotMatter(a: seq<Pair>, b: seq<Pair>)
    requires DistinctNames(a) && DistinctNames(b) && forall q :: q in a <==> q in b
    ensures NormalizeQueryParams(a) == NormalizeQueryParams(b)
  {
    SortByNameSorts(a);
    SortByNameSorts(b);
    AscendingUnique(SortByName(a), SortByName(b));
  }

  // ---------- Reading the parameters back ----------

  predicate Plain(params: seq<Pair>) {
    forall i :: 0 <= i < |params| ==>
      FreeOf(params[i].0, '&') && FreeOf(params[i].0, '=') && FreeOf(params[i].1, '&') && FreeOf(params[i].1, '=')
  }

  function ParsePair(s: string): Pair {
    var parts := Split(s, '=');
    if |parts| == 2 then (parts[0], parts[1]) else (s, "")
  }

  function ParseParams(s: string): seq<Pair> {
    if s == "" then []
    else
      var parts := Split(s, '&');
      seq(|parts|, i requires 0 <= i < |parts| => ParsePair(parts[i]))
  }

  lemma ParsePrintPair(p: Pair)
    requires FreeOf(p.0, '=') && FreeOf(p.1, '=')
    ensures ParsePair(PrintPair(p)) == p
  {
    SplitPrefix(p.0, p.1, '=');
    SplitPrefix(p.1, "", '=');
  }

  lemma ParsePrint(params: seq<Pair>)
    requires Plain(params)
    ensures ParseParams(Join(PrintAll(params), '&')) == params
  {
    var printed := PrintAll(params);
    if params != [] {
      forall i | 0 <= i < |printed| ensures FreeOf(printed[i], '&') && ParsePair(printed[i]) == params[i] {
        ParsePrintPair(params[i]);
      }
      SplitJoin(printed, '&');
      assert Join(printed, '&') != "" by {
        assert |printed[0]| >= 1;
      }
    }
  }

  /** The printed form can be parsed back: it determines the parameters up to their order. */
  lemma ParametersAreDetermined(params: seq<Pair>)
    requires DistinctNames(params) && Plain(params)
    ensures ParseParams(NormalizeQueryParams(params)) == SortByName(params)
    ensures forall q :: q in ParseParams(NormalizeQueryParams(params)) <==> q in params
  {
    SortByNameSorts(params);
    forall i | 0 <= i < |SortByName(params)|
      ensures SortByName(params)[i] in params
    {
      assert SortByName(params)[i] in SortByName(params);
    }
    ParsePrint(SortByName(params));
  }

  lemma SameStringSameParameters(a: seq<Pair>, b: seq<Pair>)
    requires DistinctNames(a) && Plain(a) && DistinctNames(b) && Plain(b)
    ensures NormalizeQueryParams(a) == NormalizeQueryParams(b) <==> (forall q :: q in a <==> q in b)
  {
    if forall q :: q in a <==> q in b {
      OrderDoesNotMatter(a, b);
    }
    if NormalizeQueryParams(a) == NormalizeQueryParams(b) {
      ParametersAreDetermined(a);
      ParametersAreDetermined(b);
    }
  }

  // ---------- Parameters that hold the separators ----------

  /** The text reads as a parameter map: pieces with one `=` each, their names ascending. */
  ghost predicate ReadsAsMap(s: string) {
    s == "" ||
    ((forall i :: 0 <= i < |Split(s, '&')| ==> |Split(Split(s, '&')[i], '=')| == 2) && Ascending(ParseParams(s)))
  }

  /** A value that holds the separators prints like one parameter more. */
  lemma SeparatorsMakeStringsCoincide(k: string, v: string, n: string, w: string)
    requires LexLess(k, n)
    ensures NormalizeQueryParams([(k, v + "&" + n + "=" + w)]) == NormalizeQueryParams([(k, v), (n, w)])
  {
    var one, two := [(k, v + "&" + n + "=" + w)], [(k, v), (n, w)];
    PrintsOne(one);
    PrintsTwo(two);
    assert k + "=" + (v + "&" + n + "=" + w) == (k + "=" + v) + ['&'] + (n + "=" + w);
  }

  lemma PrintsOne(params: seq<Pair>)
    requires |params| == 1
    ensures NormalizeQueryParams(params) == params[0].0 + "=" + params[0].1
  {
    SortedIsSorted(params);
  }

  lemma PrintsTwo(params: seq<Pair>)
    requires |params| == 2 && LexLess(params[0].0, params[1].0)
    ensures NormalizeQueryParams(params) == (params[0].0 + "=" + params[0].1) + ['&'] + (params[1].0 + "=" + params[1].1)
  {
    SortedIsSorted(params);
    var printed := PrintAll(params);
    assert printed[1..] == [printed[1]];
    assert Join([printed[1]], '&') == printed[1];
  }

  lemma PlainReadsAsMap(params: seq<Pair>)
    requires DistinctNames(params) && Plain(params)
    ensures ReadsAsMap(NormalizeQueryParams(params))
  {
    ParametersAreDetermined(params);
    SortByNameSorts(params);
    var sorted := SortByName(params);
    if sorted != [] {
      var printed := PrintAll(sorted);
      forall i | 0 <= i < |printed| ensures FreeOf(printed[i], '&') && |Split(printed[i], '=')| == 2 {
        assert sorted[i] in sorted;
        SplitPrefix(sorted[i].0, sorted[i].1, '=');
        SplitPrefix(sorted[i].1, "", '=');
      }
      SplitJoin(printed, '&');
    }
  }

  lemma {:induction false} ReadPartPrints(part: string)
    requires |Split(part, '=')| == 2
    ensures PrintPair(ParsePair(part)) == part && FreeOf(ParsePair(part).0, '=') && FreeOf(ParsePair(part).1, '=')
    ensures forall c :: c in ParsePair(part).0 || c in ParsePair(part).1 ==> c in part
  {
    JoinSplit(part, '=');
    SplitFree(part, '=');
    var parts := Split(part, '=');
    assert parts[1..] == [parts[1]];
  }

  lemma ReadsAsMapIsPrinted(s: string)
    requires ReadsAsMap(s)
    ensures DistinctNames(ParseParams(s)) && Plain(ParseParams(s)) && NormalizeQueryParams(ParseParams(s)) == s
  {
    var params := ParseParams(s);
    if s != "" {
      var parts := Split(s, '&');
      SplitFree(s, '&');
      forall i | 0 <= i < |params|
        ensures PrintPair(params[i]) == parts[i]
        ensures FreeOf(params[i].0, '&') && FreeOf(params[i].0, '=') && FreeOf(params[i].1, '&') && FreeOf(params[i].1, '=')
      {
        ReadPartPrints(parts[i]);
      }
      assert PrintAll(params) == parts;
      JoinSplit(s, '&');
    }
    SortedIsSorted(params);
  }

  /** Any parameters at all print like some map free of `&` and `=` if and only if their print reads as one; only then
      can they be mistaken for others that are. */
  lemma PrintsLikeAMapExactlyWhen(params: seq<Pair>)
    ensures (exists p :: DistinctNames(p) && Plain(p) && NormalizeQueryParams(p) == NormalizeQueryParams(params)) <==>
      ReadsAsMap(NormalizeQueryParams(params))
  {
    hide NormalizeQueryParams, ReadsAsMap, DistinctNames, Plain;
    var s := NormalizeQueryParams(params);
    if p :| DistinctNames(p) && Plain(p) && NormalizeQueryParams(p) == s {
      PlainReadsAsMap(p);
    }
    if ReadsAsMap(s) {
      ReadsAsMapIsPrinted(s);
    }
  }

  // ---------- The key string ----------

  /** `pathname` is what URL parsing makes of the url; an absent or empty user id adds nothing. */
  datatype Request = Request(verb: string, pathname: string, params: seq<Pair>, userId: Option<string>)

  function NormalizePath(pathname: string): string {
    ToLower(if EndsWith(pathname, "/") && |pathname| > 1 then pathname[..|pathname| - 1] else pathname)
  }

  function UserPart(userId: Option<string>): string {
    if userId.Some? && userId.value != "" then ":user:" + userId.value else ""
  }

  function KeyString(r: Request): string {
    ToUpper(r.verb) + ":" + NormalizePath(r.pathname) + ":" + NormalizeQueryParams(r.params) + UserPart(r.userId)
  }

  /** The md5 digest is modelled by the text it digests: distinct texts keep distinct keys. */
  function HttpRequestKey(r: Request): string {
    "http:" + KeyString(r)
  }

  /** What follows the path: the printed parameters, then the user. */
  function Tail(r: Request): string {
    NormalizeQueryParams(r.params) + UserPart(r.userId)
  }

  predicate ColonFreeVerb(r: Request) {
    FreeOf(ToUpper(r.verb), ':')
  }

  predicate ColonFreePath(r: Request) {
    ColonFreeVerb(r) && FreeOf(NormalizePath(r.pathname), ':')
  }

  /** Method, path and user id hold no colon; the parameters may. */
  predicate ColonFree(r: Request) {
    ColonFreePath(r) && (r.userId.Some? ==> FreeOf(r.userId.value, ':'))
  }

  predicate ParamMap(params: seq<Pair>) {
    DistinctNames(params) && Plain(params)
  }

  /** The longer text before a colon swallows a colon of the shorter one's remainder. */
  predicate Shifted(p: string, a: string, q: string, b: string) {
    |p| < |q| && q[..|p|] == p && q[|p|] == ':' && a == q[|p| + 1..] + ":" + b
  }

  lemma ColonConcat(p: string, a: string, q: string, b: string)
    ensures p + ":" + a == q + ":" + b <==> (p == q && a == b) || Shifted(p, a, q, b) || Shifted(q, b, p, a)
  {
    var s, t := p + ":" + a, q + ":" + b;
    if |p| < |q| {
      ColonConcatLonger(p, a, q, b);
    } else if |q| < |p| {
      ColonConcatLonger(q, b, p, a);
    } else if s == t {
      assert s[..|p|] == p && t[..|q|] == q && s[|p| + 1..] == a && t[|q| + 1..] == b;
    }
  }

  lemma ColonConcatLonger(p: string, a: string, q: string, b: string)
    requires |p| < |q|
    ensures p + ":" + a == q + ":" + b <==> Shifted(p, a, q, b)
  {
    var s, t := p + ":" + a, q + ":" + b;
    if s == t {
      assert s[..|p|] == p && t[..|p|] == q[..|p|] && s[|p|] == ':' && t[|p|] == q[|p|];
      assert s[|p| + 1..] == a && t[|p| + 1..] == q[|p| + 1..] + ":" + b;
    }
    if Shifted(p, a, q, b) {
      assert q == p + ":" + q[|p| + 1..];
      assert p + ":" + (q[|p| + 1..] + ":" + b) == (p + ":" + q[|p| + 1..]) + ":" + b;
    }
  }

  /** Two requests share a key if and only if they agree on method, path and what follows, or the longer path
      reads like the shorter one, a colon, and the beginning of what follows it. */
  lemma KeysCoincideExactlyWhen(a: Request, b: Request)
    requires ColonFreeVerb(a) && ColonFreeVerb(b)
    ensures HttpRequestKey(a) == HttpRequestKey(b) <==>
      && ToUpper(a.verb) == ToUpper(b.verb)
      && ((NormalizePath(a.pathname) == NormalizePath(b.pathname) && Tail(a) == Tail(b))
          || Shifted(NormalizePath(a.pathname), Tail(a), NormalizePath(b.pathname), Tail(b))
          || Shifted(NormalizePath(b.pathname), Tail(b), NormalizePath(a.pathname), Tail(a)))
  {
    hide ToUpper, NormalizePath, NormalizeQueryParams, UserPart, Shifted;
    var va, na, ta := ToUpper(a.verb), NormalizePath(a.pathname), Tail(a);
    var vb, nb, tb := ToUpper(b.verb), NormalizePath(b.pathname), Tail(b);
    Regroup(va, na, NormalizeQueryParams(a.params), UserPart(a.userId));
    Regroup(vb, nb, NormalizeQueryParams(b.params), UserPart(b.userId));
    assert HttpRequestKey(a)[5..] == KeyString(a) && HttpRequestKey(b)[5..] == KeyString(b);
    ColonConcat(va, na + ":" + ta, vb, nb + ":" + tb);
    NotShifted(va, na + ":" + ta, vb, nb + ":" + tb);
    ColonConcat(na, ta, nb, tb);
  }

  lemma NotShifted(p: string, a: string, q: string, b: string)
    requires FreeOf(p, ':') && FreeOf(q, ':')
    ensures !Shifted(p, a, q, b) && !Shifted(q, b, p, a)
  {
  }

  lemma Regroup(v: string, n: string, p: string, u: string)
    ensures v + ":" + n + ":" + p + u == v + ":" + (n + ":" + (p + u))
  {
  }

  /** Colons in a path do make keys coincide: GET /a?b:x=1 and GET /a:b?x=1. */
  lemma PathColonsMakeKeysCoincide()
    ensures HttpRequestKey(Request("GET", "/a", [("b:x", "1")], None)) == HttpRequestKey(Request("GET", "/a:b", [("x", "1")], None))
  {
    hide NormalizeQueryParams, ToUpper;
    var a, b := Request("GET", "/a", [("b:x", "1")], None), Request("GET", "/a:b", [("x", "1")], None);
    PrintsOne(a.params);
    PrintsOne(b.params);
    SmallPath("/a");
    SmallPath("/a:b");
    hide NormalizePath;
    Regroup(ToUpper("GET"), "/a", NormalizeQueryParams(a.params), "");
    Regroup(ToUpper("GET"), "/a:b", NormalizeQueryParams(b.params), "");
    assert "/a" + ":" + (("b:x" + "=" + "1") + "") == "/a:b" + ":" + (("x" + "=" + "1") + "");
  }

  lemma SmallPath(path: string)
    requires path != "" && path[|path| - 1] != '/' && forall i :: 0 <= i < |path| ==> ToLowerChar(path[i]) == path[i]
    ensures NormalizePath(path) == path
  {
  }

  /** Without colons in method and path the key comes down to what follows the path. */
  lemma KeysByTail(a: Request, b: Request)
    requires ColonFreePath(a) && ColonFreePath(b)
    ensures HttpRequestKey(a) == HttpRequestKey(b) <==>
      ToUpper(a.verb) == ToUpper(b.verb) && NormalizePath(a.pathname) == NormalizePath(b.pathname) && Tail(a) == Tail(b)
  {
    KeysCoincideExactlyWhen(a, b);
    NotShifted(NormalizePath(a.pathname), Tail(a), NormalizePath(b.pathname), Tail(b));
  }

  /** Two requests that both have a user, or both have none, share a key exactly when they agree on method, path,
      printed parameters and user, whatever the parameters hold: the last colon sets the user apart. Parameter maps
      free of `&` and `=` print alike only when they are the same. */
  lemma KeyIsCanonical(a: Request, b: Request)
    requires ColonFree(a) && ColonFree(b) && (UserPart(a.userId) == "" <==> UserPart(b.userId) == "")
    ensures HttpRequestKey(a) == HttpRequestKey(b) <==>
      && ToUpper(a.verb) == ToUpper(b.verb)
      && NormalizePath(a.pathname) == NormalizePath(b.pathname)
      && NormalizeQueryParams(a.params) == NormalizeQueryParams(b.params)
      && UserPart(a.userId) == UserPart(b.userId)
    ensures ParamMap(a.params) && ParamMap(b.params) ==>
      (NormalizeQueryParams(a.params) == NormalizeQueryParams(b.params) <==> forall q :: q in a.params <==> q in b.params)
  {
    hide ToUpper, NormalizePath, NormalizeQueryParams, HttpRequestKey;
    KeysByTail(a, b);
    if ParamMap(a.params) && ParamMap(b.params) {
      SameStringSameParameters(a.params, b.params);
    }
    var p, q := NormalizeQueryParams(a.params), NormalizeQueryParams(b.params);
    if UserPart(a.userId) == "" {
      assert p + "" == p && q + "" == q;
    } else if Tail(a) == Tail(b) {
      var u, v := a.userId.value, b.userId.value;
      assert p + (":user:" + u) == (p + ":user") + ":" + u && q + (":user:" + v) == (q + ":user") + ":" + v;
      LastPart(p + ":user", u, q + ":user", v, ':');
      assert (p + ":user")[..|p|] == p && (q + ":user")[..|q|] == q;
    }
  }

  // ---------- A request without a user against one with a user ----------

  /** The parameters with something added to the last value. */
  function Extended(params: seq<Pair>, suffix: string): seq<Pair>
    requires params != []
  {
    var n := |params| - 1;
    params[..n] + [(params[n].0, params[n].1 + suffix)]
  }

  predicate Separable(suffix: string) {
    FreeOf(suffix, '&') && FreeOf(suffix, '=')
  }

  lemma {:induction false} JoinExtends(parts: seq<string>, suffix: string, sep: char)
    requires parts != []
    ensures var n := |parts| - 1; Join(parts[..n] + [parts[n] + suffix], sep) == Join(parts, sep) + suffix
  {
    var n := |parts| - 1;
    var longer := parts[..n] + [parts[n] + suffix];
    if n > 0 {
      JoinExtends(parts[1..], suffix, sep);
      assert longer[1..] == parts[1..][..n - 1] + [parts[1..][n - 1] + suffix];
      assert longer[0] == parts[0];
      assert parts[0] + [sep] + (Join(parts[1..], sep) + suffix) == (parts[0] + [sep] + Join(parts[1..], sep)) + suffix;
    }
  }

  lemma PrintExtended(params: seq<Pair>, suffix: string)
    requires params != []
    ensures Join(PrintAll(Extended(params, suffix)), '&') == Join(PrintAll(params), '&') + suffix
  {
    var n := |params| - 1;
    var p := params[n];
    assert p.0 + "=" + (p.1 + suffix) == (p.0 + "=" + p.1) + suffix;
    assert PrintAll(Extended(params, suffix)) == PrintAll(params)[..n] + [PrintAll(params)[n] + suffix];
    JoinExtends(PrintAll(params), suffix, '&');
  }

  lemma SortedIsSorted(params: seq<Pair>)
    requires Ascending(params)
    ensures DistinctNames(params) && SortByName(params) == params
  {
    forall i, j | 0 <= i < j < |params| ensures params[i].0 != params[j].0 {
      LexTotal(params[i].0, params[i].0);
    }
    SortByNameSorts(params);
    AscendingUnique(SortByName(params), params);
  }

  lemma ExtendedIsParamMap(params: seq<Pair>, suffix: string)
    requires ParamMap(params) && Ascending(params) && params != [] && Separable(suffix)
    ensures ParamMap(Extended(params, suffix)) && Ascending(Extended(params, suffix))
    ensures NormalizeQueryParams(Extended(params, suffix)) == NormalizeQueryParams(params) + suffix
  {
    SortedIsSorted(params);
    SortedIsSorted(Extended(params, suffix));
    PrintExtended(params, suffix);
  }

  /** Sorting keeps the parameters and their shape. */
  lemma SortedParamMap(params: seq<Pair>)
    requires ParamMap(params)
    ensures ParamMap(SortByName(params)) && Ascending(SortByName(params)) && (params == [] <==> SortByName(params) == [])
    ensures NormalizeQueryParams(SortByName(params)) == NormalizeQueryParams(params)
  {
    SortByNameSorts(params);
    var sorted := SortByName(params);
    forall i | 0 <= i < |sorted| ensures sorted[i] in params {
      assert sorted[i] in sorted;
    }
    SortedIsSorted(sorted);
    if params != [] {
      assert params[0] in sorted;
    }
  }

  /** No parameters print as a user part: theirs would hold an `=`. */
  lemma NothingPrintsAsUser(params: seq<Pair>, suffix: string)
    requires ParamMap(params) && Separable(suffix) && suffix != ""
    ensures NormalizeQueryParams(params) != suffix
  {
    SortedParamMap(params);
    var sorted := SortByName(params);
    if sorted != [] {
      var printed := PrintAll(sorted);
      forall i | 0 <= i < |printed| ensures FreeOf(printed[i], '&') {
      }
      SplitJoin(printed, '&');
      SplitPrefix(suffix, "", '&');
      assert '=' in printed[0] by {
        assert printed[0][|sorted[0].0|] == '=';
      }
    }
  }

  /** A request without a user shares its key with one of user `u` if and only if they agree on method and path
      and its parameters are the other's with `:user:` and `u` added to the value that is printed last. */
  lemma AnonymousKeyCoincidesExactlyWhen(a: Request, b: Request)
    requires ColonFreePath(a) && ColonFreePath(b) && ParamMap(a.params) && ParamMap(b.params)
    requires UserPart(a.userId) == "" && UserPart(b.userId) != "" && Separable(b.userId.value)
    ensures HttpRequestKey(a) == HttpRequestKey(b) <==>
      && ToUpper(a.verb) == ToUpper(b.verb)
      && NormalizePath(a.pathname) == NormalizePath(b.pathname)
      && SortByName(b.params) != []
      && (forall q :: q in a.params <==> q in Extended(SortByName(b.params), UserPart(b.userId)))
  {
    hide ToUpper, NormalizePath, NormalizeQueryParams, HttpRequestKey, SortByName, Extended;
    KeysByTail(a, b);
    var p, q, user := NormalizeQueryParams(a.params), NormalizeQueryParams(b.params), UserPart(b.userId);
    assert Tail(a) == p && Tail(b) == q + user;
    assert Separable(user);
    var sorted := SortByName(b.params);
    SortedParamMap(b.params);
    if sorted == [] {
      EmptyPrints();
      assert q + user == user;
      NothingPrintsAsUser(a.params, user);
    } else {
      ExtendedIsParamMap(sorted, user);
      SameStringSameParameters(a.params, Extended(sorted, user));
    }
  }

  lemma EmptyPrints()
    ensures NormalizeQueryParams([]) == ""
  {
  }

  /** For any user id at all: some request of user `u` has its key if and only if its parameters print as some
      parameter map followed by `:user:` and `u`. */
  lemma SomeUserSharesByPrint(a: Request, u: string)
    requires ColonFreePath(a) && UserPart(a.userId) == "" && u != ""
    ensures (exists b: Request :: b.userId == Some(u) && ColonFreePath(b) && ParamMap(b.params) && HttpRequestKey(a) == HttpRequestKey(b)) <==>
      (exists p :: ParamMap(p) && NormalizeQueryParams(a.params) == NormalizeQueryParams(p) + (":user:" + u))
  {
    hide ToUpper, NormalizePath, NormalizeQueryParams, HttpRequestKey;
    assert Tail(a) == NormalizeQueryParams(a.params);
    if b: Request :| b.userId == Some(u) && ColonFreePath(b) && ParamMap(b.params) && HttpRequestKey(a) == HttpRequestKey(b) {
      KeysByTail(a, b);
    }
    if p :| ParamMap(p) && NormalizeQueryParams(a.params) == NormalizeQueryParams(p) + (":user:" + u) {
      var b := Request(a.verb, a.pathname, p, Some(u));
      KeysByTail(a, b);
      assert b.userId == Some(u) && ColonFreePath(b) && ParamMap(b.params) && HttpRequestKey(a) == HttpRequestKey(b);
    }
  }

  /** When the id holds neither `&` nor `=`: if and only if the value printed last ends in `:user:` and `u`. */
  lemma SomeUserSharesExactlyWhen(a: Request, u: string)
    requires ColonFreePath(a) && ParamMap(a.params) && UserPart(a.userId) == "" && u != "" && Separable(u)
    ensures (exists b: Request :: b.userId == Some(u) && ColonFreePath(b) && ParamMap(b.params) && HttpRequestKey(a) == HttpRequestKey(b)) <==>
      var sorted := SortByName(a.params);
      sorted != [] && EndsWith(sorted[|sorted| - 1].1, ":user:" + u)
  {
    hide ToUpper, NormalizePath, NormalizeQueryParams, HttpRequestKey, SortByName, Extended, ParamMap, ShortenedBy;
    SortedParamMap(a.params);
    var sorted := SortByName(a.params);
    var n := |sorted| - 1;
    var user := ":user:" + u;
    if b: Request :| b.userId == Some(u) && ColonFreePath(b) && ParamMap(b.params) && HttpRequestKey(a) == HttpRequestKey(b) {
      AnonymousKeyCoincidesExactlyWhen(a, b);
      SharedIsExtended(a, b, user);
    }
    if sorted != [] && EndsWith(sorted[n].1, user) {
      var b := Shortened(a, u);
      ShortenedShares(a, u);
      assert b.userId == Some(u) && ColonFreePath(b) && ParamMap(b.params) && HttpRequestKey(a) == HttpRequestKey(b);
    }
  }

  lemma SharedIsExtended(a: Request, b: Request, suffix: string)
    requires ParamMap(a.params) && ParamMap(b.params) && Separable(suffix) && SortByName(b.params) != []
    requires forall q :: q in a.params <==> q in Extended(SortByName(b.params), suffix)
    ensures var sorted := SortByName(a.params); sorted != [] && EndsWith(sorted[|sorted| - 1].1, suffix)
  {
    SortedParamMap(b.params);
    ExtendedIsParamMap(SortByName(b.params), suffix);
    SortByNameSorts(a.params);
    AscendingUnique(SortByName(a.params), Extended(SortByName(b.params), suffix));
  }

  /** The parameters with something taken off the last value. */
  function ShortenedBy(params: seq<Pair>, suffix: string): seq<Pair>
    requires params != [] && EndsWith(params[|params| - 1].1, suffix)
  {
    var p := params[|params| - 1];
    params[..|params| - 1] + [(p.0, p.1[..|p.1| - |suffix|])]
  }

  lemma ShortenedIsParamMap(params: seq<Pair>, suffix: string)
    requires ParamMap(params) && Ascending(params) && params != [] && EndsWith(params[|params| - 1].1, suffix)
    ensures ShortenedBy(params, suffix) != [] && Ascending(ShortenedBy(params, suffix)) && ParamMap(ShortenedBy(params, suffix))
    ensures Extended(ShortenedBy(params, suffix), suffix) == params
  {
    var p, n := params[|params| - 1], |params| - 1;
    assert p.1 == p.1[..|p.1| - |suffix|] + suffix;
  }

  function Shortened(a: Request, u: string): Request
    requires var sorted := SortByName(a.params); sorted != [] && EndsWith(sorted[|sorted| - 1].1, ":user:" + u)
  {
    Request(a.verb, a.pathname, ShortenedBy(SortByName(a.params), ":user:" + u), Some(u))
  }

  lemma ShortenedShares(a: Request, u: string)
    requires ColonFreePath(a) && ParamMap(a.params) && UserPart(a.userId) == "" && u != "" && Separable(u)
    requires var sorted := SortByName(a.params); sorted != [] && EndsWith(sorted[|sorted| - 1].1, ":user:" + u)
    ensures ColonFreePath(Shortened(a, u)) && ParamMap(Shortened(a, u).params)
    ensures HttpRequestKey(a) == HttpRequestKey(Shortened(a, u))
  {
    hide NormalizeQueryParams, NormalizePath, ToUpper, SortByName, HttpRequestKey, Ascending, ParamMap, ShortenedBy, EndsWith;
    var user := ":user:" + u;
    SortedParamMap(a.params);
    ShortenedIsParamMap(SortByName(a.params), user);
    var b := Shortened(a, u);
    assert UserPart(b.userId) == user && Separable(user);
    ExtendedIsParamMap(b.params, user);
    assert NormalizeQueryParams(a.params) + "" == NormalizeQueryParams(a.params);
    KeysByTail(a, b);
  }

  // ---------- Cacheability and time-to-live ----------

  const NON_CACHEABLE: seq<string> := [
    "/atomic-enrollment", "/auth/login", "/auth/logout", "/auth/register",
    "/health", "/metrics", "/monitoring", "/queue", "/debug", "/load-test",
    "/jobs/", "/stream", "/sse", "/websocket",
    "/stats", "/status", "/current", "/now", "/timestamp"]

  const STATIC_PATTERNS: seq<string> := [
    "/courses", "/programs", "/degree-program", "/study-plan", "/prerequisite", "/levels", "/classrooms", "/facilities"]

  const MEDIUM_PATTERNS: seq<string> := [
    "/students", "/teachers", "/grades", "/schedules", "/calendar", "/terms"]

  const DYNAMIC_PATTERNS: seq<string> := [
    "/enrollment", "/assessments", "/recent", "/activity", "/notifications"]

  predicate MatchesAny(urlLower: string, patterns: seq<string>) {
    exists i :: 0 <= i < |patterns| && Includes(urlLower, patterns[i])
  }

  predicate IsCacheable(verb: string, url: string) {
    ToUpper(verb) == "GET" && !MatchesAny(ToLower(url), NON_CACHEABLE)
  }

  const MINUTE: int := 60 * 1000

  function TtlFor(url: string): (ttl: int)
    ensures MINUTE <= ttl <= 15 * MINUTE
  {
    var u := ToLower(url);
    if MatchesAny(u, STATIC_PATTERNS) then 15 * MINUTE
    else if MatchesAny(u, MEDIUM_PATTERNS) then 5 * MINUTE
    else if MatchesAny(u, DYNAMIC_PATTERNS) then 1 * MINUTE
    else 5 * MINUTE
  }

  /** CacheKeyBuilder.forHttpRequest; `url` is the unparsed url. */
  function ForHttpRequest(url: string, r: Request): Option<string> {
    if IsCacheable(r.verb, url) then Some(HttpRequestKey(r)) else None
  }

  // ---------- What that comes down to ----------

  ghost predicate HasAny(s: string, parts: seq<string>) {
    exists part :: part in parts && HasSlice(s, part)
  }

  lemma MatchesAnyExactlyWhen(s: string, parts: seq<string>)
    ensures MatchesAny(s, parts) <==> HasAny(s, parts)
  {
    forall part ensures Includes(s, part) <==> HasSlice(s, part) {
      IncludesExactlyWhen(s, part);
    }
    hide Includes, HasSlice;
    if MatchesAny(s, parts) {
      var i :| 0 <= i < |parts| && Includes(s, parts[i]);
      assert parts[i] in parts;
    }
  }

  /** A GET, in any case, whose url holds none of these texts, in any case. */
  ghost predicate PlainGet(verb: string, url: string) {
    SameButCase(verb, "GET") && !HasAny(ToLower(url), [
      "/atomic-enrollment", "/auth/login", "/auth/logout", "/auth/register",
      "/health", "/metrics", "/monitoring", "/queue", "/debug", "/load-test",
      "/jobs/", "/stream", "/sse", "/websocket",
      "/stats", "/status", "/current", "/now", "/timestamp"])
  }

  lemma CacheableExactlyWhen(verb: string, url: string)
    ensures IsCacheable(verb, url) <==> PlainGet(verb, url)
  {
    UpperCaseIs(verb, "GET");
    assert ToUpper("GET") == "GET";
    MatchesAnyExactlyWhen(ToLower(url), NON_CACHEABLE);
    hide ToUpper, ToLower, HasAny, MatchesAny, SameButCase;
  }

  /** How long an answer is kept: a quarter of an hour for what rarely changes, a minute for what often does, and five
      minutes otherwise; what holds texts of two kinds goes by the first. */
  lemma TtlFollowsUrl(url: string)
    ensures var u := ToLower(url);
      TtlFor(url) ==
        if HasAny(u, ["/courses", "/programs", "/degree-program", "/study-plan", "/prerequisite", "/levels", "/classrooms",
                      "/facilities"]) then 900000
        else if HasAny(u, ["/students", "/teachers", "/grades", "/schedules", "/calendar", "/terms"]) then 300000
        else if HasAny(u, ["/enrollment", "/assessments", "/recent", "/activity", "/notifications"]) then 60000
        else 300000
  {
    var u := ToLower(url);
    MatchesAnyExactlyWhen(u, STATIC_PATTERNS);
    MatchesAnyExactlyWhen(u, MEDIUM_PATTERNS);
    MatchesAnyExactlyWhen(u, DYNAMIC_PATTERNS);
    hide ToLower, HasAny, MatchesAny;
  }

  /** A text with one slash, in front, holds no text that begins with a slash and goes on otherwise. */
  lemma OtherSlice(s: string, part: string, i: nat)
    requires s != "" && (forall k :: 1 <= k < |s| ==> s[k] != '/') && i < |part| && part[0] == '/'
    requires i < |s| ==> part[i] != s[i]
    ensures !HasSlice(s, part)
  {
    forall before, after ensures s != before + part + after {
      var t := before + part + after;
      assert t[|before|] == part[0];
      if before == "" {
        assert t[i] == part[i];
      }
    }
  }

  /** Reading is cached and writing is not, and a login is not even when it is a GET. */
  lemma ReadingIsCached()
    ensures PlainGet("GET", "/courses") && PlainGet("get", "/Courses")
    ensures !PlainGet("POST", "/enrollments") && !PlainGet("POST", "/courses")
    ensures !PlainGet("GET", "/auth/login") && !PlainGet("GET", "/AUTH/LOGIN")
  {
    NoneInCourses();
    CoursesInCase();
    assert "/auth/login" == "" + "/auth/login" + "";
    assert HasSlice("/auth/login", "/auth/login");
    LoginInCase();
    assert |"POST"| != |"GET"|;
  }

  lemma NoneInCourses()
    ensures !HasAny("/courses", NON_CACHEABLE)
  {
    hide HasSlice, Beside;
    AllBeside();
    forall part | Beside(part) ensures !HasSlice("/courses", part) {
      NotInCourses(part);
    }
  }

  /** Begins with a slash, but not as "/courses" does. */
  predicate Beside(part: string) {
    |part| > 2 && part[0] == '/' && (part[1] != 'c' || part[2] != 'o')
  }

  lemma AllBeside()
    ensures forall part :: part in NON_CACHEABLE ==> Beside(part)
  {
    assert Beside("/atomic-enrollment");
    assert Beside("/auth/login");
    assert Beside("/auth/logout");
    assert Beside("/auth/register");
    assert Beside("/health");
    assert Beside("/metrics");
    assert Beside("/monitoring");
    assert Beside("/queue");
    assert Beside("/debug");
    assert Beside("/load-test");
    assert Beside("/jobs/");
    assert Beside("/stream");
    assert Beside("/sse");
    assert Beside("/websocket");
    assert Beside("/stats");
    assert Beside("/status");
    assert Beside("/current");
    assert Beside("/now");
    assert Beside("/timestamp");
    hide Beside;
  }

  lemma NotInCourses(part: string)
    requires Beside(part)
    ensures !HasSlice("/courses", part)
  {
    OtherSlice("/courses", part, if part[1] == 'c' then 2 else 1);
  }

  lemma CoursesInCase()
    ensures ToLower("/courses") == "/courses" && ToLower("/Courses") == "/courses" && SameButCase("get", "GET")
    ensures SameButCase("GET", "GET")
  {
    UpperCaseIs("get", "GET");
    assert ToUpper("get") == "GET" == ToUpper("GET");
  }

  lemma LoginInCase()
    ensures ToLower("/auth/login") == "/auth/login" && ToLower("/AUTH/LOGIN") == "/auth/login"
  {
  }

  // ---------- Paths ----------

  /** The path without one closing slash, unless it is the root. */
  ghost predicate Unslashed(path: string, bare: string) {
    if exists stem :: stem != "" && path == stem + "/" then path == bare + "/" else bare == path
  }

  lemma PathWithoutSlash(path: string) returns (bare: string)
    ensures Unslashed(path, bare) && NormalizePath(path) == ToLower(bare)
  {
    if EndsWith(path, "/") && |path| > 1 {
      bare := path[..|path| - 1];
      assert path == bare + "/" && bare != "";
    } else {
      bare := path;
      EndsWithExactlyWhen(path, "/");
    }
  }

  /** Two paths make one key part exactly when they are the same up to case and a closing slash. */
  lemma PathsAlikeExactlyWhen(a: string, b: string)
    ensures NormalizePath(a) == NormalizePath(b) <==>
      exists x, y :: Unslashed(a, x) && Unslashed(b, y) && SameButCase(x, y)
  {
    var x := PathWithoutSlash(a);
    var y := PathWithoutSlash(b);
    LowerCaseIs(x, y);
    hide ToLower, SameButCase, NormalizePath;
    if u, v :| Unslashed(a, u) && Unslashed(b, v) && SameButCase(u, v) {
      UnslashedUnique(a, x, u);
      UnslashedUnique(b, y, v);
    }
  }

  lemma UnslashedUnique(path: string, x: string, y: string)
    requires Unslashed(path, x) && Unslashed(path, y)
    ensures x == y
  {
    if path == x + "/" && path == y + "/" {
      assert x == path[..|path| - 1] && y == path[..|path| - 1];
    }
  }
}
