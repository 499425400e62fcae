/** RequestRoutingService: matching a request against route templates, whatever the table. */
module RouteMatching {
  import opened Options
  import opened Strings

  datatype Route = Route(verb: string, template: seq<string>, pattern: string)

  /** The template as the table writes it. */
  function PathOf(r: Route): string {
    "/" + Join(r.template, '/')
  }

  // ---------- Paths ----------

  function NonEmpty(parts: seq<string>): seq<string> {
    if parts == [] then [] else (if parts[0] == "" then [] else [parts[0]]) + NonEmpty(parts[1..])
  }

  /** split('/').filter(Boolean). */
  function Segments(path: string): seq<string> {
    NonEmpty(Split(path, '/'))
  }

  function Before(s: string, c: char): string {
    if s == "" || s[0] == c then "" else [s[0]] + Before(s[1..], c)
  }

  function StripSlashes(s: string): string {
    if s != "" && s[|s| - 1] == '/' then StripSlashes(s[..|s| - 1]) else s
  }

  function NormalizePath(url: string): string {
    var purePath := Before(url, '?');
    if !StartsWith(purePath, "/") then "/" + purePath
    else if StripSlashes(purePath) == "" then "/"
    else StripSlashes(purePath)
  }

  lemma {:induction false} SplitConcat(a: string, b: string, sep: char)
    ensures Split(a + [sep] + b, sep) == Split(a, sep) + Split(b, sep)
  {
    var s := a + [sep] + b;
    if a == "" {
      assert s == [sep] + b && s[1..] == b;
    } else {
      SplitConcat(a[1..], b, sep);
      assert s[0] == a[0] && s[1..] == a[1..] + [sep] + b;
      var front, back := Split(a[1..], sep), Split(b, sep);
      hide Split;
      SplitStep(s, sep);
      SplitStep(a, sep);
      Extend(front, back, a[0]);
    }
  }

  lemma SplitStep(s: string, sep: char)
    requires s != ""
    ensures var rest := Split(s[1..], sep);
      rest != [] && Split(s, sep) == if s[0] == sep then [""] + rest else [[s[0]] + rest[0]] + rest[1..]
  {
  }

  lemma Extend(front: seq<string>, back: seq<string>, c: char)
    requires front != []
    ensures [[c] + (front + back)[0]] + (front + back)[1..] == ([[c] + front[0]] + front[1..]) + back
    ensures [""] + (front + back) == ([""] + front) + back
  {
  }

  lemma {:induction false} NonEmptyConcat(a: seq<string>, b: seq<string>)
    ensures NonEmpty(a + b) == NonEmpty(a) + NonEmpty(b)
  {
    if a == [] {
      assert a + b == b;
    } else {
      var first := if a[0] == "" then [] else [a[0]];
      calc {
        NonEmpty(a + b);
        { assert (a + b)[0] == a[0] && (a + b)[1..] == a[1..] + b; }
        first + NonEmpty(a[1..] + b);
        { NonEmptyConcat(a[1..], b); }
        first + (NonEmpty(a[1..]) + NonEmpty(b));
        (first + NonEmpty(a[1..])) + NonEmpty(b);
        NonEmpty(a) + NonEmpty(b);
      }
    }
  }

  lemma SegmentsConcat(a: string, b: string)
    ensures Segments(a + "/" + b) == Segments(a) + Segments(b)
  {
    SplitConcat(a, b, '/');
    NonEmptyConcat(Split(a, '/'), Split(b, '/'));
  }

  lemma {:induction false} StrippedSegments(s: string)
    ensures Segments(StripSlashes(s)) == Segments(s)
    decreases |s|
  {
    if s != "" && s[|s| - 1] == '/' {
      var q := s[..|s| - 1];
      StrippedSegments(q);
      SegmentsConcat(q, "");
      assert s == q + "/" + "";
      assert Segments("") == [];
    }
  }

  /** Normalising keeps the non-empty segments before the query string, and nothing else matters. */
  lemma NormalizedSegments(url: string)
    ensures Segments(NormalizePath(url)) == Segments(Before(url, '?'))
  {
    var purePath := Before(url, '?');
    SegmentsConcat("", purePath);
    SegmentsConcat("", "");
    assert "" + "/" + purePath == "/" + purePath && "" + "/" + "" == "/";
    assert Segments("") == [];
    StrippedSegments(purePath);
  }

  ghost predicate AllSlashes(s: string) {
    forall c :: c in s ==> c == '/'
  }

  lemma {:induction false} StripSlashesIs(s: string) returns (tail: string)
    ensures s == StripSlashes(s) + tail && AllSlashes(tail)
    ensures StripSlashes(s) != "" ==> StripSlashes(s)[|StripSlashes(s)| - 1] != '/'
  {
    if s != "" && s[|s| - 1] == '/' {
      tail := StripSlashesIs(s[..|s| - 1]);
      tail := tail + "/";
      assert s == StripSlashes(s) + tail;
    } else {
      tail := "";
    }
  }

  lemma StrippedIs(s: string)
    ensures AllSlashes(s) ==> StripSlashes(s) == ""
    ensures !AllSlashes(s) ==>
              StripSlashes(s) != "" && StripSlashes(s)[|StripSlashes(s)| - 1] != '/' &&
              exists tail :: s == StripSlashes(s) + tail && AllSlashes(tail)
  {
    var tail := StripSlashesIs(s);
    if StripSlashes(s) != "" {
      var last := |StripSlashes(s)| - 1;
      assert s[last] == StripSlashes(s)[last] && s[last] in s;
    }
  }

  /** What is before the query, with a slash in front if it has none, and otherwise without those at its end, the root
      keeping one. */
  lemma NormalPathIs(url: string)
    ensures var pure, path := Before(url, '?'), NormalizePath(url);
      if pure == "" || pure[0] != '/' then path == "/" + pure
      else if AllSlashes(pure) then path == "/"
      else path[|path| - 1] != '/' && exists tail :: pure == path + tail && AllSlashes(tail)
  {
    hide StripSlashes, Before;
    StrippedIs(Before(url, '?'));
  }

  /** A segment is what stands between slashes, if that is not empty. */
  lemma SegmentsAre(part: string, rest: string)
    requires FreeOf(part, '/')
    ensures Segments(part) == if part == "" then [] else [part]
    ensures Segments(part + "/" + rest) == (if part == "" then [] else [part]) + Segments(rest)
  {
    SplitPrefix(part, "", '/');
    assert [part][1..] == [] && NonEmpty([]) == [];
    SegmentsConcat(part, rest);
  }

  /** What is before a character: everything up to the first, or all when there is none. */
  lemma {:induction false} BeforeIs(a: string, b: string, c: char)
    requires FreeOf(a, c)
    ensures Before(a, c) == a && Before(a + [c] + b, c) == a
  {
    if a != "" {
      BeforeIs(a[1..], b, c);
      assert (a + [c] + b)[1..] == a[1..] + [c] + b;
      assert a == [a[0]] + a[1..];
    }
  }

  // ---------- Matching ----------

  predicate Wild(segment: string) {
    StartsWith(segment, ":") || segment == "*"
  }

  predicate Fits(template: seq<string>, actual: seq<string>) {
    |template| == |actual| && forall i :: 0 <= i < |template| ==> Wild(template[i]) || template[i] == actual[i]
  }

  /** A template segment that is a star, or begins with a colon, takes any segment; any other takes itself alone. */
  ghost predicate Accepts(segment: string, actual: string) {
    segment == "*" || (segment != "" && segment[0] == ':') || segment == actual
  }

  lemma FitsExactlyWhen(template: seq<string>, actual: seq<string>)
    ensures Fits(template, actual) <==> |template| == |actual| && forall i :: 0 <= i < |template| ==> Accepts(template[i], actual[i])
  {
    forall segment ensures Wild(segment) <==> segment == "*" || (segment != "" && segment[0] == ':') {
    }
    hide StartsWith;
  }

  /** The shortcut for equal strings decides nothing that the segments would not. */
  method MatchPath(template: string, actual: string) returns (matches: bool)
    ensures matches <==> Fits(Segments(template), Segments(actual))
    ensures var t, a := Segments(template), Segments(actual);
      matches <==> |t| == |a| && forall i :: 0 <= i < |t| ==> Accepts(t[i], a[i])
  {
    FitsExactlyWhen(Segments(template), Segments(actual));
    hide Segments, StartsWith, Accepts;
    if template == actual {
      return true;
    }
    var templateSegments, actualSegments := Segments(template), Segments(actual);
    if |templateSegments| != |actualSegments| {
      return false;
    }
    for i := 0 to |templateSegments|
      invariant forall k :: 0 <= k < i ==> Wild(templateSegments[k]) || templateSegments[k] == actualSegments[k]
    {
      if StartsWith(templateSegments[i], ":") {
        continue;
      }
      if templateSegments[i] == "*" {
        continue;
      }
      if templateSegments[i] != actualSegments[i] {
        return false;
      }
    }
    return true;
  }

  /** A template written with proper segments is read back as those. */
  lemma {:induction false} TemplateSegments(r: Route)
    requires forall i :: 0 <= i < |r.template| ==> Proper(r.template[i])
    ensures Segments(PathOf(r)) == r.template
  {
    var path := Join(r.template, '/');
    SegmentsConcat("", path);
    assert "" + "/" + path == PathOf(r);
    assert Segments("") == [];
    if r.template != [] {
      SplitJoin(r.template, '/');
      NothingEmpty(r.template);
    }
  }

  lemma {:induction false} NothingEmpty(parts: seq<string>)
    requires forall i :: 0 <= i < |parts| ==> parts[i] != ""
    ensures NonEmpty(parts) == parts
  {
    if parts != [] {
      NothingEmpty(parts[1..]);
    }
  }

  // ---------- Resolving ----------

  predicate Matches(r: Route, verb: string, url: string) {
    r.verb == ToUpper(verb) && Fits(Segments(PathOf(r)), Segments(Before(url, '?')))
  }

  datatype Resolution<P> = Resolution(pattern: string, completionEvent: string, payload: P)

  function FirstMatch(routes: seq<Route>, verb: string, url: string): Option<Route> {
    if routes == [] then None
    else if Matches(routes[0], verb, url) then Some(routes[0])
    else FirstMatch(routes[1..], verb, url)
  }

  /** A payload that cannot be built, for want of a parameter, say, ends the search: no later route is tried. */
  function Resolved<P>(routes: seq<Route>, verb: string, url: string, payload: Route -> Option<P>): Option<Resolution<P>> {
    var chosen := FirstMatch(routes, verb, url);
    if chosen.None? || payload(chosen.value).None? then None
    else Some(Resolution(chosen.value.pattern, chosen.value.pattern + ".completed", payload(chosen.value).value))
  }

  method Resolve<P>(routes: seq<Route>, verb: string, url: string, payload: Route -> Option<P>)
    returns (resolution: Option<Resolution<P>>)
    ensures resolution == Resolved(routes, verb, url, payload)
  {
    var upper := ToUpper(verb);
    var path := NormalizePath(url);
    NormalizedSegments(url);
    for i := 0 to |routes|
      invariant FirstMatch(routes, verb, url) == FirstMatch(routes[i..], verb, url)
    {
      var route := routes[i];
      assert routes[i..][0] == route && routes[i..][1..] == routes[i + 1..];
      if route.verb != upper {
        continue;
      }
      var matches := MatchPath(PathOf(route), path);
      if !matches {
        continue;
      }
      var built := payload(route);
      if built.None? {
        return None;
      }
      return Some(Resolution(route.pattern, route.pattern + ".completed", built.value));
    }
    return None;
  }

  /** A route takes a request with its method, in any case, whose segments before the query fit its template. */
  ghost predicate TakesRequest(r: Route, verb: string, url: string) {
    && r.verb == ToUpper(verb)
    && var t, a := Segments(PathOf(r)), Segments(Before(url, '?'));
       |t| == |a| && forall i :: 0 <= i < |t| ==> Accepts(t[i], a[i])
  }

  lemma MatchesExactlyWhen(r: Route, verb: string, url: string)
    ensures Matches(r, verb, url) <==> TakesRequest(r, verb, url)
  {
    FitsExactlyWhen(Segments(PathOf(r)), Segments(Before(url, '?')));
    hide Segments, PathOf, Before, Fits, Accepts, ToUpper;
  }

  /** Position i holds the first route that takes the request. */
  ghost predicate IsFirst(routes: seq<Route>, verb: string, url: string, i: nat) {
    i < |routes| && TakesRequest(routes[i], verb, url) && forall k :: 0 <= k < i ==> !TakesRequest(routes[k], verb, url)
  }

  lemma {:induction false} FirstMatchIsFirst(routes: seq<Route>, verb: string, url: string)
    ensures var chosen := FirstMatch(routes, verb, url);
      if chosen.Some? then exists i: nat :: IsFirst(routes, verb, url, i) && chosen.value == routes[i]
      else forall i :: 0 <= i < |routes| ==> !TakesRequest(routes[i], verb, url)
  {
    if routes != [] {
      FirstMatchIsFirst(routes[1..], verb, url);
      MatchesExactlyWhen(routes[0], verb, url);
      hide TakesRequest, Matches;
      var chosen := FirstMatch(routes[1..], verb, url);
      if TakesRequest(routes[0], verb, url) {
        assert IsFirst(routes, verb, url, 0);
      } else if chosen.Some? {
        var i: nat :| IsFirst(routes[1..], verb, url, i) && chosen.value == routes[1..][i];
        assert forall k :: 0 < k < |routes| ==> routes[k] == routes[1..][k - 1];
        assert IsFirst(routes, verb, url, i + 1);
      } else {
        assert forall k :: 0 < k < |routes| ==> routes[k] == routes[1..][k - 1];
      }
    }
  }

  /** What a request resolves to: the pattern of the first route that takes it, that with ".completed" as the event of
      completion, and the payload built for it; nothing when no route takes it or that payload cannot be built. */
  lemma ResolvedIs<P>(routes: seq<Route>, verb: string, url: string, payload: Route -> Option<P>)
    ensures var resolution := Resolved(routes, verb, url, payload);
      if resolution.Some? then
        exists i: nat :: IsFirst(routes, verb, url, i) && payload(routes[i]) == Some(resolution.value.payload)
          && resolution.value.pattern == routes[i].pattern
          && resolution.value.completionEvent == routes[i].pattern + ".completed"
      else
        (forall i :: 0 <= i < |routes| ==> !TakesRequest(routes[i], verb, url))
        || exists i: nat :: IsFirst(routes, verb, url, i) && payload(routes[i]) == None
  {
    FirstMatchIsFirst(routes, verb, url);
    hide FirstMatch, TakesRequest;
  }

  /** Two requests are routed alike when they agree on method and on the non-empty segments before '?'. */
  lemma {:induction false} OnlySegmentsCount(routes: seq<Route>, verb: string, url: string, otherVerb: string, otherUrl: string)
    requires ToUpper(verb) == ToUpper(otherVerb) && Segments(Before(url, '?')) == Segments(Before(otherUrl, '?'))
    ensures FirstMatch(routes, verb, url) == FirstMatch(routes, otherVerb, otherUrl)
  {
    if routes != [] {
      OnlySegmentsCount(routes[1..], verb, url, otherVerb, otherUrl);
    }
  }

  // ---------- Overlap ----------

  /** Same length, and no position where two different literals meet. */
  predicate Compatible(a: seq<string>, b: seq<string>) {
    |a| == |b| && forall i :: 0 <= i < |a| ==> Wild(a[i]) || Wild(b[i]) || a[i] == b[i]
  }

  /** Some path fits both templates exactly when they are compatible. */
  lemma OverlapExactlyWhenCompatible(a: seq<string>, b: seq<string>)
    ensures (exists path :: Fits(a, path) && Fits(b, path)) <==> Compatible(a, b)
  {
    if Compatible(a, b) {
      var path := seq(|a|, i requires 0 <= i < |a| => if Wild(a[i]) then b[i] else a[i]);
      assert Fits(a, path) && Fits(b, path);
    }
  }

  /** Of two different routes, no request could take both. */
  ghost predicate Disjoint(routes: seq<Route>) {
    forall r, s :: r in routes && s in routes && r != s && r.verb == s.verb ==> !Compatible(r.template, s.template)
  }

  predicate Proper(segment: string) {
    segment != "" && FreeOf(segment, '/')
  }

  ghost predicate WellFormed(routes: seq<Route>) {
    forall r :: r in routes ==> forall i :: 0 <= i < |r.template| ==> Proper(r.template[i])
  }

  /** At most one route matches. */
  lemma AtMostOneMatches(routes: seq<Route>, verb: string, url: string, r: Route, s: Route)
    requires Disjoint(routes) && WellFormed(routes) && r in routes && s in routes
    requires Matches(r, verb, url) && Matches(s, verb, url)
    ensures r == s
  {
    TemplateSegments(r);
    TemplateSegments(s);
    OverlapExactlyWhenCompatible(r.template, s.template);
  }

  lemma {:induction false} FirstMatchIsAMatch(routes: seq<Route>, verb: string, url: string)
    ensures var chosen := FirstMatch(routes, verb, url);
      if chosen.Some? then chosen.value in routes && Matches(chosen.value, verb, url)
      else forall r :: r in routes ==> !Matches(r, verb, url)
  {
    if routes != [] {
      FirstMatchIsAMatch(routes[1..], verb, url);
    }
  }

  ghost predicate SameRoutes(routes: seq<Route>, rearranged: seq<Route>) {
    forall r :: r in routes <==> r in rearranged
  }

  /** The order of a disjoint table does not matter: any rearrangement routes every request alike. */
  lemma OrderDoesNotMatter(routes: seq<Route>, rearranged: seq<Route>, verb: string, url: string)
    requires Disjoint(routes) && WellFormed(routes)
    requires SameRoutes(routes, rearranged)
    ensures FirstMatch(routes, verb, url) == FirstMatch(rearranged, verb, url)
  {
    FirstMatchIsAMatch(routes, verb, url);
    FirstMatchIsAMatch(rearranged, verb, url);
    var a, b := FirstMatch(routes, verb, url), FirstMatch(rearranged, verb, url);
    if a.Some? && b.Some? {
      AtMostOneMatches(routes, verb, url, a.value, b.value);
    }
  }

  /** And only of a disjoint one: two compatible routes answer differently in the two orders. */
  lemma OverlapMakesOrderMatter(r: Route, s: Route, url: string)
    requires r != s && Matches(r, r.verb, url) && Matches(s, r.verb, url)
    ensures FirstMatch([r, s], r.verb, url) != FirstMatch([s, r], r.verb, url)
  {
  }
}
