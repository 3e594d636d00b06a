/** Route selection: sort by prefix length, take the first match, and what that amounts to. */
module Routing {
  import opened Text
  import opened Config

  datatype Request = Request(host: string, path: string, method_: string, tls: bool)

  datatype CandidateMatch = CandidateMatch(route: Route, service: Service, backends: seq<Backend>)

  // ---- the route predicates ----

  predicate MethodAllowed(methods: seq<string>, method_: string) {
    methods == [] || exists m | m in methods :: EqualFold(m, method_)
  }

  predicate TransportAllowed(r: Route, req: Request) {
    r.tls.mode == "required" ==> req.tls
  }

  predicate Matches(r: Route, req: Request) {
    && EqualFold(Before(req.host, ':'), r.hostname)
    && NormalPrefix(r.pathPrefix) <= req.path
    && MethodAllowed(r.methods, req.method_)
    && TransportAllowed(r, req)
  }

  /** The enabled backends of a service, in the order the service names them. */
  function EnabledBackends(backends: seq<Backend>, ids: seq<string>): seq<Backend> {
    if ids == [] then []
    else
      var front := EnabledBackends(backends, ids[..|ids| - 1]);
      match Find(backends, BackendId, ids[|ids| - 1])
      case None => front
      case Some(b) => if b.enabled then front + [b] else front
  }

  function Candidates(cfg: Config, r: Route): seq<Backend> {
    match Find(cfg.services, ServiceId, r.serviceId)
    case None => []
    case Some(s) => EnabledBackends(cfg.backends, s.backendIds)
  }

  predicate Eligible(cfg: Config, req: Request, r: Route) {
    r.enabled && Matches(r, req) && Candidates(cfg, r) != []
  }

  /** A route is eligible when it is enabled, its host is the request's host up to case and port, its prefix
      (an empty one is "/") begins the path, it allows the method, a route that requires TLS gets it, and its
      service names an enabled backend. */
  lemma EligibleMeans(cfg: Config, req: Request, r: Route)
    requires Distinct(cfg.services, ServiceId) && Distinct(cfg.backends, BackendId)
    ensures Eligible(cfg, req, r) <==>
      && r.enabled
      && (exists host :: IsHostPart(req.host, host) && Lower(host) == Lower(r.hostname))
      && (if r.pathPrefix == "" then "/" else r.pathPrefix) <= req.path
      && (r.methods == [] || exists m | m in r.methods :: Lower(m) == Lower(req.method_))
      && (r.tls.mode == "required" ==> req.tls)
      && exists s, b ::
           && s in cfg.services && s.id == r.serviceId
           && b in cfg.backends && b.enabled && b.id in s.backendIds
  {
    HostPart(req.host);
    forall s
      ensures Find(cfg.services, ServiceId, r.serviceId) == Some(s) <==> s in cfg.services && s.id == r.serviceId
    {
      Found(cfg.services, ServiceId, r.serviceId, s);
    }
    forall s: Service
      ensures EnabledBackends(cfg.backends, s.backendIds) != [] <==>
        exists b :: b in cfg.backends && b.enabled && b.id in s.backendIds
    {
      SomeEnabled(cfg.backends, s.backendIds);
    }
    hide Before, EnabledBackends, Lower;
    assert Candidates(cfg, r) != [] <==> exists s, b ::
      s in cfg.services && s.id == r.serviceId && b in cfg.backends && b.enabled && b.id in s.backendIds;
  }

  /** What precedes the first colon, or the whole. */
  ghost predicate IsHostPart(host: string, part: string) {
    ':' !in part && (host == part || (|part| < |host| && host[..|part|] == part && host[|part|] == ':'))
  }

  lemma HostPart(host: string)
    ensures forall part :: IsHostPart(host, part) <==> part == Before(host, ':')
  {
    forall part
      ensures IsHostPart(host, part) <==> part == Before(host, ':')
    {
      if ':' in host {
        BeforeShorter(host, ':');
      } else {
        BeforeWhole(host, ':');
      }
    }
  }

  lemma BeforeWhole(s: string, c: char)
    requires c !in s
    ensures Before(s, c) == s
  {
    if s != "" {
      BeforeWhole(s[1..], c);
      assert s == [s[0]] + s[1..];
    }
  }

  lemma {:induction false} SomeEnabled(backends: seq<Backend>, ids: seq<string>)
    requires Distinct(backends, BackendId)
    ensures EnabledBackends(backends, ids) != [] <==> exists b :: b in backends && b.enabled && b.id in ids
  {
    if ids != [] {
      var last := ids[|ids| - 1];
      SomeEnabled(backends, ids[..|ids| - 1]);
      assert ids == ids[..|ids| - 1] + [last];
      forall b
        ensures Find(backends, BackendId, last) == Some(b) <==> b in backends && b.id == last
      {
        Found(backends, BackendId, last, b);
      }
    }
  }

  /** The backends of a match are those its service names, in that order and as often, when they are enabled. */
  lemma {:induction false} BackendsInOrder(backends: seq<Backend>, xs: seq<string>, id: string, ys: seq<string>)
    ensures EnabledBackends(backends, xs + ys) == EnabledBackends(backends, xs) + EnabledBackends(backends, ys)
    ensures EnabledBackends(backends, [id]) ==
      match Find(backends, BackendId, id)
      case Some(b) => if b.enabled then [b] else []
      case None => []
    decreases |ys|
  {
    assert [id][..0] == [];
    assert EnabledBackends(backends, [id][..0]) == [];
    if ys == [] {
      assert xs + ys == xs;
    } else {
      var front := ys[..|ys| - 1];
      BackendsInOrder(backends, xs, id, front);
      assert (xs + ys)[..|xs + ys| - 1] == xs + front;
    }
  }

  // ---- the declared answer ----

  /** Route `i` answers the request: eligible, of greatest prefix length, and first in the file among
      those. The length is that of the prefix as written, so an empty prefix ranks below "/". */
  ghost predicate IsAnswer(cfg: Config, req: Request, i: int) {
    && 0 <= i < |cfg.routes| && Eligible(cfg, req, cfg.routes[i])
    && forall j | 0 <= j < |cfg.routes| && Eligible(cfg, req, cfg.routes[j]) ::
         |cfg.routes[j].pathPrefix| < |cfg.routes[i].pathPrefix|
         || (|cfg.routes[j].pathPrefix| == |cfg.routes[i].pathPrefix| && i <= j)
  }

  function Best(cfg: Config, req: Request, routes: seq<Route>): Option<Route> {
    if routes == [] then None
    else
      var front := Best(cfg, req, routes[..|routes| - 1]);
      var last := routes[|routes| - 1];
      if Eligible(cfg, req, last) && (front.None? || |last.pathPrefix| > |front.value.pathPrefix|) then Some(last)
      else front
  }

  lemma EligibleAnywhere(cfg: Config, req: Request, routes: seq<Route>)
    ensures forall r :: Eligible(cfg.(routes := routes), req, r) == Eligible(cfg, req, r)
  {
  }

  lemma {:induction false} BestIs(cfg: Config, req: Request, routes: seq<Route>)
    ensures Best(cfg, req, routes).None? <==> forall r | r in routes :: !Eligible(cfg, req, r)
    ensures Best(cfg, req, routes).Some? ==>
      exists i :: IsAnswer(cfg.(routes := routes), req, i) && Best(cfg, req, routes) == Some(routes[i])
  {
    hide Eligible;
    if routes != [] {
      var front := routes[..|routes| - 1];
      var last := routes[|routes| - 1];
      BestIs(cfg, req, front);
      assert routes == front + [last];
      var all := cfg.(routes := routes);
      EligibleAnywhere(cfg, req, routes);
      EligibleAnywhere(cfg, req, front);
      if Best(cfg, req, routes) == Best(cfg, req, front) && Best(cfg, req, front).Some? {
        var i :| IsAnswer(cfg.(routes := front), req, i) && Best(cfg, req, front) == Some(front[i]);
        assert IsAnswer(all, req, i);
      } else if Best(cfg, req, routes).Some? {
        assert IsAnswer(all, req, |front|);
      }
    }
  }

  lemma AnswerUnique(cfg: Config, req: Request, i: int, j: int)
    requires IsAnswer(cfg, req, i) && IsAnswer(cfg, req, j)
    ensures i == j
  {
  }

  /** The answer as a value: the best route with its service and enabled backends. */
  function Resolve(cfg: Config, req: Request): Option<CandidateMatch> {
    WithCandidates(cfg, Best(cfg, req, cfg.routes))
  }

  function WithCandidates(cfg: Config, route: Option<Route>): Option<CandidateMatch> {
    match route
    case None => None
    case Some(r) =>
      match Find(cfg.services, ServiceId, r.serviceId)
      case None => None
      case Some(s) => Some(CandidateMatch(r, s, EnabledBackends(cfg.backends, s.backendIds)))
  }

  /** Route selection answers with the eligible route of longest prefix, the earliest in the file on
      ties, and with nothing only when no route is eligible. */
  lemma ResolveAnswers(cfg: Config, req: Request)
    ensures Resolve(cfg, req).None? <==> forall r | r in cfg.routes :: !Eligible(cfg, req, r)
    ensures forall i | IsAnswer(cfg, req, i) :: Resolve(cfg, req).Some? && Resolve(cfg, req).value.route == cfg.routes[i]
    ensures Resolve(cfg, req).Some? ==>
      var m := Resolve(cfg, req).value;
      && (exists i :: IsAnswer(cfg, req, i) && cfg.routes[i] == m.route)
      && Find(cfg.services, ServiceId, m.route.serviceId) == Some(m.service)
      && m.backends == EnabledBackends(cfg.backends, m.service.backendIds) != []
  {
    BestIs(cfg, req, cfg.routes);
    if Resolve(cfg, req).Some? {
      var k :| IsAnswer(cfg, req, k) && Best(cfg, req, cfg.routes) == Some(cfg.routes[k]);
      forall i | IsAnswer(cfg, req, i)
        ensures i == k
      {
        AnswerUnique(cfg, req, i, k);
      }
    }
  }

  // ---- sorting by prefix length ----

  function InsertByLength(sorted: seq<Route>, r: Route): seq<Route> {
    if sorted == [] then [r]
    else if |sorted[0].pathPrefix| >= |r.pathPrefix| then [sorted[0]] + InsertByLength(sorted[1..], r)
    else [r] + sorted
  }

  /** A stable sort by descending prefix length. */
  function SortByLength(routes: seq<Route>): seq<Route> {
    if routes == [] then []
    else InsertByLength(SortByLength(routes[..|routes| - 1]), routes[|routes| - 1])
  }

  ghost predicate Descending(routes: seq<Route>) {
    forall i, j | 0 <= i < j < |routes| :: |routes[i].pathPrefix| >= |routes[j].pathPrefix|
  }

  function OfLength(routes: seq<Route>, n: nat): seq<Route> {
    if routes == [] then []
    else if |routes[0].pathPrefix| == n then [routes[0]] + OfLength(routes[1..], n)
    else OfLength(routes[1..], n)
  }

  lemma {:induction false} InsertPermutes(sorted: seq<Route>, r: Route)
    ensures multiset(InsertByLength(sorted, r)) == multiset(sorted) + multiset{r}
  {
    if sorted != [] {
      assert sorted == [sorted[0]] + sorted[1..];
      InsertPermutes(sorted[1..], r);
    }
  }

  lemma {:induction false} InsertDescends(sorted: seq<Route>, r: Route)
    requires Descending(sorted)
    ensures Descending(InsertByLength(sorted, r))
  {
    if sorted != [] && |sorted[0].pathPrefix| >= |r.pathPrefix| {
      var inserted := InsertByLength(sorted[1..], r);
      InsertDescends(sorted[1..], r);
      InsertPermutes(sorted[1..], r);
      forall x | x in inserted
        ensures |sorted[0].pathPrefix| >= |x.pathPrefix|
      {
        assert x in multiset(inserted);
        assert x == r || x in sorted[1..];
      }
    }
  }

  lemma {:induction false} InsertIsStable(sorted: seq<Route>, r: Route, n: nat)
    requires Descending(sorted)
    ensures OfLength(InsertByLength(sorted, r), n) == OfLength(sorted, n) + (if |r.pathPrefix| == n then [r] else [])
  {
    if sorted != [] {
      if |sorted[0].pathPrefix| >= |r.pathPrefix| {
        InsertIsStable(sorted[1..], r, n);
        assert ([sorted[0]] + InsertByLength(sorted[1..], r))[1..] == InsertByLength(sorted[1..], r);
      } else {
        assert ([r] + sorted)[1..] == sorted;
        if |r.pathPrefix| == n {
          NoneOfLength(sorted, n);
        }
      }
    }
  }

  lemma NoneOfLength(routes: seq<Route>, n: nat)
    requires forall r | r in routes :: |r.pathPrefix| != n
    ensures OfLength(routes, n) == []
  {
  }

  lemma {:induction false} OfLengthAppend(a: seq<Route>, r: Route, n: nat)
    ensures OfLength(a + [r], n) == OfLength(a, n) + (if |r.pathPrefix| == n then [r] else [])
  {
    if a != [] {
      assert (a + [r])[1..] == a[1..] + [r];
      OfLengthAppend(a[1..], r, n);
    }
  }

  /** The sort is a permutation, is descending, and keeps the file order of equal lengths: there is
      only one such list. */
  lemma {:induction false} SortIsStable(routes: seq<Route>)
    ensures Descending(SortByLength(routes))
    ensures multiset(SortByLength(routes)) == multiset(routes)
    ensures forall n: nat :: OfLength(SortByLength(routes), n) == OfLength(routes, n)
  {
    if routes != [] {
      var front := routes[..|routes| - 1];
      var last := routes[|routes| - 1];
      assert routes == front + [last];
      SortIsStable(front);
      InsertPermutes(SortByLength(front), last);
      InsertDescends(SortByLength(front), last);
      forall n: nat
        ensures OfLength(SortByLength(routes), n) == OfLength(routes, n)
      {
        InsertIsStable(SortByLength(front), last, n);
        OfLengthAppend(front, last, n);
      }
    }
  }

  // ---- first match over the sorted list ----

  function FirstEligible(cfg: Config, req: Request, routes: seq<Route>): Option<Route> {
    if routes == [] then None
    else if Eligible(cfg, req, routes[0]) then Some(routes[0])
    else FirstEligible(cfg, req, routes[1..])
  }

  lemma {:induction false} FirstAfterInsert(cfg: Config, req: Request, sorted: seq<Route>, r: Route)
    requires Descending(sorted)
    ensures var first := FirstEligible(cfg, req, sorted);
      FirstEligible(cfg, req, InsertByLength(sorted, r)) ==
      if Eligible(cfg, req, r) && (first.None? || |r.pathPrefix| > |first.value.pathPrefix|) then Some(r) else first
  {
    if sorted != [] {
      if |sorted[0].pathPrefix| >= |r.pathPrefix| {
        FirstAfterInsert(cfg, req, sorted[1..], r);
        assert ([sorted[0]] + InsertByLength(sorted[1..], r))[1..] == InsertByLength(sorted[1..], r);
      } else {
        assert ([r] + sorted)[1..] == sorted;
        FirstIsIn(cfg, req, sorted);
      }
    }
  }

  lemma FirstIsIn(cfg: Config, req: Request, routes: seq<Route>)
    ensures FirstEligible(cfg, req, routes).Some? ==> FirstEligible(cfg, req, routes).value in routes
  {
  }

  function EnabledRoutes(routes: seq<Route>): seq<Route> {
    if routes == [] then []
    else
      var front := EnabledRoutes(routes[..|routes| - 1]);
      if routes[|routes| - 1].enabled then front + [routes[|routes| - 1]] else front
  }

  /** Sorting and taking the first match finds the best route of the unsorted list. */
  lemma {:induction false} FirstOfSortedIsBest(cfg: Config, req: Request, routes: seq<Route>)
    ensures FirstEligible(cfg, req, SortByLength(EnabledRoutes(routes))) == Best(cfg, req, routes)
  {
    if routes != [] {
      var front, last := routes[..|routes| - 1], routes[|routes| - 1];
      FirstOfSortedIsBest(cfg, req, front);
      if last.enabled {
        var kept := EnabledRoutes(front);
        SortIsStable(kept);
        FirstAfterInsert(cfg, req, SortByLength(kept), last);
        assert (kept + [last])[..|kept|] == kept;
      }
    }
  }

  method ResolveCandidates(cfg: Config, req: Request) returns (r: Option<CandidateMatch>)
    ensures r == Resolve(cfg, req)
  {
    var routes := [];
    for i := 0 to |cfg.routes|
      invariant routes == EnabledRoutes(cfg.routes[..i])
    {
      assert cfg.routes[..i + 1][..i] == cfg.routes[..i];
      if cfg.routes[i].enabled {
        routes := routes + [cfg.routes[i]];
      }
    }
    assert cfg.routes[..|cfg.routes|] == cfg.routes;
    OnlyEnabled(cfg.routes);
    SortIsStable(routes);
    FirstOfSortedIsBest(cfg, req, cfg.routes);
    var sorted := SortByLength(routes);
    forall x | x in sorted
      ensures x.enabled
    {
      assert x in multiset(sorted);
    }
    r := FirstMatch(cfg, req, sorted);
  }

  method FirstMatch(cfg: Config, req: Request, routes: seq<Route>) returns (r: Option<CandidateMatch>)
    requires forall x | x in routes :: x.enabled
    ensures r == WithCandidates(cfg, FirstEligible(cfg, req, routes))
  {
    for i := 0 to |routes|
      invariant FirstEligible(cfg, req, routes[i..]) == FirstEligible(cfg, req, routes)
    {
      var route := routes[i];
      assert routes[i..][0] == route && routes[i..][1..] == routes[i + 1..];
      if Matches(route, req) {
        var service := Find(cfg.services, ServiceId, route.serviceId);
        if service.Some? {
          var candidates := CollectBackends(cfg, service.value);
          if candidates != [] {
            return Some(CandidateMatch(route, service.value, candidates));
          }
        }
      }
    }
    return None;
  }

  lemma OnlyEnabled(routes: seq<Route>)
    ensures forall r | r in EnabledRoutes(routes) :: r.enabled
  {
  }

  method CollectBackends(cfg: Config, service: Service) returns (candidates: seq<Backend>)
    ensures candidates == EnabledBackends(cfg.backends, service.backendIds)
  {
    candidates := [];
    var ids := service.backendIds;
    for i := 0 to |ids|
      invariant candidates == EnabledBackends(cfg.backends, ids[..i])
    {
      assert ids[..i + 1][..i] == ids[..i];
      var backend := Find(cfg.backends, BackendId, ids[i]);
      if backend.Some? && backend.value.enabled {
        candidates := candidates + [backend.value];
      }
    }
    assert ids[..|ids|] == ids;
  }

  // ---- dependence on the order of routes ----

  /** Matching prefixes of equal length are equal, so prefixes decide ties. */
  lemma EqualLengthsEqualPrefixes(r: Route, q: Route, req: Request)
    requires Matches(r, req) && Matches(q, req) && |r.pathPrefix| == |q.pathPrefix|
    ensures r.pathPrefix == q.pathPrefix
  {
    if r.pathPrefix != "" {
      assert r.pathPrefix == req.path[..|r.pathPrefix|] == q.pathPrefix;
    }
  }

  /** Route `n` would answer if an empty prefix ranked as the "/" it stands for. */
  ghost predicate IsNormalAnswer(cfg: Config, req: Request, n: int) {
    && 0 <= n < |cfg.routes| && Eligible(cfg, req, cfg.routes[n])
    && forall j | 0 <= j < |cfg.routes| && Eligible(cfg, req, cfg.routes[j]) ::
         |NormalPrefix(cfg.routes[j].pathPrefix)| < |NormalPrefix(cfg.routes[n].pathPrefix)|
         || (|NormalPrefix(cfg.routes[j].pathPrefix)| == |NormalPrefix(cfg.routes[n].pathPrefix)| && n <= j)
  }

  /** Ranking prefixes as written gives another answer than ranking what they stand for if and only if the
      answer by meaning has an empty prefix and a later eligible route has "/". */
  lemma EmptyRanksBelowSlash(cfg: Config, req: Request, i: int, n: int)
    requires IsAnswer(cfg, req, i) && IsNormalAnswer(cfg, req, n)
    ensures i != n <==>
      && cfg.routes[n].pathPrefix == ""
      && exists j :: n < j < |cfg.routes| && Eligible(cfg, req, cfg.routes[j]) && cfg.routes[j].pathPrefix == "/"
  {
    var r, q := cfg.routes[i], cfg.routes[n];
    assert NormalPrefix(r.pathPrefix) <= req.path && NormalPrefix(q.pathPrefix) <= req.path;
    if i != n && q.pathPrefix == "" {
      assert r.pathPrefix == "/";
    }
  }

  /** The answer is also the answer by meaning unless it has "/" and an earlier eligible route has an empty
      prefix. */
  lemma AnswerIsByMeaningExactly(cfg: Config, req: Request, i: int)
    requires IsAnswer(cfg, req, i)
    ensures IsNormalAnswer(cfg, req, i) <==>
      !(cfg.routes[i].pathPrefix == "/"
        && exists j :: 0 <= j < i && Eligible(cfg, req, cfg.routes[j]) && cfg.routes[j].pathPrefix == "")
  {
    var r := cfg.routes[i];
    forall j | 0 <= j < |cfg.routes| && Eligible(cfg, req, cfg.routes[j]) && cfg.routes[j].pathPrefix == ""
      ensures |r.pathPrefix| == 1 ==> r.pathPrefix == "/"
    {
      assert NormalPrefix(cfg.routes[j].pathPrefix) <= req.path && NormalPrefix(r.pathPrefix) <= req.path;
    }
  }

  /** An eligible route of greatest prefix length. */
  ghost predicate Longest(cfg: Config, req: Request, r: Route) {
    && r in cfg.routes && Eligible(cfg, req, r)
    && forall q | q in cfg.routes && Eligible(cfg, req, q) :: |q.pathPrefix| <= |r.pathPrefix|
  }

  lemma AnswerIsLongest(cfg: Config, req: Request)
    requires Resolve(cfg, req).Some?
    ensures Longest(cfg, req, Resolve(cfg, req).value.route)
  {
    BestIs(cfg, req, cfg.routes);
  }

  ghost predicate Reordered(cfg: Config, other: Config) {
    other == cfg.(routes := other.routes) && multiset(other.routes) == multiset(cfg.routes)
  }

  /** The chosen route is the same under every reordering of the file if and only if all eligible
      routes of the longest prefix are one and the same. */
  lemma OrderMattersOnlyOnTies(cfg: Config, req: Request)
    requires Resolve(cfg, req).Some?
    ensures (forall other | Reordered(cfg, other) :: Resolve(other, req) == Resolve(cfg, req))
      <==> forall r, q | Longest(cfg, req, r) && Longest(cfg, req, q) :: r == q
  {
    if forall r, q | Longest(cfg, req, r) && Longest(cfg, req, q) :: r == q {
      forall other | Reordered(cfg, other)
        ensures Resolve(other, req) == Resolve(cfg, req)
      {
        ReorderedAnswers(cfg, other, req);
      }
    } else {
      var r, q :| Longest(cfg, req, r) && Longest(cfg, req, q) && r != q;
      var chosen := Resolve(cfg, req).value.route;
      var rival := if chosen == r then q else r;
      RivalFirst(cfg, req, rival);
    }
  }

  function Front(cfg: Config, r: Route): Config {
    cfg.(routes := [r] + Without(cfg.routes, r))
  }

  /** Moving a longest eligible route to the front of the file makes it the answer. */
  lemma RivalFirst(cfg: Config, req: Request, rival: Route)
    requires Longest(cfg, req, rival)
    ensures Reordered(cfg, Front(cfg, rival))
    ensures Resolve(Front(cfg, rival), req).Some? && Resolve(Front(cfg, rival), req).value.route == rival
  {
    var other := Front(cfg, rival);
    WithoutKeeps(cfg.routes, rival);
    forall p
      ensures p in other.routes <==> p in cfg.routes
      ensures Eligible(other, req, p) == Eligible(cfg, req, p)
    {
      assert p in multiset(other.routes) <==> p in multiset(cfg.routes);
    }
    assert other.routes[0] == rival;
    assert IsAnswer(other, req, 0);
    ResolveAnswers(other, req);
  }

  lemma ReorderedAnswers(cfg: Config, other: Config, req: Request)
    requires Reordered(cfg, other)
    ensures Resolve(other, req).Some? <==> Resolve(cfg, req).Some?
    ensures Resolve(other, req).Some? ==>
      && Longest(cfg, req, Resolve(other, req).value.route)
      && Longest(cfg, req, Resolve(cfg, req).value.route)
      && (Resolve(other, req).value.route == Resolve(cfg, req).value.route ==> Resolve(other, req) == Resolve(cfg, req))
  {
    ResolveAnswers(cfg, req);
    ResolveAnswers(other, req);
    forall r
      ensures r in other.routes <==> r in cfg.routes
      ensures Eligible(other, req, r) == Eligible(cfg, req, r)
    {
      assert r in multiset(other.routes) <==> r in multiset(cfg.routes);
    }
    if Resolve(other, req).Some? {
      AnswerIsLongest(other, req);
      AnswerIsLongest(cfg, req);
    }
  }

  function Without(routes: seq<Route>, r: Route): seq<Route> {
    if routes == [] then []
    else if routes[0] == r then routes[1..]
    else [routes[0]] + Without(routes[1..], r)
  }

  lemma {:induction false} WithoutKeeps(routes: seq<Route>, r: Route)
    requires r in routes
    ensures multiset([r] + Without(routes, r)) == multiset(routes)
  {
    assert routes == [routes[0]] + routes[1..];
    if routes[0] != r {
      WithoutKeeps(routes[1..], r);
    }
  }
}
