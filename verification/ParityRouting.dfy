/** Configurations with equal fingerprints route alike, under the conditions the canonical form needs. */
module ParityRouting {
  import opened Text
  import opened TrustedProxy
  import opened Config
  import opened Routing
  import opened Sorting
  import opened Parity
  import opened Examples

  predicate Trimmed(s: string) {
    Trim(s) == s
  }

  /** Nothing the canonical form would rewrite, except letter case, order and a trailing dot. */
  predicate CleanRoute(r: Route) {
    && Trimmed(r.id) && Trimmed(r.serviceId) && Trimmed(r.hostname) && Trimmed(r.pathPrefix) && Trimmed(r.tls.mode)
    && forall m | m in r.methods :: Trimmed(m)
  }

  predicate CleanBackend(b: Backend) {
    Trimmed(b.id) && Trimmed(b.url) && Trimmed(b.healthPath)
  }

  ghost predicate Clean(cfg: Config) {
    && (forall r | r in cfg.routes :: CleanRoute(r))
    && (forall s | s in cfg.services :: Trimmed(s.id))
    && (forall b | b in cfg.backends :: CleanBackend(b))
  }

  ghost predicate SameForm(a: Config, b: Config) {
    exists c :: IsCanonical(a, c) && IsCanonical(b, c)
  }

  lemma MappedFrom<A, B>(f: A -> B, s: seq<A>, t: seq<A>, x: A)
    requires multiset(Map(f, s)) == multiset(Map(f, t)) && x in s
    ensures exists y :: y in t && f(y) == f(x)
  {
    var i :| 0 <= i < |s| && s[i] == x;
    var j := Elsewhere(Map(f, s), Map(f, t), i);
    assert t[j] in t && f(t[j]) == Map(f, t)[j];
  }

  lemma EqualFingerprintsShareAForm(sorter: Sorter, a: Config, b: Config)
    requires GoodSorter(sorter) && Form(sorter, a) == Form(sorter, b)
    ensures SameForm(a, b)
  {
    FormIsCanonical(sorter, a);
    FormIsCanonical(sorter, b);
  }

  // ---- methods ----

  lemma AllowedByUpper(methods: seq<string>, method_: string)
    requires forall m | m in methods :: Trimmed(m)
    ensures MethodAllowed(methods, method_) <==> methods == [] || Upper(method_) in Map(UpperMethod, methods)
  {
    var upper := Map(UpperMethod, methods);
    if m :| m in methods && EqualFold(m, method_) {
      FoldedByUpper(m, method_);
      var i :| 0 <= i < |methods| && methods[i] == m;
      assert upper[i] == Upper(method_);
    }
    if Upper(method_) in upper {
      var i :| 0 <= i < |upper| && upper[i] == Upper(method_);
      assert methods[i] in methods;
      FoldedByUpper(methods[i], method_);
    }
  }

  predicate SameDot(r: Route, q: Route) {
    HasSuffix(r.hostname, ".") <==> HasSuffix(q.hostname, ".")
  }

  lemma AlikeFields(r: Route, q: Route)
    requires CleanRoute(r) && CleanRoute(q) && CanonicalRoute(r) == CanonicalRoute(q)
    ensures r.id == q.id && r.serviceId == q.serviceId && r.enabled == q.enabled && r.tls.mode == q.tls.mode
    ensures NormalPrefix(r.pathPrefix) == NormalPrefix(q.pathPrefix)
    ensures |TrimSuffix(r.hostname, ".")| == |TrimSuffix(q.hostname, ".")|
  {
    assert |HostName(r.hostname)| == |TrimSuffix(r.hostname, ".")| && |HostName(q.hostname)| == |TrimSuffix(q.hostname, ".")|;
  }

  lemma AlikeMethods(r: Route, q: Route, method_: string)
    requires CleanRoute(r) && CleanRoute(q) && CanonicalRoute(r) == CanonicalRoute(q)
    ensures MethodAllowed(r.methods, method_) <==> MethodAllowed(q.methods, method_)
  {
    SortStringsPermutes(Map(UpperMethod, r.methods), Map(UpperMethod, q.methods));
    SameMembers(Map(UpperMethod, r.methods), Map(UpperMethod, q.methods));
    AllowedByUpper(r.methods, method_);
    AllowedByUpper(q.methods, method_);
  }

  /** Canonically equal hosts are the same host exactly when both or neither end in a dot. */
  lemma AlikeHosts(r: Route, q: Route)
    requires CleanRoute(r) && CleanRoute(q) && CanonicalRoute(r) == CanonicalRoute(q)
    ensures EqualFold(r.hostname, q.hostname) <==> SameDot(r, q)
  {
    AlikeFields(r, q);
    assert |Lower(r.hostname)| == |r.hostname| && |Lower(q.hostname)| == |q.hostname|;
    assert HostName(r.hostname) == Lower(TrimSuffix(r.hostname, ".")) && HostName(q.hostname) == Lower(TrimSuffix(q.hostname, "."));
    if SameDot(r, q) && HasSuffix(r.hostname, ".") {
      DottedFold(r.hostname, q.hostname);
    }
  }

  lemma DottedFold(x: string, y: string)
    requires HasSuffix(x, ".") && HasSuffix(y, ".") && Lower(TrimSuffix(x, ".")) == Lower(TrimSuffix(y, "."))
    ensures EqualFold(x, y)
  {
    var n := |x| - 1;
    assert |Lower(TrimSuffix(x, "."))| == n && |y| - 1 == n;
    assert x[n..] == "." && y[n..] == ".";
    assert x[n] == x[n..][0] == '.' && y[n] == y[n..][0] == '.';
    forall i | 0 <= i < |x|
      ensures Lower(x)[i] == Lower(y)[i]
    {
      if i < n {
        assert Lower(TrimSuffix(x, "."))[i] == Lower(TrimSuffix(y, "."))[i];
      }
    }
  }

  lemma AlikeRoutesMatch(r: Route, q: Route, req: Request)
    requires CleanRoute(r) && CleanRoute(q) && CanonicalRoute(r) == CanonicalRoute(q) && SameDot(r, q)
    ensures Matches(r, req) <==> Matches(q, req)
  {
    AlikeFields(r, q);
    AlikeMethods(r, q, req.method_);
    AlikeHosts(r, q);
  }

  /** A request for the route's own host, prefix and first method, over TLS. */
  function OwnRequest(r: Route): Request {
    Request(r.hostname, NormalPrefix(r.pathPrefix), if r.methods == [] then "GET" else r.methods[0], true)
  }

  lemma OwnRequestMatches(r: Route)
    requires ':' !in r.hostname
    ensures Matches(r, OwnRequest(r)) && Before(OwnRequest(r).host, ':') == r.hostname
  {
    NoColon(r.hostname);
    if r.methods != [] {
      assert r.methods[0] in r.methods && EqualFold(r.methods[0], r.methods[0]);
    }
  }

  /** Canonically equal routes match the same requests if and only if both or neither host ends in a dot. */
  lemma AlikeRoutesMatchExactly(r: Route, q: Route)
    requires CleanRoute(r) && CleanRoute(q) && CanonicalRoute(r) == CanonicalRoute(q) && ':' !in r.hostname
    ensures (forall req :: Matches(r, req) <==> Matches(q, req)) <==> SameDot(r, q)
  {
    if SameDot(r, q) {
      forall req
        ensures Matches(r, req) <==> Matches(q, req)
      {
        AlikeRoutesMatch(r, q, req);
      }
    } else {
      OwnRequestMatches(r);
      AlikeHosts(r, q);
      assert !Matches(q, OwnRequest(r));
    }
  }

  // ---- backends ----

  lemma SameBackends(syn: Syntax, a: Config, b: Config, id: string)
    requires WellFormed(syn, a) && WellFormed(syn, b) && Clean(a) && Clean(b) && SameForm(a, b)
    ensures Find(a.backends, BackendId, id) == Find(b.backends, BackendId, id)
  {
    var c :| IsCanonical(a, c) && IsCanonical(b, c);
    forall x
      ensures x in a.backends <==> x in b.backends
    {
      if x in a.backends {
        MappedFrom(CanonicalBackend, a.backends, b.backends, x);
      }
      if x in b.backends {
        MappedFrom(CanonicalBackend, b.backends, a.backends, x);
      }
    }
    var x, y := Find(a.backends, BackendId, id), Find(b.backends, BackendId, id);
    if x.Some? {
      Found(a.backends, BackendId, id, x.value);
      Found(b.backends, BackendId, id, x.value);
    } else if y.Some? {
      Found(a.backends, BackendId, id, y.value);
      Found(b.backends, BackendId, id, y.value);
    }
  }

  /** The contribution of one reference to the list of enabled backends. */
  function Contribution(backends: seq<Backend>, id: string): multiset<Backend> {
    match Find(backends, BackendId, id)
    case None => multiset{}
    case Some(b) => if b.enabled then multiset{b} else multiset{}
  }

  lemma {:induction false} EnabledAppend(backends: seq<Backend>, xs: seq<string>, ys: seq<string>)
    ensures multiset(EnabledBackends(backends, xs + ys)) ==
      multiset(EnabledBackends(backends, xs)) + multiset(EnabledBackends(backends, ys))
    decreases |ys|
  {
    if ys == [] {
      assert xs + ys == xs;
    } else {
      var front := ys[..|ys| - 1];
      EnabledAppend(backends, xs, front);
      assert (xs + ys)[..|xs + ys| - 1] == xs + front;
    }
  }

  lemma EnabledOne(backends: seq<Backend>, id: string)
    ensures multiset(EnabledBackends(backends, [id])) == Contribution(backends, id)
  {
    assert [id][..0] == [];
    assert EnabledBackends(backends, [id][..0]) == [];
  }

  /** Taking one reference out of a list takes out its contribution. */
  lemma EnabledTakeOut(backends: seq<Backend>, ids: seq<string>, k: nat)
    requires k < |ids|
    ensures multiset(EnabledBackends(backends, ids)) ==
      Contribution(backends, ids[k]) + multiset(EnabledBackends(backends, ids[..k] + ids[k + 1..]))
  {
    var front, back := ids[..k], ids[k + 1..];
    assert ids == front + [ids[k]] + back;
    EnabledAppend(backends, front + [ids[k]], back);
    EnabledAppend(backends, front, [ids[k]]);
    EnabledAppend(backends, front, back);
    EnabledOne(backends, ids[k]);
  }

  lemma EnabledHead(backends: seq<Backend>, ids: seq<string>)
    requires ids != []
    ensures multiset(EnabledBackends(backends, ids)) ==
      Contribution(backends, ids[0]) + multiset(EnabledBackends(backends, ids[1..]))
  {
    assert ids[..0] + ids[1..] == ids[1..];
    EnabledTakeOut(backends, ids, 0);
  }

  lemma SameContribution(a: seq<Backend>, b: seq<Backend>, id: string)
    requires Find(a, BackendId, id) == Find(b, BackendId, id)
    ensures Contribution(a, id) == Contribution(b, id)
  {
  }

  lemma EnabledStep(a: seq<Backend>, b: seq<Backend>, xs: seq<string>, ys: seq<string>, k: nat)
    requires xs != [] && k < |ys| && ys[k] == xs[0] && Find(a, BackendId, xs[0]) == Find(b, BackendId, ys[k])
    requires multiset(EnabledBackends(a, xs[1..])) == multiset(EnabledBackends(b, ys[..k] + ys[k + 1..]))
    ensures multiset(EnabledBackends(a, xs)) == multiset(EnabledBackends(b, ys))
  {
    EnabledHead(a, xs);
    EnabledTakeOut(b, ys, k);
    SameContribution(a, b, xs[0]);
  }

  lemma {:induction false} EnabledPermutes(a: seq<Backend>, b: seq<Backend>, xs: seq<string>, ys: seq<string>)
    requires multiset(xs) == multiset(ys)
    requires forall id :: Find(a, BackendId, id) == Find(b, BackendId, id)
    ensures multiset(EnabledBackends(a, xs)) == multiset(EnabledBackends(b, ys))
  {
    if xs == [] {
      SameMembers(xs, ys);
    } else {
      var k := MatchHead(xs, ys);
      EnabledPermutes(a, b, xs[1..], ys[..k] + ys[k + 1..]);
      EnabledStep(a, b, xs, ys, k);
    }
  }

  /** A service of one configuration has a service of the other with the same identifier and references. */
  lemma AlikeService(syn: Syntax, a: Config, b: Config, id: string)
    requires WellFormed(syn, b) && Clean(a) && Clean(b) && SameForm(a, b) && Find(a.services, ServiceId, id).Some?
    ensures Find(b.services, ServiceId, id).Some?
    ensures multiset(Find(a.services, ServiceId, id).value.backendIds) == multiset(Find(b.services, ServiceId, id).value.backendIds)
  {
    hide SortOf, BackendsOk, RoutesOk, ServiceOk;
    var c :| IsCanonical(a, c) && IsCanonical(b, c);
    var s := Find(a.services, ServiceId, id).value;
    FoundIsMember(a.services, id);
    SameCanonicalServices(a, b, c);
    MappedFrom(CanonicalService, a.services, b.services, s);
    var u :| u in b.services && CanonicalService(u) == CanonicalService(s);
    Found(b.services, ServiceId, id, u);
    SortStringsPermutes(s.backendIds, u.backendIds);
  }

  lemma FoundIsMember(services: seq<Service>, id: string)
    requires Find(services, ServiceId, id).Some?
    ensures var s := Find(services, ServiceId, id).value; s in services && s.id == id
  {
  }

  lemma SameCanonicalServices(a: Config, b: Config, c: Canonical)
    requires IsCanonical(a, c) && IsCanonical(b, c)
    ensures multiset(Map(CanonicalService, a.services)) == multiset(Map(CanonicalService, b.services))
  {
    hide CanonicalService, CanonicalRoute, CanonicalBackend, CanonicalProfile;
  }

  lemma AlikeCandidates(syn: Syntax, a: Config, b: Config, r: Route, q: Route)
    requires WellFormed(syn, a) && WellFormed(syn, b) && Clean(a) && Clean(b) && SameForm(a, b)
    requires r.serviceId == q.serviceId
    ensures multiset(Candidates(a, r)) == multiset(Candidates(b, q))
  {
    hide WellFormed, Clean, SameForm;
    SameFormBothWays(a, b);
    forall id
      ensures Find(a.backends, BackendId, id) == Find(b.backends, BackendId, id)
    {
      SameBackends(syn, a, b, id);
    }
    var s, t := Find(a.services, ServiceId, r.serviceId), Find(b.services, ServiceId, r.serviceId);
    if s.Some? {
      AlikeService(syn, a, b, r.serviceId);
      EnabledPermutes(a.backends, b.backends, s.value.backendIds, t.value.backendIds);
    } else if t.Some? {
      AlikeService(syn, b, a, r.serviceId);
    }
  }

  // ---- routes ----

  /** Canonically equal enabled routes of the two configurations agree about the trailing dot. */
  ghost predicate DotsAgree(a: Config, b: Config) {
    forall r, q | r in a.routes && q in b.routes && r.enabled && CanonicalRoute(r) == CanonicalRoute(q) :: SameDot(r, q)
  }

  lemma DotsAgreeBothWays(a: Config, b: Config)
    requires DotsAgree(a, b)
    ensures DotsAgree(b, a)
  {
    forall q, r | q in b.routes && r in a.routes && q.enabled && CanonicalRoute(q) == CanonicalRoute(r)
      ensures SameDot(q, r)
    {
      assert CanonicalRoute(r).enabled == CanonicalRoute(q).enabled;
      assert SameDot(r, q);
    }
  }

  lemma Lookalike(a: Config, b: Config, r: Route) returns (q: Route)
    requires Clean(a) && Clean(b) && SameForm(a, b) && r in a.routes
    ensures q in b.routes && CanonicalRoute(q) == CanonicalRoute(r) && q.id == r.id
  {
    var c :| IsCanonical(a, c) && IsCanonical(b, c);
    MappedFrom(CanonicalRoute, a.routes, b.routes, r);
    q :| q in b.routes && CanonicalRoute(q) == CanonicalRoute(r);
    AlikeFields(r, q);
  }

  /** The counterpart of an eligible route: same identifier, prefix and backends, and eligible too. */
  lemma Counterpart(syn: Syntax, a: Config, b: Config, req: Request, r: Route) returns (q: Route)
    requires WellFormed(syn, a) && WellFormed(syn, b) && Clean(a) && Clean(b) && SameForm(a, b) && DotsAgree(a, b)
    requires r in a.routes && Eligible(a, req, r)
    ensures q in b.routes && Eligible(b, req, q) && q.id == r.id
    ensures NormalPrefix(q.pathPrefix) == NormalPrefix(r.pathPrefix)
    ensures multiset(Candidates(a, r)) == multiset(Candidates(b, q))
  {
    q := Lookalike(a, b, r);
    assert SameDot(r, q);
    AlikeFields(r, q);
    AlikeRoutesMatch(r, q, req);
    hide WellFormed, SameForm, Clean, CanonicalRoute, Matches, Candidates;
    AlikeCandidates(syn, a, b, r, q);
    assert |Candidates(b, q)| == |multiset(Candidates(b, q))| == |multiset(Candidates(a, r))| > 0;
  }

  /** At most one eligible route per prefix, an empty prefix being "/". */
  ghost predicate OnePerPrefix(cfg: Config, req: Request) {
    forall r, q | r in cfg.routes && q in cfg.routes && Eligible(cfg, req, r) && Eligible(cfg, req, q)
      && NormalPrefix(r.pathPrefix) == NormalPrefix(q.pathPrefix) :: r == q
  }

  lemma PrefixesOfOnePath(x: string, y: string, path: string)
    requires x <= path && y <= path
    ensures |x| == |y| ==> x == y
  {
    assert x == path[..|x|] && y == path[..|y|];
  }

  /** Counterparts of the two longest eligible routes have the same prefix. */
  lemma LongestAgree(a: Config, b: Config, req: Request, r: Route, r': Route, q: Route, q': Route)
    requires Longest(a, req, r) && Longest(b, req, q)
    requires r' in b.routes && Eligible(b, req, r') && NormalPrefix(r'.pathPrefix) == NormalPrefix(r.pathPrefix)
    requires q' in a.routes && Eligible(a, req, q') && NormalPrefix(q'.pathPrefix) == NormalPrefix(q.pathPrefix)
    ensures NormalPrefix(r.pathPrefix) == NormalPrefix(q.pathPrefix)
  {
    assert |q'.pathPrefix| <= |r.pathPrefix| && |r'.pathPrefix| <= |q.pathPrefix|;
    PrefixesOfOnePath(NormalPrefix(r.pathPrefix), NormalPrefix(q.pathPrefix), req.path);
  }

  /** Both configurations send the request to the same route and the same backends, or both to none. */
  predicate RouteAlike(a: Config, b: Config, req: Request) {
    match (Resolve(a, req), Resolve(b, req))
    case (Some(x), Some(y)) => x.route.id == y.route.id && multiset(x.backends) == multiset(y.backends)
    case (None, None) => true
    case _ => false
  }

  lemma SameFormsRouteAlike(syn: Syntax, a: Config, b: Config, req: Request)
    requires WellFormed(syn, a) && WellFormed(syn, b) && Clean(a) && Clean(b) && SameForm(a, b) && DotsAgree(a, b)
    requires OnePerPrefix(b, req)
    ensures RouteAlike(a, b, req)
  {
    ResolveAnswers(a, req);
    ResolveAnswers(b, req);
    DotsAgreeBothWays(a, b);
    SameFormBothWays(a, b);
    hide WellFormed, Clean, SameForm, DotsAgree, Eligible;
    if Resolve(a, req).Some? {
      AnswerIsLongest(a, req);
      var r := Resolve(a, req).value.route;
      LongestIsEligible(a, req, r);
      var r' := Counterpart(syn, a, b, req, r);
      AnswerIsLongest(b, req);
      var q := Resolve(b, req).value.route;
      LongestIsEligible(b, req, q);
      var q' := Counterpart(syn, b, a, req, q);
      LongestAgree(a, b, req, r, r', q, q');
      assert q == r';
      BackendsOfAnswer(a, req);
      BackendsOfAnswer(b, req);
    } else if Resolve(b, req).Some? {
      AnswerIsLongest(b, req);
      LongestIsEligible(b, req, Resolve(b, req).value.route);
      var q' := Counterpart(syn, b, a, req, Resolve(b, req).value.route);
    }
  }

  lemma SameFormBothWays(a: Config, b: Config)
    requires SameForm(a, b)
    ensures SameForm(b, a)
  {
  }

  lemma LongestIsEligible(cfg: Config, req: Request, r: Route)
    requires Longest(cfg, req, r)
    ensures r in cfg.routes && Eligible(cfg, req, r)
  {
  }

  lemma BackendsOfAnswer(cfg: Config, req: Request)
    requires Resolve(cfg, req).Some?
    ensures Resolve(cfg, req).value.backends == Candidates(cfg, Resolve(cfg, req).value.route)
  {
  }

  /** Two validated configurations with equal fingerprints, whose canonically equal routes agree about
      trailing dots, send a request with one eligible route per prefix to the same route and backends. */
  lemma EqualFormsRouteAlike(syn: Syntax, sorter: Sorter, a: Config, b: Config, req: Request)
    requires WellFormed(syn, a) && WellFormed(syn, b) && Clean(a) && Clean(b) && DotsAgree(a, b)
    requires GoodSorter(sorter) && Form(sorter, a) == Form(sorter, b)
    requires OnePerPrefix(b, req)
    ensures RouteAlike(a, b, req)
  {
    EqualFingerprintsShareAForm(sorter, a, b);
    SameFormsRouteAlike(syn, a, b, req);
  }

  // ---- exactly when equal fingerprints route alike ----

  /** Every enabled route can answer: a host without a port and an enabled backend. */
  ghost predicate Live(cfg: Config) {
    forall r | r in cfg.routes && r.enabled :: ':' !in r.hostname && Candidates(cfg, r) != []
  }

  /** The request for a live route's own host and prefix is answered by that route. */
  lemma OwnRequestIsAnswered(cfg: Config, r: Route)
    requires r in cfg.routes && r.enabled && ':' !in r.hostname && Candidates(cfg, r) != []
    requires OnePerPrefix(cfg, OwnRequest(r))
    ensures Resolve(cfg, OwnRequest(r)).Some? && Resolve(cfg, OwnRequest(r)).value.route == r
  {
    var req := OwnRequest(r);
    OwnRequestMatches(r);
    assert Eligible(cfg, req, r);
    ResolveAnswers(cfg, req);
    AnswerIsLongest(cfg, req);
    var x := Resolve(cfg, req).value.route;
    assert Eligible(cfg, req, x) && |r.pathPrefix| <= |x.pathPrefix|;
    assert NormalPrefix(x.pathPrefix) <= NormalPrefix(r.pathPrefix);
    PrefixesOfOnePath(NormalPrefix(x.pathPrefix), NormalPrefix(r.pathPrefix), req.path);
  }

  /** Where the answers agree, so do the dots. */
  lemma AlikeAnswersAgreeOnDots(a: Config, b: Config, r: Route, q: Route)
    requires Clean(a) && Clean(b) && SameForm(a, b) && Distinct(b.routes, RouteId)
    requires r in a.routes && q in b.routes && r.enabled && CanonicalRoute(r) == CanonicalRoute(q)
    requires ':' !in r.hostname && Candidates(a, r) != []
    requires OnePerPrefix(a, OwnRequest(r)) && RouteAlike(a, b, OwnRequest(r))
    ensures SameDot(r, q)
  {
    var req := OwnRequest(r);
    OwnRequestIsAnswered(a, r);
    OwnRequestMatches(r);
    var x := Resolve(b, req).value.route;
    AnswerIsLongest(b, req);
    AlikeFields(r, q);
    assert x in b.routes && RouteId(x) == RouteId(q);
    OneRoutePerId(b.routes, x, q);
    assert Matches(q, req);
    AlikeHosts(r, q);
  }

  lemma OneRoutePerId(routes: seq<Route>, x: Route, y: Route)
    requires Distinct(routes, RouteId) && x in routes && y in routes && RouteId(x) == RouteId(y)
    ensures x == y
  {
    Found(routes, RouteId, RouteId(x), x);
    Found(routes, RouteId, RouteId(x), y);
  }

  /** For validated configurations with equal fingerprints, trimmed texts, distinct route identifiers,
      live routes and one eligible route per prefix: all requests are routed alike if and only if
      canonically equal routes agree about the trailing dot of their host. */
  lemma EqualFormsRouteAlikeExactly(syn: Syntax, sorter: Sorter, a: Config, b: Config)
    requires WellFormed(syn, a) && WellFormed(syn, b) && Clean(a) && Clean(b)
    requires GoodSorter(sorter) && Form(sorter, a) == Form(sorter, b)
    requires Live(a) && Distinct(b.routes, RouteId)
    requires forall req :: OnePerPrefix(a, req) && OnePerPrefix(b, req)
    ensures (forall req :: RouteAlike(a, b, req)) <==> DotsAgree(a, b)
  {
    EqualFingerprintsShareAForm(sorter, a, b);
    hide Form, GoodSorter, RouteAlike, SameForm, Clean, WellFormed, OnePerPrefix, SameDot, CanonicalRoute, Candidates;
    if DotsAgree(a, b) {
      forall req
        ensures RouteAlike(a, b, req)
      {
        assert OnePerPrefix(b, req);
        SameFormsRouteAlike(syn, a, b, req);
      }
    }
    if forall req :: RouteAlike(a, b, req) {
      forall r, q | r in a.routes && q in b.routes && r.enabled && CanonicalRoute(r) == CanonicalRoute(q)
        ensures SameDot(r, q)
      {
        assert OnePerPrefix(a, OwnRequest(r)) && RouteAlike(a, b, OwnRequest(r));
        AlikeAnswersAgreeOnDots(a, b, r, q);
      }
    }
  }

  // ---- what the fingerprint does not see ----

  /** A trailing dot disappears from the canonical form but not from routing: equal fingerprints, and a
      request that only one of the two configurations answers. */
  lemma TrailingDotEscapesTheFingerprint(syn: Syntax, sorter: Sorter) returns (a: Config, b: Config, req: Request)
    requires syn.urlOk("u") && GoodSorter(sorter)
    ensures WellFormed(syn, a) && WellFormed(syn, b) && Form(sorter, a) == Form(sorter, b)
    ensures Resolve(a, req).Some? && Resolve(b, req).None?
  {
    hide WellFormed, CanonicalRoute, Resolve;
    a, b, req := OneRoute("h"), OneRoute("h."), Request("h", "/", "GET", false);
    OneRouteIsWellFormed(syn, "h");
    OneRouteIsWellFormed(syn, "h.");
    OneRouteResolves("h", "h");
    OneRouteResolves("h.", "h");
    assert |Lower("h")| == 1 && |Lower("h.")| == 2;
    DotIsDropped();
    assert Map(CanonicalRoute, a.routes) == Map(CanonicalRoute, b.routes);
  }

  lemma DotIsDropped()
    ensures CanonicalRoute(OneRoute("h").routes[0]) == CanonicalRoute(OneRoute("h.").routes[0])
  {
    TrimOneChar('h');
    TrimTwoChars('h', '.');
    assert ['h', '.'] == "h." && ['h'] == "h";
    assert TrimSuffix("h.", ".") == "h" && TrimSuffix("h", ".") == "h";
  }

  /** The form leaves out the trusted proxies: configurations that differ only there have the same
      fingerprint, although one entry decides whether a peer without a forwarding header is a client. */
  lemma TrustedProxiesEscapeTheFingerprint(syn: Syntax, sorter: Sorter, cfg: Config, entry: string, remote: string)
    requires GoodSorter(sorter) && WellFormed(syn, cfg) && cfg.trustedProxies == []
    requires ParseEntry(syn, entry).Some? && ParsePeer(syn, remote).Some?
    requires Holds(ParseEntry(syn, entry).value, ParsePeer(syn, remote).value)
    ensures forall entries :: Form(sorter, cfg) == Form(sorter, cfg.(trustedProxies := entries))
    ensures WellFormed(syn, cfg.(trustedProxies := [entry]))
    ensures Policy(syn, [entry]).Some? && Resolved(syn, Policy(syn, [entry]).value, remote, "").Rejected?
    ensures Resolved(syn, [], remote, "") == Client(ParsePeer(syn, remote).value)
  {
    hide ParseEntry, ParsePeer, Holds;
    assert [entry][..0] == [];
    assert Policy(syn, [entry][..0]) == Some([]);
    var policy := Policy(syn, [entry]).value;
    assert policy == [ParseEntry(syn, entry).value];
    assert policy[0] in policy;
    PeerTellsApart(syn, policy, [], remote);
  }

  // ---- what the fingerprint sees although routing does not ----

  /** Two validated configurations that differ in the order of two routes only, whatever the library's
      sort, have different fingerprints. */
  lemma OrderShowsInTheFingerprint(syn: Syntax, sorter: Sorter) returns (a: Config, b: Config)
    requires syn.urlOk("u") && GoodSorter(sorter)
    ensures WellFormed(syn, a) && WellFormed(syn, b)
    ensures |a.routes| == 2 && b == a.(routes := [a.routes[1], a.routes[0]])
    ensures Form(sorter, a) != Form(sorter, b)
  {
    hide WellFormed, CanonicalRoute, Form;
    a, b := TwoRoutes("g", "h"), TwoRoutes("h", "g");
    LettersDiffer();
    TwoRoutesAreWellFormed(syn, "g", "h");
    TwoRoutesAreWellFormed(syn, "h", "g");
    OneLetterHosts();
    ExchangedRoutesShow(sorter, a, b);
  }

  lemma LettersDiffer()
    ensures Lower("g") != Lower("h")
  {
    assert Lower("g")[0] == 'g' && Lower("h")[0] == 'h';
  }

  lemma ExchangedRoutesShow(sorter: Sorter, a: Config, b: Config)
    requires GoodSorter(sorter) && |a.routes| == 2 && b == a.(routes := [a.routes[1], a.routes[0]])
    requires var x, y := CanonicalRoute(a.routes[0]), CanonicalRoute(a.routes[1]); x != y && x.id == y.id
    ensures Form(sorter, a) != Form(sorter, b)
  {
    hide CanonicalRoute, SortWith;
    var x, y := CanonicalRoute(a.routes[0]), CanonicalRoute(a.routes[1]);
    assert Map(CanonicalRoute, a.routes) == [x, y] && Map(CanonicalRoute, b.routes) == [y, x];
    PairShows(sorter, x, y);
  }

  lemma OneLetterHosts()
    ensures var x, y := CanonicalRoute(OneRoute("g").routes[0]), CanonicalRoute(OneRoute("h").routes[0]);
      x.hostname != y.hostname && x.id == y.id
  {
    TrimOneChar('g');
    TrimOneChar('h');
    assert ['g'] == "g" && ['h'] == "h";
    assert Lower("g")[0] == 'g' && Lower("h")[0] == 'h';
  }

  lemma PairShows(sorter: Sorter, x: ParityRoute, y: ParityRoute)
    requires GoodSorter(sorter) && x != y && x.id == y.id
    ensures SortWith(sorter, [x, y], RouteIdKey) != SortWith(sorter, [y, x], RouteIdKey)
  {
    var keys := [x.id, y.id];
    assert Map(RouteIdKey, [x, y]) == keys && Map(RouteIdKey, [y, x]) == keys;
    assert Orders(keys, sorter(keys));
    SameMembers(sorter(keys), Places(2));
    assert Places(2) == [0, 1];
    assert sorter(keys)[0] == 0 || sorter(keys)[0] == 1 by {
      assert sorter(keys)[0] in sorter(keys);
    }
  }
}
