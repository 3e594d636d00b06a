/** The canonical form behind the configuration fingerprint, and what equal forms say about routing.
    The digest of the canonical form is injective, so a fingerprint is the form itself. */
module Parity {
  import opened Text
  import opened TrustedProxy
  import opened Config
  import opened Routing
  import opened Sorting

  datatype ParityService = ParityService(id: string, name: string, backendIds: seq<string>)

  datatype ParityRoute = ParityRoute(
    id: string,
    serviceId: string,
    hostname: string,
    pathPrefix: string,
    methods: seq<string>,
    exposure: string,
    enabled: bool,
    tlsMode: string,
    tlsProfile: string)

  datatype ParityBackend = ParityBackend(id: string, url: string, enabled: bool, healthPath: string)

  datatype ParityProfile = ParityProfile(id: string, certificateFile: string, privateKeyFile: string, enabled: bool)

  datatype Canonical = Canonical(
    schema: string,
    services: seq<ParityService>,
    routes: seq<ParityRoute>,
    backends: seq<ParityBackend>,
    profiles: seq<ParityProfile>)

  function UpperMethod(m: string): string {
    Upper(Trim(m))
  }

  function CanonicalService(s: Service): ParityService {
    ParityService(Trim(s.id), Trim(s.name), SortStrings(s.backendIds))
  }

  function CanonicalRoute(r: Route): ParityRoute {
    ParityRoute(Trim(r.id), Trim(r.serviceId), HostName(r.hostname), NormalPrefix(Trim(r.pathPrefix)),
                SortStrings(Map(UpperMethod, r.methods)), Trim(r.exposure), r.enabled,
                Trim(r.tls.mode), Trim(r.tls.profile))
  }

  function CanonicalBackend(b: Backend): ParityBackend {
    ParityBackend(Trim(b.id), Trim(b.url), b.enabled, Trim(b.healthPath))
  }

  function CanonicalProfile(p: CertificateProfile): ParityProfile {
    ParityProfile(Trim(p.id), Trim(p.certificateFile), Trim(p.privateKeyFile), p.enabled)
  }

  // ---- what the canonical form sees of each entry ----

  /** Of a route: every field, up to outer white space, host-name equivalence, "/" for an empty prefix, and
      the case and order of the methods. */
  lemma RouteSeen(r: Route, q: Route)
    ensures CanonicalRoute(r) == CanonicalRoute(q) <==>
      && Trim(r.id) == Trim(q.id) && Trim(r.serviceId) == Trim(q.serviceId)
      && Lower(TrimSuffix(Trim(r.hostname), ".")) == Lower(TrimSuffix(Trim(q.hostname), "."))
      && (Trim(r.pathPrefix) == Trim(q.pathPrefix) || {Trim(r.pathPrefix), Trim(q.pathPrefix)} == {"", "/"})
      && multiset(InCapitals(r.methods)) == multiset(InCapitals(q.methods))
      && Trim(r.exposure) == Trim(q.exposure) && r.enabled == q.enabled
      && Trim(r.tls.mode) == Trim(q.tls.mode) && Trim(r.tls.profile) == Trim(q.tls.profile)
  {
    hide Trim, Lower, Upper, TrimSuffix;
    SortStringsPermutes(Map(UpperMethod, r.methods), Map(UpperMethod, q.methods));
    MethodsAsWritten(r.methods);
    MethodsAsWritten(q.methods);
    SamePrefix(Trim(r.pathPrefix), Trim(q.pathPrefix));
  }

  /** The methods in capitals, without outer white space. */
  ghost function InCapitals(methods: seq<string>): seq<string> {
    seq(|methods|, i requires 0 <= i < |methods| => Upper(Trim(methods[i])))
  }

  lemma MethodsAsWritten(methods: seq<string>)
    ensures Map(UpperMethod, methods) == InCapitals(methods)
  {
  }

  lemma SamePrefix(x: string, y: string)
    ensures NormalPrefix(x) == NormalPrefix(y) <==> x == y || {x, y} == {"", "/"}
  {
    if {x, y} == {"", "/"} {
      assert x in {"", "/"} && y in {"", "/"};
    }
    if x == "" && y == "/" {
      assert {x, y} == {"", "/"};
    }
    if x == "/" && y == "" {
      assert {x, y} == {"", "/"};
    }
  }

  lemma ServiceSeen(s: Service, t: Service)
    ensures CanonicalService(s) == CanonicalService(t) <==>
      Trim(s.id) == Trim(t.id) && Trim(s.name) == Trim(t.name) && multiset(s.backendIds) == multiset(t.backendIds)
  {
    SortStringsPermutes(s.backendIds, t.backendIds);
  }

  lemma BackendSeen(b: Backend, c: Backend, p: CertificateProfile, q: CertificateProfile)
    ensures CanonicalBackend(b) == CanonicalBackend(c) <==>
      Trim(b.id) == Trim(c.id) && Trim(b.url) == Trim(c.url) && b.enabled == c.enabled && Trim(b.healthPath) == Trim(c.healthPath)
    ensures CanonicalProfile(p) == CanonicalProfile(q) <==>
      && Trim(p.id) == Trim(q.id) && Trim(p.certificateFile) == Trim(q.certificateFile)
      && Trim(p.privateKeyFile) == Trim(q.privateKeyFile) && p.enabled == q.enabled
  {
  }

  /** Equal forms mean the same schema and, in each collection, the same canonical entries as often. */
  lemma FingerprintSeesEveryEntry(sorter: Sorter, a: Config, b: Config)
    requires GoodSorter(sorter) && Form(sorter, a) == Form(sorter, b)
    ensures a.schema == b.schema
    ensures multiset(Map(CanonicalService, a.services)) == multiset(Map(CanonicalService, b.services))
    ensures multiset(Map(CanonicalRoute, a.routes)) == multiset(Map(CanonicalRoute, b.routes))
    ensures multiset(Map(CanonicalBackend, a.backends)) == multiset(Map(CanonicalBackend, b.backends))
    ensures multiset(Map(CanonicalProfile, a.profiles)) == multiset(Map(CanonicalProfile, b.profiles))
  {
    hide CanonicalService, CanonicalRoute, CanonicalBackend, CanonicalProfile;
    FormIsCanonical(sorter, a);
    FormIsCanonical(sorter, b);
  }

  function ServiceKey(s: ParityService): string { s.id }

  function RouteIdKey(r: ParityRoute): string { r.id }

  function BackendKey(b: ParityBackend): string { b.id }

  function ProfileKey(p: ParityProfile): string { p.id }

  /** `c` is a canonical form of `cfg`. When identifiers collide there are several, and which one is
      fingerprinted depends on the sort and on the order of the file. */
  ghost predicate IsCanonical(cfg: Config, c: Canonical) {
    && c.schema == cfg.schema
    && SortOf(Map(CanonicalService, cfg.services), c.services, ServiceKey)
    && SortOf(Map(CanonicalRoute, cfg.routes), c.routes, RouteIdKey)
    && SortOf(Map(CanonicalBackend, cfg.backends), c.backends, BackendKey)
    && SortOf(Map(CanonicalProfile, cfg.profiles), c.profiles, ProfileKey)
  }

  /** The form that is fingerprinted: the canonical form under the library's sort. */
  function Form(sorter: Sorter, cfg: Config): Canonical
    requires GoodSorter(sorter)
  {
    Canonical(cfg.schema,
              SortWith(sorter, Map(CanonicalService, cfg.services), ServiceKey),
              SortWith(sorter, Map(CanonicalRoute, cfg.routes), RouteIdKey),
              SortWith(sorter, Map(CanonicalBackend, cfg.backends), BackendKey),
              SortWith(sorter, Map(CanonicalProfile, cfg.profiles), ProfileKey))
  }

  lemma FormIsCanonical(sorter: Sorter, cfg: Config)
    requires GoodSorter(sorter)
    ensures IsCanonical(cfg, Form(sorter, cfg))
  {
    SortWithSorts(sorter, Map(CanonicalService, cfg.services), ServiceKey);
    SortWithSorts(sorter, Map(CanonicalRoute, cfg.routes), RouteIdKey);
    SortWithSorts(sorter, Map(CanonicalBackend, cfg.backends), BackendKey);
    SortWithSorts(sorter, Map(CanonicalProfile, cfg.profiles), ProfileKey);
  }

  /** Collects the canonical entries of one collection and sorts them in place. */
  method Collect<A, B>(sorter: Sorter, canonical: A -> B, key: B -> string, list: seq<A>) returns (r: seq<B>)
    requires GoodSorter(sorter)
    ensures r == SortWith(sorter, Map(canonical, list), key)
    ensures SortOf(Map(canonical, list), r, key)
  {
    r := [];
    for i := 0 to |list|
      invariant r == Map(canonical, list[..i])
    {
      r := r + [canonical(list[i])];
    }
    assert list[..|list|] == list;
    SortWithSorts(sorter, r, key);
    assert Orders(Map(key, r), sorter(Map(key, r)));
    r := Arrange(r, sorter(Map(key, r)));
  }

  /** The fingerprinted form, built collection by collection: one configuration has one. */
  method ConfigParityFingerprint(syn: Syntax, sorter: Sorter, cfg: Config) returns (r: Option<Canonical>)
    requires GoodSorter(sorter)
    ensures r.Some? <==> WellFormed(syn, cfg)
    ensures r.Some? ==> r.value == Form(sorter, cfg) && IsCanonical(cfg, r.value)
  {
    var ok := Validate(syn, cfg);
    if !ok {
      return None;
    }
    var services := Collect(sorter, CanonicalService, ServiceKey, cfg.services);
    var routes := Collect(sorter, CanonicalRoute, RouteIdKey, cfg.routes);
    var backends := Collect(sorter, CanonicalBackend, BackendKey, cfg.backends);
    var profiles := Collect(sorter, CanonicalProfile, ProfileKey, cfg.profiles);
    return Some(Canonical(cfg.schema, services, routes, backends, profiles));
  }

  // ---- independence of order ----

  /** The same service, its backend references in another order. */
  ghost predicate ServiceLike(a: Service, b: Service) {
    a == b.(backendIds := a.backendIds) && multiset(a.backendIds) == multiset(b.backendIds)
  }

  ghost predicate RouteLike(a: Route, b: Route) {
    a == b.(methods := a.methods) && multiset(a.methods) == multiset(b.methods)
  }

  /** Each service and route keeps its place but may list its own references in another order. */
  ghost predicate ShuffledInside(a: Config, b: Config) {
    && b == a.(services := b.services, routes := b.routes)
    && |a.services| == |b.services| && (forall i | 0 <= i < |a.services| :: ServiceLike(a.services[i], b.services[i]))
    && |a.routes| == |b.routes| && (forall i | 0 <= i < |a.routes| :: RouteLike(a.routes[i], b.routes[i]))
  }

  /** The four collections are listed in another order. */
  ghost predicate ShuffledOutside(a: Config, b: Config) {
    && a.schema == b.schema && a.trustedProxies == b.trustedProxies
    && multiset(a.services) == multiset(b.services) && multiset(a.routes) == multiset(b.routes)
    && multiset(a.backends) == multiset(b.backends) && multiset(a.profiles) == multiset(b.profiles)
  }

  ghost predicate Shuffled(a: Config, b: Config) {
    exists mid :: ShuffledInside(a, mid) && ShuffledOutside(mid, b)
  }

  /** Entries of one collection whose trimmed identifiers collide are canonically equal. */
  ghost predicate NoAmbiguousIds(cfg: Config) {
    && TiesEqual(Map(CanonicalService, cfg.services), ServiceKey)
    && TiesEqual(Map(CanonicalRoute, cfg.routes), RouteIdKey)
    && TiesEqual(Map(CanonicalBackend, cfg.backends), BackendKey)
    && TiesEqual(Map(CanonicalProfile, cfg.profiles), ProfileKey)
  }

  lemma InsideKeepsEntries(a: Config, b: Config)
    requires ShuffledInside(a, b)
    ensures Map(CanonicalService, a.services) == Map(CanonicalService, b.services)
    ensures Map(CanonicalRoute, a.routes) == Map(CanonicalRoute, b.routes)
  {
    forall i | 0 <= i < |a.services|
      ensures CanonicalService(a.services[i]) == CanonicalService(b.services[i])
    {
      assert ServiceLike(a.services[i], b.services[i]);
      SortStringsPermutes(a.services[i].backendIds, b.services[i].backendIds);
    }
    forall i | 0 <= i < |a.routes|
      ensures CanonicalRoute(a.routes[i]) == CanonicalRoute(b.routes[i])
    {
      assert RouteLike(a.routes[i], b.routes[i]);
      MapPermutes(UpperMethod, a.routes[i].methods, b.routes[i].methods);
      SortStringsPermutes(Map(UpperMethod, a.routes[i].methods), Map(UpperMethod, b.routes[i].methods));
    }
  }

  /** Every canonical form of a configuration is one of every reordering of it. */
  lemma ShuffledForms(a: Config, b: Config, c: Canonical)
    requires Shuffled(a, b)
    ensures IsCanonical(a, c) <==> IsCanonical(b, c)
  {
    hide CanonicalService, CanonicalRoute, CanonicalBackend, CanonicalProfile;
    var mid :| ShuffledInside(a, mid) && ShuffledOutside(mid, b);
    InsideKeepsEntries(a, mid);
    MapPermutes(CanonicalService, mid.services, b.services);
    MapPermutes(CanonicalRoute, mid.routes, b.routes);
    MapPermutes(CanonicalBackend, mid.backends, b.backends);
    MapPermutes(CanonicalProfile, mid.profiles, b.profiles);
  }

  lemma OneForm(cfg: Config, c: Canonical, d: Canonical)
    requires NoAmbiguousIds(cfg) && IsCanonical(cfg, c) && IsCanonical(cfg, d)
    ensures c == d
  {
    SortedUniqueOnlyWithoutTies(Map(CanonicalService, cfg.services), ServiceKey);
    SortedUniqueOnlyWithoutTies(Map(CanonicalRoute, cfg.routes), RouteIdKey);
    SortedUniqueOnlyWithoutTies(Map(CanonicalBackend, cfg.backends), BackendKey);
    SortedUniqueOnlyWithoutTies(Map(CanonicalProfile, cfg.profiles), ProfileKey);
  }

  lemma ReorderedIsShuffled(cfg: Config, other: Config)
    requires ShuffledOutside(cfg, other)
    ensures Shuffled(cfg, other)
  {
    assert ShuffledInside(cfg, cfg);
  }

  /** When identifiers collide, exchanging two entries in the file gives another fingerprint. */
  lemma AmbiguousIdsShow(sorter: Sorter, cfg: Config) returns (other: Config)
    requires GoodSorter(sorter) && !NoAmbiguousIds(cfg)
    ensures Shuffled(cfg, other) && Form(sorter, other) != Form(sorter, cfg)
  {
    hide SortWith, TiesEqual, GoodSorter;
    if !TiesEqual(Map(CanonicalService, cfg.services), ServiceKey) {
      var list := ExchangeShows(sorter, CanonicalService, cfg.services, ServiceKey);
      other := cfg.(services := list);
    } else if !TiesEqual(Map(CanonicalRoute, cfg.routes), RouteIdKey) {
      var list := ExchangeShows(sorter, CanonicalRoute, cfg.routes, RouteIdKey);
      other := cfg.(routes := list);
    } else if !TiesEqual(Map(CanonicalBackend, cfg.backends), BackendKey) {
      var list := ExchangeShows(sorter, CanonicalBackend, cfg.backends, BackendKey);
      other := cfg.(backends := list);
    } else {
      var list := ExchangeShows(sorter, CanonicalProfile, cfg.profiles, ProfileKey);
      other := cfg.(profiles := list);
    }
    ReorderedIsShuffled(cfg, other);
  }

  /** Whatever sort the library uses: all reorderings of a configuration have its fingerprint if and only
      if entries whose trimmed identifiers collide are canonically equal. */
  lemma FingerprintIgnoresOrderExactly(sorter: Sorter, cfg: Config)
    requires GoodSorter(sorter)
    ensures (forall other | Shuffled(cfg, other) :: Form(sorter, other) == Form(sorter, cfg)) <==> NoAmbiguousIds(cfg)
  {
    if NoAmbiguousIds(cfg) {
      forall other | Shuffled(cfg, other)
        ensures Form(sorter, other) == Form(sorter, cfg)
      {
        FormIsCanonical(sorter, cfg);
        FormIsCanonical(sorter, other);
        ShuffledForms(cfg, other, Form(sorter, other));
        OneForm(cfg, Form(sorter, cfg), Form(sorter, other));
      }
    } else {
      var other := AmbiguousIdsShow(sorter, cfg);
    }
  }
}
