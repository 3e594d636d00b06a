/** Gateway configuration: its records, its lookups, and validation against a declared meaning. */
module Config {
  import opened Text
  import opened TrustedProxy

  datatype RouteTls = RouteTls(mode: string, profile: string)

  datatype Service = Service(id: string, name: string, backendIds: seq<string>)

  datatype Route = Route(
    id: string,
    serviceId: string,
    hostname: string,
    pathPrefix: string,
    methods: seq<string>,
    exposure: string,
    enabled: bool,
    tls: RouteTls)

  datatype CertificateProfile = CertificateProfile(id: string, certificateFile: string, privateKeyFile: string, enabled: bool)

  datatype Backend = Backend(id: string, url: string, enabled: bool, healthPath: string)

  datatype Config = Config(
    schema: string,
    trustedProxies: seq<string>,
    services: seq<Service>,
    routes: seq<Route>,
    backends: seq<Backend>,
    profiles: seq<CertificateProfile>)

  const SCHEMA := "goreecloud-gateway-config/v1"

  // ---- lookups ----

  function Find<T>(items: seq<T>, key: T -> string, id: string): Option<T> {
    if items == [] then None
    else if key(items[0]) == id then Some(items[0])
    else Find(items[1..], key, id)
  }

  ghost predicate Distinct<T>(items: seq<T>, key: T -> string) {
    forall i, j | 0 <= i < j < |items| :: key(items[i]) != key(items[j])
  }

  /** With distinct identifiers a lookup is membership. */
  lemma {:induction false} Found<T>(items: seq<T>, key: T -> string, id: string, x: T)
    requires Distinct(items, key)
    ensures Find(items, key, id) == Some(x) <==> x in items && key(x) == id
  {
    if items != [] {
      Found(items[1..], key, id, x);
    }
  }

  function ServiceId(s: Service): string { s.id }

  function BackendId(b: Backend): string { b.id }

  function ProfileId(p: CertificateProfile): string { p.id }

  function RouteId(r: Route): string { r.id }

  // ---- the declared meaning of a valid configuration ----

  predicate HealthPathOk(path: string) {
    var p := Trim(path);
    p == "" || (p[0] == '/' && '?' !in p && '#' !in p)
  }

  predicate ProfileOk(p: CertificateProfile) {
    !Blank(p.id) && (p.enabled ==> !Blank(p.certificateFile) && !Blank(p.privateKeyFile))
  }

  predicate BackendOk(syn: Syntax, b: Backend) {
    !Blank(b.id) && !Blank(b.url) && syn.urlOk(Trim(b.url)) && HealthPathOk(b.healthPath)
  }

  predicate TlsOk(r: Route, profiles: seq<CertificateProfile>) {
    var name := Trim(r.tls.profile);
    if r.tls.mode == "required" then
      name != "" && exists p | p in profiles :: p.id == name && p.enabled
    else r.tls.mode == "disabled" && name == ""
  }

  predicate RouteOk(r: Route, services: seq<Service>, profiles: seq<CertificateProfile>) {
    && (exists s | s in services :: s.id == r.serviceId)
    && r.hostname != ""
    && TlsOk(r, profiles)
  }

  function NormalPrefix(prefix: string): string {
    if prefix == "" then "/" else prefix
  }

  /** Two enabled routes conflict when these texts are equal. */
  function RouteKey(r: Route): string {
    Lower(r.hostname) + "\0" + NormalPrefix(r.pathPrefix) + "\0" + Join(r.methods, ",")
  }

  ghost predicate ProfilesOk(profiles: seq<CertificateProfile>) {
    (forall p | p in profiles :: ProfileOk(p)) && Distinct(profiles, ProfileId)
  }

  ghost predicate BackendsOk(syn: Syntax, backends: seq<Backend>) {
    (forall b | b in backends :: BackendOk(syn, b)) && Distinct(backends, BackendId)
  }

  ghost predicate ServiceOk(s: Service, backends: seq<Backend>) {
    s.id != "" && forall id | id in s.backendIds :: exists b | b in backends :: b.id == id
  }

  ghost predicate ServicesOk(services: seq<Service>, backends: seq<Backend>) {
    (forall s | s in services :: ServiceOk(s, backends)) && Distinct(services, ServiceId)
  }

  ghost predicate RoutesOk(routes: seq<Route>, services: seq<Service>, profiles: seq<CertificateProfile>) {
    && (forall r | r in routes && r.enabled :: RouteOk(r, services, profiles))
    && forall i, j | 0 <= i < j < |routes| && routes[i].enabled && routes[j].enabled ::
         RouteKey(routes[i]) != RouteKey(routes[j])
  }

  ghost predicate WellFormed(syn: Syntax, cfg: Config) {
    && cfg.schema == SCHEMA
    && Policy(syn, cfg.trustedProxies).Some?
    && ProfilesOk(cfg.profiles) && BackendsOk(syn, cfg.backends)
    && ServicesOk(cfg.services, cfg.backends) && RoutesOk(cfg.routes, cfg.services, cfg.profiles)
  }

  // ---- validation as the gateway runs it ----

  lemma ProfilesOkMeans(list: seq<CertificateProfile>)
    ensures ProfilesOk(list) <==>
      && (forall p | p in list :: Trim(p.id) != "" && (p.enabled ==> Trim(p.certificateFile) != "" && Trim(p.privateKeyFile) != ""))
      && forall i, j | 0 <= i < j < |list| :: list[i].id != list[j].id
  {
    hide Trim;
  }

  method ValidateProfiles(list: seq<CertificateProfile>) returns (ok: bool, profiles: map<string, CertificateProfile>)
    ensures ok <==> ProfilesOk(list)
    ensures ok <==>
      && (forall p | p in list :: Trim(p.id) != "" && (p.enabled ==> Trim(p.certificateFile) != "" && Trim(p.privateKeyFile) != ""))
      && forall i, j | 0 <= i < j < |list| :: list[i].id != list[j].id
    ensures ok ==> forall id :: id in profiles <==> exists p | p in list :: p.id == id
    ensures ok ==> forall id | id in profiles :: profiles[id] in list && profiles[id].id == id
  {
    hide Blank, Trim;
    ProfilesOkMeans(list);
    hide ProfileOk;
    profiles := map[];
    for i := 0 to |list|
      invariant ProfilesOk(list[..i])
      invariant forall id :: id in profiles <==> exists k | 0 <= k < i :: list[k].id == id
      invariant forall id | id in profiles :: profiles[id] in list && profiles[id].id == id
    {
      var p := list[i];
      if !ProfileOk(p) || p.id in profiles {
        return false, profiles;
      }
      profiles := profiles[p.id := p];
      assert list[..i + 1] == list[..i] + [p];
    }
    assert list[..|list|] == list;
    ok := true;
  }

  lemma BackendsOkMeans(syn: Syntax, list: seq<Backend>)
    ensures BackendsOk(syn, list) <==>
      && (forall b | b in list ::
            && Trim(b.id) != "" && Trim(b.url) != "" && syn.urlOk(Trim(b.url))
            && var path := Trim(b.healthPath); path != "" ==> path[0] == '/' && '?' !in path && '#' !in path)
      && forall i, j | 0 <= i < j < |list| :: list[i].id != list[j].id
  {
    hide Trim;
  }

  method ValidateBackends(syn: Syntax, list: seq<Backend>) returns (ok: bool, backends: map<string, Backend>)
    ensures ok <==> BackendsOk(syn, list)
    ensures ok <==>
      && (forall b | b in list ::
            && Trim(b.id) != "" && Trim(b.url) != "" && syn.urlOk(Trim(b.url))
            && var path := Trim(b.healthPath); path != "" ==> path[0] == '/' && '?' !in path && '#' !in path)
      && forall i, j | 0 <= i < j < |list| :: list[i].id != list[j].id
    ensures ok ==> forall id :: id in backends <==> exists b | b in list :: b.id == id
  {
    BackendsOkMeans(syn, list);
    hide BackendOk;
    backends := map[];
    for i := 0 to |list|
      invariant BackendsOk(syn, list[..i])
      invariant forall id :: id in backends <==> exists k | 0 <= k < i :: list[k].id == id
    {
      var b := list[i];
      if !BackendOk(syn, b) || b.id in backends {
        return false, backends;
      }
      backends := backends[b.id := b];
      assert list[..i + 1] == list[..i] + [b];
    }
    assert list[..|list|] == list;
    ok := true;
  }

  method ReferencesExist(ids: seq<string>, backends: map<string, Backend>) returns (ok: bool)
    ensures ok <==> forall id | id in ids :: id in backends
  {
    for i := 0 to |ids|
      invariant forall k | 0 <= k < i :: ids[k] in backends
    {
      if ids[i] !in backends {
        return false;
      }
    }
    ok := true;
  }

  method ValidateServices(list: seq<Service>, backendList: seq<Backend>, backends: map<string, Backend>)
    returns (ok: bool, services: map<string, Service>)
    requires forall id :: id in backends <==> exists b | b in backendList :: b.id == id
    ensures ok <==> ServicesOk(list, backendList)
    ensures ok <==>
      && (forall s | s in list :: s.id != "" && forall id | id in s.backendIds :: exists b | b in backendList :: b.id == id)
      && forall i, j | 0 <= i < j < |list| :: list[i].id != list[j].id
    ensures ok ==> forall id :: id in services <==> exists s | s in list :: s.id == id
  {
    services := map[];
    for i := 0 to |list|
      invariant ServicesOk(list[..i], backendList)
      invariant forall id :: id in services <==> exists k | 0 <= k < i :: list[k].id == id
    {
      var s := list[i];
      var references := ReferencesExist(s.backendIds, backends);
      assert references <==> forall id | id in s.backendIds :: exists b | b in backendList :: b.id == id;
      if s.id == "" || s.id in services || !references {
        assert s in list;
        return false, services;
      }
      services := services[s.id := s];
      assert list[..i + 1] == list[..i] + [s];
    }
    assert list[..|list|] == list;
    ok := true;
  }

  predicate TlsReferenceOk(r: Route, profiles: map<string, CertificateProfile>) {
    var name := Trim(r.tls.profile);
    if r.tls.mode == "required" then name != "" && name in profiles && profiles[name].enabled
    else r.tls.mode == "disabled" && name == ""
  }

  method ValidateRoutes(list: seq<Route>, serviceList: seq<Service>, profileList: seq<CertificateProfile>,
                        services: map<string, Service>, profiles: map<string, CertificateProfile>) returns (ok: bool)
    requires Distinct(profileList, ProfileId)
    requires forall id :: id in services <==> exists s | s in serviceList :: s.id == id
    requires forall id :: id in profiles <==> exists p | p in profileList :: p.id == id
    requires forall id | id in profiles :: profiles[id] in profileList && profiles[id].id == id
    ensures ok <==> RoutesOk(list, serviceList, profileList)
    ensures ok <==>
      && (forall r | r in list && r.enabled ::
            && (exists s | s in serviceList :: s.id == r.serviceId) && r.hostname != ""
            && var name := Trim(r.tls.profile);
            || (r.tls.mode == "required" && name != "" && exists p | p in profileList :: p.id == name && p.enabled)
            || (r.tls.mode == "disabled" && name == ""))
      && forall i, j | 0 <= i < j < |list| && list[i].enabled && list[j].enabled :: !Conflict(list[i], list[j])
  {
    RoutesOkMeans(list, serviceList, profileList);
    ok := CheckRoutes(list, serviceList, profileList, services, profiles);
  }

  method CheckRoutes(list: seq<Route>, serviceList: seq<Service>, profileList: seq<CertificateProfile>,
                     services: map<string, Service>, profiles: map<string, CertificateProfile>) returns (ok: bool)
    requires Distinct(profileList, ProfileId)
    requires forall id :: id in services <==> exists s | s in serviceList :: s.id == id
    requires forall id :: id in profiles <==> exists p | p in profileList :: p.id == id
    requires forall id | id in profiles :: profiles[id] in profileList && profiles[id].id == id
    ensures ok <==> RoutesOk(list, serviceList, profileList)
  {
    hide TlsOk, TlsReferenceOk, RouteKey;
    var seen: map<string, string> := map[];
    for i := 0 to |list|
      invariant RoutesOk(list[..i], serviceList, profileList)
      invariant forall key :: key in seen <==> exists k | 0 <= k < i :: list[k].enabled && RouteKey(list[k]) == key
    {
      var r := list[i];
      assert list[..i + 1] == list[..i] + [r];
      if r.enabled {
        assert TlsReferenceOk(r, profiles) <==> TlsOk(r, profileList) by {
          TlsReferenceMeans(r, profileList, profiles);
        }
        if r.serviceId !in services || r.hostname == "" || !TlsReferenceOk(r, profiles) {
          assert r in list;
          return false;
        }
        var key := RouteKey(r);
        if key in seen {
          return false;
        }
        seen := seen[key := r.id];
      }
    }
    assert list[..|list|] == list;
    ok := true;
  }

  /** Two routes conflict when host without case, prefix and the list of methods are the same, each list joined
      by commas; a "\0" in a host or prefix can make other routes conflict too. */
  ghost predicate Conflict(r: Route, q: Route) {
    && var p, o := if r.pathPrefix == "" then "/" else r.pathPrefix, if q.pathPrefix == "" then "/" else q.pathPrefix;
    Lower(r.hostname) + "\0" + p + "\0" + Join(r.methods, ",") == Lower(q.hostname) + "\0" + o + "\0" + Join(q.methods, ",")
  }

  lemma RoutesOkMeans(list: seq<Route>, services: seq<Service>, profiles: seq<CertificateProfile>)
    ensures RoutesOk(list, services, profiles) <==>
      && (forall r | r in list && r.enabled ::
            && (exists s | s in services :: s.id == r.serviceId) && r.hostname != ""
            && var name := Trim(r.tls.profile);
            || (r.tls.mode == "required" && name != "" && exists p | p in profiles :: p.id == name && p.enabled)
            || (r.tls.mode == "disabled" && name == ""))
      && forall i, j | 0 <= i < j < |list| && list[i].enabled && list[j].enabled :: !Conflict(list[i], list[j])
  {
    forall i, j | 0 <= i < j < |list|
      ensures Conflict(list[i], list[j]) <==> RouteKey(list[i]) == RouteKey(list[j])
    {
    }
  }

  lemma TlsReferenceMeans(r: Route, list: seq<CertificateProfile>, profiles: map<string, CertificateProfile>)
    requires Distinct(list, ProfileId)
    requires forall id :: id in profiles <==> exists p | p in list :: p.id == id
    requires forall id | id in profiles :: profiles[id] in list && profiles[id].id == id
    ensures TlsReferenceOk(r, profiles) <==> TlsOk(r, list)
  {
    var name := Trim(r.tls.profile);
    if name in profiles {
      Found(list, ProfileId, name, profiles[name]);
      forall p | p in list && p.id == name
        ensures p == profiles[name]
      {
        Found(list, ProfileId, name, p);
      }
    }
  }

  /** Validation accepts exactly the well-formed configurations. */
  method Validate(syn: Syntax, cfg: Config) returns (ok: bool)
    ensures ok <==> WellFormed(syn, cfg)
    ensures ok ==> cfg.schema == "goreecloud-gateway-config/v1" && forall e | e in cfg.trustedProxies :: ParseEntry(syn, e).Some?
  {
    if cfg.schema != SCHEMA {
      return false;
    }
    var policy := ParseTrustedProxyPrefixes(syn, cfg.trustedProxies);
    if policy.None? {
      return false;
    }
    forall e | e in cfg.trustedProxies
      ensures ParseEntry(syn, e).Some?
    {
      var i :| 0 <= i < |cfg.trustedProxies| && cfg.trustedProxies[i] == e;
    }
    var profilesOk, profiles := ValidateProfiles(cfg.profiles);
    if !profilesOk {
      return false;
    }
    var backendsOk, backends := ValidateBackends(syn, cfg.backends);
    if !backendsOk {
      return false;
    }
    var servicesOk, services := ValidateServices(cfg.services, cfg.backends, backends);
    if !servicesOk {
      return false;
    }
    ok := ValidateRoutes(cfg.routes, cfg.services, cfg.profiles, services, profiles);
  }
}
