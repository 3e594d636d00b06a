/** Certificate choice by server name, and the reload that keeps listener and proxy together. */
module TlsRuntime {
  import opened Text
  import opened TrustedProxy
  import opened Config
  import opened Certificates

  predicate NeedsCertificate(r: Route) {
    r.enabled && r.tls.mode == "required"
  }

  /** The profile a route names. The name is taken as written, although validation trims it. */
  predicate OwnProfile(cfg: Config, r: Route, p: CertificateProfile) {
    p in cfg.profiles && p.id == r.tls.profile && p.enabled
  }

  ghost predicate HasProfile(cfg: Config, r: Route) {
    exists p :: OwnProfile(cfg, r, p)
  }

  ghost predicate NoHostConflict(cfg: Config) {
    forall r, q | r in cfg.routes && q in cfg.routes && NeedsCertificate(r) && NeedsCertificate(q)
      && HostName(r.hostname) == HostName(q.hostname) :: r.tls.profile == q.tls.profile
  }

  /** The configurations for which an inventory exists. */
  ghost predicate Servable(syn: Syntax, cfg: Config) {
    && WellFormed(syn, cfg)
    && (forall r | r in cfg.routes && NeedsCertificate(r) :: HasProfile(cfg, r))
    && NoHostConflict(cfg)
  }

  lemma ServableMeans(syn: Syntax, cfg: Config)
    ensures Servable(syn, cfg) <==>
      && WellFormed(syn, cfg)
      && (forall q | q in cfg.routes && q.enabled && q.tls.mode == "required" ::
            exists p :: p in cfg.profiles && p.id == q.tls.profile && p.enabled)
      && (forall q, o | q in cfg.routes && o in cfg.routes && q.enabled && o.enabled && q.tls.mode == o.tls.mode == "required"
            && HostName(q.hostname) == HostName(o.hostname) :: q.tls.profile == o.tls.profile)
  {
    hide WellFormed, HostName;
    forall q
      ensures HasProfile(cfg, q) <==> exists p :: p in cfg.profiles && p.id == q.tls.profile && p.enabled
    {
      if p :| p in cfg.profiles && p.id == q.tls.profile && p.enabled {
        assert OwnProfile(cfg, q, p);
      }
    }
  }

  type Inventory = map<string, CertificateProfile>

  /** Exactly the required-TLS host names of `routes`, each with the profile its routes name. */
  ghost predicate Inventories(cfg: Config, routes: seq<Route>, inventory: Inventory) {
    && (forall host | host in inventory ::
          exists r :: r in routes && NeedsCertificate(r) && HostName(r.hostname) == host && OwnProfile(cfg, r, inventory[host]))
    && (forall r | r in routes && NeedsCertificate(r) ::
          HostName(r.hostname) in inventory && OwnProfile(cfg, r, inventory[HostName(r.hostname)]))
  }

  method NewInventory(syn: Syntax, cfg: Config) returns (r: Option<Inventory>)
    ensures r.Some? <==> Servable(syn, cfg)
    ensures r.Some? <==>
      && WellFormed(syn, cfg)
      && (forall q | q in cfg.routes && q.enabled && q.tls.mode == "required" ::
            exists p :: p in cfg.profiles && p.id == q.tls.profile && p.enabled)
      && (forall q, o | q in cfg.routes && o in cfg.routes && q.enabled && o.enabled && q.tls.mode == o.tls.mode == "required"
            && HostName(q.hostname) == HostName(o.hostname) :: q.tls.profile == o.tls.profile)
    ensures r.Some? ==> Inventories(cfg, cfg.routes, r.value)
  {
    ServableMeans(syn, cfg);
    var ok := Validate(syn, cfg);
    if !ok {
      return None;
    }
    var _, profiles := ValidateProfiles(cfg.profiles);
    r := CollectHosts(cfg, profiles);
  }

  ghost predicate ProfileMap(list: seq<CertificateProfile>, profiles: map<string, CertificateProfile>) {
    && (forall id :: id in profiles <==> exists p | p in list :: p.id == id)
    && (forall id | id in profiles :: profiles[id] in list && profiles[id].id == id)
  }

  method CollectHosts(cfg: Config, profiles: map<string, CertificateProfile>) returns (r: Option<Inventory>)
    requires Distinct(cfg.profiles, ProfileId) && ProfileMap(cfg.profiles, profiles)
    ensures r.Some? <==> (forall q | q in cfg.routes && NeedsCertificate(q) :: HasProfile(cfg, q)) && NoHostConflict(cfg)
    ensures r.Some? ==> Inventories(cfg, cfg.routes, r.value)
  {
    var inventory: Inventory := map[];
    for i := 0 to |cfg.routes|
      invariant Inventories(cfg, cfg.routes[..i], inventory)
    {
      var route := cfg.routes[i];
      ghost var done := cfg.routes[..i];
      assert cfg.routes[..i + 1] == done + [route];
      if NeedsCertificate(route) {
        assert route in cfg.routes;
        OwnProfileByMap(cfg, route, profiles);
        if route.tls.profile !in profiles || !profiles[route.tls.profile].enabled {
          return None;
        }
        var profile := profiles[route.tls.profile];
        var host := HostName(route.hostname);
        if host in inventory && inventory[host].id != profile.id {
          HostConflict(cfg, done, inventory, route);
          return None;
        }
        ExtendInventory(cfg, done, inventory, route, profile);
        inventory := inventory[host := profile];
      } else {
        SkipRoute(cfg, done, inventory, route);
      }
    }
    assert cfg.routes[..|cfg.routes|] == cfg.routes;
    InventoryIsComplete(cfg, inventory);
    return Some(inventory);
  }

  lemma HostConflict(cfg: Config, routes: seq<Route>, inventory: Inventory, r: Route)
    requires Inventories(cfg, routes, inventory) && routes <= cfg.routes && r in cfg.routes && NeedsCertificate(r)
    requires HostName(r.hostname) in inventory && inventory[HostName(r.hostname)].id != r.tls.profile
    ensures !NoHostConflict(cfg)
  {
    var host := HostName(r.hostname);
    var q :| q in routes && NeedsCertificate(q) && HostName(q.hostname) == host && OwnProfile(cfg, q, inventory[host]);
    assert q in cfg.routes;
  }

  lemma SkipRoute(cfg: Config, routes: seq<Route>, inventory: Inventory, r: Route)
    requires Inventories(cfg, routes, inventory) && !NeedsCertificate(r)
    ensures Inventories(cfg, routes + [r], inventory)
  {
    forall h | h in inventory
      ensures exists q :: q in routes + [r] && NeedsCertificate(q) && HostName(q.hostname) == h && OwnProfile(cfg, q, inventory[h])
    {
      var q :| q in routes && NeedsCertificate(q) && HostName(q.hostname) == h && OwnProfile(cfg, q, inventory[h]);
      assert q in routes + [r];
    }
  }

  lemma InventoryIsComplete(cfg: Config, inventory: Inventory)
    requires Inventories(cfg, cfg.routes, inventory)
    ensures NoHostConflict(cfg) && forall q | q in cfg.routes && NeedsCertificate(q) :: HasProfile(cfg, q)
  {
  }

  lemma OwnProfileByMap(cfg: Config, r: Route, profiles: map<string, CertificateProfile>)
    requires Distinct(cfg.profiles, ProfileId) && ProfileMap(cfg.profiles, profiles)
    ensures forall p :: OwnProfile(cfg, r, p) <==>
      r.tls.profile in profiles && p == profiles[r.tls.profile] && p.enabled
  {
    forall p | p in cfg.profiles && p.id == r.tls.profile
      ensures p == profiles[r.tls.profile]
    {
      Found(cfg.profiles, ProfileId, p.id, p);
      Found(cfg.profiles, ProfileId, p.id, profiles[p.id]);
    }
  }

  lemma SameProfile(cfg: Config, r: Route, q: Route, p: CertificateProfile, o: CertificateProfile)
    requires Distinct(cfg.profiles, ProfileId) && OwnProfile(cfg, r, p) && OwnProfile(cfg, q, o)
    ensures p == o <==> r.tls.profile == q.tls.profile
  {
    Found(cfg.profiles, ProfileId, p.id, p);
    Found(cfg.profiles, ProfileId, p.id, o);
  }

  lemma ExtendInventory(cfg: Config, routes: seq<Route>, inventory: Inventory, r: Route, p: CertificateProfile)
    requires Distinct(cfg.profiles, ProfileId) && Inventories(cfg, routes, inventory)
    requires NeedsCertificate(r) && OwnProfile(cfg, r, p)
    requires HostName(r.hostname) in inventory ==> inventory[HostName(r.hostname)].id == p.id
    ensures Inventories(cfg, routes + [r], inventory[HostName(r.hostname) := p])
  {
    var host := HostName(r.hostname);
    if host in inventory {
      Found(cfg.profiles, ProfileId, p.id, p);
      Found(cfg.profiles, ProfileId, p.id, inventory[host]);
    }
    var extended := inventory[host := p];
    assert r in routes + [r];
    forall h | h in extended
      ensures exists q :: q in routes + [r] && NeedsCertificate(q) && HostName(q.hostname) == h && OwnProfile(cfg, q, extended[h])
    {
      if h != host {
        var q :| q in routes && NeedsCertificate(q) && HostName(q.hostname) == h && OwnProfile(cfg, q, inventory[h]);
        assert q in routes + [r];
      }
    }
  }

  // ---- the runtime ----

  datatype Runtime = Runtime(inventory: Inventory, loaded: map<string, Pair>)

  /** Every enabled profile's pair could be loaded from the files that could be read. */
  predicate AllLoad(profiles: seq<CertificateProfile>, files: map<string, Bytes>) {
    forall p | p in profiles && p.enabled :: Readable(files, p.certificateFile, p.privateKeyFile)
  }

  ghost predicate LoadedFrom(profiles: seq<CertificateProfile>, files: map<string, Bytes>, loaded: map<string, Pair>) {
    && AllLoad(profiles, files)
    && forall p | p in profiles && p.enabled ::
         p.id in loaded && loaded[p.id] == Pair(files[p.certificateFile], files[p.privateKeyFile])
  }

  ghost predicate RuntimeOf(syn: Syntax, cfg: Config, files: map<string, Bytes>, rt: Runtime) {
    Servable(syn, cfg) && Inventories(cfg, cfg.routes, rt.inventory) && LoadedFrom(cfg.profiles, files, rt.loaded)
  }

  method NewRuntime(syn: Syntax, cfg: Config, files: map<string, Bytes>) returns (r: Option<Runtime>)
    ensures r.Some? <==> Servable(syn, cfg) && AllLoad(cfg.profiles, files)
    ensures r.Some? <==>
      && Servable(syn, cfg)
      && forall p | p in cfg.profiles && p.enabled ::
        && p.certificateFile in files && files[p.certificateFile].CertificatePem?
        && p.privateKeyFile in files && files[p.privateKeyFile].PrivateKeyPem?
        && files[p.certificateFile].leaf.keyId == files[p.privateKeyFile].keyId
    ensures r.Some? ==> RuntimeOf(syn, cfg, files, r.value)
  {
    var inventory := NewInventory(syn, cfg);
    if inventory.None? {
      return None;
    }
    var loaded: map<string, Pair> := map[];
    for i := 0 to |cfg.profiles|
      invariant LoadedFrom(cfg.profiles[..i], files, loaded)
      invariant forall id | id in loaded :: exists k | 0 <= k < i :: cfg.profiles[k].id == id
    {
      var p := cfg.profiles[i];
      assert cfg.profiles[..i + 1] == cfg.profiles[..i] + [p];
      assert p in cfg.profiles;
      if p.enabled {
        if !Readable(files, p.certificateFile, p.privateKeyFile) {
          return None;
        }
        assert p.id !in loaded;
        loaded := loaded[p.id := Pair(files[p.certificateFile], files[p.privateKeyFile])];
      }
    }
    assert cfg.profiles[..|cfg.profiles|] == cfg.profiles;
    return Some(Runtime(inventory.value, loaded));
  }

  /** The certificate offered to a client that asks for `serverName`. */
  function GetCertificate(rt: Runtime, serverName: string): Option<Pair> {
    if Blank(serverName) then None
    else
      var host := HostName(serverName);
      if host in rt.inventory && rt.inventory[host].id in rt.loaded then Some(rt.loaded[rt.inventory[host].id]) else None
  }

  /** A client is offered a pair exactly when the name is that of a required-TLS route, and then it is
      the pair of that route's own profile, whichever of the routes with that name is meant. */
  lemma EveryRouteGetsItsCertificate(syn: Syntax, cfg: Config, files: map<string, Bytes>, rt: Runtime, name: string, pair: Pair)
    requires RuntimeOf(syn, cfg, files, rt) && !Blank(name)
    ensures GetCertificate(rt, name) == Some(pair) <==>
      exists r, p :: r in cfg.routes && NeedsCertificate(r) && HostName(r.hostname) == HostName(name)
        && OwnProfile(cfg, r, p) && pair == Pair(files[p.certificateFile], files[p.privateKeyFile])
    ensures forall r, p | r in cfg.routes && NeedsCertificate(r) && HostName(r.hostname) == HostName(name) && OwnProfile(cfg, r, p) ::
      GetCertificate(rt, name) == Some(Pair(files[p.certificateFile], files[p.privateKeyFile]))
  {
    var host := HostName(name);
    forall r, p | r in cfg.routes && NeedsCertificate(r) && HostName(r.hostname) == host && OwnProfile(cfg, r, p)
      ensures GetCertificate(rt, name) == Some(Pair(files[p.certificateFile], files[p.privateKeyFile]))
    {
      SameProfile(cfg, r, r, p, rt.inventory[host]);
    }
    if GetCertificate(rt, name).Some? {
      var r :| r in cfg.routes && NeedsCertificate(r) && HostName(r.hostname) == host && OwnProfile(cfg, r, rt.inventory[host]);
      assert OwnProfile(cfg, r, rt.inventory[host]);
    }
  }

  /** The route and the profile behind an offered pair. */
  lemma OfferComesFrom(syn: Syntax, cfg: Config, files: map<string, Bytes>, rt: Runtime, name: string)
    returns (r: Route, p: CertificateProfile)
    requires RuntimeOf(syn, cfg, files, rt) && GetCertificate(rt, name).Some?
    ensures !Blank(name) && r in cfg.routes && NeedsCertificate(r) && HostName(r.hostname) == HostName(name) && OwnProfile(cfg, r, p)
    ensures p.certificateFile in files && p.privateKeyFile in files
    ensures GetCertificate(rt, name) == Some(Pair(files[p.certificateFile], files[p.privateKeyFile]))
  {
    hide NeedsCertificate, HostName;
    var pair := GetCertificate(rt, name).value;
    EveryRouteGetsItsCertificate(syn, cfg, files, rt, name, pair);
    r, p :| r in cfg.routes && NeedsCertificate(r) && HostName(r.hostname) == HostName(name)
      && OwnProfile(cfg, r, p) && pair == Pair(files[p.certificateFile], files[p.privateKeyFile]);
  }

  lemma OfferedAlso(syn: Syntax, a: Config, b: Config, files: map<string, Bytes>, ra: Runtime, rb: Runtime, name: string)
    requires b == a.(routes := b.routes) && forall r | r in a.routes :: r in b.routes
    requires RuntimeOf(syn, a, files, ra) && RuntimeOf(syn, b, files, rb)
    ensures GetCertificate(ra, name).Some? ==> GetCertificate(rb, name) == GetCertificate(ra, name)
  {
    hide NeedsCertificate, HostName, RuntimeOf, GetCertificate;
    if GetCertificate(ra, name).Some? {
      var r, p := OfferComesFrom(syn, a, files, ra, name);
      assert OwnProfile(b, r, p);
      var pair := Pair(files[p.certificateFile], files[p.privateKeyFile]);
      EveryRouteGetsItsCertificate(syn, b, files, rb, name, pair);
    }
  }

  /** The choice does not depend on the order of routes in the file. */
  lemma CertificateIgnoresRouteOrder(syn: Syntax, a: Config, b: Config, files: map<string, Bytes>, ra: Runtime, rb: Runtime, name: string)
    requires b == a.(routes := b.routes) && multiset(a.routes) == multiset(b.routes)
    requires RuntimeOf(syn, a, files, ra) && RuntimeOf(syn, b, files, rb)
    ensures GetCertificate(ra, name) == GetCertificate(rb, name)
  {
    forall r
      ensures r in a.routes <==> r in b.routes
    {
      assert r in multiset(a.routes) <==> r in multiset(b.routes);
    }
    OfferedAlso(syn, a, b, files, ra, rb, name);
    OfferedAlso(syn, b, a, files, rb, ra, name);
  }

  // ---- reload ----

  /** The last good runtime. A rejected reload leaves it in place. */
  class Reloader {
    var runtime: Runtime

    constructor (runtime: Runtime)
      ensures this.runtime == runtime
    {
      this.runtime := runtime;
    }

    method Reload(syn: Syntax, cfg: Config, files: map<string, Bytes>) returns (ok: bool)
      modifies this
      ensures ok <==> Servable(syn, cfg) && AllLoad(cfg.profiles, files)
      ensures ok ==> RuntimeOf(syn, cfg, files, runtime)
      ensures !ok ==> runtime == old(runtime)
    {
      var next := NewRuntime(syn, cfg, files);
      if next.None? {
        return false;
      }
      runtime := next.value;
      return true;
    }
  }

  /** What one reload signal finds: the parsed configuration file, if it parses, and the certificate
      files that can be read at that moment. */
  datatype Hangup = Hangup(candidate: Option<Config>, files: map<string, Bytes>)

  ghost predicate Acceptable(syn: Syntax, https: bool, h: Hangup) {
    && h.candidate.Some? && WellFormed(syn, h.candidate.value)
    && (https ==> Servable(syn, h.candidate.value) && AllLoad(h.candidate.value.profiles, h.files))
  }

  /** The hangup whose configuration is in force after a run of signals. */
  ghost function InForce(syn: Syntax, https: bool, start: Hangup, signals: seq<Hangup>): Hangup {
    if signals == [] then start
    else
      var last := signals[|signals| - 1];
      if Acceptable(syn, https, last) then last else InForce(syn, https, start, signals[..|signals| - 1])
  }

  class Gateway {
    const syn: Syntax
    const https: bool
    const tls: Reloader
    var cfg: Config
    var policy: seq<Prefix>
    var health: map<string, bool>
    ghost var source: Hangup

    /** Listener and proxy run one and the same configuration, the one last accepted. */
    ghost predicate Valid()
      reads this, tls
    {
      && source.candidate == Some(cfg) && WellFormed(syn, cfg)
      && Policy(syn, cfg.trustedProxies) == Some(policy)
      && (https ==> RuntimeOf(syn, cfg, source.files, tls.runtime))
    }

    constructor (syn: Syntax, https: bool, cfg: Config, tls: Reloader, ghost files: map<string, Bytes>)
      requires WellFormed(syn, cfg) && (https ==> RuntimeOf(syn, cfg, files, tls.runtime))
      ensures Valid() && this.https == https && this.syn == syn && this.tls == tls && source == Hangup(Some(cfg), files)
    {
      this.syn, this.https, this.cfg, this.tls := syn, https, cfg, tls;
      this.health := map[];
      this.source := Hangup(Some(cfg), files);
      new;
      var parsed := ParseTrustedProxyPrefixes(syn, cfg.trustedProxies);
      policy := parsed.value;
    }

    /** Replaces the proxy state, unless the trusted proxies do not parse. */
    method ReloadProxy(next: Config)
      modifies this`cfg, this`policy, this`health
      ensures Policy(syn, next.trustedProxies).Some? ==>
        cfg == next && Some(policy) == Policy(syn, next.trustedProxies) && health == map[]
      ensures Policy(syn, next.trustedProxies).None? ==> cfg == old(cfg) && policy == old(policy) && health == old(health)
    {
      var parsed := ParseTrustedProxyPrefixes(syn, next.trustedProxies);
      if parsed.Some? {
        cfg, policy, health := next, parsed.value, map[];
      }
    }

    /** One reload signal: listener first, then proxy; a rejection changes neither. */
    method Reload(h: Hangup)
      requires Valid()
      modifies this, tls
      ensures Valid()
      ensures Acceptable(syn, https, h) ==> source == h && health == map[]
      ensures !Acceptable(syn, https, h) ==> source == old(source) && cfg == old(cfg) && policy == old(policy)
      ensures !Acceptable(syn, https, h) ==> tls.runtime == old(tls.runtime) && health == old(health)
    {
      if h.candidate.None? {
        return;
      }
      var next := h.candidate.value;
      var ok := Validate(syn, next);
      if !ok {
        return;
      }
      if https {
        ok := tls.Reload(syn, next, h.files);
        if !ok {
          return;
        }
      }
      ReloadProxy(next);
      source := h;
    }

    /** Between any two signals, whatever they find, listener and proxy run the last acceptable
        configuration. */
    method Serve(signals: seq<Hangup>)
      requires Valid()
      modifies this, tls
      ensures Valid() && source == InForce(syn, https, old(source), signals)
    {
      for i := 0 to |signals|
        invariant Valid() && source == InForce(syn, https, old(source), signals[..i])
      {
        assert signals[..i + 1][..i] == signals[..i];
        Reload(signals[i]);
      }
      assert signals[..|signals|] == signals;
    }
  }
}
