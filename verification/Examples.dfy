/** Small validated configurations at which a claim about all configurations would fail. */
module Examples {
  import opened Text
  import opened TrustedProxy
  import opened Config
  import opened Routing
  import opened TlsRuntime

  function OneRoute(hostname: string): Config {
    Config(SCHEMA, [], [Service("s", "", ["b"])],
           [Route("r", "s", hostname, "", [], "", true, RouteTls("disabled", ""))], [Backend("b", "u", true, "")], [])
  }

  lemma OneRouteIsWellFormed(syn: Syntax, hostname: string)
    requires hostname != "" && syn.urlOk("u")
    ensures WellFormed(syn, OneRoute(hostname))
  {
    TrimOneChar('b');
    TrimOneChar('u');
    var cfg := OneRoute(hostname);
    assert cfg.backends[0] in cfg.backends && cfg.services[0] in cfg.services;
  }

  lemma OneCandidate(cfg: Config)
    requires cfg.services == [Service("s", "", ["b"])] && cfg.backends == [Backend("b", "u", true, "")]
    ensures forall r: Route | r.serviceId == "s" :: Candidates(cfg, r) == cfg.backends
  {
    assert ["b"][..0] == [];
    assert EnabledBackends(cfg.backends, ["b"][..0]) == [];
    assert EnabledBackends(cfg.backends, ["b"]) == cfg.backends;
  }

  lemma OneRouteResolves(hostname: string, host: string)
    requires ':' !in host
    ensures Resolve(OneRoute(hostname), Request(host, "/", "GET", false)).Some? <==> EqualFold(host, hostname)
  {
    var cfg, req := OneRoute(hostname), Request(host, "/", "GET", false);
    ResolveAnswers(cfg, req);
    NoColon(host);
    var r := cfg.routes[0];
    assert r in cfg.routes;
    OneCandidate(cfg);
    assert Eligible(cfg, req, r) <==> EqualFold(host, hostname);
  }

  lemma NoColon(s: string)
    requires ':' !in s
    ensures Before(s, ':') == s
  {
  }

  /** Two enabled routes with one identifier on different hosts. */
  function TwoRoutes(first: string, second: string): Config {
    var cfg := OneRoute(first);
    cfg.(routes := cfg.routes + OneRoute(second).routes)
  }

  lemma TwoRoutesAreWellFormed(syn: Syntax, first: string, second: string)
    requires first != "" && second != "" && |first| == |second| && Lower(first) != Lower(second) && syn.urlOk("u")
    ensures WellFormed(syn, TwoRoutes(first, second))
  {
    OneRouteIsWellFormed(syn, first);
    OneRouteIsWellFormed(syn, second);
    var cfg := TwoRoutes(first, second);
    KeysDiffer(first, second);
    assert RouteKey(cfg.routes[0]) != RouteKey(cfg.routes[1]);
    assert OneRoute(first).routes[0] in OneRoute(first).routes && OneRoute(second).routes[0] in OneRoute(second).routes;
  }

  lemma KeysDiffer(first: string, second: string)
    requires |first| == |second| && Lower(first) != Lower(second)
    ensures RouteKey(OneRoute(first).routes[0]) != RouteKey(OneRoute(second).routes[0])
  {
    var n := |first|;
    assert RouteKey(OneRoute(first).routes[0])[..n] == Lower(first);
    assert RouteKey(OneRoute(second).routes[0])[..n] == Lower(second);
  }

  // ---- an empty prefix and "/" ----

  /** A route for any method without a prefix, then one for GET with the prefix "/". */
  function EmptyThenSlash(): Config {
    var cfg := OneRoute("h");
    cfg.(routes := [cfg.routes[0], cfg.routes[0].(id := "q", pathPrefix := "/", methods := ["GET"])])
  }

  lemma EmptyThenSlashIsWellFormed(syn: Syntax)
    requires syn.urlOk("u")
    ensures WellFormed(syn, EmptyThenSlash())
  {
    OneRouteIsWellFormed(syn, "h");
    var cfg := EmptyThenSlash();
    assert OneRoute("h").routes[0] in OneRoute("h").routes;
    assert |RouteKey(cfg.routes[0])| == 4 && |RouteKey(cfg.routes[1])| == 7;
  }

  /** The later route answers a GET request, although both prefixes stand for "/" and the other route comes
      first in the file. */
  lemma SlashWinsOverEmpty(syn: Syntax)
    requires syn.urlOk("u")
    ensures var cfg, req := EmptyThenSlash(), Request("h", "/", "GET", false);
      WellFormed(syn, cfg) && IsAnswer(cfg, req, 1) && IsNormalAnswer(cfg, req, 0)
  {
    var cfg, req := EmptyThenSlash(), Request("h", "/", "GET", false);
    EmptyThenSlashIsWellFormed(syn);
    OneCandidate(cfg);
    NoColon("h");
    assert EqualFold("GET", "GET") && cfg.routes[1].methods[0] == "GET";
    assert Eligible(cfg, req, cfg.routes[0]) && Eligible(cfg, req, cfg.routes[1]);
  }

  // ---- a profile name with a space ----

  /** A required-TLS route that names the only profile with a space in front. */
  function SpacedProfile(): Config {
    var cfg := OneRoute("h");
    cfg.(routes := [cfg.routes[0].(tls := RouteTls("required", " p"))], profiles := [CertificateProfile("p", "c", "k", true)])
  }

  /** Validation accepts it, and no certificate inventory can be built for it. */
  lemma SpacedProfileIsNotServable(syn: Syntax)
    requires syn.urlOk("u")
    ensures WellFormed(syn, SpacedProfile()) && !Servable(syn, SpacedProfile())
  {
    var cfg := SpacedProfile();
    TrimOneChar('p');
    TrimOneChar('c');
    TrimOneChar('k');
    TrimOneChar('b');
    TrimOneChar('u');
    assert TrimLeft(" p") == "p" by {
      assert " p"[1..] == "p";
    }
    assert cfg.backends[0] in cfg.backends && cfg.services[0] in cfg.services && cfg.profiles[0] in cfg.profiles;
    assert cfg.routes[0] in cfg.routes && NeedsCertificate(cfg.routes[0]);
    assert !HasProfile(cfg, cfg.routes[0]);
  }
}
