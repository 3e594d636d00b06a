/** DNS-01 issuance as a trace of effects. Everything outside (the CA, the DNS provider, the resolver) is
    a `World` that may answer each call in any way, depending on all that happened before. */
module Issuance {
  import opened Text
  import opened ChallengeNames
  import opened RenewalStaging

  /** The token and the URI of a challenge. */
  datatype Challenge = Challenge(kind: string, status: string, token: string, uri: string)

  datatype Identifier = Identifier(kind: string, value: string)

  datatype Authorization = Authorization(
    uri: string,
    identifier: Identifier,
    wildcard: bool,
    status: string,
    challenges: seq<Option<Challenge>>)

  datatype Order = Order(
    uri: string,
    status: string,
    authzUrls: seq<string>,
    identifiers: seq<Identifier>,
    finalizeUrl: string)

  /** What the provider needs to delete exactly the record it made. */
  datatype Record = Record(zone: string, name: string, id: string)

  /** One DER-encoded item. */
  type Der = seq<nat>

  /** One call to the outside with its answer; `None` is an error or an absent result. */
  datatype Event =
    | AccountRead(account: Option<string>)
    | OrderPlaced(names: seq<string>, order: Option<Order>)
    | Retrieved(url: string, authorization: Option<Authorization>)
    | Presented(name: string, value: string, record: Option<Record>)
    | Observed(fqdn: string, content: string, seen: bool)
    | Accepted(challenge: Challenge, accepted: bool)
    | Waited(uri: string, status: Option<string>)
    | CleanedUp(removed: Record, cleaned: bool)
    | OrderWaited(orderUri: string, ready: Option<Order>)
    | Finalized(finalizeUrl: string, requested: seq<string>, chain: Option<seq<Der>>)

  type Trace = seq<Event>

  datatype World = World(
    account: Trace -> Option<string>,
    order: (Trace, seq<string>) -> Option<Order>,
    authorization: (Trace, string) -> Option<Authorization>,
    challengeValue: string -> Option<string>,
    present: (Trace, string, string) -> Option<Record>,
    observe: (Trace, string, string) -> bool,
    accept: (Trace, Challenge) -> bool,
    wait: (Trace, string) -> Option<string>,
    cleanUp: (Trace, Record) -> bool,
    waitOrder: (Trace, string) -> Option<Order>,
    certificateKey: Option<Der>,
    finalize: (Trace, string, seq<string>) -> Option<seq<Der>>,
    encodeKey: Der -> Option<Der>)

  datatype Result = Issued(chain: seq<Der>, key: Der) | Failed

  // ---- what is checked on the way ----

  function Wanted(requested: seq<string>): set<string> {
    set name | name in requested :: HostName(name)
  }

  predicate OrderOk(order: Order, requested: seq<string>) {
    && !Blank(order.uri)
    && (order.status == "pending" || order.status == "ready")
    && (order.authzUrls == [] ==> order.status != "pending")
    && |order.identifiers| == |Wanted(requested)|
    && forall i | 0 <= i < |order.identifiers| ::
         order.identifiers[i].kind == "dns" && HostName(order.identifiers[i].value) in Wanted(requested)
  }

  lemma WantedGrows(requested: seq<string>, i: nat)
    requires i < |requested|
    ensures Wanted(requested[..i + 1]) == Wanted(requested[..i]) + {HostName(requested[i])}
  {
    assert requested[..i + 1] == requested[..i] + [requested[i]];
  }

  method ValidateOrder(order: Order, requested: seq<string>) returns (ok: bool)
    ensures ok == OrderOk(order, requested)
    ensures ok <==>
      && Trim(order.uri) != "" && (order.status == "ready" || (order.status == "pending" && order.authzUrls != []))
      && |order.identifiers| == |set name | name in requested :: HostName(name)|
      && forall i | 0 <= i < |order.identifiers| ::
           && order.identifiers[i].kind == "dns"
           && exists name :: name in requested && HostName(name) == HostName(order.identifiers[i].value)
  {
    if Blank(order.uri) || (order.status != "pending" && order.status != "ready") {
      return false;
    }
    if order.authzUrls == [] && order.status == "pending" {
      return false;
    }
    var want := {};
    for i := 0 to |requested|
      invariant want == Wanted(requested[..i])
    {
      WantedGrows(requested, i);
      want := want + {HostName(requested[i])};
    }
    assert requested[..|requested|] == requested;
    if |order.identifiers| != |want| {
      return false;
    }
    for i := 0 to |order.identifiers|
      invariant forall k | 0 <= k < i ::
        order.identifiers[k].kind == "dns" && HostName(order.identifiers[k].value) in want
    {
      if order.identifiers[i].kind != "dns" || HostName(order.identifiers[i].value) !in want {
        return false;
      }
    }
    return true;
  }

  /** The requested name an authorization is for. */
  function RequestedName(a: Authorization, requested: seq<string>): Option<string> {
    var base := HostName(a.identifier.value);
    if a.identifier.kind != "dns" || base == "" then None
    else
      var name := if a.wildcard then "*." + base else base;
      if name in Wanted(requested) then Some(name) else None
  }

  method FindRequestedName(a: Authorization, requested: seq<string>) returns (found: Option<string>)
    ensures found == RequestedName(a, requested)
    ensures var base := HostName(a.identifier.value); var full := if a.wildcard then "*." + base else base;
      && (found == None || found == Some(full))
      && (found.Some? <==> a.identifier.kind == "dns" && base != "" && exists name :: name in requested && HostName(name) == full)
  {
    var base := HostName(a.identifier.value);
    if a.identifier.kind != "dns" || base == "" {
      return None;
    }
    var name := if a.wildcard then "*." + base else base;
    for i := 0 to |requested|
      invariant name !in Wanted(requested[..i])
    {
      WantedGrows(requested, i);
      if HostName(requested[i]) == name {
        return Some(name);
      }
    }
    assert requested[..|requested|] == requested;
    return None;
  }

  /** A pending DNS-01 challenge. */
  predicate Usable(offer: Option<Challenge>) {
    offer.Some? && offer.value.kind == "dns-01" && offer.value.status == "pending"
  }

  /** The first pending DNS-01 challenge on offer. */
  function PendingChallenge(offered: seq<Option<Challenge>>): Option<Challenge> {
    if offered == [] then None
    else if Usable(offered[0]) then offered[0]
    else PendingChallenge(offered[1..])
  }

  /** The challenge at `i` is pending, for DNS-01, and the first of that kind. */
  ghost predicate FirstDns(offered: seq<Option<Challenge>>, i: int) {
    && 0 <= i < |offered| && offered[i].Some?
    && offered[i].value.kind == "dns-01" && offered[i].value.status == "pending"
    && forall k | 0 <= k < i && offered[k].Some? :: offered[k].value.kind != "dns-01" || offered[k].value.status != "pending"
  }

  method FindPendingChallenge(offered: seq<Option<Challenge>>) returns (found: Option<Challenge>)
    ensures found == PendingChallenge(offered)
    ensures found.Some? ==> exists i :: FirstDns(offered, i) && offered[i] == found
    ensures found.Some? ==> found in offered && found.value.kind == "dns-01" && found.value.status == "pending"
    ensures found.None? <==>
      forall offer | offer in offered && offer.Some? :: offer.value.kind != "dns-01" || offer.value.status != "pending"
  {
    for i := 0 to |offered|
      invariant PendingChallenge(offered) == PendingChallenge(offered[i..])
      invariant forall k | 0 <= k < i :: !Usable(offered[k])
    {
      var candidate := offered[i];
      assert candidate in offered;
      if candidate.Some? && candidate.value.kind == "dns-01" && candidate.value.status == "pending" {
        assert FirstDns(offered, i);
        return candidate;
      }
    }
    return None;
  }

  /** What `PendingChallenge` picks is what the loop finds. */
  lemma {:induction false} PendingChallengeIsFirst(offered: seq<Option<Challenge>>)
    ensures PendingChallenge(offered).Some? ==> exists i :: FirstDns(offered, i) && offered[i] == PendingChallenge(offered)
    ensures PendingChallenge(offered).None? ==> forall i :: !FirstDns(offered, i)
  {
    if offered != [] {
      PendingChallengeIsFirst(offered[1..]);
      if Usable(offered[0]) {
        assert FirstDns(offered, 0);
      } else if PendingChallenge(offered).Some? {
        var i :| FirstDns(offered[1..], i) && offered[1..][i] == PendingChallenge(offered);
        assert offered[1..][i] == offered[i + 1];
        assert forall k | 0 <= k < i :: offered[1..][k] == offered[k + 1];
        assert FirstDns(offered, i + 1);
      } else {
        forall i
          ensures !FirstDns(offered, i)
        {
          if FirstDns(offered, i) {
            assert i > 0 && offered[1..][i - 1] == offered[i];
            assert forall k | 0 <= k < i - 1 :: offered[1..][k] == offered[k + 1];
            assert FirstDns(offered[1..], i - 1);
          }
        }
      }
    }
  }

  /** The challenge to answer, with the TXT value that answers it. */
  function Task(w: World, a: Authorization): Option<(Challenge, string)> {
    if Blank(a.uri) then None
    else
      match PendingChallenge(a.challenges)
      case None => None
      case Some(c) =>
        if Blank(c.token) || Blank(c.uri) then None
        else
          match w.challengeValue(c.token)
          case None => None
          case Some(value) => Some((c, value))
  }

  /** An authorization can be answered exactly when its URI, token and challenge URI are there and its first
      pending DNS-01 challenge has an answer; that is the challenge and its answer is the value. */
  lemma TaskMeans(w: World, a: Authorization, c: Challenge, value: string)
    ensures Task(w, a) == Some((c, value)) <==>
      && Trim(a.uri) != "" && (exists i :: FirstDns(a.challenges, i) && a.challenges[i] == Some(c))
      && Trim(c.token) != "" && Trim(c.uri) != "" && w.challengeValue(c.token) == Some(value)
  {
    PendingChallengeIsFirst(a.challenges);
  }

  function FinalizeUrl(ready: Order, order: Order): string {
    if Trim(ready.finalizeUrl) != "" then Trim(ready.finalizeUrl) else Trim(order.finalizeUrl)
  }

  predicate ChainOk(chain: seq<Der>) {
    chain != [] && forall der | der in chain :: der != []
  }

  // ---- the meaning of the calls ----

  /** From the presented record to the CA's verdict. */
  function Proved(w: World, a: Authorization, c: Challenge, name: string, value: string, t: Trace): (r: (bool, Trace)) {
    match ChallengeFqdn(name)
    case None => (false, t)
    case Some(fqdn) =>
      var seen := w.observe(t, fqdn, value);
      var t1 := t + [Observed(fqdn, value, seen)];
      if !seen then (false, t1)
      else
        var accepted := w.accept(t1, c);
        var t2 := t1 + [Accepted(c, accepted)];
        if !accepted then (false, t2)
        else
          var status := w.wait(t2, a.uri);
          (status == Some("valid"), t2 + [Waited(a.uri, status)])
  }

  function Completed(w: World, a: Authorization, name: string, t: Trace): (r: (bool, Trace)) {
    match Task(w, a)
    case None => (false, t)
    case Some((c, value)) =>
      var record := w.present(t, name, value);
      var t1 := t + [Presented(name, value, record)];
      if record.None? then (false, t1)
      else
        var (ok, t2) := Proved(w, a, c, name, value, t1);
        var cleaned := w.cleanUp(t2, record.value);
        (ok && cleaned, t2 + [CleanedUp(record.value, cleaned)])
  }

  /** One authorization of the order. */
  function Authorized(w: World, url: string, names: seq<string>, t: Trace): (r: (bool, Trace)) {
    var a := w.authorization(t, url);
    var t1 := t + [Retrieved(url, a)];
    if a.None? then (false, t1)
    else
      match RequestedName(a.value, names)
      case None => (false, t1)
      case Some(name) =>
        if a.value.status == "valid" then (true, t1)
        else if a.value.status == "pending" then Completed(w, a.value, name, t1)
        else (false, t1)
  }

  function AllAuthorized(w: World, urls: seq<string>, names: seq<string>, t: Trace): (r: (bool, Trace)) {
    if urls == [] then (true, t)
    else
      var (ok, t1) := Authorized(w, urls[0], names, t);
      if ok then AllAuthorized(w, urls[1..], names, t1) else (false, t1)
  }

  function Collected(w: World, order: Order, names: seq<string>, t: Trace): (r: (Result, Trace)) {
    var ready := w.waitOrder(t, order.uri);
    var t1 := t + [OrderWaited(order.uri, ready)];
    if ready.None? || ready.value.status != "ready" then (Failed, t1)
    else
      var url := FinalizeUrl(ready.value, order);
      if url == "" || w.certificateKey.None? then (Failed, t1)
      else
        var chain := w.finalize(t1, url, names);
        var t2 := t1 + [Finalized(url, names, chain)];
        if chain.None? || !ChainOk(chain.value) then (Failed, t2)
        else
          match w.encodeKey(w.certificateKey.value)
          case None => (Failed, t2)
          case Some(key) => (Issued(chain.value, key), t2)
  }

  function Issue(w: World, r: RenewalRequest): (o: (Result, Trace)) {
    if !RequestOk(r) then (Failed, [])
    else
      var account := w.account([]);
      var t1 := [AccountRead(account)];
      if account != Some("valid") then (Failed, t1)
      else
        var order := w.order(t1, r.names);
        var t2 := t1 + [OrderPlaced(r.names, order)];
        if order.None? || !OrderOk(order.value, r.names) then (Failed, t2)
        else
          var (ok, t3) := AllAuthorized(w, order.value.authzUrls, r.names, t2);
          if ok then Collected(w, order.value, r.names, t3) else (Failed, t3)
  }
}
