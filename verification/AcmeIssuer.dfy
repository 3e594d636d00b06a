/** The issuer as it runs: a class that makes the calls and keeps their trace. */
module AcmeIssuer {
  import opened Text
  import opened ChallengeNames
  import opened RenewalStaging
  import opened Issuance
  import opened IssuanceSafety

  class Issuer {
    const world: World
    /** Every call made so far, with its answer. */
    var trace: Trace

    constructor (world: World)
      ensures this.world == world && trace == []
    {
      this.world, trace := world, [];
    }

    method ProveControl(a: Authorization, c: Challenge, name: string, value: string) returns (ok: bool)
      modifies this`trace
      ensures (ok, trace) == Proved(world, a, c, name, value, old(trace))
      ensures old(trace) <= trace && (Open(old(trace)).Some? ==> Open(trace) == Open(old(trace)))
      ensures ok ==> |old(trace)| < |trace| && trace[|trace| - 1] == Waited(a.uri, Some("valid"))
    {
      ProvedMeansValid(world, a, c, name, value, trace);
      ProvedKeepsRecords(world, a, c, name, value, trace);
      var fqdn := ChallengeFqdn(name);
      if fqdn.None? {
        return false;
      }
      var seen := world.observe(trace, fqdn.value, value);
      trace := trace + [Observed(fqdn.value, value, seen)];
      if !seen {
        return false;
      }
      var accepted := world.accept(trace, c);
      trace := trace + [Accepted(c, accepted)];
      if !accepted {
        return false;
      }
      var status := world.wait(trace, a.uri);
      trace := trace + [Waited(a.uri, status)];
      return status == Some("valid");
    }

    /** On every way out no record is left that was not there before; success means that the CA's verdict was
        "valid" and that the record was then cleaned up. */
    method CompleteAuthorization(a: Authorization, name: string) returns (ok: bool)
      modifies this`trace
      ensures (ok, trace) == Completed(world, a, name, old(trace))
      ensures old(trace) <= trace && (Open(old(trace)).Some? ==> Open(trace) == Open(old(trace)))
      ensures ok ==> |old(trace)| + 2 <= |trace| && trace[|trace| - 2] == Waited(a.uri, Some("valid"))
      ensures ok ==> trace[|trace| - 1].CleanedUp? && trace[|trace| - 1].cleaned
    {
      hide Proved, Open, PendingChallenge, Blank;
      CompletedKeepsRecords(world, a, name, trace);
      CompletedEndsWell(world, a, name, trace);
      if Blank(a.uri) {
        return false;
      }
      var c := FindPendingChallenge(a.challenges);
      if c.None? || Blank(c.value.token) || Blank(c.value.uri) {
        return false;
      }
      var value := world.challengeValue(c.value.token);
      if value.None? {
        return false;
      }
      var record := world.present(trace, name, value.value);
      trace := trace + [Presented(name, value.value, record)];
      if record.None? {
        return false;
      }
      ok := ProveControl(a, c.value, name, value.value);
      var cleaned := world.cleanUp(trace, record.value);
      trace := trace + [CleanedUp(record.value, cleaned)];
      ok := ok && cleaned;
    }

    /** Every call is preceded by what it needs and no record is left in place, whatever the answers; and a
        certificate is issued exactly when all of them are favourable. */
    method IssueRenewal(r: RenewalRequest) returns (result: Result)
      requires trace == []
      modifies this`trace
      ensures (result, trace) == Issue(world, r)
      ensures Lawful(world, r, trace) && Open(trace) == Some([])
      ensures result.Issued? <==> RequestOk(r) && AllFine(world, r, trace)
      ensures result.Issued? ==> trace != [] && trace[|trace| - 1].Finalized? && trace[|trace| - 1].chain == Some(result.chain)
      ensures result.Issued? ==> result.chain != [] && forall der | der in result.chain :: der != []
    {
      IssuanceIsLawful(world, r);
      IssuedExactlyWhenAllAnswersAreFine(world, r);
      result := MakeCalls(r);
    }

    method MakeCalls(r: RenewalRequest) returns (result: Result)
      requires trace == []
      modifies this`trace
      ensures (result, trace) == Issue(world, r)
    {
      var valid := ValidateRequest(r);
      if !valid {
        return Failed;
      }
      var account := world.account(trace);
      trace := trace + [AccountRead(account)];
      assert trace == [AccountRead(account)];
      if account != Some("valid") {
        return Failed;
      }
      var answer := world.order(trace, r.names);
      trace := trace + [OrderPlaced(r.names, answer)];
      if answer.None? {
        return Failed;
      }
      var order := answer.value;
      var orderOk := ValidateOrder(order, r.names);
      if !orderOk {
        return Failed;
      }
      var authorized := AuthorizeAll(order.authzUrls, r.names);
      if !authorized {
        return Failed;
      }
      result := Collect(order, r.names);
    }

    method AuthorizeAll(urls: seq<string>, names: seq<string>) returns (ok: bool)
      modifies this`trace
      ensures (ok, trace) == AllAuthorized(world, urls, names, old(trace))
    {
      for i := 0 to |urls|
        invariant AllAuthorized(world, urls, names, old(trace)) == AllAuthorized(world, urls[i..], names, trace)
      {
        var a := world.authorization(trace, urls[i]);
        ghost var before := trace;
        trace := trace + [Retrieved(urls[i], a)];
        assert urls[i..][1..] == urls[i + 1..];
        if a.None? {
          return false;
        }
        var name := FindRequestedName(a.value, names);
        if name.None? {
          return false;
        }
        if a.value.status == "pending" {
          var completed := CompleteAuthorization(a.value, name.value);
          assert (completed, trace) == Authorized(world, urls[i], names, before);
          if !completed {
            return false;
          }
        } else if a.value.status != "valid" {
          return false;
        }
      }
      return true;
    }

    method Collect(order: Order, names: seq<string>) returns (result: Result)
      modifies this`trace
      ensures (result, trace) == Collected(world, order, names, old(trace))
    {
      var ready := world.waitOrder(trace, order.uri);
      trace := trace + [OrderWaited(order.uri, ready)];
      if ready.None? || ready.value.status != "ready" {
        return Failed;
      }
      var url := Trim(ready.value.finalizeUrl);
      if url == "" {
        url := Trim(order.finalizeUrl);
      }
      if url == "" || world.certificateKey.None? {
        return Failed;
      }
      var chain := world.finalize(trace, url, names);
      trace := trace + [Finalized(url, names, chain)];
      if chain.None? || chain.value == [] {
        return Failed;
      }
      for i := 0 to |chain.value|
        invariant forall k | 0 <= k < i :: chain.value[k] != []
      {
        assert chain.value[i] in chain.value;
        if chain.value[i] == [] {
          return Failed;
        }
      }
      var key := world.encodeKey(world.certificateKey.value);
      if key.None? {
        return Failed;
      }
      return Issued(chain.value, key.value);
    }
  }
}
