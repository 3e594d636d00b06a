/** What holds of every issuance, whatever the CA, the DNS provider and the resolver answer. */
module IssuanceSafety {
  import opened Text
  import opened ChallengeNames
  import opened RenewalStaging
  import opened Issuance

  // ---- records that are still in place ----

  function OpenAfter(open: seq<Record>, e: Event): Option<seq<Record>> {
    match e
    case Presented(_, _, Some(record)) => Some(open + [record])
    case CleanedUp(record, _) =>
      if open != [] && open[|open| - 1] == record then Some(open[..|open| - 1]) else None
    case _ => Some(open)
  }

  /** The records presented and not yet cleaned up, newest last; `None` once a clean-up is asked for any
      record but the newest of these. */
  function Open(t: Trace): Option<seq<Record>> {
    if t == [] then Some([])
    else
      match Open(t[..|t| - 1])
      case None => None
      case Some(open) => OpenAfter(open, t[|t| - 1])
  }

  ghost predicate NoFailedCleanUp(t: Trace) {
    forall i | 0 <= i < |t| && t[i].CleanedUp? :: t[i].cleaned
  }

  /** No record is in place and every clean-up so far worked. */
  ghost predicate Settled(t: Trace) {
    Open(t) == Some([]) && NoFailedCleanUp(t)
  }

  /** The addresses of the authorizations retrieved so far, in order. */
  function Fetched(t: Trace): seq<string> {
    if t == [] then []
    else
      var e := t[|t| - 1];
      Fetched(t[..|t| - 1]) + if e.Retrieved? then [e.url] else []
  }

  /** The authorization at `url` was seen valid, at once or after its challenge was accepted. */
  ghost predicate Proven(t: Trace, url: string) {
    exists i :: 0 <= i < |t| && ProvenFrom(t, i, url)
  }

  ghost predicate ProvenFrom(t: Trace, i: nat, url: string)
    requires i < |t|
  {
    t[i].Retrieved? && t[i].url == url && t[i].authorization.Some?
    && (t[i].authorization.value.status == "valid"
        || exists j :: i < j < |t| && t[j] == Waited(t[i].authorization.value.uri, Some("valid")))
  }

  ghost predicate AllProven(t: Trace, urls: seq<string>) {
    forall url | url in urls :: Proven(t, url)
  }

  function OrderOf(t: Trace): Option<Order> {
    if |t| > 1 && t[1].OrderPlaced? then t[1].order else None
  }

  // ---- the law of a trace ----

  /** The authorization retrieved `k` events before the last one. */
  function Holding(before: Trace, k: nat): Option<Authorization> {
    if k < |before| && before[|before| - 1 - k].Retrieved? then before[|before| - 1 - k].authorization else None
  }

  function Last(before: Trace): Option<Event> {
    if before == [] then None else Some(before[|before| - 1])
  }

  /** For the authorization just retrieved, which is pending and for `name`, with no other record in place. */
  ghost predicate MayPresent(w: World, r: RenewalRequest, before: Trace, name: string, value: string) {
    Settled(before)
    && match Holding(before, 0)
       case None => false
       case Some(a) =>
         a.status == "pending" && RequestedName(a, r.names) == Some(name) && Task(w, a).Some? && Task(w, a).value.1 == value
  }

  /** The value just presented, under the challenge name of the name it was presented for. */
  ghost predicate MayObserve(before: Trace, fqdn: string, content: string) {
    match Last(before)
    case Some(Presented(name, value, Some(_))) => value == content && ChallengeFqdn(name) == Some(fqdn)
    case _ => false
  }

  /** The challenge whose value was just seen. */
  ghost predicate MayAccept(w: World, before: Trace, c: Challenge) {
    match Last(before)
    case Some(Observed(_, content, seen)) =>
      seen && Holding(before, 2).Some? && Task(w, Holding(before, 2).value) == Some((c, content))
    case _ => false
  }

  /** The authorization whose challenge was just accepted. */
  ghost predicate MayWait(before: Trace, uri: string) {
    match Last(before)
    case Some(Accepted(_, accepted)) => accepted && Holding(before, 3).Some? && Holding(before, 3).value.uri == uri
    case _ => false
  }

  /** The next authorization of an accepted order, after all those before it were seen valid. */
  ghost predicate MayRetrieve(r: RenewalRequest, before: Trace, url: string) {
    Settled(before)
    && match OrderOf(before)
       case None => false
       case Some(order) =>
         OrderOk(order, r.names) && Fetched(before) + [url] <= order.authzUrls && AllProven(before, Fetched(before))
  }

  ghost predicate MayCollect(before: Trace, uri: string) {
    Settled(before)
    && match OrderOf(before)
       case None => false
       case Some(order) =>
         uri == order.uri && Fetched(before) == order.authzUrls && AllProven(before, order.authzUrls)
  }

  ghost predicate MayFinalize(before: Trace, url: string) {
    match (Last(before), OrderOf(before))
    case (Some(OrderWaited(_, Some(ready))), Some(order)) =>
      && ready.status == "ready" && url != ""
      && url == if Trim(ready.finalizeUrl) != "" then Trim(ready.finalizeUrl) else Trim(order.finalizeUrl)
    case _ => false
  }

  /** What must have happened before each call. */
  ghost predicate Law(w: World, r: RenewalRequest, before: Trace, e: Event) {
    match e
    case AccountRead(_) => before == []
    case OrderPlaced(names, _) => before == [AccountRead(Some("valid"))] && names == r.names
    case Retrieved(url, _) => MayRetrieve(r, before, url)
    case Presented(name, value, _) => MayPresent(w, r, before, name, value)
    case Observed(fqdn, content, _) => MayObserve(before, fqdn, content)
    case Accepted(c, _) => MayAccept(w, before, c)
    case Waited(uri, _) => MayWait(before, uri)
    case CleanedUp(record, _) => Open(before) == Some([record])
    case OrderWaited(uri, _) => MayCollect(before, uri)
    case Finalized(url, names, _) => MayFinalize(before, url) && names == r.names
  }

  /** Every call obeys the law, given all that came before it. */
  ghost predicate Lawful(w: World, r: RenewalRequest, t: Trace) {
    t == [] || (Lawful(w, r, t[..|t| - 1]) && Law(w, r, t[..|t| - 1], t[|t| - 1]))
  }

  lemma {:induction false} LawAt(w: World, r: RenewalRequest, t: Trace, n: nat)
    requires Lawful(w, r, t) && n < |t|
    ensures Law(w, r, t[..n], t[n]) && Lawful(w, r, t[..n])
    decreases |t|
  {
    if n < |t| - 1 {
      LawAt(w, r, t[..|t| - 1], n);
      assert t[..|t| - 1][..n] == t[..n];
    }
  }

  /** One more lawful event. */
  lemma Step(w: World, r: RenewalRequest, t: Trace, e: Event)
    requires Lawful(w, r, t) && Law(w, r, t, e) && Open(t).Some?
    ensures Lawful(w, r, t + [e]) && Open(t + [e]) == OpenAfter(Open(t).value, e)
    ensures Open(t) == Some([]) && e.Presented? && e.record.Some? ==> Open(t + [e]) == Some([e.record.value])
    ensures Last(t + [e]) == Some(e) && Holding(t + [e], 1) == Holding(t, 0)
    ensures Holding(t + [e], 2) == Holding(t, 1) && Holding(t + [e], 3) == Holding(t, 2)
  {
    assert (t + [e])[..|t|] == t;
    if Open(t) == Some([]) && e.Presented? && e.record.Some? {
      assert [] + [e.record.value] == [e.record.value];
    }
  }

  lemma StillNoFailedCleanUp(t: Trace, e: Event)
    requires NoFailedCleanUp(t) && (e.CleanedUp? ==> e.cleaned)
    ensures NoFailedCleanUp(t + [e])
  {
  }

  lemma ProvenLater(t: Trace, more: Trace, url: string)
    requires t <= more && Proven(t, url)
    ensures Proven(more, url)
  {
    var i :| 0 <= i < |t| && ProvenFrom(t, i, url);
    assert ProvenFrom(more, i, url);
  }

  lemma AllProvenLater(t: Trace, more: Trace, urls: seq<string>)
    requires t <= more && AllProven(t, urls)
    ensures AllProven(more, urls)
  {
    forall url | url in urls
      ensures Proven(more, url)
    {
      ProvenLater(t, more, url);
    }
  }

  // ---- which authorizations are retrieved ----

  lemma FetchedAppend(t: Trace, e: Event)
    ensures Fetched(t + [e]) == Fetched(t) + if e.Retrieved? then [e.url] else []
  {
    assert (t + [e])[..|t|] == t;
  }

  lemma ProvedFetchesNothing(w: World, a: Authorization, c: Challenge, name: string, value: string, t: Trace)
    ensures Fetched(Proved(w, a, c, name, value, t).1) == Fetched(t)
  {
    hide Fetched, ChallengeFqdn;
    if ChallengeFqdn(name).Some? {
      var fqdn := ChallengeFqdn(name).value;
      var e := Observed(fqdn, value, w.observe(t, fqdn, value));
      FetchedAppend(t, e);
      var f := Accepted(c, w.accept(t + [e], c));
      FetchedAppend(t + [e], f);
      FetchedAppend(t + [e] + [f], Waited(a.uri, w.wait(t + [e] + [f], a.uri)));
    }
  }

  lemma CompletedFetchesNothing(w: World, a: Authorization, name: string, t: Trace)
    ensures Fetched(Completed(w, a, name, t).1) == Fetched(t)
  {
    hide Fetched, Proved, Task;
    if Task(w, a).Some? {
      var (c, value) := Task(w, a).value;
      var record := w.present(t, name, value);
      var t1 := t + [Presented(name, value, record)];
      FetchedAppend(t, Presented(name, value, record));
      if record.Some? {
        ProvedFetchesNothing(w, a, c, name, value, t1);
        var t2 := Proved(w, a, c, name, value, t1).1;
        FetchedAppend(t2, CleanedUp(record.value, w.cleanUp(t2, record.value)));
      }
    }
  }

  lemma AuthorizedFetchesOne(w: World, url: string, names: seq<string>, t: Trace)
    ensures Fetched(Authorized(w, url, names, t).1) == Fetched(t) + [url]
  {
    hide Fetched, Completed, RequestedName;
    var a := w.authorization(t, url);
    FetchedAppend(t, Retrieved(url, a));
    if a.Some? && RequestedName(a.value, names).Some? {
      CompletedFetchesNothing(w, a.value, RequestedName(a.value, names).value, t + [Retrieved(url, a)]);
    }
  }

  // ---- every issuance is lawful ----

  lemma ProvedIsLawful(w: World, r: RenewalRequest, a: Authorization, c: Challenge, name: string, value: string,
                       record: Record, t: Trace)
    requires Lawful(w, r, t) && Open(t) == Some([record])
    requires Last(t) == Some(Presented(name, value, Some(record)))
    requires Holding(t, 1) == Some(a) && Task(w, a) == Some((c, value))
    ensures Lawful(w, r, Proved(w, a, c, name, value, t).1)
    ensures Open(Proved(w, a, c, name, value, t).1) == Some([record])
  {
    if ChallengeFqdn(name).Some? {
      var fqdn := ChallengeFqdn(name).value;
      var seen := w.observe(t, fqdn, value);
      var t1 := t + [Observed(fqdn, value, seen)];
      Step(w, r, t, Observed(fqdn, value, seen));
      if seen {
        AcceptedIsLawful(w, r, a, c, value, fqdn, record, t1);
      }
    }
  }

  lemma AcceptedIsLawful(w: World, r: RenewalRequest, a: Authorization, c: Challenge, value: string, fqdn: string,
                         record: Record, t: Trace)
    requires Lawful(w, r, t) && Open(t) == Some([record])
    requires Last(t) == Some(Observed(fqdn, value, true))
    requires Holding(t, 2) == Some(a) && Task(w, a) == Some((c, value))
    ensures var e := Accepted(c, w.accept(t, c)); var t' := t + [e];
      && Lawful(w, r, t') && Open(t') == Some([record])
      && var t'' := t' + [Waited(a.uri, w.wait(t', a.uri))];
      w.accept(t, c) ==> Lawful(w, r, t'') && Open(t'') == Some([record])
  {
    var e := Accepted(c, w.accept(t, c));
    Step(w, r, t, e);
    if w.accept(t, c) {
      Step(w, r, t + [e], Waited(a.uri, w.wait(t + [e], a.uri)));
    }
  }

  /** Success means the CA's last word was that the authorization is valid. */
  lemma ProvedMeansValid(w: World, a: Authorization, c: Challenge, name: string, value: string, t: Trace)
    ensures var (ok, t') := Proved(w, a, c, name, value, t);
      t <= t' && (ok ==> |t| < |t'| && t'[|t'| - 1] == Waited(a.uri, Some("valid")))
  {
  }

  lemma ProvedCleansNothingUp(w: World, a: Authorization, c: Challenge, name: string, value: string, t: Trace)
    requires NoFailedCleanUp(t)
    ensures NoFailedCleanUp(Proved(w, a, c, name, value, t).1)
  {
    if ChallengeFqdn(name).Some? {
      var fqdn := ChallengeFqdn(name).value;
      var e := Observed(fqdn, value, w.observe(t, fqdn, value));
      StillNoFailedCleanUp(t, e);
      var t1 := t + [e];
      var f := Accepted(c, w.accept(t1, c));
      StillNoFailedCleanUp(t1, f);
      StillNoFailedCleanUp(t1 + [f], Waited(a.uri, w.wait(t1 + [f], a.uri)));
    }
  }

  lemma OpenAppend(t: Trace, e: Event)
    requires Open(t).Some?
    ensures Open(t + [e]) == OpenAfter(Open(t).value, e)
  {
    assert (t + [e])[..|t|] == t;
  }

  /** Looking, accepting and waiting leave the records in place as they are. */
  lemma ProvedKeepsRecords(w: World, a: Authorization, c: Challenge, name: string, value: string, t: Trace)
    ensures Open(t).Some? ==> Open(Proved(w, a, c, name, value, t).1) == Open(t)
  {
    hide Open, ChallengeFqdn;
    if ChallengeFqdn(name).Some? && Open(t).Some? {
      var fqdn := ChallengeFqdn(name).value;
      var e := Observed(fqdn, value, w.observe(t, fqdn, value));
      OpenAppend(t, e);
      var f := Accepted(c, w.accept(t + [e], c));
      OpenAppend(t + [e], f);
      OpenAppend(t + [e] + [f], Waited(a.uri, w.wait(t + [e] + [f], a.uri)));
    }
  }

  lemma CompletedKeepsRecords(w: World, a: Authorization, name: string, t: Trace)
    ensures t <= Completed(w, a, name, t).1
    ensures Open(t).Some? ==> Open(Completed(w, a, name, t).1) == Open(t)
  {
    hide Proved, Task, Open;
    if Task(w, a).Some? {
      var (c, value) := Task(w, a).value;
      var record := w.present(t, name, value);
      var t1 := t + [Presented(name, value, record)];
      ProvedMeansValid(w, a, c, name, value, t1);
      var t2 := Proved(w, a, c, name, value, t1).1;
      if Open(t).Some? {
        OpenAppend(t, Presented(name, value, record));
        if record.Some? {
          ProvedKeepsRecords(w, a, c, name, value, t1);
          OpenAppend(t2, CleanedUp(record.value, w.cleanUp(t2, record.value)));
        }
      }
    }
  }

  lemma CompletedEndsWell(w: World, a: Authorization, name: string, t: Trace)
    ensures var (ok, t') := Completed(w, a, name, t); ok ==>
      && |t| + 2 <= |t'| && t'[|t'| - 2] == Waited(a.uri, Some("valid"))
      && t'[|t'| - 1].CleanedUp? && t'[|t'| - 1].cleaned
  {
    hide Proved, Task, Open;
    if Task(w, a).Some? {
      var (c, value) := Task(w, a).value;
      ProvedMeansValid(w, a, c, name, value, t + [Presented(name, value, w.present(t, name, value))]);
    }
  }

  lemma CompletedIsLawful(w: World, r: RenewalRequest, a: Authorization, name: string, t: Trace)
    requires Lawful(w, r, t) && Settled(t)
    requires Holding(t, 0) == Some(a) && a.status == "pending" && RequestedName(a, r.names) == Some(name)
    ensures Lawful(w, r, Completed(w, a, name, t).1) && Open(Completed(w, a, name, t).1) == Some([])
  {
    hide Lawful, Proved, Task, NoFailedCleanUp, RequestedName;
    if Task(w, a).Some? {
      var (c, value) := Task(w, a).value;
      var record := w.present(t, name, value);
      var t1 := t + [Presented(name, value, record)];
      Step(w, r, t, Presented(name, value, record));
      if record.Some? {
        ProvedIsLawful(w, r, a, c, name, value, record.value, t1);
        var t2 := Proved(w, a, c, name, value, t1).1;
        Step(w, r, t2, CleanedUp(record.value, w.cleanUp(t2, record.value)));
      }
    }
  }

  lemma CompletedMeansValid(w: World, a: Authorization, name: string, t: Trace)
    requires NoFailedCleanUp(t)
    ensures var (ok, t') := Completed(w, a, name, t);
      && t <= t'
      && (ok ==> NoFailedCleanUp(t') && exists j :: |t| <= j < |t'| && t'[j] == Waited(a.uri, Some("valid")))
  {
    hide Proved, Task, NoFailedCleanUp;
    if Task(w, a).Some? {
      var (c, value) := Task(w, a).value;
      var record := w.present(t, name, value);
      var t1 := t + [Presented(name, value, record)];
      StillNoFailedCleanUp(t, Presented(name, value, record));
      if record.Some? {
        ProvedMeansValid(w, a, c, name, value, t1);
        ProvedCleansNothingUp(w, a, c, name, value, t1);
        var (ok, t2) := Proved(w, a, c, name, value, t1);
        var e := CleanedUp(record.value, w.cleanUp(t2, record.value));
        assert Completed(w, a, name, t) == (ok && e.cleaned, t2 + [e]);
        if ok && e.cleaned {
          StillNoFailedCleanUp(t2, e);
          assert (t2 + [e])[|t2| - 1] == Waited(a.uri, Some("valid"));
        }
      }
    }
  }

  lemma AuthorizedIsLawful(w: World, r: RenewalRequest, url: string, t: Trace)
    requires Lawful(w, r, t) && MayRetrieve(r, t, url)
    ensures Lawful(w, r, Authorized(w, url, r.names, t).1) && Open(Authorized(w, url, r.names, t).1) == Some([])
  {
    hide Lawful, Completed, OrderOk, RequestedName, AllProven;
    var a := w.authorization(t, url);
    var t1 := t + [Retrieved(url, a)];
    Step(w, r, t, Retrieved(url, a));
    StillNoFailedCleanUp(t, Retrieved(url, a));
    if a.Some? && RequestedName(a.value, r.names).Some? && a.value.status == "pending" {
      CompletedIsLawful(w, r, a.value, RequestedName(a.value, r.names).value, t1);
    }
  }

  lemma AuthorizedMeansProven(w: World, r: RenewalRequest, url: string, t: Trace)
    requires NoFailedCleanUp(t)
    ensures var (ok, t') := Authorized(w, url, r.names, t);
      t <= t' && (ok ==> NoFailedCleanUp(t') && Proven(t', url))
  {
    hide Completed, RequestedName, NoFailedCleanUp;
    var a := w.authorization(t, url);
    var t1 := t + [Retrieved(url, a)];
    StillNoFailedCleanUp(t, Retrieved(url, a));
    if a.Some? && RequestedName(a.value, r.names).Some? {
      if a.value.status == "valid" {
        assert ProvenFrom(t1, |t|, url);
      } else if a.value.status == "pending" {
        var name := RequestedName(a.value, r.names).value;
        CompletedMeansValid(w, a.value, name, t1);
        var (ok, t2) := Completed(w, a.value, name, t1);
        if ok {
          assert t2[|t|] == t1[|t|] == Retrieved(url, a);
          assert ProvenFrom(t2, |t|, url);
        }
      }
    }
  }

  /** The authorizations `urls` are still to be retrieved; all those before them were seen valid. */
  ghost predicate Remaining(r: RenewalRequest, t: Trace, urls: seq<string>) {
    && Settled(t) && OrderOf(t).Some? && OrderOk(OrderOf(t).value, r.names)
    && Fetched(t) + urls == OrderOf(t).value.authzUrls && AllProven(t, Fetched(t))
  }

  /** A usable authorization leaves one fewer to retrieve. */
  lemma OneFewerRemains(w: World, r: RenewalRequest, urls: seq<string>, t: Trace)
    requires Lawful(w, r, t) && urls != [] && Remaining(r, t, urls)
    ensures var (ok, t') := Authorized(w, urls[0], r.names, t);
      t <= t' && Lawful(w, r, t') && Open(t') == Some([]) && (ok ==> Remaining(r, t', urls[1..]))
  {
    hide Authorized, Lawful, Open, Fetched, Proven, OrderOk, NoFailedCleanUp;
    assert [urls[0]] + urls[1..] == urls;
    assert Fetched(t) + [urls[0]] + urls[1..] == OrderOf(t).value.authzUrls;
    AuthorizedIsLawful(w, r, urls[0], t);
    AuthorizedMeansProven(w, r, urls[0], t);
    AuthorizedFetchesOne(w, urls[0], r.names, t);
    var t1 := Authorized(w, urls[0], r.names, t).1;
    assert OrderOf(t1) == OrderOf(t);
    AllProvenLater(t, t1, Fetched(t));
  }

  lemma {:induction false} AllAuthorizedIsLawful(w: World, r: RenewalRequest, urls: seq<string>, t: Trace)
    requires Lawful(w, r, t) && Remaining(r, t, urls)
    ensures var (ok, t') := AllAuthorized(w, urls, r.names, t);
      t <= t' && Lawful(w, r, t') && Open(t') == Some([]) && (ok ==> Remaining(r, t', []))
    decreases |urls|
  {
    hide Authorized, Lawful, Fetched, NoFailedCleanUp, OrderOk, AllProven, OrderOf;
    if urls != [] {
      OneFewerRemains(w, r, urls, t);
      var (ok, t1) := Authorized(w, urls[0], r.names, t);
      if ok {
        AllAuthorizedIsLawful(w, r, urls[1..], t1);
      }
    }
  }

  lemma CollectedIsLawful(w: World, r: RenewalRequest, t: Trace)
    requires Lawful(w, r, t) && Remaining(r, t, [])
    ensures var t' := Collected(w, OrderOf(t).value, r.names, t).1; Lawful(w, r, t') && Open(t') == Some([])
  {
    hide Lawful, Open, Fetched, NoFailedCleanUp, OrderOk, AllProven;
    var order := OrderOf(t).value;
    assert Fetched(t) == order.authzUrls;
    var ready := w.waitOrder(t, order.uri);
    var t1 := t + [OrderWaited(order.uri, ready)];
    Step(w, r, t, OrderWaited(order.uri, ready));
    if ready.Some? && ready.value.status == "ready" {
      var url := FinalizeUrl(ready.value, order);
      if url != "" && w.certificateKey.Some? {
        assert OrderOf(t1) == Some(order);
        Step(w, r, t1, Finalized(url, r.names, w.finalize(t1, url, r.names)));
      }
    }
  }

  lemma NothingFetchedYet(r: RenewalRequest, t: Trace)
    requires |t| == 2 && t[0].AccountRead? && t[1].OrderPlaced? && t[1].order.Some?
    requires Open(t) == Some([]) && OrderOk(t[1].order.value, r.names)
    ensures Remaining(r, t, t[1].order.value.authzUrls)
  {
    hide OrderOk;
    assert t == [] + [t[0]] + [t[1]];
    FetchedAppend([], t[0]);
    FetchedAppend([] + [t[0]], t[1]);
  }

  lemma IssuanceIsLawful(w: World, r: RenewalRequest)
    ensures Lawful(w, r, Issue(w, r).1) && Open(Issue(w, r).1) == Some([])
  {
    if RequestOk(r) {
      var account := w.account([]);
      var t1 := [AccountRead(account)];
      assert [] + [AccountRead(account)] == t1;
      Step(w, r, [], AccountRead(account));
      if account == Some("valid") {
        var order := w.order(t1, r.names);
        var t2 := t1 + [OrderPlaced(r.names, order)];
        Step(w, r, t1, OrderPlaced(r.names, order));
        if order.Some? && OrderOk(order.value, r.names) {
          NothingFetchedYet(r, t2);
          AllAuthorizedIsLawful(w, r, order.value.authzUrls, t2);
          var (ok, t3) := AllAuthorized(w, order.value.authzUrls, r.names, t2);
          if ok {
            assert OrderOf(t3) == order;
            CollectedIsLawful(w, r, t3);
          }
        }
      }
    }
  }

  // ---- what the law says about finalization and about records ----

  /** A finalization comes only after each authorization of the order was retrieved, in the order's order,
      and seen valid, and after every record presented was successfully cleaned up. */
  lemma FinalizationIsEarned(w: World, r: RenewalRequest, n: nat)
    requires n < |Issue(w, r).1| && Issue(w, r).1[n].Finalized?
    ensures var t := Issue(w, r).1;
      && OrderOf(t).Some? && OrderOk(OrderOf(t).value, r.names)
      && Fetched(t[..n]) == OrderOf(t).value.authzUrls && AllProven(t[..n], OrderOf(t).value.authzUrls)
      && (forall i | 0 <= i < n && t[i].Presented? && t[i].record.Some? ::
            exists k :: i < k < n && t[k] == CleanedUp(t[i].record.value, true))
  {
    hide Issue, Lawful, Open, Fetched, Proven, OrderOk, NoFailedCleanUp, OneAtATime;
    var t := Issue(w, r).1;
    IssuanceIsLawful(w, r);
    var m := BeforeFinalization(w, r, t, n);
    assert OrderOf(t[..m]) == OrderOf(t);
    OrderIsChecked(w, r);
    AllProvenLater(t[..m], t[..n], OrderOf(t).value.authzUrls);
    assert t[..n] == t[..m] + [t[m]];
    FetchedAppend(t[..m], t[m]);
    forall i | 0 <= i < n && t[i].Presented? && t[i].record.Some?
      ensures exists k :: i < k < n && t[k] == CleanedUp(t[i].record.value, true)
    {
      var k := CleanedUpWhenSettled(t, m, i);
    }
  }

  lemma CleanedUpWhenSettled(t: Trace, m: nat, i: nat) returns (k: nat)
    requires m <= |t| && Settled(t[..m]) && OneAtATime(t[..m])
    requires i < m && t[i].Presented? && t[i].record.Some?
    ensures i < k < m && t[k] == CleanedUp(t[i].record.value, true)
  {
    hide Open, OneAtATime;
    k := CleanUpFollows(t[..m], i);
    assert t[..m][k].cleaned;
  }

  /** The request to finalize follows the report that the order is ready, and goes to the address in that
      report, or to the one in the order when the report names none. */
  lemma FinalizationGoesTo(w: World, r: RenewalRequest, n: nat)
    requires n < |Issue(w, r).1| && Issue(w, r).1[n].Finalized?
    ensures var t := Issue(w, r).1; n > 1 && OrderOf(t).Some? && FinalizesReady(r, t, OrderOf(t).value, n)
  {
    var t := Issue(w, r).1;
    IssuanceIsLawful(w, r);
    LawAt(w, r, t, n);
    hide Issue, Lawful;
    assert MayFinalize(t[..n], t[n].finalizeUrl);
    assert t[..n][n - 1] == t[n - 1];
    assert OrderOf(t[..n]) == OrderOf(t);
  }

  ghost predicate FinalizesReady(r: RenewalRequest, t: Trace, order: Order, n: nat) {
    && 0 < n < |t| && t[n].Finalized? && t[n].requested == r.names
    && t[n - 1].OrderWaited? && t[n - 1].ready.Some? && t[n - 1].ready.value.status == "ready"
    && t[n].finalizeUrl != ""
    && t[n].finalizeUrl ==
         if Trim(t[n - 1].ready.value.finalizeUrl) != "" then Trim(t[n - 1].ready.value.finalizeUrl) else Trim(order.finalizeUrl)
  }

  /** The order was waited for just before, with everything settled and proven. */
  lemma BeforeFinalization(w: World, r: RenewalRequest, t: Trace, n: nat) returns (m: nat)
    requires Lawful(w, r, t) && n < |t| && t[n].Finalized?
    ensures n == m + 1 && t[m].OrderWaited? && m > 1
    ensures Settled(t[..m]) && OneAtATime(t[..m]) && OrderOf(t[..m]).Some?
    ensures Fetched(t[..m]) == OrderOf(t[..m]).value.authzUrls
    ensures AllProven(t[..m], OrderOf(t[..m]).value.authzUrls)
  {
    LawAt(w, r, t, n);
    assert MayFinalize(t[..n], t[n].finalizeUrl);
    m := n - 1;
    assert t[..n][m] == t[m];
    LawAt(w, r, t, m);
    assert MayCollect(t[..m], t[m].orderUri);
    LawfulOneAtATime(w, r, t[..m]);
  }

  /** Presentations are made with nothing in place, and clean-ups are of the one thing in place. */
  ghost predicate OneAtATime(t: Trace) {
    forall n | 0 <= n < |t| ::
      && (t[n].Presented? ==> Open(t[..n]) == Some([]))
      && (t[n].CleanedUp? ==> Open(t[..n]) == Some([t[n].removed]))
  }

  lemma LawfulOneAtATime(w: World, r: RenewalRequest, t: Trace)
    requires Lawful(w, r, t)
    ensures OneAtATime(t)
  {
    forall n | 0 <= n < |t|
      ensures t[n].Presented? ==> Open(t[..n]) == Some([])
      ensures t[n].CleanedUp? ==> Open(t[..n]) == Some([t[n].removed])
    {
      LawAt(w, r, t, n);
    }
  }

  lemma OrderIsChecked(w: World, r: RenewalRequest)
    requires |Issue(w, r).1| > 2
    ensures OrderOf(Issue(w, r).1).Some? && OrderOk(OrderOf(Issue(w, r).1).value, r.names)
  {
    var t1 := [AccountRead(w.account([]))];
    var order := w.order(t1, r.names);
    var t2 := t1 + [OrderPlaced(r.names, order)];
    assert order.Some? && OrderOk(order.value, r.names);
    assert OrderOf(t2) == order;
    IssuanceExtends(w, r, order.value, t2);
  }

  lemma IssuanceExtends(w: World, r: RenewalRequest, order: Order, t: Trace)
    requires |t| == 2
    ensures var (ok, t') := AllAuthorized(w, order.authzUrls, r.names, t);
      t <= t' && t <= Collected(w, order, r.names, t').1
  {
    AllAuthorizedExtends(w, order.authzUrls, r.names, t);
  }

  lemma AuthorizedExtends(w: World, url: string, names: seq<string>, t: Trace)
    ensures t <= Authorized(w, url, names, t).1
  {
  }

  lemma {:induction false} AllAuthorizedExtends(w: World, urls: seq<string>, names: seq<string>, t: Trace)
    ensures t <= AllAuthorized(w, urls, names, t).1
    decreases |urls|
  {
    if urls != [] {
      AuthorizedExtends(w, urls[0], names, t);
      AllAuthorizedExtends(w, urls[1..], names, Authorized(w, urls[0], names, t).1);
    }
  }

  lemma OpenOfPrefix(t: Trace, n: nat)
    requires n < |t| && Open(t[..n]).Some?
    ensures Open(t[..n + 1]) == OpenAfter(Open(t[..n]).value, t[n])
    ensures Open(t[..n]) == Some([]) && t[n].Presented? && t[n].record.Some? ==> Open(t[..n + 1]) == Some([t[n].record.value])
  {
    assert t[..n + 1][..n] == t[..n];
    if Open(t[..n]) == Some([]) && t[n].Presented? && t[n].record.Some? {
      assert [] + [t[n].record.value] == [t[n].record.value];
    }
  }

  lemma StillOpen(t: Trace, k: nat, record: Record)
    requires OneAtATime(t) && k < |t| && Open(t[..k]) == Some([record]) && !t[k].CleanedUp?
    ensures !t[k].Presented? && Open(t[..k + 1]) == Some([record])
  {
    OpenOfPrefix(t, k);
  }

  /** After a presentation its own clean-up comes before any other presentation or clean-up. */
  lemma CleanUpFollows(t: Trace, i: nat) returns (k: nat)
    requires OneAtATime(t) && Open(t) == Some([])
    requires i < |t| && t[i].Presented? && t[i].record.Some?
    ensures i < k < |t| && t[k].CleanedUp? && t[k].removed == t[i].record.value
    ensures forall j | i < j < k :: !t[j].Presented? && !t[j].CleanedUp?
  {
    hide Open;
    var record := t[i].record.value;
    OpenOfPrefix(t, i);
    assert t[..|t|] == t;
    k := i + 1;
    while k < |t| && !t[k].CleanedUp?
      invariant i < k <= |t| && Open(t[..k]) == Some([record])
      invariant forall j | i < j < k :: !t[j].Presented? && !t[j].CleanedUp?
    {
      StillOpen(t, k, record);
      k := k + 1;
    }
  }

  function Presentations(t: Trace, record: Record): nat {
    if t == [] then 0
    else
      var e := t[|t| - 1];
      Presentations(t[..|t| - 1], record) + if e.Presented? && e.record == Some(record) then 1 else 0
  }

  function CleanUps(t: Trace, record: Record): nat {
    if t == [] then 0
    else
      var e := t[|t| - 1];
      CleanUps(t[..|t| - 1], record) + if e.CleanedUp? && e.removed == record then 1 else 0
  }

  lemma {:induction false} OpenCounts(t: Trace, record: Record)
    requires Open(t).Some?
    ensures Presentations(t, record) == CleanUps(t, record) + multiset(Open(t).value)[record]
  {
    if t != [] {
      var front := t[..|t| - 1];
      OpenCounts(front, record);
      OpenAfterCounts(Open(front).value, t[|t| - 1], record);
    }
  }

  lemma OpenAfterCounts(open: seq<Record>, e: Event, record: Record)
    requires OpenAfter(open, e).Some?
    ensures multiset(OpenAfter(open, e).value)[record] + (if e.CleanedUp? && e.removed == record then 1 else 0)
         == multiset(open)[record] + (if e.Presented? && e.record == Some(record) then 1 else 0)
  {
    if e.CleanedUp? {
      assert open == open[..|open| - 1] + [open[|open| - 1]];
    }
  }

  /** On every path, success or failure, each record the provider returned gets exactly one clean-up call,
      and its own comes before anything else is presented. */
  lemma EveryRecordIsCleanedUpOnce(w: World, r: RenewalRequest)
    ensures forall record :: Presentations(Issue(w, r).1, record) == CleanUps(Issue(w, r).1, record)
    ensures forall i | 0 <= i < |Issue(w, r).1| && Issue(w, r).1[i].Presented? && Issue(w, r).1[i].record.Some? ::
      exists k :: CleansUp(Issue(w, r).1, i, k)
  {
    var t := Issue(w, r).1;
    IssuanceIsLawful(w, r);
    LawfulOneAtATime(w, r, t);
    forall record
      ensures Presentations(t, record) == CleanUps(t, record)
    {
      OpenCounts(t, record);
    }
    forall i | 0 <= i < |t| && t[i].Presented? && t[i].record.Some?
      ensures exists k :: CleansUp(t, i, k)
    {
      var k := CleanUpFollows(t, i);
      assert CleansUp(t, i, k);
    }
  }

  /** Event `k` is the clean-up of what event `i` presented, with no presentation or clean-up in between. */
  ghost predicate CleansUp(t: Trace, i: nat, k: nat) {
    && i < k < |t| && t[i].Presented? && t[k].CleanedUp? && t[i].record == Some(t[k].removed)
    && forall j | i < j < k :: !t[j].Presented? && !t[j].CleanedUp?
  }

  /** Event `n` accepts the challenge of the authorization retrieved three events before, whose value was
      just seen. */
  ghost predicate AcceptsWhatIsSeen(w: World, t: Trace, n: nat) {
    && 3 <= n < |t| && t[n].Accepted? && t[n - 1].Observed? && t[n - 1].seen
    && t[n - 3].Retrieved? && t[n - 3].authorization.Some?
    && Task(w, t[n - 3].authorization.value) == Some((t[n].challenge, t[n - 1].content))
  }

  /** Event `n` looks for the value just presented for the requested name of the authorization retrieved
      before that, under the challenge name of that name; the record is still in place afterwards. */
  ghost predicate LooksForWhatIsPresented(r: RenewalRequest, t: Trace, n: nat) {
    && 2 <= n < |t| && t[n].Observed? && t[n - 1].Presented? && t[n - 1].record.Some?
    && t[n - 2].Retrieved? && t[n - 2].authorization.Some?
    && RequestedName(t[n - 2].authorization.value, r.names) == Some(t[n - 1].name)
    && t[n].content == t[n - 1].value && ChallengeFqdn(t[n - 1].name) == Some(t[n].fqdn)
    && Open(t[..n + 1]) == Some([t[n - 1].record.value])
  }

  /** Event `n` accepts the first pending DNS-01 challenge of the authorization retrieved three events before;
      what was presented and then seen answers the token of that challenge. */
  ghost predicate AcceptsTheDnsChallenge(w: World, t: Trace, n: nat) {
    && 3 <= n < |t| && t[n].Accepted? && t[n - 1].Observed? && t[n - 1].seen && t[n - 2].Presented?
    && t[n - 3].Retrieved? && t[n - 3].authorization.Some?
    && var a, c := t[n - 3].authorization.value, t[n].challenge;
      && a.status == "pending" && Some(c) in a.challenges && c.kind == "dns-01" && c.status == "pending"
      && (exists i :: FirstDns(a.challenges, i) && a.challenges[i] == Some(c))
      && w.challengeValue(c.token) == Some(t[n - 1].content) == Some(t[n - 2].value)
  }

  /** A challenge is accepted only right after its value was seen, and it is the DNS-01 challenge on offer. */
  lemma AcceptanceFollowsObservation(w: World, r: RenewalRequest, n: nat)
    requires n < |Issue(w, r).1| && Issue(w, r).1[n].Accepted?
    ensures AcceptsWhatIsSeen(w, Issue(w, r).1, n) && AcceptsTheDnsChallenge(w, Issue(w, r).1, n)
  {
    hide Issue, Lawful, AcceptsWhatIsSeen, AcceptsTheDnsChallenge;
    IssuanceIsLawful(w, r);
    BeforeAcceptance(w, r, Issue(w, r).1, n);
    ChallengeBeforeAcceptance(w, r, Issue(w, r).1, n);
  }

  lemma ChallengeBeforeAcceptance(w: World, r: RenewalRequest, t: Trace, n: nat)
    requires Lawful(w, r, t) && n < |t| && t[n].Accepted?
    ensures AcceptsTheDnsChallenge(w, t, n)
  {
    hide Lawful, Open, Task, RequestedName;
    BeforeAcceptance(w, r, t, n);
    BeforeObservation(w, r, t, n - 1);
    PendingBeforePresentation(w, r, t, n - 2);
    var a, c := t[n - 3].authorization.value, t[n].challenge;
    TaskMeans(w, a, c, t[n - 1].content);
    var i :| FirstDns(a.challenges, i) && a.challenges[i] == Some(c);
    FirstDnsIs(a.challenges, i);
  }

  lemma FirstDnsIs(offered: seq<Option<Challenge>>, i: int)
    requires FirstDns(offered, i)
    ensures offered[i] in offered && offered[i].value.kind == "dns-01" && offered[i].value.status == "pending"
  {
  }

  lemma PendingBeforePresentation(w: World, r: RenewalRequest, t: Trace, n: nat)
    requires Lawful(w, r, t) && n < |t| && t[n].Presented?
    ensures n > 0 && t[n - 1].Retrieved? && t[n - 1].authorization.Some? && t[n - 1].authorization.value.status == "pending"
  {
    LawAt(w, r, t, n);
    assert MayPresent(w, r, t[..n], t[n].name, t[n].value);
    assert t[..n][n - 1] == t[n - 1];
  }

  /** The resolver is only asked for the value of the record that is in place, under the name it stands for. */
  lemma ObservationFollowsPresentation(w: World, r: RenewalRequest, n: nat)
    requires n < |Issue(w, r).1| && Issue(w, r).1[n].Observed?
    ensures LooksForWhatIsPresented(r, Issue(w, r).1, n)
  {
    IssuanceIsLawful(w, r);
    BeforeObservation(w, r, Issue(w, r).1, n);
  }

  lemma BeforeAcceptance(w: World, r: RenewalRequest, t: Trace, n: nat)
    requires Lawful(w, r, t) && n < |t| && t[n].Accepted?
    ensures AcceptsWhatIsSeen(w, t, n)
  {
    LawAt(w, r, t, n);
    assert MayAccept(w, t[..n], t[n].challenge);
    assert t[..n][n - 1] == t[n - 1] && t[..n][n - 3] == t[n - 3];
  }

  lemma BeforeObservation(w: World, r: RenewalRequest, t: Trace, n: nat)
    requires Lawful(w, r, t) && n < |t| && t[n].Observed?
    ensures LooksForWhatIsPresented(r, t, n)
  {
    LawAt(w, r, t, n);
    assert MayObserve(t[..n], t[n].fqdn, t[n].content);
    assert t[..n][n - 1] == t[n - 1];
    LawAt(w, r, t, n - 1);
    assert MayPresent(w, r, t[..n - 1], t[n - 1].name, t[n - 1].value);
    assert t[..n - 1][n - 2] == t[n - 2];
    OpenOfPrefix(t, n - 1);
    OpenOfPrefix(t, n);
  }

  // ---- when an issuance succeeds ----

  ghost predicate UsableAuthorization(w: World, r: RenewalRequest, a: Authorization) {
    && RequestedName(a, r.names).Some?
    && (a.status == "valid" || (a.status == "pending" && Task(w, a).Some?))
  }

  ghost predicate UsableOrder(w: World, before: Trace, ready: Order) {
    && ready.status == "ready" && w.certificateKey.Some?
    && OrderOf(before).Some? && (Trim(ready.finalizeUrl) != "" || Trim(OrderOf(before).value.finalizeUrl) != "")
  }

  ghost predicate UsableChain(w: World, chain: seq<Der>) {
    chain != [] && (forall der | der in chain :: der != []) && w.certificateKey.Some? && w.encodeKey(w.certificateKey.value).Some?
  }

  /** The answer lets the issuance go on. */
  ghost predicate Fine(w: World, r: RenewalRequest, before: Trace, e: Event) {
    match e
    case AccountRead(account) => account == Some("valid")
    case OrderPlaced(_, order) => order.Some? && OrderOk(order.value, r.names)
    case Retrieved(_, a) => a.Some? && UsableAuthorization(w, r, a.value)
    case Presented(name, _, record) => record.Some? && ChallengeFqdn(name).Some?
    case Observed(_, _, seen) => seen
    case Accepted(_, accepted) => accepted
    case Waited(_, status) => status == Some("valid")
    case CleanedUp(_, cleaned) => cleaned
    case OrderWaited(_, ready) => ready.Some? && UsableOrder(w, before, ready.value)
    case Finalized(_, _, chain) => chain.Some? && UsableChain(w, chain.value)
  }

  ghost predicate AllFine(w: World, r: RenewalRequest, t: Trace) {
    t == [] || (AllFine(w, r, t[..|t| - 1]) && Fine(w, r, t[..|t| - 1], t[|t| - 1]))
  }

  lemma FineAppend(w: World, r: RenewalRequest, t: Trace, e: Event)
    ensures AllFine(w, r, t + [e]) <==> AllFine(w, r, t) && Fine(w, r, t, e)
  {
    assert (t + [e])[..|t|] == t;
  }

  lemma ProvedIfFine(w: World, r: RenewalRequest, a: Authorization, c: Challenge, name: string, value: string, t: Trace)
    requires ChallengeFqdn(name).Some?
    ensures var (ok, t') := Proved(w, a, c, name, value, t); AllFine(w, r, t') <==> AllFine(w, r, t) && ok
  {
    hide AllFine, ChallengeFqdn;
    var fqdn := ChallengeFqdn(name).value;
    var e := Observed(fqdn, value, w.observe(t, fqdn, value));
    FineAppend(w, r, t, e);
    AcceptedIfFine(w, r, a, c, t + [e]);
  }

  lemma AcceptedIfFine(w: World, r: RenewalRequest, a: Authorization, c: Challenge, t: Trace)
    ensures var e := Accepted(c, w.accept(t, c)); var t' := t + [e]; var f := Waited(a.uri, w.wait(t', a.uri));
      && (AllFine(w, r, t') <==> AllFine(w, r, t) && e.accepted)
      && (AllFine(w, r, t' + [f]) <==> AllFine(w, r, t) && e.accepted && f.status == Some("valid"))
  {
    hide AllFine;
    var e := Accepted(c, w.accept(t, c));
    FineAppend(w, r, t, e);
    FineAppend(w, r, t + [e], Waited(a.uri, w.wait(t + [e], a.uri)));
  }

  lemma CompletedIfFine(w: World, r: RenewalRequest, a: Authorization, name: string, t: Trace)
    requires Task(w, a).Some?
    ensures var (ok, t') := Completed(w, a, name, t); AllFine(w, r, t') <==> AllFine(w, r, t) && ok
  {
    hide AllFine, Task, ChallengeFqdn;
    var (c, value) := Task(w, a).value;
    var record := w.present(t, name, value);
    FineAppend(w, r, t, Presented(name, value, record));
    if record.Some? {
      PresentedIfFine(w, r, a, c, name, value, record.value, t + [Presented(name, value, record)]);
    }
  }

  lemma PresentedIfFine(w: World, r: RenewalRequest, a: Authorization, c: Challenge, name: string, value: string,
                        record: Record, t: Trace)
    requires AllFine(w, r, t) ==> ChallengeFqdn(name).Some?
    ensures var (ok, t1) := Proved(w, a, c, name, value, t); var e := CleanedUp(record, w.cleanUp(t1, record));
      AllFine(w, r, t1 + [e]) <==> AllFine(w, r, t) && ok && e.cleaned
  {
    hide AllFine, ChallengeFqdn;
    var t1 := Proved(w, a, c, name, value, t).1;
    if ChallengeFqdn(name).Some? {
      ProvedIfFine(w, r, a, c, name, value, t);
    }
    FineAppend(w, r, t1, CleanedUp(record, w.cleanUp(t1, record)));
  }

  lemma AuthorizedIfFine(w: World, r: RenewalRequest, url: string, t: Trace)
    ensures var (ok, t') := Authorized(w, url, r.names, t); AllFine(w, r, t') <==> AllFine(w, r, t) && ok
  {
    hide AllFine, Proved, RequestedName, Task;
    var a := w.authorization(t, url);
    var t1 := t + [Retrieved(url, a)];
    FineAppend(w, r, t, Retrieved(url, a));
    if a.Some? && RequestedName(a.value, r.names).Some? && a.value.status == "pending" && Task(w, a.value).Some? {
      CompletedIfFine(w, r, a.value, RequestedName(a.value, r.names).value, t1);
    }
  }

  lemma {:induction false} AllAuthorizedIfFine(w: World, r: RenewalRequest, urls: seq<string>, t: Trace)
    ensures var (ok, t') := AllAuthorized(w, urls, r.names, t); AllFine(w, r, t') <==> AllFine(w, r, t) && ok
    decreases |urls|
  {
    if urls != [] {
      AuthorizedIfFine(w, r, urls[0], t);
      var (ok, t1) := Authorized(w, urls[0], r.names, t);
      if ok {
        AllAuthorizedIfFine(w, r, urls[1..], t1);
      }
    }
  }

  lemma CollectedIfFine(w: World, r: RenewalRequest, order: Order, t: Trace)
    requires OrderOf(t) == Some(order)
    ensures var (result, t') := Collected(w, order, r.names, t);
      && (AllFine(w, r, t') <==> AllFine(w, r, t) && result.Issued?)
      && (result.Issued? ==>
            && t' != [] && t'[|t'| - 1].Finalized? && t'[|t'| - 1].chain == Some(result.chain)
            && w.certificateKey.Some? && w.encodeKey(w.certificateKey.value) == Some(result.key))
  {
    hide AllFine;
    var ready := w.waitOrder(t, order.uri);
    var t1 := t + [OrderWaited(order.uri, ready)];
    FineAppend(w, r, t, OrderWaited(order.uri, ready));
    if ready.Some? && ready.value.status == "ready" {
      var url := FinalizeUrl(ready.value, order);
      if url != "" && w.certificateKey.Some? {
        var e := Finalized(url, r.names, w.finalize(t1, url, r.names));
        FineAppend(w, r, t1, e);
        assert OrderOf(t) == Some(order);
        assert Fine(w, r, t, OrderWaited(order.uri, ready));
      }
    }
  }

  /** A certificate is issued exactly when the request is well formed and no answer was unfavourable; it
      is then the chain of the last answer. */
  lemma IssuedExactlyWhenAllAnswersAreFine(w: World, r: RenewalRequest)
    ensures var (result, t) := Issue(w, r);
      && (result.Issued? <==> RequestOk(r) && AllFine(w, r, t))
      && (result.Issued? ==>
            && t != [] && t[|t| - 1].Finalized? && t[|t| - 1].chain == Some(result.chain)
            && result.chain != [] && (forall der | der in result.chain :: der != [])
            && w.certificateKey.Some? && w.encodeKey(w.certificateKey.value) == Some(result.key))
  {
    if RequestOk(r) {
      var account := w.account([]);
      var t1 := [AccountRead(account)];
      assert [] + [AccountRead(account)] == t1;
      FineAppend(w, r, [], AccountRead(account));
      if account == Some("valid") {
        var order := w.order(t1, r.names);
        var t2 := t1 + [OrderPlaced(r.names, order)];
        FineAppend(w, r, t1, OrderPlaced(r.names, order));
        if order.Some? && OrderOk(order.value, r.names) {
          AllAuthorizedIfFine(w, r, order.value.authzUrls, t2);
          AllAuthorizedExtends(w, order.value.authzUrls, r.names, t2);
          var (ok, t3) := AllAuthorized(w, order.value.authzUrls, r.names, t2);
          if ok {
            assert OrderOf(t3) == order;
            CollectedIfFine(w, r, order.value, t3);
          }
        }
      }
    }
  }

  // ---- what the order check leaves open ----

  function Ordered(order: Order): seq<string> {
    seq(|order.identifiers|, i requires 0 <= i < |order.identifiers| => HostName(order.identifiers[i].value))
  }

  predicate NoRepeats(names: seq<string>) {
    forall i, j | 0 <= i < j < |names| :: names[i] != names[j]
  }

  function Elements(names: seq<string>): set<string> {
    set name | name in names
  }

  lemma {:induction false} CountElements(names: seq<string>)
    ensures |Elements(names)| <= |names|
    ensures |Elements(names)| == |names| <==> NoRepeats(names)
  {
    if names != [] {
      var n := |names| - 1;
      var front := names[..n];
      CountElements(front);
      assert names == front + [names[n]];
      assert Elements(names) == Elements(front) + {names[n]};
      if names[n] in front {
        var i :| 0 <= i < n && names[i] == names[n];
      }
    }
  }

  lemma ProperSubsetIsSmaller(a: set<string>, b: set<string>)
    requires a <= b && a != b
    ensures |a| < |b|
  {
    assert b == a + (b - a);
    var x :| x in b - a;
    assert |b - a| > 0;
  }

  /** An accepted order is for exactly the requested names if and only if it repeats no identifier. */
  lemma OrderMatchesExactlyWithoutRepeats(order: Order, requested: seq<string>)
    requires OrderOk(order, requested)
    ensures Elements(Ordered(order)) == Wanted(requested) <==> NoRepeats(Ordered(order))
  {
    CountElements(Ordered(order));
    assert Elements(Ordered(order)) <= Wanted(requested);
    if Elements(Ordered(order)) != Wanted(requested) {
      ProperSubsetIsSmaller(Elements(Ordered(order)), Wanted(requested));
    }
  }

  lemma TwoWanted(a: string, b: string)
    requires HostName(a) == a && HostName(b) == b && a != b
    ensures Wanted([a, b]) == {a, b} && |Wanted([a, b])| == 2
  {
    var requested := [a, b];
    assert requested[0] in requested && requested[1] in requested;
    assert Wanted(requested) == {a, b};
  }

  lemma TheSameTwice(order: Order, a: string)
    requires HostName(a) == a && order.identifiers == [Identifier("dns", a), Identifier("dns", a)]
    ensures Elements(Ordered(order)) == {a}
  {
    assert Ordered(order)[0] == a && Ordered(order)[1] == a;
  }

  /** The check does not see that a second requested name is missing when the first is there twice. */
  lemma RepeatedIdentifierPasses(order: Order, a: string, b: string)
    requires HostName(a) == a && HostName(b) == b && a != b
    requires order.identifiers == [Identifier("dns", a), Identifier("dns", a)]
    requires !Blank(order.uri) && order.status == "pending" && order.authzUrls != []
    ensures OrderOk(order, [a, b]) && Elements(Ordered(order)) == {a} && Wanted([a, b]) == {a, b}
  {
    TwoWanted(a, b);
    TheSameTwice(order, a);
  }
}
