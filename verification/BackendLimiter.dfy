/** The per-authority concurrency limiter, the bodies that give slots back, and the failover loop that
    runs over it. */
module BackendLimiter {
  import opened Text

  const MAX_ATTEMPTS := 3

  function Authority(host: string): string {
    Lower(Trim(host))
  }

  /** What the base transport would do with a request that holds a slot. */
  datatype Answer = Refuses | GivesNoBody | Responds(status: int)

  /** How one attempt ends. */
  datatype Outcome = BadUrl | Fails | Status(status: int)

  datatype Verdict = Answered(index: nat, status: int) | GaveUp(tried: nat)

  predicate RetryableStatus(status: int) {
    status == 502 || status == 503 || status == 504
  }

  /** What decides whether a request may be sent again. */
  datatype Outgoing = Outgoing(method_: string, hasBody: bool, canReplayBody: bool)

  predicate RetryableRequest(o: Outgoing) {
    (o.method_ == "GET" || o.method_ == "HEAD" || o.method_ == "OPTIONS") && (!o.hasBody || o.canReplayBody)
  }

  function AttemptLimit(maxAttempts: int, candidates: nat): nat {
    if maxAttempts <= 0 || maxAttempts > candidates then candidates else maxAttempts
  }

  // ---- the recursive meaning of the loop ----

  /** The attempt is given up and the next candidate tried. */
  predicate MovesOn(out: Outcome, retryable: bool, last: bool) {
    retryable && (out.Fails? || (out.Status? && RetryableStatus(out.status) && !last))
  }

  function Failover(outs: seq<Outcome>, retryable: bool, i: nat): Verdict
    requires i <= |outs|
    decreases |outs| - i
  {
    if i == |outs| then GaveUp(i)
    else if MovesOn(outs[i], retryable, i + 1 == |outs|) then Failover(outs, retryable, i + 1)
    else if outs[i].Status? then Answered(i, outs[i].status)
    else GaveUp(i + 1)
  }

  /** The loop tries a prefix of the candidates: everything before the last attempt moved on, the last
      one settles the verdict, and a request that must not be replayed is tried once. */
  lemma {:induction false} FailoverTriesAPrefix(outs: seq<Outcome>, retryable: bool, i: nat)
    requires i <= |outs|
    ensures var v := Failover(outs, retryable, i);
      && (v.Answered? ==>
            && i <= v.index < |outs| && outs[v.index] == Status(v.status)
            && !MovesOn(outs[v.index], retryable, v.index + 1 == |outs|))
      && (v.GaveUp? ==> i <= v.tried <= |outs| && (v.tried == i ==> i == |outs|))
      && (forall k | i <= k < (if v.Answered? then v.index else v.tried - 1) :: MovesOn(outs[k], retryable, k + 1 == |outs|))
      && (!retryable && i < |outs| ==> v == if outs[i].Status? then Answered(i, outs[i].status) else GaveUp(i + 1))
    decreases |outs| - i
  {
    if i < |outs| {
      FailoverTriesAPrefix(outs, retryable, i + 1);
    }
  }

  /** A response is returned if and only if some attempt in reach answers: it is the first one whose
      status is not to be retried, or the last attempt with whatever status it gives. */
  lemma {:induction false} FailoverAnswers(outs: seq<Outcome>, retryable: bool, i: nat)
    requires i <= |outs|
    ensures Failover(outs, retryable, i).Answered? <==>
      exists k :: i <= k < |outs| && outs[k].Status? && !MovesOn(outs[k], retryable, k + 1 == |outs|)
        && forall j | i <= j < k :: MovesOn(outs[j], retryable, j + 1 == |outs|)
    decreases |outs| - i
  {
    if i < |outs| {
      FailoverAnswers(outs, retryable, i + 1);
    }
  }

  // ---- slots ----

  /** How many of an authority's slots are taken. */
  function Taken(slots: map<string, nat>, authority: string): nat {
    if authority in slots then slots[authority] else 0
  }

  /** What another request does: it takes a slot if one is free, or gives back one of those it holds. */
  datatype Move = Take(authority: string) | Give(authority: string)

  function Made(max: nat, own: multiset<string>, slots: map<string, nat>, m: Move): map<string, nat> {
    match m
    case Take(a) => if Taken(slots, a) < max then slots[a := Taken(slots, a) + 1] else slots
    case Give(a) => if Taken(slots, a) > own[a] then slots[a := Taken(slots, a) - 1] else slots
  }

  function AllMade(max: nat, own: multiset<string>, slots: map<string, nat>, moves: seq<Move>): map<string, nat> {
    if moves == [] then slots
    else Made(max, own, AllMade(max, own, slots, moves[..|moves| - 1]), moves[|moves| - 1])
  }

  /** What the others do during one attempt of this request, and the look at the slots at which its wait is
      cancelled. */
  datatype Crowd = Crowd(waiting: seq<Move>, cancelledAt: Option<nat>, during: seq<Move>)

  /** A slot is free at one of the looks before the cancellation, or there is no cancellation. */
  ghost predicate GetsASlot(max: nat, own: multiset<string>, slots: map<string, nat>, a: string, crowd: Crowd) {
    crowd.cancelledAt.None? || exists i :: FreeAt(max, own, slots, a, crowd, i)
  }

  ghost predicate FreeAt(max: nat, own: multiset<string>, slots: map<string, nat>, a: string, crowd: Crowd, i: int) {
    && 0 <= i <= |crowd.waiting| && (crowd.cancelledAt.Some? ==> i < crowd.cancelledAt.value)
    && Taken(AllMade(max, own, slots, crowd.waiting[..i]), a) < max
  }

  lemma NextMade(max: nat, own: multiset<string>, slots: map<string, nat>, moves: seq<Move>, i: nat)
    requires i < |moves|
    ensures AllMade(max, own, slots, moves[..i + 1]) == Made(max, own, AllMade(max, own, slots, moves[..i]), moves[i])
  {
    assert moves[..i + 1][..i] == moves[..i];
  }

  lemma FirstLook(max: nat, own: multiset<string>, slots: map<string, nat>, a: string, crowd: Crowd)
    ensures AllMade(max, own, slots, crowd.waiting[..0]) == slots
    ensures FreeAt(max, own, slots, a, crowd, 0) <==> crowd.cancelledAt != Some(0) && Taken(slots, a) < max
    ensures forall k :: k < 0 ==> !FreeAt(max, own, slots, a, crowd, k)
  {
  }

  lemma FreeNow(max: nat, own: multiset<string>, slots: map<string, nat>, a: string, crowd: Crowd, i: nat)
    requires i <= |crowd.waiting|
    ensures FreeAt(max, own, slots, a, crowd, i) <==>
      && (crowd.cancelledAt.Some? ==> i < crowd.cancelledAt.value)
      && Taken(AllMade(max, own, slots, crowd.waiting[..i]), a) < max
    ensures forall k | FreeAt(max, own, slots, a, crowd, k) ::
      k <= |crowd.waiting| && (crowd.cancelledAt.Some? ==> k < crowd.cancelledAt.value)
  {
  }

  lemma SlotGivenBack(max: nat, own: multiset<string>, slots: map<string, nat>, a: string)
    requires own[a] < Taken(slots, a) <= max
    ensures Taken(Made(max, own, slots, Give(a)), a) < max
  {
  }

  /** A limiter as one request sees it: `slots` counts every taken slot, `own` the ones this request has
      taken and not given back. Other requests take and give back theirs while this one waits. */
  class Limiter {
    const max: nat
    var slots: map<string, nat>
    var own: multiset<string>

    ghost predicate Valid()
      reads this
    {
      forall a :: own[a] <= Taken(slots, a) <= max
    }

    constructor (max: nat)
      ensures Valid() && this.max == max && slots == map[] && own == multiset{}
    {
      this.max, slots, own := max, map[], multiset{};
    }

    method OtherActs(m: Move)
      requires Valid()
      modifies this`slots
      ensures Valid() && slots == Made(max, own, old(slots), m)
    {
      slots := Made(max, own, slots, m);
    }

    method OthersAct(moves: seq<Move>)
      requires Valid()
      modifies this`slots
      ensures Valid() && slots == AllMade(max, own, old(slots), moves)
    {
      for i := 0 to |moves|
        invariant Valid() && slots == AllMade(max, own, old(slots), moves[..i])
      {
        assert moves[..i + 1][..i] == moves[..i];
        OtherActs(moves[i]);
      }
      assert moves[..|moves|] == moves;
    }

    method TakeSlot(a: string)
      requires Valid() && Taken(slots, a) < max
      modifies this
      ensures Valid() && own == old(own) + multiset{a} && slots == old(slots)[a := Taken(old(slots), a) + 1]
    {
      slots, own := slots[a := Taken(slots, a) + 1], own + multiset{a};
    }

    /** Waits for a free slot or for cancellation, whichever comes first. When all the others have acted and
        there is still neither, one of them gives its slot back. */
    method WaitForSlot(a: string, crowd: Crowd) returns (taken: bool)
      requires Valid() && own[a] < max
      modifies this
      ensures Valid()
      ensures taken <==> GetsASlot(max, old(own), old(slots), a, crowd)
      ensures own == old(own) + if taken then multiset{a} else multiset{}
      ensures Taken(old(slots), a) < max ==>
        slots == if taken then old(slots)[a := Taken(old(slots), a) + 1] else old(slots)
    {
      hide FreeAt, Made, AllMade;
      FirstLook(max, own, slots, a, crowd);
      var free := LookForSlot(a, crowd);
      if free {
        TakeSlot(a);
        return true;
      }
      if crowd.cancelledAt.Some? {
        return false;
      }
      SlotGivenBack(max, own, slots, a);
      OtherActs(Give(a));
      TakeSlot(a);
      return true;
    }

    /** Looks for a free slot after each move of the others, until the wait is cancelled or they are done. */
    method LookForSlot(a: string, crowd: Crowd) returns (free: bool)
      requires Valid()
      modifies this`slots
      ensures Valid()
      ensures free <==> exists i :: FreeAt(max, own, old(slots), a, crowd, i)
      ensures free ==> Taken(slots, a) < max
      ensures !free && crowd.cancelledAt.None? ==> Taken(slots, a) == max
      ensures Taken(old(slots), a) < max ==> slots == old(slots)
    {
      hide FreeAt, Made, AllMade;
      FirstLook(max, own, slots, a, crowd);
      for i := 0 to |crowd.waiting|
        invariant Valid() && slots == AllMade(max, own, old(slots), crowd.waiting[..i])
        invariant crowd.cancelledAt.Some? ==> i <= crowd.cancelledAt.value
        invariant forall k :: k < i ==> !FreeAt(max, own, old(slots), a, crowd, k)
        invariant i > 0 ==> Taken(old(slots), a) == max
      {
        FreeNow(max, own, old(slots), a, crowd, i);
        if crowd.cancelledAt == Some(i) {
          return false;
        }
        if Taken(slots, a) < max {
          return true;
        }
        NextMade(max, own, old(slots), crowd.waiting, i);
        OtherActs(crowd.waiting[i]);
      }
      FreeNow(max, own, old(slots), a, crowd, |crowd.waiting|);
      return crowd.cancelledAt != Some(|crowd.waiting|) && Taken(slots, a) < max;
    }

    method GiveBack(a: string)
      requires Valid() && own[a] > 0
      modifies this
      ensures Valid() && own == old(own) - multiset{a}
      ensures Taken(slots, a) == Taken(old(slots), a) - 1
      ensures forall x | x != a :: Taken(slots, x) == Taken(old(slots), x)
    {
      slots, own := slots[a := Taken(slots, a) - 1], own - multiset{a};
    }

    /** One limited round trip of a request that holds no slot of this authority. A body is returned, and a
        slot kept, exactly when limiter and base transport allow it and the wait is not cancelled first. */
    method RoundTrip(host: string, answer: Answer, crowd: Crowd) returns (body: Body?, cancelled: bool)
      requires Valid() && own[Authority(host)] == 0
      modifies this
      ensures Valid()
      ensures cancelled <==> max > 0 && Authority(host) != "" && !GetsASlot(max, old(own), old(slots), Authority(host), crowd)
      ensures body != null <==> max > 0 && Authority(host) != "" && answer.Responds? && !cancelled
      ensures body == null ==> own == old(own)
      ensures body != null ==> fresh(body) && body.limiter == this && body.authority == Authority(host) && !body.released
      ensures body != null ==> own == old(own) + multiset{body.authority}
      ensures crowd.during == [] && Taken(old(slots), Authority(host)) < max ==>
        forall a :: Taken(slots, a) == Taken(old(slots), a) + if body != null && a == body.authority then 1 else 0
    {
      hide GetsASlot, Authority;
      var a := Authority(host);
      if max == 0 || a == "" {
        return null, false;
      }
      var taken := WaitForSlot(a, crowd);
      if !taken {
        return null, true;
      }
      ghost var before := slots;
      OthersAct(crowd.during);
      assert crowd.during == [] ==> slots == before;
      hide AllMade, Made;
      if !answer.Responds? {
        GiveBack(a);
        return null, false;
      }
      body := new Body(this, a);
      cancelled := false;
    }
  }

  /** A response body that gives its slot back the first time it is closed. */
  class Body {
    const limiter: Limiter
    const authority: string
    var released: bool

    constructor (limiter: Limiter, authority: string)
      ensures this.limiter == limiter && this.authority == authority && !released
    {
      this.limiter, this.authority, this.released := limiter, authority, false;
    }

    method Close()
      requires limiter.Valid() && (released || limiter.own[authority] > 0)
      modifies this, limiter
      ensures released && limiter.Valid()
      ensures old(released) ==> limiter.own == old(limiter.own) && limiter.slots == old(limiter.slots)
      ensures !old(released) ==> limiter.own == old(limiter.own) - multiset{authority}
      ensures !old(released) ==> forall a ::
        Taken(limiter.slots, a) == Taken(old(limiter.slots), a) - if a == authority then 1 else 0
    {
      if !released {
        released := true;
        limiter.GiveBack(authority);
      }
    }
  }

  // ---- the loop ----

  datatype Candidate = Candidate(host: Option<string>, answer: Answer)

  /** How an attempt ends that is not cancelled. */
  function Uncancelled(max: nat, c: Candidate): Outcome {
    if c.host.None? then BadUrl
    else if max == 0 || Authority(c.host.value) == "" || !c.answer.Responds? then Fails
    else Status(c.answer.status)
  }

  /** What the attempts so far come to settles the verdict, whatever the others would have come to. */
  ghost predicate Settles(seen: seq<Outcome>, attempts: nat, retryable: bool, v: Verdict) {
    |seen| <= attempts && forall outs | |outs| == attempts && seen <= outs :: Failover(outs, retryable, 0) == v
  }

  /** The attempts so far all moved on: the loop has come to the next one. */
  ghost predicate Leads(seen: seq<Outcome>, attempts: nat, retryable: bool) {
    |seen| <= attempts
    && forall outs | |outs| == attempts && seen <= outs :: Failover(outs, retryable, 0) == Failover(outs, retryable, |seen|)
  }

  /** Each outcome is the one its candidate has, or the failure of a cancelled attempt. */
  ghost predicate AsMade(max: nat, candidates: seq<Candidate>, seen: seq<Outcome>, cancelled: set<nat>) {
    && |seen| <= |candidates| && (forall k | k in cancelled :: k < |seen|)
    && forall k | 0 <= k < |seen| :: seen[k] == if k in cancelled then Fails else Uncancelled(max, candidates[k])
  }

  lemma NoneMade(max: nat, candidates: seq<Candidate>)
    ensures AsMade(max, candidates, [], {})
  {
  }

  lemma OneMoreMade(max: nat, candidates: seq<Candidate>, seen: seq<Outcome>, cancelled: set<nat>, out: Outcome, stopped: bool)
    requires AsMade(max, candidates, seen, cancelled) && |seen| < |candidates|
    requires out == if stopped then Fails else Uncancelled(max, candidates[|seen|])
    ensures AsMade(max, candidates, seen + [out], if stopped then cancelled + {|seen|} else cancelled)
  {
  }

  /** The request may be sent again: its method changes nothing, and it has no body or one that can be replayed. */
  ghost predicate MayRepeat(o: Outgoing) {
    o.method_ in {"GET", "HEAD", "OPTIONS"} && (o.hasBody ==> o.canReplayBody)
  }

  /** A failure, or an answer that says the backend is unavailable. */
  ghost predicate TurnedDown(out: Outcome) {
    out == Fails || out == Status(502) || out == Status(503) || out == Status(504)
  }

  /** The candidate answers with `status` when it is asked. */
  ghost predicate Gives(max: nat, c: Candidate, status: int) {
    max > 0 && c.host.Some? && Authority(c.host.value) != "" && c.answer == Responds(status)
  }

  /** The candidate can be asked, and refuses or answers that it cannot serve. */
  ghost predicate PassesOn(max: nat, c: Candidate) {
    c.host.Some? && forall status | Gives(max, c, status) :: status in {502, 503, 504}
  }

  /** Tries up to `maxAttempts` candidates (all of them when that is no limit), each of which is given up only
      for a refusal or an unavailability and only when the request may be sent again. */
  method FailoverRoundTrip(limiter: Limiter, candidates: seq<Candidate>, maxAttempts: int, request: Outgoing,
                           crowds: nat -> Crowd)
    returns (verdict: Verdict, body: Body?, ghost seen: seq<Outcome>, ghost cancelled: set<nat>)
    requires limiter.Valid() && limiter.own == multiset{}
    modifies limiter
    ensures limiter.Valid()
    ensures AsMade(limiter.max, candidates, seen, cancelled)
    ensures var m := if 0 < maxAttempts < |candidates| then maxAttempts else |candidates|;
      && |seen| <= m && (m > 0 ==> seen != [])
      && (|seen| > 1 ==> MayRepeat(request)) && (forall k | 0 <= k < |seen| - 1 :: TurnedDown(seen[k]))
      && (verdict.Answered? ==> verdict.index == |seen| - 1 && seen[verdict.index] == Status(verdict.status))
      && (verdict.Answered? && MayRepeat(request) && verdict.status in {502, 503, 504} ==> |seen| == m)
      && (verdict.GaveUp? ==> verdict.tried == |seen| && (seen != [] ==> !seen[|seen| - 1].Status?))
      && (verdict.GaveUp? && MayRepeat(request) && BadUrl !in seen ==> |seen| == m)
      && (forall k, status | 0 <= k < m && MayRepeat(request) && (forall j | 0 <= j <= k :: crowds(j).cancelledAt.None?)
            && Gives(limiter.max, candidates[k], status) && status !in {502, 503, 504}
            && (forall j | 0 <= j < k :: PassesOn(limiter.max, candidates[j])) ::
            verdict == Answered(k, status))
    ensures CancelledBy(limiter.max, candidates, crowds, |seen|, cancelled)
    ensures verdict.GaveUp? ==> body == null && limiter.own == multiset{}
    ensures verdict.Answered? ==> body != null && fresh(body) && body.limiter == limiter && !body.released
    ensures verdict.Answered? ==> verdict.index < |candidates| && candidates[verdict.index].host.Some?
    ensures verdict.Answered? ==> body.authority == Authority(candidates[verdict.index].host.value)
    ensures verdict.Answered? ==> limiter.own == multiset{body.authority}
  {
    verdict, body, seen, cancelled := TryInTurn(limiter, candidates, maxAttempts, request, crowds);
    hide Settles, Authority, Ends, AsMade, Gives, PassesOn;
    EndsMeans(seen, AttemptLimit(maxAttempts, |candidates|), request, verdict);
    EndsWithin(seen, AttemptLimit(maxAttempts, |candidates|), RetryableRequest(request), verdict);
    forall k, status | 0 <= k < AttemptLimit(maxAttempts, |candidates|) && MayRepeat(request)
      && (forall j | 0 <= j <= k :: crowds(j).cancelledAt.None?)
      && Gives(limiter.max, candidates[k], status) && status !in {502, 503, 504}
      && (forall j | 0 <= j < k :: PassesOn(limiter.max, candidates[j]))
      ensures verdict == Answered(k, status)
    {
      FirstToServeAnswers(limiter.max, candidates, AttemptLimit(maxAttempts, |candidates|), seen, cancelled, verdict, k, status);
    }
  }

  /** What the handler asks of the loop: at most three attempts. */
  method Forward(limiter: Limiter, candidates: seq<Candidate>, request: Outgoing, crowds: nat -> Crowd)
    returns (verdict: Verdict, body: Body?, ghost seen: seq<Outcome>)
    requires limiter.Valid() && limiter.own == multiset{}
    modifies limiter
    ensures limiter.Valid() && |seen| <= 3 && |seen| <= |candidates|
    ensures verdict.GaveUp? && MayRepeat(request) && BadUrl !in seen ==> |seen| == if |candidates| < 3 then |candidates| else 3
    ensures verdict.Answered? <==> body != null
    ensures forall k, status | 0 <= k < |candidates| && k < 3 && MayRepeat(request)
      && (forall j | 0 <= j <= k :: crowds(j).cancelledAt.None?)
      && Gives(limiter.max, candidates[k], status) && status !in {502, 503, 504}
      && (forall j | 0 <= j < k :: PassesOn(limiter.max, candidates[j])) ::
      verdict == Answered(k, status)
  {
    hide Gives, PassesOn, AsMade, CancelledBy, Authority;
    ghost var cancelled;
    verdict, body, seen, cancelled := FailoverRoundTrip(limiter, candidates, MAX_ATTEMPTS, request, crowds);
  }

  /** Without a cancellation up to it, the first candidate that serves ends the loop. */
  lemma FirstToServeAnswers(max: nat, candidates: seq<Candidate>, attempts: nat, seen: seq<Outcome>, cancelled: set<nat>,
                            verdict: Verdict, k: nat, status: int)
    requires forall j | j in cancelled :: k < j
    requires attempts <= |candidates| && AsMade(max, candidates, seen, cancelled) && Ends(seen, attempts, true, verdict)
    requires k < attempts && Gives(max, candidates[k], status) && status !in {502, 503, 504}
    requires forall j | 0 <= j < k :: PassesOn(max, candidates[j])
    ensures verdict == Answered(k, status)
  {
    if |seen| <= k {
      AskedInVain(max, candidates[|seen| - 1]);
      assert false;
    }
    assert seen[k] == Status(status);
  }

  lemma AskedInVain(max: nat, c: Candidate)
    requires PassesOn(max, c)
    ensures TurnedDown(Uncancelled(max, c))
  {
    if c.answer.Responds? && max > 0 && Authority(c.host.value) != "" {
      assert Gives(max, c, c.answer.status);
    }
  }

  lemma EndsWithin(seen: seq<Outcome>, attempts: nat, retryable: bool, v: Verdict)
    requires Ends(seen, attempts, retryable, v)
    ensures |seen| <= attempts && (attempts > 0 ==> seen != [])
  {
  }

  /** What the end of the loop says about the attempts made. */
  lemma EndsMeans(seen: seq<Outcome>, attempts: nat, request: Outgoing, v: Verdict)
    requires Ends(seen, attempts, RetryableRequest(request), v)
    ensures (|seen| > 1 ==> MayRepeat(request)) && forall k | 0 <= k < |seen| - 1 :: TurnedDown(seen[k])
    ensures v.Answered? ==> v.index == |seen| - 1 && seen[v.index] == Status(v.status)
    ensures v.Answered? && MayRepeat(request) && v.status in {502, 503, 504} ==> |seen| == attempts
    ensures v.GaveUp? ==> v.tried == |seen| && (seen != [] ==> !seen[|seen| - 1].Status?)
    ensures v.GaveUp? && MayRepeat(request) && BadUrl !in seen ==> |seen| == attempts
  {
    forall k | 0 <= k < |seen| - 1
      ensures MayRepeat(request) && TurnedDown(seen[k])
    {
      assert MovesOn(seen[k], RetryableRequest(request), false);
    }
    if |seen| > 1 {
      assert MovesOn(seen[0], RetryableRequest(request), false);
    }
    if seen != [] {
      assert seen[|seen| - 1] in seen;
    }
  }

  /** Where the loop ends: every attempt before the last one moved on, and the last one settles the verdict
      unless it moved on too and there are no more attempts. */
  ghost predicate Ends(seen: seq<Outcome>, attempts: nat, retryable: bool, v: Verdict) {
    && |seen| <= attempts && (attempts > 0 ==> seen != [])
    && (forall k | 0 <= k < |seen| - 1 :: MovesOn(seen[k], retryable, false))
    && if seen != [] && !MovesOn(seen[|seen| - 1], retryable, |seen| == attempts) then
         v == if seen[|seen| - 1].Status? then Answered(|seen| - 1, seen[|seen| - 1].status) else GaveUp(|seen|)
       else |seen| == attempts && v == GaveUp(attempts)
  }

  ghost predicate AllMoveOn(seen: seq<Outcome>, attempts: nat, retryable: bool) {
    forall k | 0 <= k < |seen| :: MovesOn(seen[k], retryable, k + 1 == attempts)
  }

  lemma EndsOrGoesOn(seen: seq<Outcome>, out: Outcome, attempts: nat, retryable: bool)
    requires |seen| < attempts && AllMoveOn(seen, attempts, retryable)
    ensures MovesOn(out, retryable, |seen| + 1 == attempts) ==> AllMoveOn(seen + [out], attempts, retryable)
    ensures !MovesOn(out, retryable, |seen| + 1 == attempts) ==>
      Ends(seen + [out], attempts, retryable, if out.Status? then Answered(|seen|, out.status) else GaveUp(|seen| + 1))
  {
    hide MovesOn;
    forall k | 0 <= k < |seen|
      ensures MovesOn((seen + [out])[k], retryable, false)
    {
      assert MovesOn(seen[k], retryable, k + 1 == attempts);
    }
  }

  lemma EndsAfterAll(seen: seq<Outcome>, retryable: bool)
    requires AllMoveOn(seen, |seen|, retryable)
    ensures Ends(seen, |seen|, retryable, GaveUp(|seen|))
  {
    hide MovesOn;
    forall k | 0 <= k < |seen| - 1
      ensures MovesOn(seen[k], retryable, false)
    {
      assert MovesOn(seen[k], retryable, k + 1 == |seen|);
    }
  }

  /** The loop. `seen` are the outcomes of the attempts made, each as its candidate has it unless it was
      cancelled. At every attempt the request holds no slot of this loop; it ends holding one, that of the
      returned body, exactly when it returns a response. */
  method TryInTurn(limiter: Limiter, candidates: seq<Candidate>, maxAttempts: int, request: Outgoing,
                   crowds: nat -> Crowd)
    returns (verdict: Verdict, body: Body?, ghost seen: seq<Outcome>, ghost cancelled: set<nat>)
    requires limiter.Valid() && limiter.own == multiset{}
    modifies limiter
    ensures limiter.Valid()
    ensures Settles(seen, AttemptLimit(maxAttempts, |candidates|), RetryableRequest(request), verdict)
    ensures Ends(seen, AttemptLimit(maxAttempts, |candidates|), RetryableRequest(request), verdict)
    ensures AsMade(limiter.max, candidates, seen, cancelled)
    ensures CancelledBy(limiter.max, candidates, crowds, |seen|, cancelled)
    ensures verdict.GaveUp? ==> body == null && limiter.own == multiset{}
    ensures verdict.Answered? ==> body != null && fresh(body) && body.limiter == limiter && !body.released
    ensures verdict.Answered? ==> verdict.index < |candidates| && candidates[verdict.index].host.Some?
    ensures verdict.Answered? ==> body.authority == Authority(candidates[verdict.index].host.value)
    ensures verdict.Answered? ==> limiter.own == multiset{body.authority}
  {
    var attempts := AttemptLimit(maxAttempts, |candidates|);
    var retryable := RetryableRequest(request);
    seen, cancelled := [], {};
    hide Failover, Leads, Settles, AsMade, Uncancelled, MovesOn, Ends, Authority, CancelledBy, Reaches, AllMoveOn;
    FirstMoves(limiter.max, candidates, crowds, attempts, retryable);
    FirstAttempt(attempts, retryable);
    NoneMade(limiter.max, candidates);
    for i := 0 to attempts
      invariant limiter.Valid() && limiter.own == multiset{} && CancelledBy(limiter.max, candidates, crowds, i, cancelled)
      invariant |seen| == i && AsMade(limiter.max, candidates, seen, cancelled)
      invariant AllMoveOn(seen, attempts, retryable)
      invariant Leads(seen, attempts, retryable)
    {
      var out, stopped, open := Attempt(limiter, candidates[i], retryable, i + 1 == attempts, crowds(i));
      NextAttempt(seen, out, attempts, retryable);
      EndsOrGoesOn(seen, out, attempts, retryable);
      OneMoreMade(limiter.max, candidates, seen, cancelled, out, stopped);
      OneMoreCancelled(limiter.max, candidates, crowds, i, cancelled, stopped);
      seen, cancelled := seen + [out], if stopped then cancelled + {i} else cancelled;
      if !MovesOn(out, retryable, i + 1 == attempts) {
        return if out.Status? then Answered(i, out.status) else GaveUp(i + 1), open, seen, cancelled;
      }
    }
    AllAttempts(seen, retryable);
    EndsAfterAll(seen, retryable);
    return GaveUp(attempts), null, seen, cancelled;
  }

  /** One attempt: a response that is to be retried is closed before the next attempt. */
  method Attempt(limiter: Limiter, candidate: Candidate, retryable: bool, last: bool, crowd: Crowd)
    returns (out: Outcome, cancelled: bool, body: Body?)
    requires limiter.Valid() && limiter.own == multiset{}
    modifies limiter
    ensures limiter.Valid()
    ensures out == if cancelled then Fails else Uncancelled(limiter.max, candidate)
    ensures cancelled ==> crowd.cancelledAt.Some?
    ensures crowd.cancelledAt == Some(0) && Reaches(limiter.max, candidate) ==> cancelled
    ensures body != null <==> out.Status? && !MovesOn(out, retryable, last)
    ensures body == null ==> limiter.own == multiset{}
    ensures body != null ==> fresh(body) && body.limiter == limiter && !body.released && candidate.host.Some?
    ensures body != null ==> body.authority == Authority(candidate.host.value)
    ensures body != null ==> limiter.own == multiset{body.authority}
  {
    if candidate.host.None? {
      return BadUrl, false, null;
    }
    body, cancelled := limiter.RoundTrip(candidate.host.value, candidate.answer, crowd);
    if body == null {
      return Fails, cancelled, null;
    }
    out := Status(candidate.answer.status);
    if retryable && RetryableStatus(candidate.answer.status) && !last {
      body.Close();
      body := null;
    }
  }

  /** The limiter waits for a slot of the candidate. */
  ghost predicate Reaches(max: nat, c: Candidate) {
    max > 0 && c.host.Some? && Authority(c.host.value) != ""
  }

  /** Only attempts that are cancelled while they wait end so, and those cancelled at once always do. */
  ghost predicate CancelledBy(max: nat, candidates: seq<Candidate>, crowds: nat -> Crowd, n: nat, cancelled: set<nat>) {
    && n <= |candidates|
    && (forall k | k in cancelled :: k < n && crowds(k).cancelledAt.Some?)
    && forall k | 0 <= k < n && crowds(k).cancelledAt == Some(0) && Reaches(max, candidates[k]) :: k in cancelled
  }

  lemma FirstMoves(max: nat, candidates: seq<Candidate>, crowds: nat -> Crowd, attempts: nat, retryable: bool)
    ensures AllMoveOn([], attempts, retryable) && CancelledBy(max, candidates, crowds, 0, {})
  {
  }

  lemma OneMoreCancelled(max: nat, candidates: seq<Candidate>, crowds: nat -> Crowd, n: nat, cancelled: set<nat>, stopped: bool)
    requires n < |candidates| && CancelledBy(max, candidates, crowds, n, cancelled)
    requires stopped ==> crowds(n).cancelledAt.Some?
    requires crowds(n).cancelledAt == Some(0) && Reaches(max, candidates[n]) ==> stopped
    ensures CancelledBy(max, candidates, crowds, n + 1, if stopped then cancelled + {n} else cancelled)
  {
    hide Reaches;
  }

  lemma FirstAttempt(attempts: nat, retryable: bool)
    ensures Leads([], attempts, retryable)
  {
  }

  lemma AllAttempts(seen: seq<Outcome>, retryable: bool)
    requires Leads(seen, |seen|, retryable)
    ensures Settles(seen, |seen|, retryable, GaveUp(|seen|))
  {
  }

  /** One more outcome moves the recursion on or settles it. */
  lemma NextAttempt(seen: seq<Outcome>, out: Outcome, attempts: nat, retryable: bool)
    requires |seen| < attempts && Leads(seen, attempts, retryable)
    ensures MovesOn(out, retryable, |seen| + 1 == attempts) ==> Leads(seen + [out], attempts, retryable)
    ensures !MovesOn(out, retryable, |seen| + 1 == attempts) ==>
      Settles(seen + [out], attempts, retryable, if out.Status? then Answered(|seen|, out.status) else GaveUp(|seen| + 1))
  {
    forall outs | |outs| == attempts && seen + [out] <= outs
      ensures seen <= outs && outs[|seen|] == out
    {
      assert outs[|seen|] == (seen + [out])[|seen|];
    }
  }
}
