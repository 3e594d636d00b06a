/** Any number of requests running the failover loop over one limiter, interleaved step by step. */
module ProxyConcurrency {
  import opened Text
  import opened BackendLimiter

  /** Where a request is. `Waiting` is the select between a free slot and cancellation; a closing
      response is about to be followed by the next attempt. */
  datatype Phase = Ready | Waiting | InFlight | Closing | Returned(open: bool) | Failed

  /** A request: its candidate hosts (those within the attempt limit), the attempt it is at, and, as
      history, how its attempts ended and how often it took and gave back a slot. */
  datatype Thread = Thread(
    hosts: seq<Option<string>>,
    retryable: bool,
    at: nat,
    phase: Phase,
    seen: seq<Outcome>,
    acquired: nat,
    released: nat)

  datatype State = State(max: nat, slots: map<string, nat>, threads: seq<Thread>)

  datatype Event =
    | Arrive(hosts: seq<Option<string>>, request: Outgoing)
    | Begin(t: nat)
    | Acquire(t: nat)
    | Cancel(t: nat)
    | BaseFails(t: nat)
    | BaseResponds(t: nat, status: int)
    | CloseAndRetry(t: nat)
    | CloseBody(t: nat)

  predicate Holds(th: Thread) {
    th.phase.InFlight? || th.phase.Closing? || th.phase == Returned(true)
  }

  predicate Finished(th: Thread) {
    th.phase == Returned(false) || th.phase.Failed?
  }

  /** The authority of the current attempt. */
  function Target(th: Thread): string {
    if th.at < |th.hosts| && th.hosts[th.at].Some? then Authority(th.hosts[th.at].value) else ""
  }

  // ---- steps ----

  /** An attempt has failed: the next candidate, or the end. */
  function AfterFailure(th: Thread, out: Outcome): Thread {
    var th' := th.(seen := th.seen + [out]);
    if out.Fails? && th.retryable && th.at + 1 < |th.hosts| then th'.(at := th.at + 1, phase := Ready)
    else th'.(phase := Failed)
  }

  function Released(th: Thread): Thread {
    th.(released := th.released + 1)
  }

  function TakeSlot(slots: map<string, nat>, a: string): map<string, nat> {
    slots[a := Taken(slots, a) + 1]
  }

  /** Receiving from the channel; the receive would block on an empty channel. */
  function GiveSlot(slots: map<string, nat>, a: string): map<string, nat> {
    if Taken(slots, a) == 0 then slots else slots[a := slots[a] - 1]
  }

  predicate Enabled(s: State, e: Event) {
    match e
    case Arrive(hosts, _) => |hosts| <= MAX_ATTEMPTS
    case Begin(t) => t < |s.threads| && s.threads[t].phase.Ready?
    case Acquire(t) => t < |s.threads| && s.threads[t].phase.Waiting? && Taken(s.slots, Target(s.threads[t])) < s.max
    case Cancel(t) => t < |s.threads| && s.threads[t].phase.Waiting?
    case BaseFails(t) => t < |s.threads| && s.threads[t].phase.InFlight? && Taken(s.slots, Target(s.threads[t])) > 0
    case BaseResponds(t, _) => t < |s.threads| && s.threads[t].phase.InFlight?
    case CloseAndRetry(t) => t < |s.threads| && s.threads[t].phase.Closing? && Taken(s.slots, Target(s.threads[t])) > 0
    case CloseBody(t) =>
      t < |s.threads| && s.threads[t].phase.Returned?
      && (s.threads[t].phase.open ==> Taken(s.slots, Target(s.threads[t])) > 0)
  }

  function Begun(th: Thread): Thread {
    if th.at >= |th.hosts| then th.(phase := Failed)
    else if th.hosts[th.at].None? then AfterFailure(th, BadUrl)
    else if Target(th) == "" then AfterFailure(th, Fails)
    else th.(phase := Waiting)
  }

  function Responded(th: Thread, status: int): Thread {
    if th.retryable && RetryableStatus(status) && th.at + 1 < |th.hosts| then
      th.(seen := th.seen + [Status(status)], phase := Closing)
    else th.(seen := th.seen + [Status(status)], phase := Returned(true))
  }

  /** What an event makes of the thread it is about. */
  function Moved(th: Thread, e: Event): Thread {
    match e
    case Arrive(_, _) => th
    case Begin(_) => Begun(th)
    case Acquire(_) => th.(phase := InFlight, acquired := th.acquired + 1)
    case Cancel(_) => AfterFailure(th, Fails)
    case BaseFails(_) => AfterFailure(Released(th), Fails)
    case BaseResponds(_, status) => Responded(th, status)
    case CloseAndRetry(_) => Released(th).(at := th.at + 1, phase := Ready)
    case CloseBody(_) => if th.phase == Returned(true) then Released(th).(phase := Returned(false)) else th
  }

  function MovedSlots(s: State, th: Thread, e: Event): map<string, nat> {
    match e
    case Acquire(_) => TakeSlot(s.slots, Target(th))
    case BaseFails(_) => GiveSlot(s.slots, Target(th))
    case CloseAndRetry(_) => GiveSlot(s.slots, Target(th))
    case CloseBody(_) => if th.phase == Returned(true) then GiveSlot(s.slots, Target(th)) else s.slots
    case _ => s.slots
  }

  function Apply(s: State, e: Event): State
    requires Enabled(s, e)
  {
    if e.Arrive? then s.(threads := s.threads + [Thread(e.hosts, RetryableRequest(e.request), 0, Ready, [], 0, 0)])
    else s.(slots := MovedSlots(s, s.threads[e.t], e), threads := s.threads[e.t := Moved(s.threads[e.t], e)])
  }

  /** What the steps of one request come to: each attempt leaves one outcome; a slot is taken by the step that
      stops waiting and given back by the one that fails in flight or closes a response; a waiting request can
      always be cancelled. Other requests stay as they are. */
  lemma StepsRecordOutcomes(s: State, e: Event)
    requires Enabled(s, e) && !e.Arrive?
    ensures var th, after := s.threads[e.t], Apply(s, e).threads[e.t];
      && after.hosts == th.hosts && after.retryable == th.retryable
      && after.acquired == th.acquired + (if e.Acquire? then 1 else 0)
      && after.released == th.released
           + (if e.BaseFails? || e.CloseAndRetry? || (e.CloseBody? && th.phase == Returned(true)) then 1 else 0)
      && after.at == th.at + (if after.phase.Ready? then 1 else 0)
      && (e.Cancel? || e.BaseFails? ==> after.seen == th.seen + [Fails])
      && (e.BaseResponds? ==> after.seen == th.seen + [Status(e.status)])
      && (e.BaseResponds? ==> (after.phase.Closing? <==>
            th.retryable && (e.status == 502 || e.status == 503 || e.status == 504) && th.at + 1 < |th.hosts|))
      && (e.BaseResponds? && !after.phase.Closing? ==> after.phase == Returned(true))
      && (e.Acquire? || e.CloseAndRetry? || e.CloseBody? ==> after.seen == th.seen)
      && forall t | 0 <= t < |s.threads| && t != e.t :: Apply(s, e).threads[t] == s.threads[t]
    ensures forall t | 0 <= t < |s.threads| :: s.threads[t].phase.Waiting? ==> Enabled(s, Cancel(t))
  {
  }

  // ---- the invariant ----

  /** How many threads hold a slot of authority `a`. */
  function Holders(threads: seq<Thread>, a: string): nat {
    if threads == [] then 0
    else Holders(threads[..|threads| - 1], a) + HoldsOf(threads[|threads| - 1], a)
  }

  function HoldsOf(th: Thread, a: string): nat {
    if Holds(th) && Target(th) == a then 1 else 0
  }

  /** Every attempt before this one moved on. */
  ghost predicate AllMovedOn(th: Thread, n: nat) {
    n <= |th.seen| && n <= |th.hosts|
    && forall k | 0 <= k < n :: MovesOn(th.seen[k], th.retryable, k + 1 == |th.hosts|)
  }

  ghost predicate ThreadOk(th: Thread) {
    && |th.hosts| <= MAX_ATTEMPTS
    && th.acquired == th.released + (if Holds(th) then 1 else 0)
    && th.acquired <= th.at + 1
    && AllMovedOn(th, th.at)
    && (match th.phase
        case Ready => |th.seen| == th.at && th.acquired <= th.at
        case Waiting => |th.seen| == th.at < |th.hosts| && th.acquired <= th.at
        case InFlight => |th.seen| == th.at < |th.hosts|
        case Closing => |th.seen| == th.at + 1 < |th.hosts| && AllMovedOn(th, th.at + 1)
        case Returned(_) => |th.seen| == th.at + 1 <= |th.hosts| && th.seen[th.at].Status?
          && !MovesOn(th.seen[th.at], th.retryable, th.at + 1 == |th.hosts|)
        case Failed =>
          || (|th.seen| == th.at == |th.hosts| && th.acquired <= th.at)
          || (|th.seen| == th.at + 1 <= |th.hosts| && !th.seen[th.at].Status?
              && (!MovesOn(th.seen[th.at], th.retryable, th.at + 1 == |th.hosts|) || th.at + 1 == |th.hosts|)))
  }

  ghost predicate Inv(s: State) {
    && (forall a :: Taken(s.slots, a) == Holders(s.threads, a) <= s.max)
    && (forall t | 0 <= t < |s.threads| :: ThreadOk(s.threads[t]))
  }

  lemma {:induction false} HoldersUpdate(threads: seq<Thread>, t: nat, th: Thread, a: string)
    requires t < |threads|
    ensures Holders(threads[t := th], a) + HoldsOf(threads[t], a) == Holders(threads, a) + HoldsOf(th, a)
    decreases |threads|
  {
    var n := |threads| - 1;
    if t < n {
      HoldersUpdate(threads[..n], t, th, a);
      assert threads[t := th][..n] == threads[..n][t := th];
    } else {
      assert threads[t := th][..n] == threads[..n];
    }
  }

  lemma {:induction false} HolderCounts(threads: seq<Thread>, t: nat)
    requires t < |threads| && Holds(threads[t])
    ensures Holders(threads, Target(threads[t])) > 0
    decreases |threads|
  {
    if t < |threads| - 1 {
      HolderCounts(threads[..|threads| - 1], t);
    }
  }

  /** An attempt that ends without a response is settled, and the next one has begun or there is none. */
  lemma FailureOk(th: Thread, out: Outcome)
    requires |th.seen| == th.at < |th.hosts| <= MAX_ATTEMPTS && AllMovedOn(th, th.at)
    requires th.acquired == th.released <= th.at + 1 && !out.Status?
    ensures ThreadOk(AfterFailure(th, out))
  {
  }

  lemma BegunOk(th: Thread)
    requires ThreadOk(th) && th.phase.Ready?
    ensures ThreadOk(Begun(th))
  {
    hide AfterFailure;
    if th.at < |th.hosts| {
      FailureOk(th, BadUrl);
      FailureOk(th, Fails);
    }
  }

  lemma RespondedOk(th: Thread, status: int)
    requires ThreadOk(th) && th.phase.InFlight?
    ensures ThreadOk(Responded(th, status))
  {
  }

  lemma ReleasedOk(th: Thread, e: Event)
    requires ThreadOk(th)
    requires (e.CloseAndRetry? && th.phase.Closing?) || (e.CloseBody? && th.phase.Returned?)
    ensures ThreadOk(Moved(th, e))
  {
  }

  lemma MovedOk(th: Thread, e: Event)
    requires ThreadOk(th) && !e.Arrive?
    requires match e
      case Begin(_) => th.phase.Ready?
      case Acquire(_) => th.phase.Waiting?
      case Cancel(_) => th.phase.Waiting?
      case BaseFails(_) => th.phase.InFlight?
      case BaseResponds(_, _) => th.phase.InFlight?
      case CloseAndRetry(_) => th.phase.Closing?
      case CloseBody(_) => th.phase.Returned?
    ensures ThreadOk(Moved(th, e))
  {
    hide AfterFailure, Begun, Responded;
    match e
    case Begin(_) => BegunOk(th);
    case Cancel(_) => FailureOk(th, Fails);
    case BaseFails(_) => FailureOk(Released(th), Fails);
    case BaseResponds(_, status) => RespondedOk(th, status);
    case CloseAndRetry(_) => ReleasedOk(th, e);
    case CloseBody(_) => ReleasedOk(th, e);
    case Acquire(_) =>
  }

  /** What a step does to an authority's occupancy is what it does to the thread's own claim on it. */
  lemma SlotsFollowTheThread(s: State, e: Event, a: string)
    requires Enabled(s, e) && !e.Arrive?
    requires Holds(s.threads[e.t]) ==> Taken(s.slots, Target(s.threads[e.t])) > 0
    ensures var th := s.threads[e.t]; var after := MovedSlots(s, th, e);
      && Taken(after, a) + HoldsOf(th, a) == Taken(s.slots, a) + HoldsOf(Moved(th, e), a)
      && (Taken(s.slots, a) <= s.max ==> Taken(after, a) <= s.max)
  {
  }

  lemma StepKeepsInv(s: State, e: Event)
    requires Inv(s) && Enabled(s, e)
    ensures Inv(Apply(s, e))
  {
    if e.Arrive? {
      forall a
        ensures Holders(Apply(s, e).threads, a) == Holders(s.threads, a)
      {
        assert Apply(s, e).threads[..|s.threads|] == s.threads;
      }
    } else {
      MoveKeepsInv(s, e);
    }
  }

  lemma HolderHasASlot(s: State, t: nat)
    requires Inv(s) && t < |s.threads| && Holds(s.threads[t])
    ensures Taken(s.slots, Target(s.threads[t])) > 0
  {
    hide ThreadOk, Holds, Taken;
    HolderCounts(s.threads, t);
    assert Taken(s.slots, Target(s.threads[t])) == Holders(s.threads, Target(s.threads[t]));
  }

  /** One authority's occupancy still counts its holders after a step. */
  lemma OccupancyFollows(s: State, e: Event, a: string)
    requires Inv(s) && Enabled(s, e) && !e.Arrive?
    ensures Taken(Apply(s, e).slots, a) == Holders(Apply(s, e).threads, a) <= s.max
  {
    hide ThreadOk, Holds, Taken, HoldsOf, Moved, MovedSlots;
    var th := s.threads[e.t];
    if Holds(th) {
      HolderHasASlot(s, e.t);
    }
    HoldersUpdate(s.threads, e.t, Moved(th, e), a);
    SlotsFollowTheThread(s, e, a);
    assert Taken(s.slots, a) == Holders(s.threads, a) <= s.max;
  }

  lemma MoveKeepsInv(s: State, e: Event)
    requires Inv(s) && Enabled(s, e) && !e.Arrive?
    ensures Inv(Apply(s, e))
  {
    hide ThreadOk, Moved, MovedSlots, Taken, Holders;
    MovedOk(s.threads[e.t], e);
    forall a
      ensures Taken(Apply(s, e).slots, a) == Holders(Apply(s, e).threads, a) <= s.max
    {
      OccupancyFollows(s, e, a);
    }
  }

  function Run(s: State, log: seq<Event>): Option<State>
  {
    if log == [] then Some(s)
    else match Run(s, log[..|log| - 1])
      case None => None
      case Some(t) => if Enabled(t, log[|log| - 1]) then Some(Apply(t, log[|log| - 1])) else None
  }

  lemma {:induction false} ReachableInv(max: nat, log: seq<Event>)
    requires Run(State(max, map[], []), log).Some?
    ensures Inv(Run(State(max, map[], []), log).value)
  {
    if log != [] {
      var front := log[..|log| - 1];
      ReachableInv(max, front);
      StepKeepsInv(Run(State(max, map[], []), front).value, log[|log| - 1]);
    }
  }

  // ---- slots, over every interleaving ----

  /** What a request has taken and given back, by where it is. */
  predicate SlotsOf(th: Thread) {
    && th.released <= th.acquired <= th.released + 1
    && th.acquired <= MAX_ATTEMPTS
    && (Finished(th) ==> th.acquired == th.released)
    && (th.phase == Returned(true) ==> th.acquired == th.released + 1)
  }

  lemma SlotsOfThread(th: Thread)
    requires ThreadOk(th)
    ensures SlotsOf(th)
  {
  }

  /** In every reachable state an authority's occupancy is the number of requests that hold one of its
      slots and is within the limit; each request holds at most one slot, holds none once it failed or
      its body was closed, and holds exactly one while its body is open. */
  lemma SlotsAreAccountedFor(max: nat, log: seq<Event>, a: string)
    requires Run(State(max, map[], []), log).Some?
    ensures var s := Run(State(max, map[], []), log).value;
      Taken(s.slots, a) == Holders(s.threads, a) <= max && (forall t | 0 <= t < |s.threads| :: SlotsOf(s.threads[t]))
  {
    ReachableInv(max, log);
    KeepsMax(State(max, map[], []), log);
    var s := Run(State(max, map[], []), log).value;
    assert Taken(s.slots, a) == Holders(s.threads, a) <= s.max;
    forall t | 0 <= t < |s.threads|
      ensures SlotsOf(s.threads[t])
    {
      SlotsOfThread(s.threads[t]);
    }
  }

  lemma {:induction false} KeepsMax(s: State, log: seq<Event>)
    requires Run(s, log).Some?
    ensures Run(s, log).value.max == s.max
  {
    if log != [] {
      KeepsMax(s, log[..|log| - 1]);
    }
  }

  /** Giving a slot back never blocks: whoever holds one can always go on. */
  lemma ReleaseNeverBlocks(s: State, t: nat)
    requires Inv(s) && t < |s.threads|
    ensures s.threads[t].phase.InFlight? ==> Enabled(s, BaseFails(t))
    ensures s.threads[t].phase.Closing? ==> Enabled(s, CloseAndRetry(t))
    ensures s.threads[t].phase.Returned? ==> Enabled(s, CloseBody(t))
  {
    if Holds(s.threads[t]) {
      HolderHasASlot(s, t);
    }
  }

  /** A request waiting for a slot holds none itself, and what it waits for is held by a request that
      can give it back. */
  lemma WaitingIsForAHolder(s: State, t: nat)
    requires Inv(s) && s.max > 0 && t < |s.threads| && s.threads[t].phase.Waiting?
    ensures !Holds(s.threads[t])
    ensures !Enabled(s, Acquire(t)) ==>
      (exists u :: 0 <= u < |s.threads| && u != t && Holds(s.threads[u]) && Target(s.threads[u]) == Target(s.threads[t]))
  {
    var a := Target(s.threads[t]);
    assert Taken(s.slots, a) == Holders(s.threads, a);
    if Taken(s.slots, a) == s.max {
      var u := FindHolder(s.threads, a);
    }
  }

  lemma {:induction false} FindHolder(threads: seq<Thread>, a: string) returns (u: nat)
    requires Holders(threads, a) > 0
    ensures u < |threads| && Holds(threads[u]) && Target(threads[u]) == a
  {
    u := |threads| - 1;
    if HoldsOf(threads[u], a) == 0 {
      u := FindHolder(threads[..u], a);
    }
  }

  /** A step that does something for a request already here. */
  predicate Effective(s: State, e: Event) {
    Enabled(s, e) && !e.Arrive? && !(e.CloseBody? && s.threads[e.t].phase == Returned(false))
  }

  /** No deadlock: while any request is unfinished some request can move on, without any cancellation. */
  lemma NoDeadlock(s: State, t: nat) returns (e: Event)
    requires Inv(s) && s.max > 0 && t < |s.threads| && !Finished(s.threads[t])
    ensures Effective(s, e) && !e.Cancel?
  {
    var u := t;
    if s.threads[t].phase.Waiting? && !Enabled(s, Acquire(t)) {
      WaitingIsForAHolder(s, t);
      u :| 0 <= u < |s.threads| && u != t && Holds(s.threads[u]);
    }
    ReleaseNeverBlocks(s, u);
    match s.threads[u].phase
    case Ready => e := Begin(u);
    case Waiting => e := Acquire(u);
    case InFlight => e := BaseFails(u);
    case Closing => e := CloseAndRetry(u);
    case Returned(_) => e := CloseBody(u);
  }

  // ---- every run of the requests ends ----

  function Work(th: Thread): nat {
    var left := if th.at < |th.hosts| then 5 * (|th.hosts| - th.at) else 0;
    match th.phase
    case Ready => left + 5
    case Waiting => left + 4
    case InFlight => left + 3
    case Closing => left + 2
    case Returned(open) => if open then 1 else 0
    case Failed => 0
  }

  function TotalWork(threads: seq<Thread>): nat {
    if threads == [] then 0 else TotalWork(threads[..|threads| - 1]) + Work(threads[|threads| - 1])
  }

  lemma {:induction false} WorkUpdate(threads: seq<Thread>, t: nat, th: Thread)
    requires t < |threads|
    ensures TotalWork(threads[t := th]) + Work(threads[t]) == TotalWork(threads) + Work(th)
    decreases |threads|
  {
    var n := |threads| - 1;
    if t < n {
      WorkUpdate(threads[..n], t, th);
      assert threads[t := th][..n] == threads[..n][t := th];
    } else {
      assert threads[t := th][..n] == threads[..n];
    }
  }

  lemma MovedHasLessWork(th: Thread, e: Event)
    requires ThreadOk(th)
    requires match e
      case Arrive(_, _) => false
      case Begin(_) => th.phase.Ready?
      case Acquire(_) => th.phase.Waiting?
      case Cancel(_) => th.phase.Waiting?
      case BaseFails(_) => th.phase.InFlight?
      case BaseResponds(_, _) => th.phase.InFlight?
      case CloseAndRetry(_) => th.phase.Closing?
      case CloseBody(_) => th.phase == Returned(true)
    ensures Work(Moved(th, e)) < Work(th)
  {
  }

  lemma StepsUseUpWork(s: State, e: Event)
    requires Inv(s) && Effective(s, e)
    ensures TotalWork(Apply(s, e).threads) < TotalWork(s.threads)
  {
    var th := s.threads[e.t];
    assert ThreadOk(th);
    MovedHasLessWork(th, e);
    WorkUpdate(s.threads, e.t, Moved(th, e));
  }

  /** Events that do something, from a given state on. */
  ghost predicate AllEffective(s: State, log: seq<Event>) {
    forall i | 0 <= i < |log| :: Run(s, log[..i]).Some? && Effective(Run(s, log[..i]).value, log[i])
  }

  /** However they interleave, requests that have arrived finish within a bounded number of steps; when
      none of them can move on, all have finished and every slot is free. */
  lemma {:induction false} RequestsFinish(s: State, log: seq<Event>)
    requires Inv(s) && s.max > 0 && AllEffective(s, log)
    ensures Run(s, log).Some? && Inv(Run(s, log).value) && Run(s, log).value.max == s.max
    ensures |log| + TotalWork(Run(s, log).value.threads) <= TotalWork(s.threads)
    ensures (forall e :: !Effective(Run(s, log).value, e)) ==>
      && (forall t | 0 <= t < |Run(s, log).value.threads| :: Finished(Run(s, log).value.threads[t]))
      && (forall a :: Taken(Run(s, log).value.slots, a) == 0)
  {
    if log != [] {
      var n := |log| - 1;
      var front := log[..n];
      forall i | 0 <= i < |front|
        ensures Run(s, front[..i]).Some? && Effective(Run(s, front[..i]).value, front[i])
      {
        assert front[..i] == log[..i];
      }
      RequestsFinish(s, front);
      var before := Run(s, front).value;
      assert Effective(before, log[n]);
      StepKeepsInv(before, log[n]);
      StepsUseUpWork(before, log[n]);
    }
    if forall e :: !Effective(Run(s, log).value, e) {
      QuietMeansDone(Run(s, log).value);
    }
  }

  lemma {:induction false} FinishedHoldNothing(threads: seq<Thread>, a: string)
    requires forall t | 0 <= t < |threads| :: Finished(threads[t])
    ensures Holders(threads, a) == 0
  {
    if threads != [] {
      FinishedHoldNothing(threads[..|threads| - 1], a);
    }
  }

  lemma QuietMeansDone(s: State)
    requires Inv(s) && s.max > 0 && forall e :: !Effective(s, e)
    ensures forall t | 0 <= t < |s.threads| :: Finished(s.threads[t])
    ensures forall a :: Taken(s.slots, a) == 0
  {
    forall t | 0 <= t < |s.threads|
      ensures Finished(s.threads[t])
    {
      if !Finished(s.threads[t]) {
        var e := NoDeadlock(s, t);
        assert false;
      }
    }
    forall a
      ensures Taken(s.slots, a) == 0
    {
      FinishedHoldNothing(s.threads, a);
      assert Taken(s.slots, a) == Holders(s.threads, a);
    }
  }

  // ---- the loop in any interleaving is the recursive loop ----

  lemma {:induction false} SkipMovedOn(outs: seq<Outcome>, retryable: bool, i: nat)
    requires i <= |outs| && forall k | 0 <= k < i :: MovesOn(outs[k], retryable, k + 1 == |outs|)
    ensures Failover(outs, retryable, 0) == Failover(outs, retryable, i)
  {
    if i > 0 {
      SkipMovedOn(outs, retryable, i - 1);
    }
  }

  /** Whatever the interleaving, a request ends with the verdict of the recursive loop on the outcomes
      of its own attempts; attempts it did not make have no say. */
  lemma VerdictIsFailover(max: nat, log: seq<Event>, t: nat, outs: seq<Outcome>)
    requires Run(State(max, map[], []), log).Some? && t < |Run(State(max, map[], []), log).value.threads|
    requires var th := Run(State(max, map[], []), log).value.threads[t];
      |outs| == |th.hosts| && th.seen <= outs && (th.phase.Returned? || th.phase.Failed?)
    ensures var th := Run(State(max, map[], []), log).value.threads[t];
      && (th.phase.Returned? ==>
            && th.at < |outs| && outs[th.at].Status?
            && Failover(outs, th.retryable, 0) == Answered(th.at, outs[th.at].status))
      && (th.phase.Failed? ==> Failover(outs, th.retryable, 0) == GaveUp(|th.seen|))
  {
    ReachableInv(max, log);
    var th := Run(State(max, map[], []), log).value.threads[t];
    assert ThreadOk(th);
    SkipMovedOn(outs, th.retryable, th.at);
  }
}
