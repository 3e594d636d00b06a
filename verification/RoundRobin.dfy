/** The choice of the first backend: one atomic 64-bit ticket counter per service. */
module RoundRobin {

  /** The counter is 64 bits wide. */
  const WRAP := 0x1_0000_0000_0000_0000

  function Rotated<T>(candidates: seq<T>, offset: nat): seq<T>
    requires offset <= |candidates|
  {
    candidates[offset..] + candidates[..offset]
  }

  /** Position `i` of a circle of `k` places, counted on for less than a second round. */
  function Around(i: nat, k: nat): nat
    requires i < k + k
  {
    if i < k then i else i - k
  }

  /** A request for a service, with the number of its healthy candidates. */
  datatype Request = Request(service: string, candidates: nat)

  function Ticket(counters: map<string, nat>, service: string): nat {
    if service in counters then counters[service] else 0
  }

  function Draw(counters: map<string, nat>, r: Request): map<string, nat> {
    if r.candidates < 2 then counters else counters[r.service := (Ticket(counters, r.service) + 1) % WRAP]
  }

  /** The index of the candidate that comes first. */
  function First(counters: map<string, nat>, r: Request): nat {
    if r.candidates < 2 then 0 else Ticket(counters, r.service) % r.candidates
  }

  class Rotator {
    var counters: map<string, nat>

    ghost predicate Valid()
      reads this
    {
      forall s | s in counters :: counters[s] < WRAP
    }

    constructor ()
      ensures Valid() && counters == map[]
    {
      counters := map[];
    }

    /** The same candidates in the same circular order, starting at the one the ticket points to; a
        single candidate uses up no ticket. */
    method RotateCandidates<T>(service: string, candidates: seq<T>) returns (rotated: seq<T>)
      requires Valid()
      modifies this
      ensures Valid()
      ensures counters == Draw(old(counters), Request(service, |candidates|))
      ensures var first := First(old(counters), Request(service, |candidates|));
        && |rotated| == |candidates|
        && forall i | 0 <= i < |candidates| :: rotated[i] == candidates[Around(first + i, |candidates|)]
      ensures multiset(rotated) == multiset(candidates)
      ensures var t := if service in old(counters) then old(counters)[service] else 0;
        if |candidates| < 2 then rotated == candidates && counters == old(counters)
        else
          && rotated == candidates[t % |candidates|..] + candidates[..t % |candidates|]
          && counters == old(counters)[service := if t == 18446744073709551615 then 0 else t + 1]
    {
      if |candidates| < 2 {
        return candidates;
      }
      if service !in counters {
        counters := counters[service := 0];
      }
      TicketBeforeAdding(counters[service]);
      var added := NextTicket(counters[service]);
      counters := counters[service := added];
      var offset := (added + WRAP - 1) % WRAP % |candidates|;
      rotated := candidates[offset..];
      rotated := rotated + candidates[..offset];
      RotatedIsCircular(candidates, offset);
    }
  }

  /** The 64-bit sum. */
  function NextTicket(ticket: nat): (next: nat)
    requires ticket < WRAP
    ensures next < WRAP && next == if ticket == 18446744073709551615 then 0 else ticket + 1
  {
    (ticket + 1) % WRAP
  }

  /** Subtracting one from the incremented counter gives back the ticket, at the wrap as well. */
  lemma TicketBeforeAdding(ticket: nat)
    requires ticket < WRAP
    ensures (NextTicket(ticket) + WRAP - 1) % WRAP == ticket
  {
    if ticket + 1 == WRAP {
      assert (ticket + 1) % WRAP == 0;
    } else {
      assert (ticket + 1) % WRAP == ticket + 1;
    }
  }

  lemma RotatedIsCircular<T>(candidates: seq<T>, offset: nat)
    requires offset < |candidates|
    ensures |Rotated(candidates, offset)| == |candidates|
    ensures forall i | 0 <= i < |candidates| ::
      Rotated(candidates, offset)[i] == candidates[Around(offset + i, |candidates|)]
    ensures multiset(Rotated(candidates, offset)) == multiset(candidates)
  {
    assert candidates == candidates[..offset] + candidates[offset..];
  }

  // ---- arithmetic ----

  lemma Multiples(d: int, k: nat)
    ensures d >= 1 ==> d * k >= k
    ensures d <= -1 ==> d * k + k <= 0
  {
    if d >= 1 {
      assert (d - 1) * k >= 0;
    } else if d <= -1 {
      assert (-d - 1) * k >= 0;
    }
  }

  lemma Division(m: nat, k: nat, q: nat, r: nat)
    requires r < k && m == q * k + r
    ensures m / k == q && m % k == r
  {
    var p := m / k;
    assert m == p * k + m % k;
    assert (q - p) * k == q * k - p * k;
    Multiples(q - p, k);
  }

  lemma Distribute(q: nat, p: nat, k: nat)
    ensures (q + p) * k == q * k + p * k
    ensures (q + p + 1) * k == q * k + p * k + k
  {
  }

  /** Division with remainder distributes over a sum, up to one carry. */
  lemma DivisionOfSum(m: nat, n: nat, k: nat)
    requires k > 0
    ensures (m + n) / k == m / k + n / k + if m % k + n % k >= k then 1 else 0
    ensures (m + n) % k == m % k + n % k - if m % k + n % k >= k then k else 0
  {
    var q, p, r, e := m / k, n / k, m % k, n % k;
    assert m == q * k + r && n == p * k + e;
    SumOfParts(m, n, k, q, p, r, e);
  }

  lemma SumOfParts(m: nat, n: nat, k: nat, q: nat, p: nat, r: nat, e: nat)
    requires r < k && e < k && m == q * k + r && n == p * k + e
    ensures (m + n) / k == q + p + if r + e >= k then 1 else 0
    ensures (m + n) % k == r + e - if r + e >= k then k else 0
  {
    Distribute(q, p, k);
    if r + e >= k {
      Division(m + n, k, q + p + 1, r + e - k);
    } else {
      Division(m + n, k, q + p, r + e);
    }
  }

  lemma Small(m: nat, k: nat)
    requires m < k
    ensures m / k == 0 && m % k == m
  {
    Division(m, k, 0, m);
  }

  lemma Once(m: nat, k: nat)
    requires k <= m < k + k
    ensures m / k == 1 && m % k == m - k
  {
    Division(m, k, 1, m - k);
  }

  /** How many numbers below `m` leave remainder `c`. */
  function Below(m: nat, k: nat, c: nat): nat
    requires c < k
  {
    m / k + if m % k > c then 1 else 0
  }

  lemma BelowNext(m: nat, k: nat, c: nat)
    requires c < k
    ensures Below(m + 1, k, c) == Below(m, k, c) + if m % k == c then 1 else 0
  {
    DivisionOfSum(m, 1, k);
    if k == 1 {
      Once(1, 1);
    } else {
      Small(1, k);
    }
  }

  /** `n` divided by `k`, rounded up. */
  function Ceiling(n: nat, k: nat): nat
    requires k > 0
  {
    n / k + if n % k == 0 then 0 else 1
  }

  /** `n` further numbers add `n / k` remainders `c`, rounded down or up. */
  lemma BelowSpan(m: nat, n: nat, k: nat, c: nat)
    requires c < k
    ensures n / k <= Below(m + n, k, c) - Below(m, k, c) <= Ceiling(n, k)
  {
    DivisionOfSum(m, n, k);
  }

  // ---- consecutive tickets ----

  /** Of `n` tickets drawn one after the other from `start` on, how many put candidate `c` of `k` first. */
  function Firsts(start: nat, n: nat, k: nat, c: nat): nat
    requires k > 0
  {
    if n == 0 then 0 else Firsts(start, n - 1, k, c) + if (start + (n - 1)) % WRAP % k == c then 1 else 0
  }

  /** As even a share of `n` tickets as `k` candidates can have. */
  ghost predicate EvenShare(share: nat, n: nat, k: nat)
    requires k > 0
  {
    n / k <= share <= Ceiling(n, k)
  }

  lemma {:induction false} FirstsBelow(start: nat, n: nat, k: nat, c: nat)
    requires c < k && (start + n <= WRAP || WRAP % k == 0)
    ensures Firsts(start, n, k, c) == Below(start + n, k, c) - Below(start, k, c)
  {
    if n > 0 {
      FirstsBelow(start, n - 1, k, c);
      BelowNext(start + (n - 1), k, c);
      if start + n <= WRAP {
        Small(start + (n - 1), WRAP);
      } else {
        ModuloTwice(start + (n - 1), k);
      }
    }
  }

  lemma ModuloTwice(m: nat, k: nat)
    requires k > 0 && WRAP % k == 0
    ensures m % WRAP % k == m % k
  {
    var w, q, r := WRAP / k, m / WRAP, m % WRAP;
    assert WRAP == w * k && m == q * WRAP + r;
    assert r == (r / k) * k + r % k;
    assert q * WRAP == (q * w) * k by {
      Regroup(q, w, k);
    }
    assert (q * w + r / k) * k == (q * w) * k + (r / k) * k;
    Division(m, k, q * w + r / k, r % k);
  }

  lemma Regroup(a: nat, b: nat, c: nat)
    ensures a * (b * c) == (a * b) * c
  {
  }

  /** Over any `n` consecutive tickets that do not cross the wrap every candidate is first `n / k` times,
      rounded down or up. */
  lemma ConsecutiveTicketsAreFair(start: nat, n: nat, k: nat, c: nat)
    requires c < k && start + n <= WRAP
    ensures EvenShare(Firsts(start, n, k, c), n, k)
  {
    FirstsBelow(start, n, k, c);
    BelowSpan(start, n, k, c);
  }

  /** Fairness survives the wrap for exactly those numbers of candidates that divide it. */
  lemma FairAcrossTheWrapExactly(k: nat)
    requires k > 0
    ensures (forall start: nat, n: nat, c: nat | start < WRAP && c < k :: EvenShare(Firsts(start, n, k, c), n, k))
       <==> WRAP % k == 0
  {
    hide Firsts, EvenShare;
    if WRAP % k == 0 {
      forall start: nat, n: nat, c: nat | start < WRAP && c < k
        ensures EvenShare(Firsts(start, n, k, c), n, k)
      {
        FairWhenItDivides(start, n, k, c);
      }
    } else {
      UnfairAtTheWrap(k);
    }
  }

  lemma FairWhenItDivides(start: nat, n: nat, k: nat, c: nat)
    requires c < k && WRAP % k == 0
    ensures EvenShare(Firsts(start, n, k, c), n, k)
  {
    FirstsBelow(start, n, k, c);
    BelowSpan(start, n, k, c);
  }

  /** Otherwise the candidate that is first at the last ticket divisible by `k` is first again at ticket 0,
      before all the others have had their turn. */
  lemma UnfairAtTheWrap(k: nat)
    requires k > 0 && WRAP % k != 0
    ensures var r := WRAP % k; !EvenShare(Firsts(WRAP - r, r + 1, k, 0), r + 1, k)
  {
    var q, r := WRAP / k, WRAP % k;
    assert WRAP - r == q * k;
    UnfairAfter(WRAP - r, k, q, r);
  }

  lemma UnfairAfter(start: nat, k: nat, q: nat, r: nat)
    requires 0 < r < k && start == q * k && start + r == WRAP
    ensures !EvenShare(Firsts(start, r + 1, k, 0), r + 1, k)
  {
    FirstsBelow(start, r, k, 0);
    Division(start, k, q, 0);
    Division(start + r, k, q, r);
    assert Firsts(start, r, k, 0) == 1;
    Small(0, k);
    assert Firsts(start, r + 1, k, 0) == 2;
    if r + 1 == k {
      Once(k, k);
    } else {
      Small(r + 1, k);
    }
  }

  // ---- whole runs, with other services in between ----

  function After(counters: map<string, nat>, log: seq<Request>): map<string, nat> {
    if log == [] then counters else Draw(After(counters, log[..|log| - 1]), log[|log| - 1])
  }

  function Requests(log: seq<Request>, service: string): nat {
    if log == [] then 0
    else Requests(log[..|log| - 1], service) + if log[|log| - 1].service == service then 1 else 0
  }

  /** How often candidate `c` came first among the requests of one service. */
  function TimesFirst(counters: map<string, nat>, log: seq<Request>, service: string, c: nat): nat {
    if log == [] then 0
    else
      var r := log[|log| - 1];
      TimesFirst(counters, log[..|log| - 1], service, c)
      + if r.service == service && First(After(counters, log[..|log| - 1]), r) == c then 1 else 0
  }

  /** The requests of a service draw consecutive tickets, whatever the other services do in between. */
  lemma {:induction false} TicketsAreConsecutive(counters: map<string, nat>, log: seq<Request>, service: string)
    requires Ticket(counters, service) < WRAP
    requires forall i | 0 <= i < |log| && log[i].service == service :: log[i].candidates >= 2
    ensures Ticket(After(counters, log), service) == (Ticket(counters, service) + Requests(log, service)) % WRAP
  {
    if log != [] {
      var n := |log| - 1;
      hide Draw, Ticket;
      TicketsAreConsecutive(counters, log[..n], service);
      TicketAfterDraw(After(counters, log[..n]), log[n], service);
      if log[n].service == service {
        OneMore(Ticket(counters, service) + Requests(log[..n], service));
      } else {
        Small(Ticket(counters, service), WRAP);
      }
    }
  }

  lemma TicketAfterDraw(counters: map<string, nat>, r: Request, service: string)
    ensures Ticket(Draw(counters, r), service) ==
      if r.service == service && r.candidates >= 2 then (Ticket(counters, service) + 1) % WRAP else Ticket(counters, service)
  {
  }

  lemma OneMore(m: nat)
    ensures (m % WRAP + 1) % WRAP == (m + 1) % WRAP
  {
  }

  lemma {:induction false} FirstsOfARun(counters: map<string, nat>, log: seq<Request>, service: string, k: nat, c: nat)
    requires k >= 2 && Ticket(counters, service) < WRAP
    requires forall i | 0 <= i < |log| && log[i].service == service :: log[i].candidates == k
    ensures TimesFirst(counters, log, service, c) == Firsts(Ticket(counters, service), Requests(log, service), k, c)
  {
    if log != [] {
      var n := |log| - 1;
      FirstsOfARun(counters, log[..n], service, k, c);
      if log[n].service == service {
        TicketsAreConsecutive(counters, log[..n], service);
        assert First(After(counters, log[..n]), log[n]) == (Ticket(counters, service) + Requests(log[..n], service)) % WRAP % k;
      }
    }
  }

  /** However requests interleave, and whatever other services do meanwhile, the requests of one service
      with the same `k` candidates share the first place evenly until its counter wraps. */
  lemma RoundRobinIsFair(counters: map<string, nat>, log: seq<Request>, service: string, k: nat, c: nat)
    requires k >= 2 && c < k && Ticket(counters, service) + Requests(log, service) <= WRAP && Ticket(counters, service) < WRAP
    requires forall i | 0 <= i < |log| && log[i].service == service :: log[i].candidates == k
    ensures EvenShare(TimesFirst(counters, log, service, c), Requests(log, service), k)
  {
    FirstsOfARun(counters, log, service, k, c);
    ConsecutiveTicketsAreFair(Ticket(counters, service), Requests(log, service), k, c);
  }

  // ---- the attempts a failover may make ----

  /** The place of candidate `c` in the list rotated by ticket `t`. */
  function Place(t: nat, k: nat, c: nat): nat
    requires c < k
  {
    (c + k - t % k) % k
  }

  lemma PlaceIsWhereItStands<T>(candidates: seq<T>, t: nat, c: nat)
    requires c < |candidates|
    ensures Place(t, |candidates|, c) < |candidates|
    ensures |Rotated(candidates, t % |candidates|)| == |candidates|
    ensures Rotated(candidates, t % |candidates|)[Place(t, |candidates|, c)] == candidates[c]
  {
    WrapOnce(c, |candidates|, t % |candidates|);
  }

  /** Of `n` tickets from `start` on, how many put candidate `c` among the first `m` attempts. */
  function AmongFirst(start: nat, n: nat, k: nat, c: nat, m: nat): nat
    requires c < k
  {
    if n == 0 then 0
    else AmongFirst(start, n - 1, k, c, m) + if Place((start + (n - 1)) % WRAP, k, c) < m then 1 else 0
  }

  /** In `k` consecutive tickets every candidate is within the first `min(3, k)` attempts that often. */
  lemma EveryoneIsTriedEqually(start: nat, k: nat, c: nat)
    requires c < k && start + k <= WRAP
    ensures var m := if k < 3 then k else 3; AmongFirst(start, k, k, c, m) == m
  {
    AmongFirstExactly(start, k, c, if k < 3 then k else 3);
  }

  lemma {:induction false} AmongFirstExactly(start: nat, k: nat, c: nat, m: nat)
    requires c < k && m <= k && start + k <= WRAP
    ensures AmongFirst(start, k, k, c, m) == m
    decreases m
  {
    if m == 0 {
      NeverBeforeTheFirst(start, k, k, c);
    } else {
      AmongFirstExactly(start, k, c, m - 1);
      OnePlaceMore(start, k, k, c, m - 1);
      FirstsBelow(start, k, k, (c + k - (m - 1)) % k);
      BelowSpan(start, k, k, (c + k - (m - 1)) % k);
      Once(k, k);
    }
  }

  lemma {:induction false} NeverBeforeTheFirst(start: nat, n: nat, k: nat, c: nat)
    requires c < k
    ensures AmongFirst(start, n, k, c, 0) == 0
  {
    if n > 0 {
      NeverBeforeTheFirst(start, n - 1, k, c);
    }
  }

  /** Candidate `c` stands at place `m` exactly when the candidate `m` places before it is first. */
  lemma {:induction false} OnePlaceMore(start: nat, n: nat, k: nat, c: nat, m: nat)
    requires c < k && m < k
    ensures AmongFirst(start, n, k, c, m + 1) == AmongFirst(start, n, k, c, m) + Firsts(start, n, k, (c + k - m) % k)
  {
    if n > 0 {
      OnePlaceMore(start, n - 1, k, c, m);
      PlaceIs((start + (n - 1)) % WRAP % k, k, c, m);
    }
  }

  lemma PlaceIs(o: nat, k: nat, c: nat, m: nat)
    requires o < k && c < k && m < k
    ensures (c + k - o) % k == m <==> o == (c + k - m) % k
  {
    WrapOnce(c, k, o);
    WrapOnce(c, k, m);
  }

  lemma WrapOnce(c: nat, k: nat, o: nat)
    requires o < k && c < k
    ensures (c + k - o) % k == if o <= c then c - o else c + k - o
  {
    if o <= c {
      Once(c + k - o, k);
    } else {
      Small(c + k - o, k);
    }
  }
}
