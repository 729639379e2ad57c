/**
  The rate limiter: a table of request counts that is cleared once `timeout` has passed since the
  last clear, a `pre` hook that rejects an address whose count has reached the limit, and an `end`
  hook that clears if due and then counts the request.

  First one request at a time, as a class; then any number of workers, step by step.
 */
module RateLimit {
  type Ip = nat

  datatype Limiter = Limiter(limit: nat, timeout: nat, lastReset: nat, requests: map<Ip, nat>)

  datatype Verdict = Continue | Send

  function Count(requests: map<Ip, nat>, ip: Ip): nat {
    if ip in requests then requests[ip] else 0
  }

  function Fresh(limit: nat, timeout: nat): Limiter {
    Limiter(limit, timeout, 0, map[])
  }

  predicate IsOverLimit(l: Limiter, ip: Ip) {
    Count(l.requests, ip) >= l.limit
  }

  predicate Expired(l: Limiter, time: nat) {
    l.lastReset + l.timeout <= time
  }

  /** The limiter after the `end` hook of a request from `ip` at `time`. */
  function End(l: Limiter, ip: Ip, time: nat): Limiter {
    var cleared := if Expired(l, time) then l.(lastReset := time, requests := map[]) else l;
    cleared.(requests := cleared.requests[ip := Count(cleared.requests, ip) + 1])
  }

  class RateLimiter {
    const limit: nat
    const timeout: nat
    var lastReset: nat
    var requests: map<Ip, nat>

    function State(): Limiter
      reads this
    {
      Limiter(limit, timeout, lastReset, requests)
    }

    constructor (limit: nat, timeout: nat)
      ensures this.limit == limit && this.timeout == timeout && lastReset == 0 && requests == map[]
    {
      this.limit, this.timeout, lastReset, requests := limit, timeout, 0, map[];
    }

    method AddRequest(ip: Ip)
      modifies this
      ensures lastReset == old(lastReset)
      ensures requests == old(requests)[ip := 1 + if ip in old(requests) then old(requests)[ip] else 0]
    {
      var count := (if ip in requests then requests[ip] else 0) + 1;
      requests := requests[ip := count];
    }

    method CheckReset(time: nat)
      modifies this
      ensures old(lastReset) + timeout <= time ==> requests == map[] && lastReset == time
      ensures old(lastReset) + timeout > time ==> requests == old(requests) && lastReset == old(lastReset)
    {
      if lastReset + timeout <= time {
        requests := map[];
        lastReset := time;
      }
    }

    /** `handled` is whether the handler returns a response for this request. */
    method Pre(ip: Ip, handled: bool) returns (verdict: Verdict)
      ensures verdict == Send <==> handled && limit <= if ip in requests then requests[ip] else 0
    {
      if (if ip in requests then requests[ip] else 0) >= limit {
        if handled {
          return Send;
        }
      }
      return Continue;
    }

    method EndHook(ip: Ip, time: nat)
      modifies this
      ensures State() == End(old(State()), ip, time)
    {
      CheckReset(time);
      AddRequest(ip);
    }
  }

  // ---- One request at a time

  /** A request that the hooks see at `start` and, whether admitted or not, at `end`. */
  datatype Visit = Visit(ip: Ip, start: nat, end: nat)

  /** The clock does not run backwards, and a visit ends before the next one starts. */
  predicate Ordered(visits: seq<Visit>) {
    && (forall i :: 0 <= i < |visits| ==> visits[i].start <= visits[i].end)
    && (forall i, j :: 0 <= i < j < |visits| ==> visits[i].end <= visits[j].start)
  }

  function Serve(l: Limiter, v: Visit): Limiter {
    End(l, v.ip, v.end)
  }

  /** How many visits from `ip` that start in `[lo, hi)` are admitted. */
  function Admissions(l: Limiter, visits: seq<Visit>, ip: Ip, lo: nat, hi: nat): nat
    decreases |visits|
  {
    if visits == [] then 0
    else
      var v := visits[0];
      (if v.ip == ip && lo <= v.start < hi && !IsOverLimit(l, ip) then 1 else 0)
      + Admissions(Serve(l, v), visits[1..], ip, lo, hi)
  }

  /** The times at which the table is cleared. */
  function Clears(l: Limiter, visits: seq<Visit>): seq<nat>
    decreases |visits|
  {
    if visits == [] then []
    else
      var later: seq<nat> := Clears(Serve(l, visits[0]), visits[1..]);
      if Expired(l, visits[0].end) then [visits[0].end] + later else later
  }

  /** Each time is at least `gap` after the one before it, the first one after `from`. */
  predicate Spaced(times: seq<nat>, from: nat, gap: nat) {
    times == [] || (from + gap <= times[0] && Spaced(times[1..], times[0], gap))
  }

  lemma {:induction false} ClearsApart(l: Limiter, visits: seq<Visit>)
    ensures Spaced(Clears(l, visits), l.lastReset, l.timeout)
    decreases |visits|
  {
    if visits != [] {
      var later := Clears(Serve(l, visits[0]), visits[1..]);
      ClearsApart(Serve(l, visits[0]), visits[1..]);
      assert ([visits[0].end] + later)[1..] == later;
    }
  }

  // ---- When the table is cleared and who is admitted, told from the visits alone

  function AfterVisits(l: Limiter, visits: seq<Visit>): Limiter {
    if visits == [] then l else Serve(AfterVisits(l, visits[..|visits| - 1]), visits[|visits| - 1])
  }

  /** The time of the latest clear after some visits: each that ends late enough sets it anew. */
  function LatestClear(reset: nat, timeout: nat, visits: seq<Visit>): nat {
    if visits == [] then reset
    else
      var n := |visits| - 1;
      var before := LatestClear(reset, timeout, visits[..n]);
      if before + timeout <= visits[n].end then visits[n].end else before
  }

  /** The visits from `ip` since the latest clear, with the one that cleared. */
  function Tally(reset: nat, timeout: nat, visits: seq<Visit>, ip: Ip): nat {
    if visits == [] then 0
    else
      var n := |visits| - 1;
      var own := if visits[n].ip == ip then 1 else 0;
      if LatestClear(reset, timeout, visits[..n]) + timeout <= visits[n].end then own
      else own + Tally(reset, timeout, visits[..n], ip)
  }

  /** The limiter keeps the latest clear and the tallies, and nothing else. */
  lemma {:induction false} KeepsTally(limit: nat, timeout: nat, visits: seq<Visit>, ip: Ip)
    ensures var l := AfterVisits(Fresh(limit, timeout), visits);
            && l.limit == limit && l.timeout == timeout
            && l.lastReset == LatestClear(0, timeout, visits)
            && Count(l.requests, ip) == Tally(0, timeout, visits, ip)
    decreases |visits|
  {
    if visits != [] {
      KeepsTally(limit, timeout, visits[..|visits| - 1], ip);
      KeepsTally(limit, timeout, visits[..|visits| - 1], visits[|visits| - 1].ip);
    }
  }

  /** After any visits an address is admitted exactly if it has fewer than the limit since the latest clear. */
  lemma AdmittedBelowLimit(limit: nat, timeout: nat, visits: seq<Visit>, ip: Ip)
    ensures !IsOverLimit(AfterVisits(Fresh(limit, timeout), visits), ip) <==> Tally(0, timeout, visits, ip) < limit
  {
    KeepsTally(limit, timeout, visits, ip);
  }

  lemma {:induction false} ClearsOfMore(l: Limiter, visits: seq<Visit>, v: Visit)
    ensures var m := AfterVisits(l, visits);
            Clears(l, visits + [v]) == Clears(l, visits) + if m.lastReset + m.timeout <= v.end then [v.end] else []
    decreases |visits|
  {
    if visits == [] {
      assert visits + [v] == [v] && [v][1..] == [];
    } else {
      assert (visits + [v])[0] == visits[0] && (visits + [v])[1..] == visits[1..] + [v];
      ClearsOfMore(Serve(l, visits[0]), visits[1..], v);
      AfterFirst(l, visits);
    }
  }

  lemma {:induction false} AfterFirst(l: Limiter, visits: seq<Visit>)
    requires visits != []
    ensures AfterVisits(l, visits) == AfterVisits(Serve(l, visits[0]), visits[1..])
    decreases |visits|
  {
    var n := |visits| - 1;
    if n > 0 {
      AfterFirst(l, visits[..n]);
      assert visits[..n][1..] == visits[1..][..n - 1];
    }
  }

  /** A visit clears the table exactly if it ends at least the timeout after the latest clear. */
  lemma ClearedWhenDue(limit: nat, timeout: nat, visits: seq<Visit>, v: Visit)
    ensures Clears(Fresh(limit, timeout), visits + [v]) ==
            Clears(Fresh(limit, timeout), visits)
            + if LatestClear(0, timeout, visits) + timeout <= v.end then [v.end] else []
  {
    ClearsOfMore(Fresh(limit, timeout), visits, v);
    KeepsTally(limit, timeout, visits, v.ip);
  }

  // ---- Bounds on admissions

  lemma {:induction false} NoneAfter(l: Limiter, visits: seq<Visit>, ip: Ip, lo: nat, hi: nat)
    requires forall i :: 0 <= i < |visits| ==> hi <= visits[i].start
    ensures Admissions(l, visits, ip, lo, hi) == 0
    decreases |visits|
  {
    if visits != [] {
      NoneAfter(Serve(l, visits[0]), visits[1..], ip, lo, hi);
    }
  }

  function Room(l: Limiter, ip: Ip): nat {
    if IsOverLimit(l, ip) then 0 else l.limit - Count(l.requests, ip)
  }

  /** Until the table is cleared, no more requests are admitted than its count leaves room for. */
  lemma {:induction false} BeforeClear(l: Limiter, visits: seq<Visit>, ip: Ip, lo: nat, hi: nat)
    requires Ordered(visits) && hi <= l.lastReset + l.timeout
    ensures Admissions(l, visits, ip, lo, hi) <= Room(l, ip)
    decreases |visits|
  {
    if visits != [] {
      var v, rest := visits[0], visits[1..];
      if Expired(l, v.end) {
        NoneAfter(Serve(l, v), rest, ip, lo, hi);
      } else {
        BeforeClear(Serve(l, v), rest, ip, lo, hi);
      }
    }
  }

  lemma {:induction false} FromStart(l: Limiter, visits: seq<Visit>, ip: Ip, lo: nat, hi: nat)
    requires Ordered(visits) && hi <= lo + l.timeout
    requires visits != [] ==> lo <= visits[0].start
    ensures Admissions(l, visits, ip, lo, hi) <= Room(l, ip) + l.limit
    decreases |visits|
  {
    if visits != [] {
      var v, rest := visits[0], visits[1..];
      if Expired(l, v.end) {
        BeforeClear(Serve(l, v), rest, ip, lo, hi);
      } else {
        FromStart(Serve(l, v), rest, ip, lo, hi);
      }
    }
  }

  /** Any stretch of `timeout` seconds admits at most twice the limit from one address. */
  lemma {:induction false} SlidingWindow(l: Limiter, visits: seq<Visit>, ip: Ip, lo: nat)
    requires Ordered(visits)
    ensures Admissions(l, visits, ip, lo, lo + l.timeout) <= 2 * l.limit
    decreases |visits|
  {
    if visits != [] {
      if visits[0].start < lo {
        SlidingWindow(Serve(l, visits[0]), visits[1..], ip, lo);
      } else {
        FromStart(l, visits, ip, lo, lo + l.timeout);
      }
    }
  }

  /** A timeout of at most one second leaves no room for two windows in one stretch. */
  lemma {:induction false} ShortWindow(l: Limiter, visits: seq<Visit>, ip: Ip, lo: nat)
    requires Ordered(visits) && l.timeout <= 1
    ensures Admissions(l, visits, ip, lo, lo + l.timeout) <= l.limit
    decreases |visits|
  {
    if visits != [] {
      var v, rest, hi := visits[0], visits[1..], lo + l.timeout;
      if hi <= l.lastReset + l.timeout {
        BeforeClear(l, visits, ip, lo, hi);
      } else if v.start != lo || l.timeout == 0 {
        ShortWindow(Serve(l, v), rest, ip, lo);
      } else if v.end == lo {
        BeforeClear(Serve(l, v), rest, ip, lo, hi);
      } else {
        NoneAfter(Serve(l, v), rest, ip, lo, hi);
      }
    }
  }

  // ---- Twice the limit is reached

  /** `n` visits at once. */
  function Burst(ip: Ip, time: nat, n: nat): seq<Visit> {
    seq(n, _ => Visit(ip, time, time))
  }

  /** The limiter after a burst. */
  function Burdened(l: Limiter, ip: Ip, time: nat, n: nat): Limiter
    decreases n
  {
    if n == 0 then l else Burdened(End(l, ip, time), ip, time, n - 1)
  }

  /** A burst that fits the limit and does not clear the table is admitted as a whole. */
  lemma {:induction false} BurstAdmitted(l: Limiter, ip: Ip, time: nat, n: nat, rest: seq<Visit>, lo: nat, hi: nat)
    requires !Expired(l, time) && lo <= time < hi && Count(l.requests, ip) + n <= l.limit
    ensures Admissions(l, Burst(ip, time, n) + rest, ip, lo, hi) ==
            n + Admissions(Burdened(l, ip, time, n), rest, ip, lo, hi)
    ensures var m := Burdened(l, ip, time, n);
            m.limit == l.limit && m.timeout == l.timeout && m.lastReset == l.lastReset
    decreases n
  {
    if n == 0 {
      assert Burst(ip, time, n) + rest == rest;
    } else {
      var visits := Burst(ip, time, n) + rest;
      assert visits[0] == Visit(ip, time, time) && visits[1..] == Burst(ip, time, n - 1) + rest;
      BurstAdmitted(End(l, ip, time), ip, time, n - 1, rest, lo, hi);
    }
  }

  /** The limit just before the clear, a visit of another address that clears, and the limit again. */
  function TwoBursts(limit: nat, timeout: nat, ip: Ip): seq<Visit>
    requires timeout > 0
  {
    Burst(ip, timeout - 1, limit) + ([Visit(ip + 1, timeout, timeout)] + Burst(ip, timeout, limit))
  }

  /** How many visits from `ip` a fresh limiter admits in the stretch of the timeout from `lo`. */
  function InStretch(limit: nat, timeout: nat, visits: seq<Visit>, ip: Ip, lo: nat): nat {
    Admissions(Fresh(limit, timeout), visits, ip, lo, lo + timeout)
  }

  lemma BurstsOrdered(limit: nat, timeout: nat, ip: Ip)
    requires timeout > 0
    ensures Ordered(TwoBursts(limit, timeout, ip))
  {
  }

  /** For every limit, and every timeout of two seconds or more, some stretch admits twice the limit. */
  lemma TwiceTheLimit(limit: nat, timeout: nat, ip: Ip)
    requires timeout >= 2
    ensures Ordered(TwoBursts(limit, timeout, ip))
    ensures InStretch(limit, timeout, TwoBursts(limit, timeout, ip), ip, timeout - 1) == 2 * limit
  {
    BurstsOrdered(limit, timeout, ip);
    var lo, hi := timeout - 1, timeout - 1 + timeout;
    var other, second := Visit(ip + 1, timeout, timeout), Burst(ip, timeout, limit);
    BurstAdmitted(Fresh(limit, timeout), ip, timeout - 1, limit, [other] + second, lo, hi);
    var l1 := Burdened(Fresh(limit, timeout), ip, timeout - 1, limit);
    assert ([other] + second)[1..] == second;
    assert Serve(l1, other).requests == map[ip + 1 := 1];
    BurstAdmitted(Serve(l1, other), ip, timeout, limit, [], lo, hi);
    assert second + [] == second;
  }

  /** In every ordered run from a fresh limiter, every stretch of the timeout admits at most the limit. */
  ghost predicate KeepsLimit(limit: nat, timeout: nat) {
    forall visits: seq<Visit>, ip: Ip, lo: nat ::
      Ordered(visits) ==> InStretch(limit, timeout, visits, ip, lo) <= limit
  }

  /** The configurations for which the limit is a limit per stretch of the timeout. */
  lemma WindowLimit(limit: nat, timeout: nat)
    ensures KeepsLimit(limit, timeout) <==> limit == 0 || timeout <= 1
  {
    if limit == 0 || timeout <= 1 {
      forall visits: seq<Visit>, ip: Ip, lo: nat | Ordered(visits)
        ensures InStretch(limit, timeout, visits, ip, lo) <= limit
      {
        if timeout <= 1 {
          ShortWindow(Fresh(limit, timeout), visits, ip, lo);
        } else {
          SlidingWindow(Fresh(limit, timeout), visits, ip, lo);
        }
      }
    } else {
      TwiceTheLimit(limit, timeout, 0);
      assert InStretch(limit, timeout, TwoBursts(limit, timeout, 0), 0, timeout - 1) > limit;
    }
  }

  // ---- Many workers

  /** Where a worker is with its request: the steps of `end` are separate and may interleave. */
  datatype Progress =
    | Idle
    | Handling(ip: Ip, id: nat)
    | Timed(ip: Ip, id: nat, time: nat)
    | Clearing(ip: Ip, id: nat, time: nat)
    | Storing(ip: Ip, id: nat, time: nat)
    | Adding(ip: Ip, id: nat)

  datatype Event = Admitted(id: nat, ip: Ip) | Failed(id: nat) | Cleared

  /** `log` and `next` record history: which requests were admitted or failed, and the next identifier. */
  datatype Shared = Shared(limiter: Limiter, workers: seq<Progress>, log: seq<Event>, next: nat)

  /**
    `Skip` is a request that another hook keeps from the limiter's `pre`, but not from its `end`;
    `Fail` ends a request without the `end` hook, as an error response does.
   */
  datatype Action =
    | Pre(w: nat, ip: Ip) | Skip(w: nat, ip: Ip) | Fail(w: nat) | Sample(w: nat, time: nat)
    | LoadAndTest(w: nat) | Clear(w: nat) | Store(w: nat) | Add(w: nat)

  function Start(limit: nat, timeout: nat, size: nat): Shared {
    Shared(Fresh(limit, timeout), seq(size, _ => Idle), [], 0)
  }

  predicate Enabled(s: Shared, a: Action) {
    a.w < |s.workers| &&
    var p := s.workers[a.w];
    match a
    case Pre(_, _) => p.Idle?
    case Skip(_, _) => p.Idle?
    case Fail(_) => p.Handling?
    case Sample(_, _) => p.Handling?
    case LoadAndTest(_) => p.Timed?
    case Clear(_) => p.Clearing?
    case Store(_) => p.Storing?
    case Add(_) => p.Adding?
  }

  function Step(s: Shared, a: Action): Shared
    requires Enabled(s, a)
  {
    var p, l := s.workers[a.w], s.limiter;
    match a
    case Pre(w, ip) =>
      var log := if IsOverLimit(l, ip) then s.log else s.log + [Admitted(s.next, ip)];
      Shared(l, s.workers[w := Handling(ip, s.next)], log, s.next + 1)
    case Skip(w, ip) => s.(workers := s.workers[w := Handling(ip, s.next)], next := s.next + 1)
    case Fail(w) => s.(workers := s.workers[w := Idle], log := s.log + [Failed(p.id)])
    case Sample(w, time) => s.(workers := s.workers[w := Timed(p.ip, p.id, time)])
    case LoadAndTest(w) =>
      s.(workers := s.workers[w := if Expired(l, p.time) then Clearing(p.ip, p.id, p.time) else Adding(p.ip, p.id)])
    case Clear(w) =>
      Shared(l.(requests := map[]), s.workers[w := Storing(p.ip, p.id, p.time)], s.log + [Cleared], s.next)
    case Store(w) => s.(limiter := l.(lastReset := p.time), workers := s.workers[w := Adding(p.ip, p.id)])
    case Add(w) =>
      s.(limiter := l.(requests := l.requests[p.ip := Count(l.requests, p.ip) + 1]), workers := s.workers[w := Idle])
  }

  /** The requests from `ip` admitted since the latest clear that have not failed. */
  function Survivors(log: seq<Event>, ip: Ip): set<nat> {
    if log == [] then {} else Record(Survivors(log[..|log| - 1], ip), log[|log| - 1], ip)
  }

  function Record(ids: set<nat>, e: Event, ip: Ip): set<nat> {
    match e
    case Admitted(id, from) => if from == ip then ids + {id} else ids
    case Failed(id) => ids - {id}
    case Cleared => {}
  }

  lemma SurvivorsAppend(log: seq<Event>, e: Event, ip: Ip)
    ensures Survivors(log + [e], ip) == Record(Survivors(log, ip), e, ip)
  {
    assert (log + [e])[..|log|] == log;
  }

  predicate Holds(p: Progress, ip: Ip, ids: set<nat>) {
    !p.Idle? && p.ip == ip && p.id in ids
  }

  /** How many workers are busy with a request from `ip` among `ids`. */
  function InFlight(workers: seq<Progress>, ip: Ip, ids: set<nat>): (n: nat)
    ensures n <= |workers|
  {
    if workers == [] then 0
    else (if Holds(workers[0], ip, ids) then 1 else 0) + InFlight(workers[1..], ip, ids)
  }

  lemma {:induction false} InFlightUpdate(workers: seq<Progress>, w: nat, p: Progress, ip: Ip, ids: set<nat>)
    requires w < |workers|
    ensures InFlight(workers[w := p], ip, ids) ==
            InFlight(workers, ip, ids) - (if Holds(workers[w], ip, ids) then 1 else 0)
            + (if Holds(p, ip, ids) then 1 else 0)
  {
    if w == 0 {
      assert workers[w := p][1..] == workers[1..];
    } else {
      assert workers[w := p][1..] == workers[1..][w - 1 := p];
      InFlightUpdate(workers[1..], w - 1, p, ip, ids);
    }
  }

  lemma {:induction false} InFlightSame(workers: seq<Progress>, ip: Ip, ids: set<nat>, others: set<nat>)
    requires forall w :: 0 <= w < |workers| ==> (Holds(workers[w], ip, ids) ==> Holds(workers[w], ip, others))
    ensures InFlight(workers, ip, ids) <= InFlight(workers, ip, others)
  {
    if workers != [] {
      InFlightSame(workers[1..], ip, ids, others);
    }
  }

  lemma {:induction false} IdleLeavesRoom(workers: seq<Progress>, w: nat, ip: Ip, ids: set<nat>)
    requires w < |workers| && workers[w].Idle?
    ensures InFlight(workers, ip, ids) < |workers|
  {
    if w > 0 {
      IdleLeavesRoom(workers[1..], w - 1, ip, ids);
    }
  }

  /** Requests in flight have different identifiers, all below the next one. */
  predicate Distinct(s: Shared) {
    && (forall w :: 0 <= w < |s.workers| && !s.workers[w].Idle? ==> s.workers[w].id < s.next)
    && (forall v, w :: 0 <= v < w < |s.workers| && !s.workers[v].Idle? && !s.workers[w].Idle? ==>
          s.workers[v].id != s.workers[w].id)
  }

  /** Every surviving request is counted in the table or still in flight, and the bound holds. */
  predicate Bounded(s: Shared, ip: Ip) {
    var ids := Survivors(s.log, ip);
    && |ids| <= Count(s.limiter.requests, ip) + InFlight(s.workers, ip, ids)
    && |ids| <= s.limiter.limit + |s.workers| - 1
  }

  lemma StepDistinct(s: Shared, a: Action)
    requires Distinct(s) && Enabled(s, a)
    ensures Distinct(Step(s, a))
  {
  }

  lemma PreBounded(s: Shared, w: nat, from: Ip, ip: Ip)
    requires Bounded(s, ip) && Enabled(s, Pre(w, from))
    ensures Bounded(Step(s, Pre(w, from)), ip)
  {
    var t := Step(s, Pre(w, from));
    var ids, ids' := Survivors(s.log, ip), Survivors(t.log, ip);
    if !IsOverLimit(s.limiter, from) {
      SurvivorsAppend(s.log, Admitted(s.next, from), ip);
    }
    IdleLeavesRoom(s.workers, w, ip, ids);
    InFlightSame(s.workers, ip, ids, ids');
    InFlightUpdate(s.workers, w, Handling(from, s.next), ip, ids');
  }

  lemma SkipBounded(s: Shared, w: nat, from: Ip, ip: Ip)
    requires Bounded(s, ip) && Enabled(s, Skip(w, from))
    ensures Bounded(Step(s, Skip(w, from)), ip)
  {
    InFlightUpdate(s.workers, w, Handling(from, s.next), ip, Survivors(s.log, ip));
  }

  lemma FailBounded(s: Shared, w: nat, ip: Ip)
    requires Distinct(s) && Bounded(s, ip) && Enabled(s, Fail(w))
    ensures Bounded(Step(s, Fail(w)), ip)
  {
    var t := Step(s, Fail(w));
    var ids, ids' := Survivors(s.log, ip), Survivors(t.log, ip);
    SurvivorsAppend(s.log, Failed(s.workers[w].id), ip);
    InFlightUpdate(s.workers, w, Idle, ip, ids);
    InFlightSame(t.workers, ip, ids, ids');
  }

  lemma {:induction false} NobodyHolds(workers: seq<Progress>, ip: Ip)
    ensures InFlight(workers, ip, {}) == 0
  {
    if workers != [] {
      NobodyHolds(workers[1..], ip);
    }
  }

  lemma StepBounded(s: Shared, a: Action, ip: Ip)
    requires Distinct(s) && Bounded(s, ip) && Enabled(s, a)
    ensures Bounded(Step(s, a), ip)
  {
    match a {
      case Pre(w, from) => PreBounded(s, w, from, ip);
      case Skip(w, from) => SkipBounded(s, w, from, ip);
      case Fail(w) => FailBounded(s, w, ip);
      case Clear(w) => SurvivorsAppend(s.log, Cleared, ip);
      case _ => InFlightUpdate(s.workers, a.w, Step(s, a).workers[a.w], ip, Survivors(s.log, ip));
    }
  }

  predicate Runs(s: Shared, acts: seq<Action>)
    decreases |acts|
  {
    acts == [] || (Enabled(s, acts[0]) && Runs(Step(s, acts[0]), acts[1..]))
  }

  function After(s: Shared, acts: seq<Action>): Shared
    requires Runs(s, acts)
    decreases |acts|
  {
    if acts == [] then s else After(Step(s, acts[0]), acts[1..])
  }

  lemma Prepend(s: Shared, a: Action, acts: seq<Action>)
    requires Enabled(s, a) && Runs(Step(s, a), acts)
    ensures Runs(s, [a] + acts) && After(s, [a] + acts) == After(Step(s, a), acts)
  {
    assert ([a] + acts)[1..] == acts;
  }

  /** The steps of the `end` hook of worker `w` at `time`, if no other worker steps in between. */
  function EndSteps(l: Limiter, w: nat, time: nat): seq<Action> {
    [Sample(w, time), LoadAndTest(w)] + (if Expired(l, time) then [Clear(w), Store(w), Add(w)] else [Add(w)])
  }

  /** Undisturbed, they do what the hook does, and the worker is idle again. */
  lemma {:induction false} EndStepsAreEnd(s: Shared, w: nat, time: nat)
    requires w < |s.workers| && s.workers[w].Handling?
    ensures Runs(s, EndSteps(s.limiter, w, time))
    ensures var t := After(s, EndSteps(s.limiter, w, time));
            t.limiter == End(s.limiter, s.workers[w].ip, time) && t.workers == s.workers[w := Idle]
  {
    var s1 := Step(s, Sample(w, time));
    var s2 := Step(s1, LoadAndTest(w));
    var s3, tail := s2, [Add(w)];
    if Expired(s.limiter, time) {
      s3 := Step(Step(s2, Clear(w)), Store(w));
      tail := [Clear(w)] + ([Store(w)] + [Add(w)]);
      Prepend(s3, Add(w), []);
      Prepend(Step(s2, Clear(w)), Store(w), [Add(w)]);
      Prepend(s2, Clear(w), [Store(w)] + [Add(w)]);
      assert tail == [Clear(w), Store(w), Add(w)];
    } else {
      Prepend(s3, Add(w), []);
    }
    assert [Add(w)] + [] == [Add(w)];
    var t := Step(s3, Add(w));
    assert t.workers == s.workers[w := Idle];
    Prepend(s1, LoadAndTest(w), tail);
    Prepend(s, Sample(w, time), [LoadAndTest(w)] + tail);
    assert EndSteps(s.limiter, w, time) == [Sample(w, time)] + ([LoadAndTest(w)] + tail);
  }

  lemma {:induction false} RunBounded(s: Shared, acts: seq<Action>, ip: Ip)
    requires Distinct(s) && Bounded(s, ip) && Runs(s, acts)
    ensures Bounded(After(s, acts), ip)
    ensures |After(s, acts).workers| == |s.workers| && After(s, acts).limiter.limit == s.limiter.limit
    decreases |acts|
  {
    if acts != [] {
      StepDistinct(s, acts[0]);
      StepBounded(s, acts[0], ip);
      RunBounded(Step(s, acts[0]), acts[1..], ip);
    }
  }

  /**
    In every interleaving, whatever the clock says and however many workers clear the same expired
    table, at most `limit + size - 1` of the requests from one address that were admitted since the latest
    clear have not ended in an error.
   */
  lemma ConcurrentBound(limit: nat, timeout: nat, size: nat, acts: seq<Action>, ip: Ip)
    requires size > 0 && Runs(Start(limit, timeout, size), acts)
    ensures |Survivors(After(Start(limit, timeout, size), acts).log, ip)| <= limit + size - 1
  {
    RunBounded(Start(limit, timeout, size), acts, ip);
  }

  // ---- Requests that end in an error

  /** All the requests from `ip` admitted since the latest clear. */
  function AdmittedSince(log: seq<Event>, ip: Ip): set<nat> {
    if log == [] then {}
    else
      var ids := AdmittedSince(log[..|log| - 1], ip);
      match log[|log| - 1]
      case Admitted(id, from) => if from == ip then ids + {id} else ids
      case Failed(_) => ids
      case Cleared => {}
  }

  /** The requests that ended in an error since the latest clear. */
  function FailedSince(log: seq<Event>): set<nat> {
    if log == [] then {}
    else
      var ids := FailedSince(log[..|log| - 1]);
      match log[|log| - 1]
      case Admitted(_, _) => ids
      case Failed(id) => ids + {id}
      case Cleared => {}
  }

  lemma {:induction false} SurvivedOrFailed(log: seq<Event>, ip: Ip)
    ensures AdmittedSince(log, ip) <= Survivors(log, ip) + FailedSince(log)
  {
    if log != [] {
      SurvivedOrFailed(log[..|log| - 1], ip);
    }
  }

  lemma SubsetSize(a: set<nat>, b: set<nat>)
    requires a <= b
    ensures |a| <= |b|
  {
    assert b == a + (b - a);
  }

  /** Every further admission since the clear belongs to a request that has ended in an error. */
  lemma ConcurrentTotal(limit: nat, timeout: nat, size: nat, acts: seq<Action>, ip: Ip)
    requires size > 0 && Runs(Start(limit, timeout, size), acts)
    ensures var log := After(Start(limit, timeout, size), acts).log;
            |AdmittedSince(log, ip)| <= limit + size - 1 + |AdmittedSince(log, ip) * FailedSince(log)|
  {
    ConcurrentBound(limit, timeout, size, acts, ip);
    var log := After(Start(limit, timeout, size), acts).log;
    var all, failed := AdmittedSince(log, ip), FailedSince(log);
    SurvivedOrFailed(log, ip);
    SubsetSize(all - failed, Survivors(log, ip));
    assert all == (all - failed) + all * failed;
  }

  /** One worker admits any number of requests, one after the other, as long as all end in an error. */
  lemma {:induction false} FailAgain(s: Shared, ip: Ip, n: nat) returns (acts: seq<Action>)
    requires |s.workers| > 0 && s.workers[0].Idle? && !IsOverLimit(s.limiter, ip) && Cleared !in s.log
    requires forall id :: id in AdmittedSince(s.log, ip) ==> id < s.next
    ensures Runs(s, acts) && Cleared !in After(s, acts).log
    ensures |AdmittedSince(After(s, acts).log, ip)| == |AdmittedSince(s.log, ip)| + n
    decreases n
  {
    if n == 0 {
      acts := [];
    } else {
      var t := Step(s, Pre(0, ip));
      var u := Step(t, Fail(0));
      assert t.log[..|t.log| - 1] == s.log && u.log[..|u.log| - 1] == t.log;
      assert AdmittedSince(u.log, ip) == AdmittedSince(s.log, ip) + {s.next};
      acts := FailAgain(u, ip, n - 1);
      Prepend(t, Fail(0), acts);
      Prepend(s, Pre(0, ip), [Fail(0)] + acts);
      acts := [Pre(0, ip)] + ([Fail(0)] + acts);
    }
  }

  /** So with errors there is no bound: any number of requests is admitted without a clear. */
  lemma ErrorsAreNotCounted(limit: nat, timeout: nat, size: nat, n: nat, ip: Ip)
    requires limit > 0 && size > 0
    ensures exists acts ::
              Runs(Start(limit, timeout, size), acts) &&
              Cleared !in After(Start(limit, timeout, size), acts).log &&
              |AdmittedSince(After(Start(limit, timeout, size), acts).log, ip)| == n
  {
    var acts := FailAgain(Start(limit, timeout, size), ip, n);
  }

  // ---- The bound is reached

  /** All workers admit a request before any of them counts one. */
  lemma {:induction false} AdmitTogether(s: Shared, ip: Ip, w: nat) returns (acts: seq<Action>)
    requires w <= |s.workers| && forall v :: w <= v < |s.workers| ==> s.workers[v].Idle?
    requires !IsOverLimit(s.limiter, ip) && forall id :: id in Survivors(s.log, ip) ==> id < s.next
    ensures Runs(s, acts)
    ensures |Survivors(After(s, acts).log, ip)| == |Survivors(s.log, ip)| + |s.workers| - w
    decreases |s.workers| - w
  {
    if w == |s.workers| {
      acts := [];
    } else {
      var t := Step(s, Pre(w, ip));
      SurvivorsAppend(s.log, Admitted(s.next, ip), ip);
      var later := AdmitTogether(t, ip, w + 1);
      Prepend(s, Pre(w, ip), later);
      acts := [Pre(w, ip)] + later;
    }
  }

  /** All workers are idle, a request at time 0 does not clear the table, and the table is up to date. */
  predicate Ready(s: Shared, ip: Ip) {
    && |s.workers| > 0 && (forall v :: 0 <= v < |s.workers| ==> s.workers[v].Idle?)
    && !Expired(s.limiter, 0) && !IsOverLimit(s.limiter, ip)
    && |Survivors(s.log, ip)| == Count(s.limiter.requests, ip)
    && (forall id :: id in Survivors(s.log, ip) ==> id < s.next)
  }

  /** Requests are served to the end until one more is allowed; then all workers admit at once. */
  lemma {:induction false} FillUp(s: Shared, ip: Ip) returns (acts: seq<Action>)
    requires Ready(s, ip)
    ensures Runs(s, acts)
    ensures |Survivors(After(s, acts).log, ip)| == s.limiter.limit + |s.workers| - 1
    decreases s.limiter.limit - Count(s.limiter.requests, ip)
  {
    if Count(s.limiter.requests, ip) == s.limiter.limit - 1 {
      acts := AdmitTogether(s, ip, 0);
    } else {
      SurvivorsAppend(s.log, Admitted(s.next, ip), ip);
      var s1 := Step(s, Pre(0, ip));
      var s2 := Step(s1, Sample(0, 0));
      var s3 := Step(s2, LoadAndTest(0));
      var s4 := Step(s3, Add(0));
      acts := FillUp(s4, ip);
      Prepend(s3, Add(0), acts);
      Prepend(s2, LoadAndTest(0), [Add(0)] + acts);
      Prepend(s1, Sample(0, 0), [LoadAndTest(0)] + ([Add(0)] + acts));
      Prepend(s, Pre(0, ip), [Sample(0, 0)] + ([LoadAndTest(0)] + ([Add(0)] + acts)));
      acts := [Pre(0, ip)] + ([Sample(0, 0)] + ([LoadAndTest(0)] + ([Add(0)] + acts)));
    }
  }

  /** Without a timeout every clear is due at once, unless the clock is set back after one at time 1. */
  lemma FillUpSetBack(s: Shared, ip: Ip) returns (acts: seq<Action>)
    requires |s.workers| > 0 && (forall v :: 0 <= v < |s.workers| ==> s.workers[v].Idle?)
    requires s.limiter == Fresh(s.limiter.limit, 0) && s.limiter.limit > 0 && s.log == []
    ensures Runs(s, acts)
    ensures |Survivors(After(s, acts).log, ip)| == s.limiter.limit + |s.workers| - 1
  {
    var s1 := Step(s, Skip(0, ip + 1));
    var s2 := Step(s1, Sample(0, 1));
    var s3 := Step(s2, LoadAndTest(0));
    var s4 := Step(s3, Clear(0));
    var s5 := Step(s4, Store(0));
    var s6 := Step(s5, Add(0));
    SurvivorsAppend(s3.log, Cleared, ip);
    acts := FillUp(s6, ip);
    Prepend(s5, Add(0), acts);
    acts := [Add(0)] + acts;
    Prepend(s4, Store(0), acts);
    acts := [Store(0)] + acts;
    Prepend(s3, Clear(0), acts);
    acts := [Clear(0)] + acts;
    Prepend(s2, LoadAndTest(0), acts);
    acts := [LoadAndTest(0)] + acts;
    Prepend(s1, Sample(0, 1), acts);
    acts := [Sample(0, 1)] + acts;
    Prepend(s, Skip(0, ip + 1), acts);
    acts := [Skip(0, ip + 1)] + acts;
  }

  /** For every positive limit and number of workers, and every timeout, some interleaving reaches the bound. */
  lemma BoundIsReached(limit: nat, timeout: nat, size: nat, ip: Ip)
    requires limit > 0 && size > 0
    ensures exists acts ::
              Runs(Start(limit, timeout, size), acts) &&
              |Survivors(After(Start(limit, timeout, size), acts).log, ip)| == limit + size - 1
  {
    if timeout > 0 {
      var acts := FillUp(Start(limit, timeout, size), ip);
    } else {
      var acts := FillUpSetBack(Start(limit, timeout, size), ip);
    }
  }

  // ---- When the limit itself is the bound

  lemma NothingLogged(s: Shared, a: Action)
    requires s.limiter.limit == 0 && Enabled(s, a)
    ensures Step(s, a).limiter.limit == 0
    ensures Step(s, a).log ==
            if a.Fail? then s.log + [Failed(s.workers[a.w].id)] else if a.Clear? then s.log + [Cleared] else s.log
  {
  }

  lemma {:induction false} NothingMore(s: Shared, a: Action, ip: Ip)
    requires s.limiter.limit == 0 && Survivors(s.log, ip) == {} && Enabled(s, a)
    ensures Step(s, a).limiter.limit == 0 && Survivors(Step(s, a).log, ip) == {}
  {
    NothingLogged(s, a);
    if a.Fail? {
      SurvivorsAppend(s.log, Failed(s.workers[a.w].id), ip);
    } else if a.Clear? {
      SurvivorsAppend(s.log, Cleared, ip);
    }
  }

  lemma {:induction false} NothingAdmitted(s: Shared, acts: seq<Action>, ip: Ip)
    requires s.limiter.limit == 0 && Survivors(s.log, ip) == {} && Runs(s, acts)
    ensures Survivors(After(s, acts).log, ip) == {}
    decreases |acts|
  {
    if acts != [] {
      NothingMore(s, acts[0], ip);
      NothingAdmitted(Step(s, acts[0]), acts[1..], ip);
    }
  }

  /** In every interleaving, the admitted requests that have not ended in an error keep the limit. */
  ghost predicate KeepsLimitTogether(limit: nat, timeout: nat, size: nat) {
    forall acts, ip :: Runs(Start(limit, timeout, size), acts) ==>
      |Survivors(After(Start(limit, timeout, size), acts).log, ip)| <= limit
  }

  /** It takes a single worker, whatever the timeout. */
  lemma ConcurrentLimit(limit: nat, timeout: nat, size: nat)
    requires size > 0
    ensures KeepsLimitTogether(limit, timeout, size) <==> limit == 0 || size == 1
  {
    if limit == 0 || size == 1 {
      forall acts, ip | Runs(Start(limit, timeout, size), acts)
        ensures |Survivors(After(Start(limit, timeout, size), acts).log, ip)| <= limit
      {
        if limit == 0 {
          NothingAdmitted(Start(limit, timeout, size), acts, ip);
        } else {
          ConcurrentBound(limit, timeout, size, acts, ip);
        }
      }
    } else {
      BoundIsReached(limit, timeout, size, 0);
    }
  }
}
