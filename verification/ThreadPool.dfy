/**
  The thread pool: one channel behind a mutex, worker threads that take a message at a time,
  and a drop that sends one `Kill` per worker and then joins every worker.

  `Pool` is the whole shared state; `Step` is one atomic step of one thread, so a sequence of
  actions is an interleaving. A job is an identifier; a running job always may finish.
 */
module ThreadPool {
  import opened Wrappers

  datatype Message = Kill | Run(job: nat)

  /** Where a worker thread is in its loop. `Crashed` is the panic of `recv().unwrap()`. */
  datatype Worker = Waiting | Receiving | Running(job: nat) | Stopped | Crashed

  /** Where the owner of the pool is: `sent` kills, `joined` workers, or the sender is gone. */
  datatype Phase = Open | Dropping(sent: nat, joined: nat) | Gone

  /** `submitted`, `started` and `finished` record the history of the jobs. */
  datatype Pool = Pool(
    phase: Phase, queue: seq<Message>, lock: Option<nat>, workers: seq<Worker>,
    submitted: seq<nat>, started: seq<nat>, finished: seq<nat>)

  datatype Action =
    | Execute(job: nat) | BeginDrop | SendKill | Join | Release
    | Acquire(w: nat) | Receive(w: nat) | Finish(w: nat)

  function Init(size: nat): Pool
    requires size > 0
  {
    Pool(Open, [], None, seq(size, _ => Waiting), [], [], [])
  }

  predicate Enabled(s: Pool, a: Action) {
    var n := |s.workers|;
    match a
    case Execute(_) => s.phase.Open?
    case BeginDrop => s.phase.Open?
    case SendKill => s.phase.Dropping? && s.phase.sent < n
    case Join =>
      s.phase.Dropping? && s.phase.sent == n && s.phase.joined < n && s.workers[s.phase.joined].Stopped?
    case Release => s.phase.Dropping? && s.phase.joined == n
    case Acquire(w) => w < n && s.workers[w].Waiting? && s.lock.None?
    // An empty channel blocks the receiver as long as a sender is left.
    case Receive(w) => w < n && s.workers[w].Receiving? && (s.queue != [] || s.phase.Gone?)
    case Finish(w) => w < n && s.workers[w].Running?
  }

  function Step(s: Pool, a: Action): Pool
    requires Enabled(s, a)
  {
    match a
    case Execute(j) => s.(queue := s.queue + [Run(j)], submitted := s.submitted + [j])
    case BeginDrop => s.(phase := Dropping(0, 0))
    case SendKill => s.(queue := s.queue + [Kill], phase := s.phase.(sent := s.phase.sent + 1))
    case Join => s.(phase := s.phase.(joined := s.phase.joined + 1))
    case Release => s.(phase := Gone)
    case Acquire(w) => s.(lock := Some(w), workers := s.workers[w := Receiving])
    case Receive(w) =>
      if s.queue == [] then s.(lock := None, workers := s.workers[w := Crashed])
      else if s.queue[0].Kill? then s.(lock := None, queue := s.queue[1..], workers := s.workers[w := Stopped])
      else
        var j := s.queue[0].job;
        s.(lock := None, queue := s.queue[1..], workers := s.workers[w := Running(j)], started := s.started + [j])
    case Finish(w) =>
      s.(workers := s.workers[w := Waiting], finished := s.finished + [s.workers[w].job])
  }

  // ---- Counting over the queue and the workers

  function Jobs(q: seq<Message>): seq<nat> {
    if q == [] then [] else (if q[0].Run? then [q[0].job] else []) + Jobs(q[1..])
  }

  function Kills(q: seq<Message>): nat {
    if q == [] then 0 else (if q[0].Kill? then 1 else 0) + Kills(q[1..])
  }

  /** No job is queued behind a kill. */
  predicate JobsFirst(q: seq<Message>) {
    q == [] || (if q[0].Kill? then Jobs(q[1..]) == [] else JobsFirst(q[1..]))
  }

  /** How many workers are running job `j`. */
  function RunningCount(ws: seq<Worker>, j: nat): nat {
    if ws == [] then 0 else (if ws[0] == Running(j) then 1 else 0) + RunningCount(ws[1..], j)
  }

  /** How often job `j` occurs in a history. */
  function Times(history: seq<nat>, j: nat): nat {
    multiset(history)[j]
  }

  function StoppedCount(ws: seq<Worker>): (n: nat)
    ensures n <= |ws|
    ensures n < |ws| <==> exists w :: 0 <= w < |ws| && !ws[w].Stopped?
  {
    if ws == [] then 0
    else
      assert ws == [ws[0]] + ws[1..];
      (if ws[0].Stopped? then 1 else 0) + StoppedCount(ws[1..])
  }

  /** How many steps a worker can still take before it needs another message. */
  function Weight(w: Worker): nat {
    match w
    case Running(_) => 3
    case Waiting => 2
    case Receiving => 1
    case _ => 0
  }

  function Weights(ws: seq<Worker>): nat {
    if ws == [] then 0 else Weight(ws[0]) + Weights(ws[1..])
  }

  lemma {:induction false} QueueAppend(q: seq<Message>, m: Message)
    ensures Jobs(q + [m]) == Jobs(q) + (if m.Run? then [m.job] else [])
    ensures Kills(q + [m]) == Kills(q) + (if m.Kill? then 1 else 0)
    ensures JobsFirst(q) && (m.Kill? || Kills(q) == 0) ==> JobsFirst(q + [m])
  {
    if q != [] {
      QueueAppend(q[1..], m);
      assert (q + [m])[1..] == q[1..] + [m];
    }
  }

  lemma {:induction false} NoJobsAreFirst(q: seq<Message>)
    requires Jobs(q) == []
    ensures JobsFirst(q)
  {
    if q != [] {
      assert |Jobs(q)| > 0 || q[0].Kill?;
    }
  }

  lemma {:induction false} WorkersUpdate(ws: seq<Worker>, i: nat, w: Worker)
    requires i < |ws|
    ensures Weights(ws[i := w]) == Weights(ws) - Weight(ws[i]) + Weight(w)
    ensures StoppedCount(ws[i := w]) ==
            StoppedCount(ws) - (if ws[i].Stopped? then 1 else 0) + (if w.Stopped? then 1 else 0)
  {
    if i == 0 {
      assert ws[i := w][1..] == ws[1..];
    } else {
      assert ws[i := w][1..] == ws[1..][i - 1 := w];
      WorkersUpdate(ws[1..], i - 1, w);
    }
  }

  lemma {:induction false} RunningUpdate(ws: seq<Worker>, i: nat, w: Worker, j: nat)
    requires i < |ws|
    ensures RunningCount(ws[i := w], j) ==
            RunningCount(ws, j) - (if ws[i] == Running(j) then 1 else 0) + (if w == Running(j) then 1 else 0)
  {
    if i == 0 {
      assert ws[i := w][1..] == ws[1..];
    } else {
      assert ws[i := w][1..] == ws[1..][i - 1 := w];
      RunningUpdate(ws[1..], i - 1, w, j);
    }
  }

  // ---- The invariant

  function Sent(s: Pool): nat {
    match s.phase
    case Open => 0
    case Dropping(sent, _) => sent
    case Gone => |s.workers|
  }

  function Joined(s: Pool): nat {
    match s.phase
    case Open => 0
    case Dropping(_, joined) => joined
    case Gone => |s.workers|
  }

  /** Mutual exclusion: the lock names the one worker that is inside `recv`. */
  predicate Exclusive(s: Pool) {
    && (s.lock.Some? ==> s.lock.value < |s.workers|)
    && (forall w :: 0 <= w < |s.workers| ==> (s.workers[w].Receiving? <==> s.lock == Some(w)))
    && (forall w :: 0 <= w < |s.workers| ==> !s.workers[w].Crashed?)
  }

  /** First in, first out, and no job lost or doubled. */
  ghost predicate Conserved(s: Pool) {
    && s.submitted == s.started + Jobs(s.queue)
    && (forall j: nat :: Times(s.started, j) == Times(s.finished, j) + RunningCount(s.workers, j))
  }

  /** Jobs precede kills, and every kill sent is queued or has stopped one worker. */
  predicate KillsLast(s: Pool) {
    && JobsFirst(s.queue)
    && (StoppedCount(s.workers) > 0 ==> Jobs(s.queue) == [])
    && Kills(s.queue) + StoppedCount(s.workers) == Sent(s) <= |s.workers|
  }

  /** Joining starts after the last kill, and a joined worker has stopped. */
  predicate JoinsLast(s: Pool) {
    && Joined(s) <= |s.workers|
    && (Joined(s) > 0 ==> Sent(s) == |s.workers|)
    && (forall w :: 0 <= w < Joined(s) ==> s.workers[w].Stopped?)
  }

  ghost predicate Inv(s: Pool) {
    |s.workers| > 0 && Exclusive(s) && Conserved(s) && KillsLast(s) && JoinsLast(s)
  }

  lemma {:induction false} FreshWorkers(ws: seq<Worker>)
    requires forall w :: 0 <= w < |ws| ==> ws[w].Waiting?
    ensures StoppedCount(ws) == 0 && forall j: nat :: RunningCount(ws, j) == 0
  {
    if ws != [] {
      FreshWorkers(ws[1..]);
    }
  }

  lemma InitInv(size: nat)
    requires size > 0
    ensures Inv(Init(size))
  {
    FreshWorkers(Init(size).workers);
  }

  lemma {:induction false} NothingRuns(ws: seq<Worker>)
    requires forall w :: 0 <= w < |ws| ==> ws[w].Stopped?
    ensures forall j: nat :: RunningCount(ws, j) == 0
  {
    if ws != [] {
      NothingRuns(ws[1..]);
    }
  }

  lemma {:induction false} NothingQueued(q: seq<Message>)
    requires Jobs(q) == [] && Kills(q) == 0
    ensures q == []
  {
  }

  /** Once every worker is joined, nothing is left anywhere. */
  lemma AllStopped(s: Pool)
    requires Inv(s) && Joined(s) == |s.workers|
    ensures s.queue == [] && forall w :: 0 <= w < |s.workers| ==> s.workers[w].Stopped?
    ensures StoppedCount(s.workers) == |s.workers| && s.started == s.submitted
    ensures multiset(s.finished) == multiset(s.started)
  {
    assert !(exists w :: 0 <= w < |s.workers| && !s.workers[w].Stopped?);
    NothingRuns(s.workers);
    NothingQueued(s.queue);
    forall j: nat ensures multiset(s.started)[j] == multiset(s.finished)[j] {
      assert Times(s.started, j) == Times(s.finished, j) + RunningCount(s.workers, j);
    }
  }

  /** A worker inside `recv` never finds the channel closed. */
  lemma ReceiveFinds(s: Pool, w: nat)
    requires Inv(s) && Enabled(s, Receive(w))
    ensures s.queue != []
  {
    if s.phase.Gone? {
      AllStopped(s);
    }
  }

  lemma AppendInv(s: Pool, a: Action)
    requires Inv(s) && Enabled(s, a) && (a.Execute? || a.SendKill?)
    ensures Inv(Step(s, a))
  {
    QueueAppend(s.queue, if a.SendKill? then Kill else Run(a.job));
  }

  /** What a worker becomes when it takes message `m`. */
  function Take(m: Message): Worker {
    match m
    case Kill => Stopped
    case Run(job) => Running(job)
  }

  /** Action `a` is a turn of worker `w` that leaves it as `next`. */
  predicate TurnsInto(s: Pool, a: Action, w: nat, next: Worker) {
    match a
    case Acquire(v) => v == w && next == Receiving
    case Finish(v) => v == w && next == Waiting
    case Receive(v) => v == w && s.queue != [] && next == Take(s.queue[0])
    case _ => false
  }

  lemma TurnConserved(s: Pool, a: Action, w: nat, next: Worker)
    requires Conserved(s) && w < |s.workers| && Enabled(s, a)
    requires TurnsInto(s, a, w, next)
    ensures Conserved(Step(s, a))
  {
    var t := Step(s, a);
    forall j: nat ensures Times(t.started, j) == Times(t.finished, j) + RunningCount(t.workers, j) {
      RunningUpdate(s.workers, w, next, j);
      assert Times(s.started, j) == Times(s.finished, j) + RunningCount(s.workers, j);
    }
    if a.Receive? && s.queue[0].Run? {
      assert s.started + Jobs(s.queue) == t.started + Jobs(t.queue);
    }
  }

  lemma AcquireInv(s: Pool, w: nat)
    requires Inv(s) && Enabled(s, Acquire(w))
    ensures Inv(Step(s, Acquire(w)))
  {
    TurnConserved(s, Acquire(w), w, Receiving);
    WorkersUpdate(s.workers, w, Receiving);
  }

  lemma FinishInv(s: Pool, w: nat)
    requires Inv(s) && Enabled(s, Finish(w))
    ensures Inv(Step(s, Finish(w)))
  {
    TurnConserved(s, Finish(w), w, Waiting);
    WorkersUpdate(s.workers, w, Waiting);
  }

  lemma ReceiveInv(s: Pool, w: nat)
    requires Inv(s) && Enabled(s, Receive(w)) && s.queue != []
    ensures Inv(Step(s, Receive(w)))
  {
    TurnConserved(s, Receive(w), w, Take(s.queue[0]));
    WorkersUpdate(s.workers, w, Take(s.queue[0]));
    if s.queue[0].Kill? {
      NoJobsAreFirst(s.queue[1..]);
    } else {
      assert Jobs(s.queue) != [];
    }
  }

  /** Every step of every thread keeps the invariant. */
  lemma StepInv(s: Pool, a: Action)
    requires Inv(s) && Enabled(s, a)
    ensures Inv(Step(s, a)) && |Step(s, a).workers| == |s.workers|
  {
    match a {
      case Execute(_) => AppendInv(s, a);
      case SendKill => AppendInv(s, a);
      case Acquire(w) => AcquireInv(s, w);
      case Finish(w) => FinishInv(s, w);
      case Receive(w) =>
        ReceiveFinds(s, w);
        ReceiveInv(s, w);
      case Release => AllStopped(s);
      case BeginDrop =>
      case Join =>
    }
  }

  // ---- Progress

  /** Decreases on every step once the owner has started to drop the pool. */
  function Measure(s: Pool): (m: int)
    requires Sent(s) <= |s.workers| && Joined(s) <= |s.workers|
    ensures m >= 0
  {
    4 * |s.queue| + Weights(s.workers) + 5 * (|s.workers| - Sent(s)) + (|s.workers| - Joined(s))
    + (if s.phase.Gone? then 0 else 1)
  }

  /** A turn takes one message's weight off the queue, or one stage's weight off a worker. */
  lemma TurnDecreases(s: Pool, a: Action, w: nat, next: Worker)
    requires w < |s.workers| && Enabled(s, a)
    requires TurnsInto(s, a, w, next)
    ensures var t := Step(s, a);
            && t.phase == s.phase && |t.workers| == |s.workers|
            && 4 * |t.queue| + Weights(t.workers) < 4 * |s.queue| + Weights(s.workers)
  {
    WorkersUpdate(s.workers, w, next);
  }

  lemma StepDecreases(s: Pool, a: Action)
    requires Inv(s) && !s.phase.Open? && Enabled(s, a)
    ensures Inv(Step(s, a)) && !Step(s, a).phase.Open?
    ensures Measure(Step(s, a)) < Measure(s)
  {
    StepInv(s, a);
    match a {
      case Receive(w) =>
        ReceiveFinds(s, w);
        TurnDecreases(s, a, w, Take(s.queue[0]));
      case Acquire(w) => TurnDecreases(s, a, w, Receiving);
      case Finish(w) => TurnDecreases(s, a, w, Waiting);
      case _ =>
    }
  }

  /** The next atomic step of the loop of worker `w`. */
  function TurnOf(s: Pool, w: nat): Action
    requires w < |s.workers|
  {
    match s.workers[w]
    case Receiving => Receive(w)
    case Running(_) => Finish(w)
    case _ => Acquire(w)
  }

  predicate CanTurn(s: Pool, w: nat) {
    w < |s.workers| && Enabled(s, TurnOf(s, w))
  }

  lemma TurnKeeps(s: Pool, w: nat)
    requires Inv(s) && CanTurn(s, w) && !s.phase.Open?
    ensures var t := Step(s, TurnOf(s, w));
            && Inv(t) && Measure(t) < Measure(s)
            && t.phase == s.phase && t.submitted == s.submitted && |t.workers| == |s.workers|
  {
    StepInv(s, TurnOf(s, w));
    StepDecreases(s, TurnOf(s, w));
  }

  /** With all kills sent, some worker can take a step as long as worker `w` has not stopped. */
  ghost function NextTurn(s: Pool, w: nat): (v: nat)
    requires Inv(s) && w < |s.workers| && !s.workers[w].Stopped? && Sent(s) == |s.workers|
    ensures CanTurn(s, v)
  {
    assert StoppedCount(s.workers) < |s.workers|;
    if s.workers[w].Waiting? && s.lock.Some? then s.lock.value else w
  }

  /** The drop never deadlocks: until the pool is gone, some thread can take a step. */
  ghost function NextAction(s: Pool): (a: Action)
    requires Inv(s) && s.phase.Dropping?
    ensures Enabled(s, a)
  {
    var n := |s.workers|;
    if s.phase.sent < n then SendKill
    else if s.phase.joined == n then Release
    else if s.workers[s.phase.joined].Stopped? then Join
    else TurnOf(s, NextTurn(s, s.phase.joined))
  }

  // ---- Whole runs

  predicate Runs(s: Pool, acts: seq<Action>)
    decreases |acts|
  {
    acts == [] || (Enabled(s, acts[0]) && Runs(Step(s, acts[0]), acts[1..]))
  }

  function After(s: Pool, acts: seq<Action>): Pool
    requires Runs(s, acts)
    decreases |acts|
  {
    if acts == [] then s else After(Step(s, acts[0]), acts[1..])
  }

  lemma {:induction false} RunInv(s: Pool, acts: seq<Action>)
    requires Inv(s) && Runs(s, acts)
    ensures Inv(After(s, acts))
    ensures |After(s, acts).workers| == |s.workers|
    decreases |acts|
  {
    if acts != [] {
      StepInv(s, acts[0]);
      RunInv(Step(s, acts[0]), acts[1..]);
    }
  }

  /** The jobs given to `execute`, read off the actions alone. */
  function Executed(acts: seq<Action>): seq<nat> {
    if acts == [] then []
    else (if acts[0].Execute? then [acts[0].job] else []) + Executed(acts[1..])
  }

  /** How often some worker finished a job, read off the actions alone. */
  function Finishes(acts: seq<Action>): nat {
    if acts == [] then 0 else (if acts[0].Finish? then 1 else 0) + Finishes(acts[1..])
  }

  /** What the pool records is what its owner asked for and what its workers did. */
  lemma {:induction false} RecordsRun(s: Pool, acts: seq<Action>)
    requires Runs(s, acts)
    ensures After(s, acts).submitted == s.submitted + Executed(acts)
    ensures |After(s, acts).finished| == |s.finished| + Finishes(acts)
    decreases |acts|
  {
    if acts == [] {
      assert s.submitted + [] == s.submitted;
    } else {
      var t := Step(s, acts[0]);
      RecordsRun(t, acts[1..]);
      var given := if acts[0].Execute? then [acts[0].job] else [];
      assert t.submitted == s.submitted + given;
      assert (s.submitted + given) + Executed(acts[1..]) == s.submitted + (given + Executed(acts[1..]));
    }
  }

  /** Safety in every interleaving: order, conservation, mutual exclusion, and no panic. */
  lemma Safety(size: nat, acts: seq<Action>)
    requires size > 0 && Runs(Init(size), acts)
    ensures var s := After(Init(size), acts);
            && Executed(acts) == s.started + Jobs(s.queue)
            && (forall j: nat :: Times(Executed(acts), j) ==
                  Times(Jobs(s.queue), j) + RunningCount(s.workers, j) + Times(s.finished, j))
            && (forall v, w :: 0 <= v < w < |s.workers| ==> !(s.workers[v].Receiving? && s.workers[w].Receiving?))
            && (forall w :: 0 <= w < |s.workers| ==> !s.workers[w].Crashed?)
  {
    InitInv(size);
    RunInv(Init(size), acts);
    RecordsFromStart(size, acts);
  }

  lemma RecordsFromStart(size: nat, acts: seq<Action>)
    requires size > 0 && Runs(Init(size), acts)
    ensures After(Init(size), acts).submitted == Executed(acts)
    ensures |After(Init(size), acts).finished| == Finishes(acts)
  {
    RecordsRun(Init(size), acts);
    assert [] + Executed(acts) == Executed(acts);
  }

  /** `send().unwrap()` cannot fail: whenever the owner sends, a worker still holds the receiver. */
  lemma {:induction false} SendNeverFails(size: nat, acts: seq<Action>, a: Action)
    requires size > 0 && Runs(Init(size), acts)
    requires a.Execute? || a.SendKill?
    requires Enabled(After(Init(size), acts), a)
    ensures var s := After(Init(size), acts); exists w :: 0 <= w < |s.workers| && !s.workers[w].Stopped?
  {
    InitInv(size);
    RunInv(Init(size), acts);
  }

  /** From the start of a drop, no run is longer than the measure of its first state. */
  lemma {:induction false} DropTerminates(s: Pool, acts: seq<Action>)
    requires Inv(s) && !s.phase.Open? && Runs(s, acts)
    ensures Inv(After(s, acts)) && |acts| + Measure(After(s, acts)) <= Measure(s)
    decreases |acts|
  {
    if acts != [] {
      StepDecreases(s, acts[0]);
      DropTerminates(Step(s, acts[0]), acts[1..]);
    }
  }

  /**
    A run that cannot be extended has dropped the pool, and then every job given to `execute` was started
    in that order and finished by a worker, each exactly once.
   */
  lemma Drained(size: nat, acts: seq<Action>)
    requires size > 0 && Runs(Init(size), acts)
    ensures var s := After(Init(size), acts);
            && (!s.phase.Gone? ==> exists a :: Enabled(s, a))
            && (s.phase.Gone? ==>
                  && s.queue == []
                  && (forall w :: 0 <= w < |s.workers| ==> s.workers[w].Stopped?)
                  && s.started == Executed(acts)
                  && multiset(s.finished) == multiset(Executed(acts))
                  && Finishes(acts) == |Executed(acts)|)
  {
    InitInv(size);
    RunInv(Init(size), acts);
    var s := After(Init(size), acts);
    match s.phase {
      case Open => assert Enabled(s, BeginDrop);
      case Dropping(_, _) => assert Enabled(s, NextAction(s));
      case Gone =>
        AllStopped(s);
        RecordsFromStart(size, acts);
        assert |multiset(s.finished)| == |multiset(Executed(acts))|;
    }
  }

  lemma {:induction false} RunExtends(s: Pool, acts: seq<Action>, a: Action)
    requires Runs(s, acts) && Enabled(After(s, acts), a)
    ensures Runs(s, acts + [a]) && After(s, acts + [a]) == Step(After(s, acts), a)
    ensures Executed(acts + [a]) == Executed(acts) + if a.Execute? then [a.job] else []
    decreases |acts|
  {
    if acts == [] {
      assert acts + [a] == [a] && [a][1..] == [];
    } else {
      assert (acts + [a])[0] == acts[0] && (acts + [a])[1..] == acts[1..] + [a];
      RunExtends(Step(s, acts[0]), acts[1..], a);
    }
  }

  /** The pool is what the steps have made of the initial state. */
  ghost predicate Reached(s: Pool, acts: seq<Action>) {
    |s.workers| > 0 && Runs(Init(|s.workers|), acts) && s == After(Init(|s.workers|), acts) && Inv(s)
  }

  lemma ReachedNext(s: Pool, acts: seq<Action>, a: Action)
    requires Reached(s, acts) && Enabled(s, a)
    ensures Reached(Step(s, a), acts + [a])
    ensures Executed(acts + [a]) == Executed(acts) + if a.Execute? then [a.job] else []
  {
    RunExtends(Init(|s.workers|), acts, a);
    StepInv(s, a);
  }

  // ---- The pool as the program writes it

  class ThreadPool {
    var phase: Phase
    var queue: seq<Message>
    var lock: Option<nat>
    var workers: seq<Worker>
    var submitted: seq<nat>
    var started: seq<nat>
    var finished: seq<nat>

    /** The steps taken so far, by the owner and by the workers. */
    ghost var acts: seq<Action>

    function State(): Pool
      reads this
    {
      Pool(phase, queue, lock, workers, submitted, started, finished)
    }

    ghost predicate Valid()
      reads this
    {
      Reached(State(), acts)
    }

    constructor (size: nat)
      requires size > 0
      ensures Valid() && State() == Init(size) && acts == []
    {
      phase, queue, lock, submitted, started, finished, acts := Open, [], None, [], [], [], [];
      var ws: seq<Worker> := [];
      for i := 0 to size
        invariant ws == seq(i, _ => Waiting)
      {
        ws := ws + [Waiting];
      }
      workers := ws;
      InitInv(size);
    }

    method Execute(job: nat)
      requires Valid() && phase.Open?
      modifies this
      ensures Valid() && acts == old(acts) + [Action.Execute(job)]
      ensures queue == old(queue) + [Run(job)] && submitted == old(submitted) + [job]
      ensures phase == old(phase) && lock == old(lock) && workers == old(workers)
      ensures started == old(started) && finished == old(finished)
    {
      ReachedNext(State(), acts, Action.Execute(job));
      queue, submitted, acts := queue + [Run(job)], submitted + [job], acts + [Action.Execute(job)];
    }

    /** One turn of the loop of worker `w`, up to its next blocking point. */
    method Turn(w: nat)
      requires CanTurn(State(), w)
      modifies this
      ensures State() == Step(old(State()), TurnOf(old(State()), w)) && acts == old(acts) + [TurnOf(old(State()), w)]
    {
      acts := acts + [TurnOf(State(), w)];
      match workers[w] {
        case Receiving =>
          if queue == [] {
            lock, workers := None, workers[w := Crashed];
          } else {
            var message := queue[0];
            lock, queue := None, queue[1..];
            match message {
              case Run(job) => started, workers := started + [job], workers[w := Running(job)];
              case Kill => workers := workers[w := Stopped];
            }
          }
        case Running(job) => finished, workers := finished + [job], workers[w := Waiting];
        case Waiting => lock, workers := Some(w), workers[w := Receiving];
      }
    }

    method TurnValid(w: nat)
      requires Valid() && !phase.Open? && CanTurn(State(), w)
      modifies this
      ensures Valid() && Executed(acts) == old(Executed(acts)) && Measure(State()) < old(Measure(State()))
      ensures phase == old(phase) && submitted == old(submitted) && |workers| == |old(workers)|
    {
      ReachedNext(State(), acts, TurnOf(State(), w));
      TurnKeeps(State(), w);
      Turn(w);
    }

    /** Any number of turns of the workers, in any order. */
    method Interleave()
      requires Valid() && !phase.Open?
      modifies this
      ensures Valid() && Executed(acts) == old(Executed(acts))
      ensures phase == old(phase) && |workers| == |old(workers)|
    {
      while *
        invariant Valid() && Executed(acts) == old(Executed(acts))
        invariant phase == old(phase) && |workers| == |old(workers)|
        decreases Measure(State())
      {
        var w: nat := *;
        if !CanTurn(State(), w) {
          break;
        }
        TurnValid(w);
      }
    }

    /** The scheduler picks any thread that can run; there is one while worker `i` has not stopped. */
    method Schedule(ghost i: nat)
      requires Valid() && phase.Dropping? && phase.sent == |workers|
      requires i < |workers| && !workers[i].Stopped?
      modifies this
      ensures Valid() && Executed(acts) == old(Executed(acts)) && Measure(State()) < old(Measure(State()))
      ensures phase == old(phase) && |workers| == |old(workers)|
    {
      assert CanTurn(State(), NextTurn(State(), i));
      var w: nat :| w < |workers| && CanTurn(State(), w);
      TurnValid(w);
    }

    method Kill()
      requires Valid() && phase.Dropping? && phase.sent < |workers|
      modifies this
      ensures Valid() && Executed(acts) == old(Executed(acts))
      ensures queue == old(queue) + [Message.Kill] && phase == Dropping(old(phase).sent + 1, old(phase).joined)
      ensures |workers| == |old(workers)|
    {
      ReachedNext(State(), acts, SendKill);
      queue, phase, acts := queue + [Message.Kill], phase.(sent := phase.sent + 1), acts + [SendKill];
    }

    method TakeHandle()
      requires Valid() && Enabled(State(), Join)
      modifies this
      ensures Valid() && Executed(acts) == old(Executed(acts))
      ensures phase == Dropping(old(phase).sent, old(phase).joined + 1) && workers == old(workers)
    {
      ReachedNext(State(), acts, Join);
      phase, acts := phase.(joined := phase.joined + 1), acts + [Join];
    }

    /** `for _ in 0..self.threads`: one kill for every worker. */
    method SendKills()
      requires Valid() && phase == Dropping(0, 0)
      modifies this
      ensures Valid() && Executed(acts) == old(Executed(acts))
      ensures phase == Dropping(|workers|, 0) && |workers| == |old(workers)|
    {
      for i := 0 to |workers|
        invariant Valid() && Executed(acts) == old(Executed(acts))
        invariant phase == Dropping(i, 0) && |workers| == |old(workers)|
      {
        Interleave();
        Kill();
      }
    }

    /** `thread.join()`: blocks while the other threads run, until worker `i` has stopped. */
    method JoinWorker(i: nat)
      requires Valid() && i < |workers| && phase == Dropping(|workers|, i)
      modifies this
      ensures Valid() && Executed(acts) == old(Executed(acts))
      ensures phase == Dropping(|workers|, i + 1) && |workers| == |old(workers)|
    {
      Interleave();
      while !workers[i].Stopped?
        invariant Valid() && Executed(acts) == old(Executed(acts))
        invariant phase == old(phase) && |workers| == |old(workers)|
        decreases Measure(State())
      {
        Schedule(i);
      }
      TakeHandle();
    }

    method JoinAll()
      requires Valid() && phase == Dropping(|workers|, 0)
      modifies this
      ensures Valid() && Executed(acts) == old(Executed(acts))
      ensures phase == Dropping(|workers|, |workers|) && |workers| == |old(workers)|
    {
      for i := 0 to |workers|
        invariant Valid() && Executed(acts) == old(Executed(acts))
        invariant phase == Dropping(|workers|, i) && |workers| == |old(workers)|
      {
        JoinWorker(i);
      }
    }

    method Begin()
      requires Valid() && phase.Open?
      modifies this
      ensures Valid() && Executed(acts) == old(Executed(acts))
      ensures phase == Dropping(0, 0) && |workers| == |old(workers)|
    {
      ReachedNext(State(), acts, BeginDrop);
      phase, acts := Dropping(0, 0), acts + [BeginDrop];
    }

    method Finish()
      requires Valid() && phase == Dropping(|workers|, |workers|)
      modifies this
      ensures Valid() && phase.Gone? && Executed(acts) == old(Executed(acts))
    {
      ReachedNext(State(), acts, Release);
      phase, acts := Gone, acts + [Release];
    }

    /** Under every schedule the drop returns, and then every job given to `Execute` has run exactly once. */
    method Drop()
      requires Valid() && phase.Open?
      modifies this
      ensures Valid() && phase.Gone? && queue == []
      ensures forall w :: 0 <= w < |workers| ==> workers[w].Stopped?
      ensures started == old(Executed(acts)) && multiset(finished) == multiset(old(Executed(acts)))
      ensures Executed(acts) == old(Executed(acts)) && Finishes(acts) == |Executed(acts)|
    {
      Begin();
      SendKills();
      JoinAll();
      Finish();
      Drained(|workers|, acts);
    }
  }
}
