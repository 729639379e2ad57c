/**
  The protocol of an event stream: senders share a channel, one worker thread writes to the socket, and
  each `close` sends a barrier of two through the channel and waits at it.

  `Stream` is the whole shared state and `Step` one atomic step of one thread. Socket writes succeed.
 */
module SseStream {
  import opened SseFormat
  import opened Wrappers
  import Text

  datatype Message = Write(item: Item) | Close(barrier: nat)

  /** `Passed`: the worker is past its barrier; `Ended`: it has dropped the receiver. */
  datatype Worker = Working | AtBarrier | Passed | Ended

  /** A call of `close`: it has sent its barrier, it has arrived there, or it has returned. */
  datatype Closer = Posted | Waiting | Returned

  /** `sent` and `taken` record what the channel accepted and what the worker took from it. */
  datatype Stream = Stream(
    queue: seq<Message>, worker: Worker, arrived: Option<nat>, closers: map<nat, Closer>, wire: string,
    sent: seq<Message>, taken: seq<Message>)

  datatype Action =
    | Send(item: Item) | Post(barrier: nat) | Arrive(barrier: nat) | Return(barrier: nat)
    | Take | Pass | End

  const INIT := Stream([], Working, None, map[], "", [], [])

  predicate Enabled(s: Stream, a: Action) {
    match a
    case Send(_) => true
    case Post(b) => b !in s.closers
    case Arrive(b) => b in s.closers && s.closers[b].Posted?
    case Return(b) => b in s.closers && s.closers[b].Waiting? && s.arrived == Some(b)
    case Take => s.worker.Working? && s.queue != []
    case Pass =>
      s.worker.AtBarrier? && s.arrived.Some? && s.arrived.value in s.closers && !s.closers[s.arrived.value].Posted?
    case End => s.worker.Passed?
  }

  /** Sending fails, and is ignored, once the receiver is gone. */
  function Accept(s: Stream, m: Message): Stream {
    if s.worker.Ended? then s else s.(queue := s.queue + [m], sent := s.sent + [m])
  }

  function Step(s: Stream, a: Action): Stream
    requires Enabled(s, a)
  {
    match a
    case Send(item) => Accept(s, Write(item))
    case Post(b) => Accept(s.(closers := s.closers[b := Posted]), Close(b))
    case Arrive(b) => s.(closers := s.closers[b := Waiting])
    case Return(b) => s.(closers := s.closers[b := Returned])
    case Take =>
      var m, s' := s.queue[0], s.(queue := s.queue[1..], taken := s.taken + [s.queue[0]]);
      (match m
       case Write(item) => s'.(wire := s.wire + ItemText(item))
       case Close(b) => s'.(worker := AtBarrier, arrived := Some(b)))
    case Pass => s.(worker := Passed)
    case End => s.(worker := Ended, queue := [])
  }

  // ---- The messages before the first close

  /** The index of the first close, or the length. */
  function FirstClose(q: seq<Message>): (i: nat)
    ensures i <= |q|
    ensures forall k :: 0 <= k < i ==> q[k].Write?
    ensures i < |q| ==> q[i].Close?
  {
    if q == [] || q[0].Close? then 0 else 1 + FirstClose(q[1..])
  }

  function ItemsOf(q: seq<Message>): seq<Item>
    requires forall k :: 0 <= k < |q| ==> q[k].Write?
  {
    seq(|q|, k requires 0 <= k < |q| => q[k].item)
  }

  /** The events and retries sent before the first close, in order. */
  function BeforeClose(q: seq<Message>): seq<Item> {
    ItemsOf(q[..FirstClose(q)])
  }

  lemma FirstCloseAt(q: seq<Message>, i: nat)
    requires i <= |q| && forall k :: 0 <= k < i ==> q[k].Write?
    requires i < |q| ==> q[i].Close?
    ensures FirstClose(q) == i
  {
  }

  /** A prefix that holds a close decides which close is the first. */
  lemma FirstCloseOfPrefix(p: seq<Message>, q: seq<Message>)
    requires p <= q && FirstClose(p) < |p|
    ensures FirstClose(q) == FirstClose(p) && BeforeClose(q) == BeforeClose(p)
  {
    FirstCloseAt(q, FirstClose(p));
    assert q[..FirstClose(p)] == p[..FirstClose(p)];
  }

  lemma WireTextCons(first: Item, rest: seq<Item>)
    ensures WireText([first] + rest) == ItemText(first) + WireText(rest)
  {
    assert ([first] + rest)[1..] == rest;
  }

  lemma {:induction false} WireTextAppend(items: seq<Item>, item: Item)
    ensures WireText(items + [item]) == WireText(items) + ItemText(item)
    decreases |items|
  {
    if items == [] {
      WireTextCons(item, []);
      assert items + [item] == [item] + [] && ItemText(item) + "" == ItemText(item) == "" + ItemText(item);
    } else {
      WireTextAppend(items[1..], item);
      assert items == [items[0]] + items[1..] && items + [item] == [items[0]] + (items[1..] + [item]);
      WireTextCons(items[0], items[1..]);
      WireTextCons(items[0], items[1..] + [item]);
      Text.Regroup(ItemText(items[0]), WireText(items[1..]), ItemText(item));
    }
  }

  // ---- The invariant

  /** What was taken and what is queued is what was sent; after the end the queue is gone. */
  predicate Ordered(s: Stream) {
    if s.worker.Ended? then s.taken <= s.sent && s.queue == [] else s.sent == s.taken + s.queue
  }

  /** The worker stops taking at the first close, and the wire holds what came before it. */
  predicate Written(s: Stream) {
    && s.wire == WireText(BeforeClose(s.taken))
    && (s.worker.Working? <==> s.arrived.None?)
    && (match s.arrived
        case None => FirstClose(s.taken) == |s.taken|
        case Some(b) => FirstClose(s.taken) == |s.taken| - 1 && s.taken[|s.taken| - 1] == Close(b))
  }

  /** Every close in the channel has a caller, and only the one whose barrier the worker reached returns. */
  ghost predicate Called(s: Stream) {
    && (forall k :: 0 <= k < |s.sent| ==> s.sent[k].Close? ==> s.sent[k].barrier in s.closers)
    && (forall b :: b in s.closers && s.closers[b].Returned? ==> s.arrived == Some(b))
  }

  ghost predicate Inv(s: Stream) {
    Ordered(s) && Written(s) && Called(s)
  }

  lemma InitInv()
    ensures Inv(INIT)
  {
  }

  lemma FirstCloseAppend(p: seq<Message>, q: seq<Message>)
    requires FirstClose(p) == |p|
    ensures FirstClose(p + q) == |p| + FirstClose(q)
  {
    FirstCloseAt(p + q, |p| + FirstClose(q));
  }

  lemma ItemsAppend(t: seq<Message>, item: Item)
    requires forall k :: 0 <= k < |t| ==> t[k].Write?
    ensures ItemsOf(t + [Write(item)]) == ItemsOf(t) + [item]
  {
  }

  lemma TakenWrite(t: seq<Message>, item: Item)
    requires FirstClose(t) == |t|
    ensures FirstClose(t + [Write(item)]) == |t| + 1
    ensures BeforeClose(t + [Write(item)]) == BeforeClose(t) + [item]
  {
    var u := t + [Write(item)];
    FirstCloseAppend(t, [Write(item)]);
    assert t[..|t|] == t && u[..|t| + 1] == u;
    ItemsAppend(t, item);
  }

  lemma TakenClose(t: seq<Message>, b: nat)
    requires FirstClose(t) == |t|
    ensures FirstClose(t + [Close(b)]) == |t|
    ensures BeforeClose(t + [Close(b)]) == BeforeClose(t)
  {
    FirstCloseAppend(t, [Close(b)]);
    assert (t + [Close(b)])[..|t|] == t == t[..|t|];
  }

  lemma TakeWritten(s: Stream)
    requires Written(s) && Enabled(s, Take)
    ensures Written(Step(s, Take))
  {
    match s.queue[0] {
      case Write(item) =>
        TakenWrite(s.taken, item);
        WireTextAppend(BeforeClose(s.taken), item);
      case Close(b) => TakenClose(s.taken, b);
    }
  }

  lemma AcceptInv(s: Stream, m: Message)
    requires Inv(s) && (m.Close? ==> m.barrier in s.closers)
    ensures Inv(Accept(s, m))
  {
    assert s.taken + (s.queue + [m]) == (s.taken + s.queue) + [m];
  }

  lemma TakeOrdered(s: Stream)
    requires Ordered(s) && Called(s) && Enabled(s, Take) && s.arrived.None?
    ensures Ordered(Step(s, Take)) && Called(Step(s, Take))
  {
    assert (s.taken + [s.queue[0]]) + s.queue[1..] == s.taken + s.queue;
  }

  lemma TakeInv(s: Stream)
    requires Inv(s) && Enabled(s, Take)
    ensures Inv(Step(s, Take))
  {
    TakeWritten(s);
    TakeOrdered(s);
  }

  lemma EndInv(s: Stream)
    requires Inv(s) && Enabled(s, End)
    ensures Inv(Step(s, End))
  {
  }

  lemma WaitInv(s: Stream, a: Action)
    requires Inv(s) && Enabled(s, a) && (a.Arrive? || a.Return? || a.Pass?)
    ensures Inv(Step(s, a))
  {
  }

  /** Every step of every thread keeps the invariant. */
  lemma StepInv(s: Stream, a: Action)
    requires Inv(s) && Enabled(s, a)
    ensures Inv(Step(s, a))
  {
    match a {
      case Send(item) => AcceptInv(s, Write(item));
      case Post(b) => AcceptInv(s.(closers := s.closers[b := Posted]), Close(b));
      case Take => TakeInv(s);
      case End => EndInv(s);
      case _ => WaitInv(s, a);
    }
  }

  // ---- Whole runs

  predicate Runs(s: Stream, acts: seq<Action>)
    decreases |acts|
  {
    acts == [] || (Enabled(s, acts[0]) && Runs(Step(s, acts[0]), acts[1..]))
  }

  function After(s: Stream, acts: seq<Action>): Stream
    requires Runs(s, acts)
    decreases |acts|
  {
    if acts == [] then s else After(Step(s, acts[0]), acts[1..])
  }

  /** Nothing that was sent is ever forgotten, and a returned close stays returned. */
  lemma {:induction false} RunInv(s: Stream, acts: seq<Action>)
    requires Inv(s) && Runs(s, acts)
    ensures Inv(After(s, acts)) && s.sent <= After(s, acts).sent
    decreases |acts|
  {
    if acts != [] {
      StepInv(s, acts[0]);
      RunInv(Step(s, acts[0]), acts[1..]);
    }
  }

  lemma TakenIsSent(s: Stream)
    requires Inv(s)
    ensures s.taken <= s.sent
  {
  }

  // ---- What was asked for, read off the actions alone

  /** The messages of the senders and closers, up to the end of the receiver. */
  function Accepted(acts: seq<Action>): seq<Message> {
    if acts == [] || acts[0].End? then []
    else
      var rest := Accepted(acts[1..]);
      match acts[0]
      case Send(item) => [Write(item)] + rest
      case Post(b) => [Close(b)] + rest
      case _ => rest
  }

  /** The events and retries sent before the first close is called. */
  function SentFirst(acts: seq<Action>): seq<Item> {
    if acts == [] || acts[0].Post? then []
    else (if acts[0].Send? then [acts[0].item] else []) + SentFirst(acts[1..])
  }

  /** The first call of `close`. */
  function FirstPost(acts: seq<Action>): Option<nat> {
    if acts == [] then None else if acts[0].Post? then Some(acts[0].barrier) else FirstPost(acts[1..])
  }

  lemma {:induction false} EndedStays(s: Stream, acts: seq<Action>)
    requires s.worker.Ended? && Runs(s, acts)
    ensures After(s, acts).sent == s.sent
    decreases |acts|
  {
    if acts != [] {
      EndedStays(Step(s, acts[0]), acts[1..]);
    }
  }

  lemma {:induction false} SentIsAccepted(s: Stream, acts: seq<Action>)
    requires !s.worker.Ended? && Runs(s, acts)
    ensures After(s, acts).sent == s.sent + Accepted(acts)
    decreases |acts|
  {
    if acts == [] {
      assert s.sent + [] == s.sent;
    } else {
      var t := Step(s, acts[0]);
      if acts[0].End? {
        EndedStays(t, acts[1..]);
        assert s.sent + [] == s.sent;
      } else {
        SentIsAccepted(t, acts[1..]);
        match acts[0] {
          case Send(item) => assert t.sent + Accepted(acts[1..]) == s.sent + ([Write(item)] + Accepted(acts[1..]));
          case Post(b) => assert t.sent + Accepted(acts[1..]) == s.sent + ([Close(b)] + Accepted(acts[1..]));
          case _ =>
        }
      }
    }
  }

  /** The channel records every message that a sender or closer sends while the receiver is there, in order. */
  lemma NothingDropped(acts: seq<Action>)
    requires Runs(INIT, acts)
    ensures After(INIT, acts).sent == Accepted(acts)
  {
    SentIsAccepted(INIT, acts);
    assert [] + Accepted(acts) == Accepted(acts);
  }

  lemma StillWorking(s: Stream)
    requires Inv(s) && FirstClose(s.sent) == |s.sent|
    ensures s.worker.Working?
  {
    TakenIsSent(s);
    if FirstClose(s.taken) < |s.taken| {
      FirstCloseOfPrefix(s.taken, s.sent);
    }
  }

  lemma {:induction false} PostStep(s: Stream, acts: seq<Action>)
    requires Inv(s) && Runs(s, acts) && acts != [] && acts[0].Post? && FirstClose(s.sent) == |s.sent|
    ensures var q := After(s, acts).sent;
            && FirstClose(q) == |s.sent| < |q| && q[|s.sent|] == Close(acts[0].barrier)
            && BeforeClose(q) == BeforeClose(s.sent)
  {
    var t := Step(s, acts[0]);
    StillWorking(s);
    StepInv(s, acts[0]);
    RunInv(t, acts[1..]);
    TakenClose(s.sent, acts[0].barrier);
    FirstCloseOfPrefix(t.sent, After(s, acts).sent);
  }

  /** Until then a step adds to the items exactly what it sends. */
  lemma {:induction false} FirstStep(s: Stream, acts: seq<Action>)
    requires Inv(s) && Runs(s, acts) && acts != [] && !acts[0].Post? && FirstClose(s.sent) == |s.sent|
    ensures var t := Step(s, acts[0]);
            && Inv(t) && FirstClose(t.sent) == |t.sent|
            && BeforeClose(t.sent) == BeforeClose(s.sent) + if acts[0].Send? then [acts[0].item] else []
  {
    StillWorking(s);
    StepInv(s, acts[0]);
    assert BeforeClose(s.sent) + [] == BeforeClose(s.sent);
    if acts[0].Send? {
      TakenWrite(s.sent, acts[0].item);
    } else {
      assert Step(s, acts[0]).sent == s.sent;
    }
  }

  predicate FirstIs(s: Stream, items: seq<Item>, acts: seq<Action>) {
    var q := s.sent;
    && BeforeClose(q) == items + SentFirst(acts)
    && (FirstPost(acts).None? <==> FirstClose(q) == |q|)
    && (FirstPost(acts).Some? ==> q[FirstClose(q)] == Close(FirstPost(acts).value))
  }

  lemma FirstIsBefore(s: Stream, items: seq<Item>, acts: seq<Action>)
    requires acts != [] && !acts[0].Post?
    requires FirstIs(s, items + if acts[0].Send? then [acts[0].item] else [], acts[1..])
    ensures FirstIs(s, items, acts)
  {
    var given := if acts[0].Send? then [acts[0].item] else [];
    assert SentFirst(acts) == given + SentFirst(acts[1..]);
    assert items + (given + SentFirst(acts[1..])) == (items + given) + SentFirst(acts[1..]);
  }

  /** What the channel holds before its first close is what was sent before the first call of `close`. */
  lemma {:induction false} FirstPostIsFirst(s: Stream, acts: seq<Action>)
    requires Inv(s) && Runs(s, acts) && FirstClose(s.sent) == |s.sent|
    ensures FirstIs(After(s, acts), BeforeClose(s.sent), acts)
    decreases |acts|
  {
    var items := BeforeClose(s.sent);
    if acts == [] || acts[0].Post? {
      assert items + [] == items;
      if acts != [] {
        PostStep(s, acts);
      }
    } else {
      FirstStep(s, acts);
      FirstPostIsFirst(Step(s, acts[0]), acts[1..]);
      FirstIsBefore(After(s, acts), items, acts);
    }
  }

  // ---- What a returned close promises

  /**
    In every interleaving, a close that has returned is the first that was called, and the wire holds
    exactly what was sent before it, in order.
   */
  lemma {:induction false} CloseFlushes(acts: seq<Action>, b: nat)
    requires Runs(INIT, acts)
    requires var s := After(INIT, acts); b in s.closers && s.closers[b].Returned?
    ensures FirstPost(acts) == Some(b) && After(INIT, acts).wire == WireText(SentFirst(acts))
  {
    InitInv();
    RunInv(INIT, acts);
    var s := After(INIT, acts);
    TakenIsSent(s);
    FirstCloseOfPrefix(s.taken, s.sent);
    FirstPostIsFirst(INIT, acts);
    assert BeforeClose([]) + SentFirst(acts) == SentFirst(acts);
  }

  /** So a client of the wire has received every clean event sent before that close. */
  lemma {:induction false} CloseDelivers(acts: seq<Action>, b: nat)
    requires Runs(INIT, acts)
    requires var s := After(INIT, acts); b in s.closers && s.closers[b].Returned?
    requires forall i :: i in SentFirst(acts) ==> CleanItem(i)
    ensures Interpret(After(INIT, acts).wire, START) == ReceivedAll(START, SentFirst(acts))
  {
    CloseFlushes(acts, b);
    RoundTrip(SentFirst(acts));
  }

  lemma {:induction false} FirstPostOfMore(acts: seq<Action>, more: seq<Action>)
    requires FirstPost(acts).Some?
    ensures FirstPost(acts + more) == FirstPost(acts)
  {
    if !acts[0].Post? {
      assert (acts + more)[0] == acts[0] && (acts + more)[1..] == acts[1..] + more;
      FirstPostOfMore(acts[1..], more);
    }
  }

  lemma {:induction false} RunsOn(s: Stream, acts: seq<Action>, more: seq<Action>)
    requires Runs(s, acts) && Runs(After(s, acts), more)
    ensures Runs(s, acts + more) && After(s, acts + more) == After(After(s, acts), more)
    decreases |acts|
  {
    if acts == [] {
      assert acts + more == more;
    } else {
      assert (acts + more)[0] == acts[0] && (acts + more)[1..] == acts[1..] + more;
      RunsOn(Step(s, acts[0]), acts[1..], more);
    }
  }

  /** Any other call of `close` never returns, however the run goes on. */
  lemma {:induction false} OnlyTheFirstReturns(acts: seq<Action>, more: seq<Action>, b: nat)
    requires Runs(INIT, acts) && Runs(After(INIT, acts), more)
    requires FirstPost(acts).Some? && FirstPost(acts) != Some(b)
    ensures var t := After(After(INIT, acts), more); b in t.closers ==> !t.closers[b].Returned?
  {
    RunsOn(INIT, acts, more);
    FirstPostOfMore(acts, more);
    var t := After(INIT, acts + more);
    if b in t.closers && t.closers[b].Returned? {
      CloseFlushes(acts + more, b);
    }
  }

  // ---- The first close returns

  function StepsLeft(c: Closer): nat {
    match c
    case Posted => 2
    case Waiting => 1
    case Returned => 0
  }

  /** Messages up to and including the first close in the queue, plus the steps left to its caller. */
  function Measure(s: Stream, b: nat): nat
    requires b in s.closers
  {
    (if s.worker.Working? then FirstClose(s.queue) + 1 else 0) + StepsLeft(s.closers[b])
  }

  predicate Serves(a: Action, b: nat) {
    a == Take || a == Arrive(b) || a == Return(b)
  }

  /** The first close in the channel is that of `b`. */
  predicate IsFirst(s: Stream, b: nat) {
    b in s.closers && FirstClose(s.sent) < |s.sent| && s.sent[FirstClose(s.sent)] == Close(b)
  }

  lemma WorkingFirst(s: Stream, b: nat)
    requires Ordered(s) && IsFirst(s, b) && s.worker.Working? && FirstClose(s.taken) == |s.taken|
    ensures FirstClose(s.queue) < |s.queue| && s.queue[FirstClose(s.queue)] == Close(b)
  {
    FirstCloseAppend(s.taken, s.queue);
  }

  lemma SameFirst(p: seq<Message>, q: seq<Message>)
    requires p <= q && FirstClose(p) < |p|
    ensures FirstClose(q) < |q| && q[FirstClose(q)] == p[FirstClose(p)]
  {
    FirstCloseOfPrefix(p, q);
  }

  lemma ArrivedFirst(s: Stream, b: nat)
    requires s.taken <= s.sent && Written(s) && IsFirst(s, b) && s.arrived.Some?
    ensures s.arrived == Some(b)
  {
    SameFirst(s.taken, s.sent);
  }

  lemma FirstInQueue(s: Stream, b: nat)
    requires Inv(s) && IsFirst(s, b)
    ensures s.worker.Working? ==> FirstClose(s.queue) < |s.queue| && s.queue[FirstClose(s.queue)] == Close(b)
    ensures !s.worker.Working? ==> s.arrived == Some(b)
  {
    if s.worker.Working? {
      WorkingFirst(s, b);
    } else {
      TakenIsSent(s);
      ArrivedFirst(s, b);
    }
  }

  /** Until it has returned, the worker or its caller can take a step. */
  function NextAction(s: Stream, b: nat): (a: Action)
    requires IsFirst(s, b) && !s.closers[b].Returned?
  {
    if s.closers[b].Posted? then Arrive(b) else if s.worker.Working? then Take else Return(b)
  }

  lemma StaysFirst(s: Stream, b: nat, a: Action)
    requires IsFirst(s, b) && Enabled(s, a)
    ensures IsFirst(Step(s, a), b)
  {
    FirstCloseOfPrefix(s.sent, Step(s, a).sent);
  }

  lemma AcceptMeasure(s: Stream, m: Message, b: nat)
    requires b in s.closers && (s.worker.Working? ==> FirstClose(s.queue) < |s.queue|)
    ensures Measure(Accept(s, m), b) == Measure(s, b)
  {
    if s.worker.Working? {
      FirstCloseOfPrefix(s.queue, s.queue + [m]);
    }
  }

  lemma MeasureStep(s: Stream, b: nat, a: Action)
    requires Inv(s) && IsFirst(s, b) && Enabled(s, a) && b in Step(s, a).closers
    ensures Measure(Step(s, a), b) <= Measure(s, b) - if Serves(a, b) then 1 else 0
  {
    FirstInQueue(s, b);
    match a {
      case Send(item) => AcceptMeasure(s, Write(item), b);
      case Post(c) => AcceptMeasure(s.(closers := s.closers[c := Posted]), Close(c), b);
      case _ =>
    }
  }

  /** No deadlock; those steps bring the return closer, and no step of another thread puts it off. */
  lemma FirstCloseProgress(s: Stream, b: nat, a: Action)
    requires Inv(s) && IsFirst(s, b) && Enabled(s, a)
    ensures !s.closers[b].Returned? ==> Serves(NextAction(s, b), b) && Enabled(s, NextAction(s, b))
    ensures Inv(Step(s, a)) && IsFirst(Step(s, a), b)
    ensures Measure(Step(s, a), b) <= Measure(s, b) - if Serves(a, b) then 1 else 0
    ensures s.closers[b].Returned? <==> Measure(s, b) == 0
  {
    FirstInQueue(s, b);
    StepInv(s, a);
    StaysFirst(s, b, a);
    MeasureStep(s, b, a);
  }

  // ---- The stream as the program writes it

  class EventStream {
    var queue: seq<Message>
    var worker: Worker
    var arrived: Option<nat>
    var closers: map<nat, Closer>
    var wire: string
    var sent: seq<Message>
    var taken: seq<Message>

    function State(): Stream
      reads this
    {
      Stream(queue, worker, arrived, closers, wire, sent, taken)
    }

    constructor ()
      ensures State() == INIT && Inv(State())
    {
      queue, worker, arrived, closers, wire, sent, taken := [], Working, None, map[], "", [], [];
    }

    method SendMessage(m: Message)
      modifies this
      ensures worker == old(worker) && arrived == old(arrived) && closers == old(closers)
      ensures wire == old(wire) && taken == old(taken)
      ensures !worker.Ended? ==> queue == old(queue) + [m] && sent == old(sent) + [m]
      ensures worker.Ended? ==> queue == old(queue) && sent == old(sent)
    {
      if !worker.Ended? {
        queue, sent := queue + [m], sent + [m];
      }
    }

    /** One message of the worker's loop, up to its next blocking point. */
    method TakeMessage()
      requires Enabled(State(), Take)
      modifies this
      ensures queue == old(queue)[1..] && taken == old(taken) + [old(queue)[0]]
      ensures sent == old(sent) && closers == old(closers)
      ensures match old(queue)[0] {
                case Write(item) =>
                  wire == old(wire) + ItemText(item) && worker == old(worker) && arrived == old(arrived)
                case Close(b) => wire == old(wire) && worker == AtBarrier && arrived == Some(b)
              }
      ensures State() == Step(old(State()), Take)
    {
      var event := queue[0];
      queue, taken := queue[1..], taken + [event];
      match event {
        case Write(Sent(e)) =>
          var text := ToString(e);
          wire := wire + text;
        case Write(Retry(n)) => wire := wire + ItemText(Retry(n));
        case Close(b) => worker, arrived := AtBarrier, Some(b);
      }
    }

    /** One step of any thread. */
    method Perform(a: Action)
      requires Enabled(State(), a) && Inv(State())
      modifies this
      ensures State() == Step(old(State()), a) && Inv(State())
    {
      StepInv(State(), a);
      match a {
        case Send(item) => SendMessage(Write(item));
        case Post(b) =>
          closers := closers[b := Posted];
          SendMessage(Message.Close(b));
        case Arrive(b) => closers := closers[b := Waiting];
        case Return(b) => closers := closers[b := Returned];
        case Take => TakeMessage();
        case Pass => worker := Passed;
        case End => worker, queue := Ended, [];
      }
    }

    method PerformOther(b: nat, a: Action)
      requires Inv(State()) && IsFirst(State(), b) && Enabled(State(), a)
      requires a != Action.Arrive(b) && a != Action.Return(b)
      modifies this
      ensures Inv(State()) && IsFirst(State(), b) && closers[b] == old(closers)[b] && old(sent) <= sent
      ensures Measure(State(), b) <= old(Measure(State(), b)) - if a == Take then 1 else 0
    {
      FirstCloseProgress(State(), b, a);
      Perform(a);
    }

    /** Any number of steps of the threads other than the caller of `Close(b)`. */
    method Interleave(b: nat)
      requires Inv(State()) && IsFirst(State(), b)
      modifies this
      ensures Inv(State()) && IsFirst(State(), b) && closers[b] == old(closers)[b]
      ensures Measure(State(), b) <= old(Measure(State(), b)) && old(sent) <= sent
    {
      var steps: nat :| steps >= 0;
      for i := 0 to steps
        invariant Inv(State()) && IsFirst(State(), b) && closers[b] == old(closers)[b]
        invariant Measure(State(), b) <= old(Measure(State(), b)) && old(sent) <= sent
      {
        var a: Action := *;
        if Enabled(State(), a) && a != Action.Arrive(b) && a != Action.Return(b) {
          PerformOther(b, a);
        }
      }
    }

    /** The worker takes a message, and the other threads step, while the caller of the first close waits. */
    method TakeOther(b: nat)
      requires Inv(State()) && IsFirst(State(), b) && closers[b] == Waiting && arrived != Some(b)
      modifies this
      ensures Inv(State()) && IsFirst(State(), b) && closers[b] == Waiting && old(sent) <= sent
      ensures Measure(State(), b) < old(Measure(State(), b))
    {
      FirstInQueue(State(), b);
      PerformOther(b, Take);
      Interleave(b);
    }

    /** `barrier.wait()` in the caller of the first close: it blocks until the worker arrives. */
    method Wait(b: nat)
      requires Inv(State()) && IsFirst(State(), b) && closers[b] == Posted
      modifies this
      ensures Inv(State()) && b in closers && closers[b].Returned? && old(sent) <= sent
    {
      Perform(Action.Arrive(b));
      while arrived != Some(b)
        invariant Inv(State()) && IsFirst(State(), b) && closers[b] == Waiting && old(sent) <= sent
        decreases Measure(State(), b)
      {
        TakeOther(b);
      }
      Perform(Action.Return(b));
    }

    /** Under every schedule the first close returns, and then the wire holds all that was sent before it. */
    method Close(b: nat)
      requires Inv(State()) && b !in closers && FirstClose(sent) == |sent|
      modifies this
      ensures b in closers && closers[b].Returned?
      ensures wire == WireText(BeforeClose(old(sent)))
    {
      StillWorking(State());
      Perform(Action.Post(b));
      FirstCloseAppend(old(sent), [Message.Close(b)]);
      Interleave(b);
      Wait(b);
      Flushed(State(), old(sent), b);
    }
  }

  lemma {:induction false} Flushed(s: Stream, before: seq<Message>, b: nat)
    requires Inv(s) && s.arrived.Some? && FirstClose(before) == |before| && before + [Message.Close(b)] <= s.sent
    ensures s.wire == WireText(BeforeClose(before))
  {
    TakenIsSent(s);
    FirstCloseAppend(before, [Message.Close(b)]);
    TakenClose(before, b);
    FirstCloseOfPrefix(before + [Message.Close(b)], s.sent);
    FirstCloseOfPrefix(s.taken, s.sent);
  }
}
