/**
 The queue between a helper's output and its reader (structuredEventQueue of cmd/htmlclay/jsonl.go), as
 the interleaved steps of any number of emit calls and one runner. A step is one critical section, one
 channel operation or one send.
 */
module EventQueue {
  import opened Values

  /** Any event that is no status ends the stream. */
  datatype Event = Status(text: string) | Terminal(text: string)

  // ----- the shared state -----

  /** `terminal` names the call that waits for it; `closed` are the calls let go. `wake` holds one token. */
  datatype Queue = Queue(status: Option<Event>, terminal: Option<(Event, nat)>, terminalSet: bool, wake: bool, closed: set<nat>)

  /** emit, under the lock: a newer status replaces one not yet taken; only the first terminal counts. */
  function Accepted(q: Queue, event: Event, call: nat): Queue {
    if event.Status? then if q.terminalSet then q else q.(status := Some(event))
    else if !q.terminalSet then q.(terminalSet := true, terminal := Some((event, call)))
    else q.(closed := q.closed + {call})
  }

  /** run, under the lock: a status goes before the terminal. */
  function Taken(q: Queue): (Runner, Queue) {
    if q.status.Some? then (Sending(q.status.value, None), q.(status := None))
    else if q.terminal.Some? then (Sending(q.terminal.value.0, Some(q.terminal.value.1)), q.(terminal := None))
    else (Waiting, q)
  }

  /** The queue object: each method is one atomic section. */
  class StructuredEventQueue {
    var status: Option<Event>
    var terminal: Option<(Event, nat)>
    var terminalSet: bool
    var wake: bool
    var closed: set<nat>

    function Now(): Queue
      reads this
    {
      Queue(status, terminal, terminalSet, wake, closed)
    }

    constructor ()
      ensures Now() == Queue(None, None, false, false, {})
    {
      status, terminal, terminalSet, wake, closed := None, None, false, false, {};
    }

    method Accept(event: Event, call: nat)
      modifies this`status, this`terminal, this`terminalSet, this`closed
      ensures Now() == Accepted(old(Now()), event, call)
    {
      if event.Status? {
        if !terminalSet {
          status := Some(event);
        }
        return;
      }
      if !terminalSet {
        terminalSet := true;
        terminal := Some((event, call));
      } else {
        closed := closed + {call};
      }
    }

    /** A send that does not block: a full channel drops the token. */
    method Signal()
      modifies this`wake
      ensures Now() == old(Now()).(wake := true)
    {
      if !wake {
        wake := true;
      }
    }

    /** The wake-up is received. */
    method Woken()
      modifies this`wake
      ensures Now() == old(Now()).(wake := false)
    {
      wake := false;
    }

    /** The call that waits for its terminal is let go. */
    method Release(call: nat)
      modifies this`closed
      ensures Now() == old(Now()).(closed := old(Now()).closed + {call})
    {
      closed := closed + {call};
    }

    method Take() returns (next: Runner)
      modifies this`status, this`terminal
      ensures (next, Now()) == Taken(old(Now()))
    {
      if status.Some? {
        next := Sending(status.value, None);
        status := None;
      } else if terminal.Some? {
        next := Sending(terminal.value.0, Some(terminal.value.1));
        terminal := None;
      } else {
        next := Waiting;
      }
    }
  }

  // ----- the processes -----

  /** Where one emit call is. */
  datatype Call = Entered(event: Event) | Signalling(event: Event) | Blocked(event: Event) | Returned(event: Event)

  /** Where the runner is. */
  datatype Runner = Waiting | Looping | Sending(event: Event, ack: Option<nat>) | Acking(call: nat) | Finished

  /**
   The whole system. For the record: `accepted` are the statuses stored, in order, `taken` which of them
   the runner took, `winner` the first terminal, `sent` what was sent.
   */
  datatype State = State(q: Queue, calls: seq<Call>, runner: Runner, accepted: seq<Event>, taken: seq<nat>, winner: Option<(Event, nat)>, sent: seq<Event>)

  datatype Step = Arrive(event: Event) | Lock(c: nat) | Signal(c: nat) | Return(c: nat) | Wake | Take | Send | Ack

  predicate Enabled(s: State, step: Step) {
    match step
    case Arrive(_) => true
    case Lock(c) => c < |s.calls| && s.calls[c].Entered?
    case Signal(c) => c < |s.calls| && s.calls[c].Signalling?
    case Return(c) => c < |s.calls| && s.calls[c].Blocked? && c in s.q.closed
    case Wake => s.runner.Waiting? && s.q.wake
    case Take => s.runner.Looping?
    case Send => s.runner.Sending?
    case Ack => s.runner.Acking?
  }

  function Do(s: State, step: Step): State
    requires Enabled(s, step)
  {
    match step
    case Arrive(event) => s.(calls := s.calls + [Entered(event)])
    case Lock(c) => Locked(s, c)
    case Signal(c) =>
      var event := s.calls[c].event;
      s.(q := s.q.(wake := true), calls := s.calls[c := if event.Status? then Returned(event) else Blocked(event)])
    case Return(c) => s.(calls := s.calls[c := Returned(s.calls[c].event)])
    case Wake => s.(q := s.q.(wake := false), runner := Looping)
    case Take =>
      var next := Taken(s.q);
      s.(runner := next.0, q := next.1, taken := if s.q.status.Some? then s.taken + [Newest(s)] else s.taken)
    case Send =>
      s.(sent := s.sent + [s.runner.event], runner := if s.runner.ack.Some? then Acking(s.runner.ack.value) else Looping)
    case Ack => s.(q := s.q.(closed := s.q.closed + {s.runner.call}), runner := Finished)
  }

  /** The last accepted status. */
  function Newest(s: State): nat {
    if s.accepted == [] then 0 else |s.accepted| - 1
  }

  function Locked(s: State, c: nat): State
    requires c < |s.calls|
  {
    var event := s.calls[c].event;
    s.(q := Accepted(s.q, event, c), calls := s.calls[c := Signalling(event)],
       accepted := if event.Status? && !s.q.terminalSet then s.accepted + [event] else s.accepted,
       winner := if !event.Status? && !s.q.terminalSet then Some((event, c)) else s.winner)
  }

  const INIT := State(Queue(None, None, false, false, {}), [], Waiting, [], [], None, [])

  // ----- what always holds -----

  function Picked(accepted: seq<Event>, taken: seq<nat>): (r: seq<Event>)
    requires forall i :: 0 <= i < |taken| ==> taken[i] < |accepted|
    ensures |r| == |taken| && forall i :: 0 <= i < |r| ==> r[i] == accepted[taken[i]]
  {
    seq(|taken|, i requires 0 <= i < |taken| => accepted[taken[i]])
  }

  /** The taken statuses are accepted ones, in order, and the last accepted one is taken or still there. */
  ghost predicate TakenInOrder(s: State) {
    && (forall i :: 0 <= i < |s.taken| ==> s.taken[i] < |s.accepted|)
    && (forall i, j :: 0 <= i < j < |s.taken| ==> s.taken[i] < s.taken[j])
    && (forall i :: 0 <= i < |s.accepted| ==> s.accepted[i].Status?)
    && match s.q.status
       case Some(event) =>
         s.accepted != [] && event == s.accepted[|s.accepted| - 1] && (s.taken == [] || s.taken[|s.taken| - 1] < |s.accepted| - 1)
       case None => s.accepted == [] || (s.taken != [] && s.taken[|s.taken| - 1] == |s.accepted| - 1)
  }

  /** Where the winning terminal is on its way. */
  ghost predicate TerminalOnItsWay(s: State) {
    match s.winner
    case None =>
      && !s.q.terminalSet && s.q.terminal.None? && !s.runner.Acking? && !s.runner.Finished?
      && (s.runner.Sending? ==> s.runner.event.Status? && s.runner.ack.None?)
    case Some(w) =>
      && s.q.terminalSet && !w.0.Status? && w.1 < |s.calls| && s.calls[w.1].event == w.0 && !s.calls[w.1].Entered?
      && if s.q.terminal.Some? then
           s.q.terminal == s.winner && !s.runner.Acking? && !s.runner.Finished? && (s.runner.Sending? ==> s.runner.event.Status? && s.runner.ack.None?)
         else s.q.status.None? && (s.runner == Sending(w.0, Some(w.1)) || s.runner == Acking(w.1) || s.runner == Finished)
  }

  /** What has been sent, with what is being sent, is what was taken, and then the terminal. */
  ghost predicate SentIsTaken(s: State)
    requires TakenInOrder(s)
  {
    var inFlight := if s.runner.Sending? then [s.runner.event] else [];
    var last := if s.winner.Some? && s.q.terminal.None? then [s.winner.value.0] else [];
    s.sent + inFlight == Picked(s.accepted, s.taken) + last
  }

  /** A call is let go once it lost, or its terminal was sent. */
  ghost predicate LetGo(s: State) {
    && (forall c :: c in s.q.closed ==> c < |s.calls|)
    && forall c :: 0 <= c < |s.calls| ==>
      && (Waits(s.calls[c]) ==> s.winner.Some?)
      && (c in s.q.closed <==> Waits(s.calls[c]) && (c == s.winner.value.1 ==> s.runner.Finished?))
  }

  /** A terminal that has been through the lock. */
  predicate Waits(call: Call) {
    !call.event.Status? && !call.Entered?
  }

  /** No wake-up is lost. */
  ghost predicate Awake(s: State) {
    s.runner.Waiting? && (s.q.status.Some? || s.q.terminal.Some?) ==> s.q.wake || exists c :: 0 <= c < |s.calls| && s.calls[c].Signalling?
  }

  ghost predicate Inv(s: State) {
    && TakenInOrder(s) && TerminalOnItsWay(s) && SentIsTaken(s) && LetGo(s) && Awake(s)
    && forall c :: 0 <= c < |s.calls| && s.calls[c].Blocked? ==> !s.calls[c].event.Status?
  }

  lemma {:induction false} InitHolds()
    ensures Inv(INIT)
  {
  }

  lemma {:induction false} StepKeeps(s: State, step: Step)
    requires Inv(s) && Enabled(s, step)
    ensures Inv(Do(s, step))
  {
    match step
    case Arrive(_) => ArriveKeeps(s, step);
    case Lock(c) => LockKeeps(s, c);
    case Signal(c) => SignalKeeps(s, c);
    case Return(c) => ReturnKeeps(s, c);
    case Wake => 
    case Take => TakeKeeps(s);
    case Send => SendKeeps(s);
    case Ack => AckKeeps(s);
  }

  lemma {:induction false} ArriveKeeps(s: State, step: Step)
    requires Inv(s) && step.Arrive?
    ensures Inv(Do(s, step))
  {
    var after := Do(s, step);
    if exists c :: 0 <= c < |s.calls| && s.calls[c].Signalling? {
      var c :| 0 <= c < |s.calls| && s.calls[c].Signalling?;
      assert after.calls[c].Signalling?;
    }
  }

  lemma {:induction false} LockKeeps(s: State, c: nat)
    requires Inv(s) && Enabled(s, Lock(c))
    ensures Inv(Do(s, Lock(c)))
  {
    var after := Locked(s, c);
    assert after.calls[c].Signalling?;
    if !s.calls[c].event.Status? {
      TerminalLocked(s, c);
    } else if s.q.terminalSet {
      assert after == s.(calls := s.calls[c := Signalling(s.calls[c].event)]);
    } else {
      StatusLocked(s, c);
    }
  }

  /** A newer status takes the place of one not yet taken. */
  lemma {:induction false} StatusLocked(s: State, c: nat)
    requires Inv(s) && Enabled(s, Lock(c)) && s.calls[c].event.Status? && !s.q.terminalSet
    ensures Inv(Locked(s, c))
  {
    var after := Locked(s, c);
    assert after.calls[c].Signalling?;
    assert TakenInOrder(after);
    assert Picked(after.accepted, after.taken) == Picked(s.accepted, s.taken);
    assert SentIsTaken(after);
  }

  /** The first terminal wins, a later one is let go at once. */
  lemma {:induction false} TerminalLocked(s: State, c: nat)
    requires Inv(s) && Enabled(s, Lock(c)) && !s.calls[c].event.Status?
    ensures Inv(Locked(s, c))
  {
    var after := Locked(s, c);
    assert after.calls[c].Signalling?;
    assert after.accepted == s.accepted && after.taken == s.taken && after.sent == s.sent && after.runner == s.runner;
    if s.q.terminalSet {
      LoserLocked(s, c);
    } else {
      WinnerLocked(s, c);
    }
  }

  lemma {:induction false} LoserLocked(s: State, c: nat)
    requires Inv(s) && Enabled(s, Lock(c)) && !s.calls[c].event.Status? && s.q.terminalSet
    ensures TakenInOrder(Locked(s, c)) && TerminalOnItsWay(Locked(s, c)) && SentIsTaken(Locked(s, c)) && LetGo(Locked(s, c))
  {
  }

  lemma {:induction false} WinnerLocked(s: State, c: nat)
    requires Inv(s) && Enabled(s, Lock(c)) && !s.calls[c].event.Status? && !s.q.terminalSet
    ensures TakenInOrder(Locked(s, c)) && TerminalOnItsWay(Locked(s, c)) && SentIsTaken(Locked(s, c)) && LetGo(Locked(s, c))
  {
  }

  lemma {:induction false} SignalKeeps(s: State, c: nat)
    requires Inv(s) && Enabled(s, Signal(c))
    ensures Inv(Do(s, Signal(c)))
  {
  }

  lemma {:induction false} ReturnKeeps(s: State, c: nat)
    requires Inv(s) && Enabled(s, Return(c))
    ensures Inv(Do(s, Return(c)))
  {
    var after := Do(s, Return(c));
    if exists d :: 0 <= d < |s.calls| && s.calls[d].Signalling? {
      var d :| 0 <= d < |s.calls| && s.calls[d].Signalling?;
      assert after.calls[d].Signalling?;
    }
  }

  lemma {:induction false} TakeKeeps(s: State)
    requires Inv(s) && Enabled(s, Take)
    ensures Inv(Do(s, Take))
  {
    var after := Do(s, Take);
    if s.q.status.Some? {
      StatusTaken(s);
    } else if s.q.terminal.Some? {
      TerminalTaken(s);
    } else {
      assert after == s.(runner := Waiting);
      assert s.sent + [] == s.sent;
    }
  }

  lemma {:induction false} StatusTaken(s: State)
    requires Inv(s) && s.runner.Looping? && s.q.status.Some?
    ensures Inv(Do(s, Take))
  {
    var after := Do(s, Take);
    assert TerminalOnItsWay(after) && TakenInOrder(after);
    assert s.sent + [] == s.sent && Picked(s.accepted, s.taken) + [] == Picked(s.accepted, s.taken);
    assert Picked(after.accepted, after.taken) == s.sent + [s.q.status.value];
    assert SentIsTaken(after);
  }

  lemma {:induction false} TerminalTaken(s: State)
    requires Inv(s) && s.runner.Looping? && s.q.status.None? && s.q.terminal.Some?
    ensures Inv(Do(s, Take))
  {
    var after := Do(s, Take);
    assert TerminalOnItsWay(after) && TakenInOrder(after);
    assert s.sent + [] == s.sent && Picked(s.accepted, s.taken) + [] == Picked(s.accepted, s.taken);
    assert SentIsTaken(after);
  }

  lemma {:induction false} SendKeeps(s: State)
    requires Inv(s) && Enabled(s, Send)
    ensures Inv(Do(s, Send))
  {
  }

  lemma {:induction false} AckKeeps(s: State)
    requires Inv(s) && Enabled(s, Ack)
    ensures Inv(Do(s, Ack))
  {
  }

  // ----- over whole runs -----

  /** Any interleaving, from the start. */
  ghost predicate IsRun(run: seq<State>, steps: seq<Step>) {
    && |run| == |steps| + 1 && run[0] == INIT
    && forall i :: 0 <= i < |steps| ==> Enabled(run[i], steps[i]) && run[i + 1] == Do(run[i], steps[i])
  }

  lemma {:induction false} RunHolds(run: seq<State>, steps: seq<Step>, i: nat)
    requires IsRun(run, steps) && i < |run|
    ensures Inv(run[i])
  {
    if i == 0 {
      InitHolds();
    } else {
      RunHolds(run, steps, i - 1);
      StepKeeps(run[i - 1], steps[i - 1]);
    }
  }

  /** Statuses taken, in order, and the last accepted one among them; then the one terminal. */
  ghost predicate WellSent(s: State) {
    && TakenInOrder(s)
    && (s.sent <= Picked(s.accepted, s.taken)
        || (s.winner.Some? && s.sent == Picked(s.accepted, s.taken) + [s.winner.value.0]
            && (s.accepted != [] ==> s.taken != [] && s.taken[|s.taken| - 1] == |s.accepted| - 1)))
  }

  /** In every run what is sent is well ordered and complete up to the terminal. */
  lemma {:induction false} RunSendsWell(run: seq<State>, steps: seq<Step>, i: nat)
    requires IsRun(run, steps) && i < |run|
    ensures WellSent(run[i])
  {
    RunHolds(run, steps, i);
    var s := run[i];
    var picked := Picked(s.accepted, s.taken);
    assert s.sent + [] == s.sent && picked + [] == picked;
    if s.runner.Sending? {
      assert (s.sent + [s.runner.event])[..|s.sent|] == s.sent;
      if s.winner.Some? && s.q.terminal.None? {
        assert (picked + [s.winner.value.0])[..|picked|] == picked;
      }
    }
  }

  ghost predicate TerminalSent(s: State) {
    s.sent != [] && !s.sent[|s.sent| - 1].Status?
  }

  /** A terminal that was sent is the winner's, and the runner sends nothing more. */
  lemma {:induction false} SentTerminal(s: State)
    requires Inv(s)
    ensures TerminalSent(s) <==> s.runner.Acking? || s.runner.Finished?
    ensures TerminalSent(s) ==> s.winner.Some? && s.sent[|s.sent| - 1] == s.winner.value.0
  {
    var picked := Picked(s.accepted, s.taken);
    if s.runner.Sending? {
      assert (s.sent + [s.runner.event])[..|s.sent|] == s.sent;
      if s.sent != [] {
        var all := s.sent + [s.runner.event];
        assert s.sent[|s.sent| - 1] == all[|s.sent| - 1];
        assert |s.sent| <= |picked| && s.sent[|s.sent| - 1] == picked[|s.sent| - 1];
      }
    } else {
      assert s.sent + [] == s.sent;
      if s.sent != [] && !(s.runner.Acking? || s.runner.Finished?) {
        assert picked + [] == picked;
        assert s.sent[|s.sent| - 1] == picked[|s.sent| - 1];
      }
    }
  }

  /** After the terminal nothing is sent. */
  lemma {:induction false} NothingAfter(run: seq<State>, steps: seq<Step>, i: nat, j: nat)
    requires IsRun(run, steps) && i <= j < |run| && TerminalSent(run[i])
    ensures run[j].sent == run[i].sent
    decreases j
  {
    if i < j {
      NothingAfter(run, steps, i, j - 1);
      RunHolds(run, steps, j - 1);
      SilentStep(run[j - 1], steps[j - 1]);
    }
  }

  lemma {:induction false} SilentStep(s: State, step: Step)
    requires Inv(s) && Enabled(s, step) && TerminalSent(s)
    ensures Do(s, step).sent == s.sent
  {
    SentTerminal(s);
  }

  /** The emit that won returns only after its event was sent. */
  lemma {:induction false} WinnerWaits(run: seq<State>, steps: seq<Step>, i: nat)
    requires IsRun(run, steps) && i < |run| && run[i].winner.Some?
    requires run[i].winner.value.1 < |run[i].calls| && run[i].calls[run[i].winner.value.1].Returned?
    ensures run[i].runner.Finished? && TerminalSent(run[i])
    decreases i
  {
    var c := run[i].winner.value.1;
    RunHolds(run, steps, i);
    ReturnedIsClosed(run, steps, i, c);
    SentTerminal(run[i]);
  }

  /** A terminal emit that has returned was let go. */
  lemma {:induction false} ReturnedIsClosed(run: seq<State>, steps: seq<Step>, i: nat, c: nat)
    requires IsRun(run, steps) && i < |run| && c < |run[i].calls| && run[i].calls[c].Returned? && !run[i].calls[c].event.Status?
    ensures c in run[i].q.closed
    decreases i
  {
    RunHolds(run, steps, i - 1);
    assert run[i] == Do(run[i - 1], steps[i - 1]);
    if c < |run[i - 1].calls| && run[i - 1].calls[c].Returned? {
      ReturnedIsClosed(run, steps, i - 1, c);
    }
  }

  /** One step, carried out on the queue object. */
  method Perform(queue: StructuredEventQueue, s: State, step: Step) returns (next: State)
    requires Enabled(s, step) && queue.Now() == s.q
    modifies queue
    ensures next == Do(s, step) && queue.Now() == next.q
  {
    next := Do(s, step);
    match step {
      case Lock(c) => queue.Accept(s.calls[c].event, c);
      case Signal(_) => queue.Signal();
      case Wake => queue.Woken();
      case Take =>
        var runner := queue.Take();
        next := next.(runner := runner);
      case Ack => queue.Release(s.runner.call);
      case _ =>
    }
  }

  /**
   Any schedule of calls and steps, carried out on the queue object; what cannot happen is passed over.
   The object goes through a run, so what it sends is well ordered, and when nothing is left to do it has
   sent all of it.
   */
  method Carry(schedule: seq<Step>) returns (queue: StructuredEventQueue, s: State, ghost run: seq<State>, ghost steps: seq<Step>)
    ensures fresh(queue) && IsRun(run, steps) && s == run[|steps|] && queue.Now() == s.q
    ensures Inv(s) && WellSent(s)
    ensures AtRest(s) ==> s.sent == Picked(s.accepted, s.taken) + if s.winner.Some? then [s.winner.value.0] else []
  {
    queue := new StructuredEventQueue();
    s, run, steps := INIT, [INIT], [];
    for i := 0 to |schedule|
      invariant fresh(queue) && IsRun(run, steps) && s == run[|steps|] && queue.Now() == s.q
    {
      if Enabled(s, schedule[i]) {
        s := Perform(queue, s, schedule[i]);
        run, steps := run + [s], steps + [schedule[i]];
      }
    }
    RunHolds(run, steps, |steps|);
    RunSendsWell(run, steps, |steps|);
    if AtRest(s) {
      RestIsComplete(s);
    }
  }

  // ----- nothing is left behind -----

  /** No call or runner can take a step. */
  ghost predicate AtRest(s: State) {
    forall step :: Enabled(s, step) ==> step.Arrive?
  }

  /** When everything has come to rest, all is sent and every call has returned. */
  lemma {:induction false} RestIsComplete(s: State)
    requires Inv(s) && AtRest(s)
    ensures forall c :: 0 <= c < |s.calls| ==> s.calls[c].Returned?
    ensures s.q.status.None? && s.q.terminal.None?
    ensures s.accepted != [] ==> s.taken != [] && s.taken[|s.taken| - 1] == |s.accepted| - 1
    ensures s.sent == Picked(s.accepted, s.taken) + if s.winner.Some? then [s.winner.value.0] else []
  {
    assert !Enabled(s, Wake) && !Enabled(s, Take) && !Enabled(s, Send) && !Enabled(s, Ack);
    forall c | 0 <= c < |s.calls| ensures !s.calls[c].Entered? && !s.calls[c].Signalling? {
      assert !Enabled(s, Lock(c)) && !Enabled(s, Signal(c));
    }
    if s.runner.Finished? {
      assert s.winner.Some?;
    } else {
      assert s.runner.Waiting? && !s.q.wake;
    }
    assert s.sent + [] == s.sent;
    forall c | 0 <= c < |s.calls| ensures s.calls[c].Returned? {
      assert !Enabled(s, Return(c));
    }
  }

  /** How many steps the calls made so far can still lead to. */
  function Work(s: State): nat {
    CallWork(s.calls) + (if s.q.wake then 2 else 0) + (if s.q.status.Some? then 3 else 0) + (if s.q.terminal.Some? then 4 else 0)
    + match s.runner
      case Waiting => 0
      case Looping => 1
      case Sending(_, _) => 2
      case Acking(_) => 1
      case Finished => 0
  }

  function Weight(call: Call): nat {
    match call
    case Entered(_) => 9
    case Signalling(_) => 4
    case Blocked(_) => 1
    case Returned(_) => 0
  }

  function CallWork(calls: seq<Call>): nat {
    if calls == [] then 0 else CallWork(calls[..|calls| - 1]) + Weight(calls[|calls| - 1])
  }

  lemma {:induction false} CallMoves(calls: seq<Call>, c: nat, call: Call)
    requires c < |calls|
    ensures CallWork(calls[c := call]) == CallWork(calls) - Weight(calls[c]) + Weight(call)
    decreases |calls|
  {
    var last := |calls| - 1;
    var after := calls[c := call];
    if c == last {
      assert after[..last] == calls[..last];
    } else {
      assert after[..last] == calls[..last][c := call];
      CallMoves(calls[..last], c, call);
    }
  }

  /** Every step but a new arrival uses up work, so without arrivals the system comes to rest. */
  lemma {:induction false} StepWorks(s: State, step: Step)
    requires Inv(s) && Enabled(s, step) && !step.Arrive?
    ensures Work(Do(s, step)) < Work(s)
  {
    match step
    case Lock(c) => CallMoves(s.calls, c, Signalling(s.calls[c].event));
    case Signal(c) => CallMoves(s.calls, c, if s.calls[c].event.Status? then Returned(s.calls[c].event) else Blocked(s.calls[c].event));
    case Return(c) => CallMoves(s.calls, c, Returned(s.calls[c].event));
    case _ =>
  }
}
