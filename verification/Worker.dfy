/**
  The worker of `ficant-worker/src/lib.rs`: one claimed task under lease renewal and a
  deadline (`run_claimed`), and the claiming loop around it (`run_worker`), as transition
  systems. The backend, the clock and the scheduler are the environment: every action
  carries the environment's choice, and every sequence of enabled actions is a run.
 */
module Worker {

  datatype Error = InvalidConfiguration | Backend(retryable: bool) | InvalidTask | TimedOut

  predicate Retryable(e: Error) {
    e.Backend? && e.retryable
  }

  datatype Outcome = Succeeded | Failed(error: Error)

  datatype Step = Load | Begin | ReadInput | Execute | Prepare | Promote | Renew | Complete | Fail

  /** Backend calls and returns, plus the two ways the race ends without a backend answer. */
  datatype Event = Call(step: Step) | Return(step: Step, outcome: Outcome) | DeadlinePassed | LeaseRejected

  datatype Config = Config(valid: bool, leaseFits: bool, renewInterval: int, nodeTimeout: int)

  /** `done` work steps have succeeded; `waiting` for the next one; `renewing` while a renewal is awaited. */
  datatype Phase =
    | Fresh
    | Loading
    | Beginning
    | Racing(done: nat, waiting: bool, renewing: bool)
    | Completing
    | Failing(error: Error)
    | Finished(result: Outcome)

  /** `begun` is the time at which Begin returned; `renewals` holds the times at which a renewal was called. */
  datatype Task = Task(phase: Phase, trace: seq<Event>, now: int, nextRenewal: int, deadline: int, begun: int, renewals: seq<int>)

  function NewTask(now: int): Task {
    Task(Fresh, [], now, now, now, now, [])
  }

  datatype Action =
    | Start
    | LoadReturns(outcome: Outcome, identityOk: bool)
    | BeginReturns(outcome: Outcome)
    | WorkCalls
    | WorkReturns(outcome: Outcome)
    | RenewalDue
    | RenewReturns(outcome: Outcome)
    | DeadlineDue
    | CompleteReturns(outcome: Outcome)
    | FailReturns(outcome: Outcome)
    | Wait(seconds: nat)

  /** The work of a task, in order; the first two steps run before the race. */
  const ORDER := [Load, Begin, ReadInput, Execute, Prepare, Promote]

  function WorkStep(done: nat): Step
    requires done < 4
  {
    ORDER[2 + done]
  }

  function Log(t: Task, events: seq<Event>, phase: Phase): Task {
    t.(trace := t.trace + events, phase := phase)
  }

  /** After the race: complete, record a failure, or leave a retryable error to the next claim. */
  function Settle(t: Task, event: Event, outcome: Outcome): Task {
    match outcome
    case Succeeded => Log(t, [event, Call(Complete)], Completing)
    case Failed(e) =>
      if Retryable(e) then Log(t, [event], Finished(Failed(e)))
      else Log(t, [event, Call(Fail)], Failing(e))
  }

  predicate Enabled(c: Config, t: Task, a: Action) {
    match a
    case Start => t.phase.Fresh?
    case LoadReturns(_, _) => t.phase.Loading?
    case BeginReturns(_) => t.phase.Beginning?
    case WorkCalls => t.phase.Racing? && !t.phase.renewing && !t.phase.waiting && t.phase.done < 4
    case WorkReturns(_) => t.phase.Racing? && !t.phase.renewing && t.phase.waiting && t.phase.done < 4
    case RenewalDue => t.phase.Racing? && !t.phase.renewing && t.now >= t.nextRenewal
    case RenewReturns(_) => t.phase.Racing? && t.phase.renewing
    case DeadlineDue => t.phase.Racing? && !t.phase.renewing && t.now >= t.deadline
    case CompleteReturns(_) => t.phase.Completing?
    case FailReturns(_) => t.phase.Failing?
    case Wait(_) => true
  }

  function Next(c: Config, t: Task, a: Action): Task
    requires Enabled(c, t, a)
  {
    match a
    case Start => if c.valid then Log(t, [Call(Load)], Loading) else Log(t, [], Finished(Failed(InvalidConfiguration)))
    case LoadReturns(Succeeded, identityOk) =>
      if identityOk then Log(t, [Return(Load, Succeeded), Call(Begin)], Beginning)
      else Log(t, [Return(Load, Succeeded)], Finished(Failed(InvalidTask)))
    case LoadReturns(Failed(e), _) => Log(t, [Return(Load, Failed(e))], Finished(Failed(e)))
    case BeginReturns(Succeeded) =>
      Log(t, [Return(Begin, Succeeded)], Racing(0, false, false))
        .(nextRenewal := t.now + c.renewInterval, deadline := t.now + c.nodeTimeout, begun := t.now)
    case BeginReturns(Failed(e)) => Log(t, [Return(Begin, Failed(e))], Finished(Failed(e)))
    case WorkCalls => Log(t, [Call(WorkStep(t.phase.done))], t.phase.(waiting := true))
    case WorkReturns(outcome) =>
      var event := Return(WorkStep(t.phase.done), outcome);
      if outcome.Failed? || t.phase.done == 3 then Settle(t, event, outcome)
      else Log(t, [event], Racing(t.phase.done + 1, false, false))
    case RenewalDue =>
      if !c.leaseFits then Log(t, [LeaseRejected], Finished(Failed(InvalidConfiguration)))
      else Log(t, [Call(Renew)], t.phase.(renewing := true)).(renewals := t.renewals + [t.now])
    case RenewReturns(Succeeded) =>
      Log(t, [Return(Renew, Succeeded)], t.phase.(renewing := false)).(nextRenewal := t.now + c.renewInterval)
    case RenewReturns(Failed(e)) => Settle(t, Return(Renew, Failed(e)), Failed(e))
    case DeadlineDue => Settle(t, DeadlinePassed, Failed(TimedOut))
    case CompleteReturns(outcome) => Log(t, [Return(Complete, outcome)], Finished(outcome))
    case FailReturns(outcome) =>
      Log(t, [Return(Fail, outcome)], Finished(if outcome.Failed? then outcome else Failed(t.phase.error)))
    case Wait(seconds) => t.(now := t.now + seconds)
  }

  /** A run: every state follows from the one before by an enabled action. */
  ghost predicate IsRun(c: Config, run: seq<Task>) {
    && run != [] && (exists now :: run[0] == NewTask(now))
    && forall i :: 0 <= i < |run| - 1 ==> Follows(c, run[i], run[i + 1])
  }

  ghost predicate Follows(c: Config, t: Task, u: Task) {
    exists a :: Enabled(c, t, a) && u == Next(c, t, a)
  }

  // ---------- What a trace must look like ----------

  predicate IsTerminal(e: Event) {
    e == Call(Complete) || e == Call(Fail)
  }

  predicate IsRenewal(e: Event) {
    e == Call(Renew) || (e.Return? && e.step == Renew)
  }

  function Terminals(trace: seq<Event>): nat {
    if trace == [] then 0
    else Terminals(trace[..|trace| - 1]) + if IsTerminal(trace[|trace| - 1]) then 1 else 0
  }

  /** The trace without renewal traffic. */
  function Core(trace: seq<Event>): seq<Event> {
    if trace == [] then []
    else
      var rest, last := Core(trace[..|trace| - 1]), trace[|trace| - 1];
      if IsRenewal(last) then rest else rest + [last]
  }

  function HappyEvent(i: nat): Event
    requires i < 12
  {
    if i % 2 == 0 then Call(ORDER[i / 2]) else Return(ORDER[i / 2], Succeeded)
  }

  /** The first `n` events of a task on which every step succeeds in order. */
  function Happy(n: nat): (r: seq<Event>)
    requires n <= 12
    ensures |r| == n
  {
    seq(n, i requires 0 <= i < n => HappyEvent(i))
  }

  /** The steps that run inside the race. */
  predicate Raced(step: Step) {
    step != Load && step != Begin && step != Complete && step != Fail
  }

  /** A non-retryable error while the task is running: what has to be recorded. */
  predicate MustBeRecorded(e: Event) {
    e == DeadlinePassed
    || (e.Return? && e.outcome.Failed? && !Retryable(e.outcome.error)
        && Raced(e.step))
  }

  /** Begin has succeeded and no terminal call was made yet. */
  predicate Running(trace: seq<Event>) {
    Happy(4) <= Core(trace) && Terminals(trace) == 0
  }

  /** What every position of a trace satisfies. */
  ghost predicate Lawful(trace: seq<Event>) {
    && Terminals(trace) <= 1
    && (forall i :: 0 <= i < |trace| && trace[i] == Call(Complete) ==> Core(trace[..i]) == Happy(12))
    && (forall i :: 0 <= i < |trace| && trace[i] == Call(Fail) ==>
          i > 0 && MustBeRecorded(trace[i - 1]) && Running(trace[..i]))
    && (forall i :: 0 <= i < |trace| && MustBeRecorded(trace[i]) ==> i + 1 < |trace| && trace[i + 1] == Call(Fail))
    && (forall i :: 0 <= i < |trace| && IsRenewal(trace[i]) ==> Running(trace[..i]))
  }

  // ---------- The invariant ----------

  ghost predicate Shape(t: Task) {
    match t.phase
    case Fresh => t.trace == []
    case Loading => Core(t.trace) == Happy(1) && Terminals(t.trace) == 0
    case Beginning => Core(t.trace) == Happy(3) && Terminals(t.trace) == 0
    case Racing(done, waiting, _) =>
      done < 4 && Core(t.trace) == Happy(4 + 2 * done + if waiting then 1 else 0) && Terminals(t.trace) == 0
    case Completing => Terminals(t.trace) == 1
    case Failing(e) => Terminals(t.trace) == 1 && !Retryable(e)
    case Finished(_) => true
  }

  ghost predicate Inv(t: Task) {
    Shape(t) && Lawful(t.trace)
  }

  lemma CoreAppend(trace: seq<Event>, e: Event)
    ensures Core(trace + [e]) == if IsRenewal(e) then Core(trace) else Core(trace) + [e]
    ensures Terminals(trace + [e]) == Terminals(trace) + if IsTerminal(e) then 1 else 0
  {
    assert (trace + [e])[..|trace|] == trace;
  }

  lemma HappyAppend(n: nat)
    requires n < 12
    ensures Happy(n + 1) == Happy(n) + [HappyEvent(n)]
    ensures n >= 4 ==> Happy(4) <= Happy(n)
  {
  }

  /** Appending an event that needs no follow-up keeps a trace lawful. */
  lemma LawfulAppend(trace: seq<Event>, e: Event)
    requires Lawful(trace) && !MustBeRecorded(e) && e != Call(Fail)
    requires e == Call(Complete) ==> Core(trace) == Happy(12) && Terminals(trace) == 0
    requires IsRenewal(e) ==> Running(trace)
    ensures Lawful(trace + [e])
  {
    var longer := trace + [e];
    CoreAppend(trace, e);
    hide Core, Terminals, Happy, Running, MustBeRecorded;
    assert forall i :: 0 <= i <= |trace| ==> longer[..i] == trace[..i];
    assert trace[..|trace|] == trace;
  }

  /** An error that must be recorded, followed at once by the call that records it. */
  lemma LawfulFail(trace: seq<Event>, e: Event)
    requires Lawful(trace) && MustBeRecorded(e) && Running(trace)
    ensures Lawful(trace + [e, Call(Fail)]) && Terminals(trace + [e, Call(Fail)]) == 1
  {
    var middle, longer := trace + [e], trace + [e, Call(Fail)];
    assert longer == middle + [Call(Fail)];
    CoreAppend(trace, e);
    CoreAppend(middle, Call(Fail));
    assert Running(middle) by { hide Happy, Lawful; }
    hide Core, Terminals, Happy, Running, MustBeRecorded;
    FailPositions(trace, e);
  }

  lemma FailPositions(trace: seq<Event>, e: Event)
    requires Lawful(trace) && MustBeRecorded(e) && Running(trace) && Running(trace + [e])
    requires Terminals(trace + [e, Call(Fail)]) <= 1
    ensures Lawful(trace + [e, Call(Fail)])
  {
    hide Core, Terminals, Happy, Running;
    var longer := trace + [e, Call(Fail)];
    assert forall i :: 0 <= i <= |trace| ==> longer[..i] == trace[..i];
    assert longer[..|trace| + 1] == trace + [e] && trace[..|trace|] == trace;
    assert MustBeRecorded(Call(Fail)) == false;
    hide MustBeRecorded;
  }

  lemma SettleKeeps(t: Task, e: Event, error: Error)
    requires Inv(t) && Running(t.trace)
    requires (e == DeadlinePassed && error == TimedOut)
             || (e.Return? && Raced(e.step) && e.outcome == Failed(error))
    ensures Inv(Settle(t, e, Failed(error)))
  {
    assert MustBeRecorded(e) <==> !Retryable(error);
    assert e != Call(Fail) && e != Call(Complete);
    hide Core, Happy, Lawful, Running, Terminals, MustBeRecorded, IsRenewal, Shape;
    if Retryable(error) {
      LawfulAppend(t.trace, e);
      ShapeAfter(t, e, Finished(Failed(error)));
    } else {
      LawfulFail(t.trace, e);
      ShapeFailing(Settle(t, e, Failed(error)));
    }
  }

  lemma ShapeAfter(t: Task, e: Event, phase: Phase)
    requires phase.Finished?
    ensures Shape(Log(t, [e], phase))
  {
  }

  lemma ShapeFailing(t: Task)
    requires t.phase.Failing? && Terminals(t.trace) == 1 && !Retryable(t.phase.error)
    ensures Shape(t)
  {
  }

  lemma RacingRuns(t: Task)
    requires Inv(t) && t.phase.Racing?
    ensures Running(t.trace)
  {
    var n := 4 + 2 * t.phase.done + if t.phase.waiting then 1 else 0;
    hide Core, HappyEvent, Lawful;
    assert forall i :: 0 <= i < 4 ==> Happy(4)[i] == Happy(n)[i];
  }

  /** Logging the next happy event. */
  lemma HappyStep(trace: seq<Event>, n: nat)
    requires n < 12 && Lawful(trace) && Core(trace) == Happy(n) && Terminals(trace) == 0
    ensures Lawful(trace + [HappyEvent(n)]) && Core(trace + [HappyEvent(n)]) == Happy(n + 1)
    ensures Terminals(trace + [HappyEvent(n)]) == 0
  {
    HappyIsPlain(n);
    CoreAppend(trace, HappyEvent(n));
    HappyAppend(n);
    hide Core, Terminals, Happy, HappyEvent, Lawful;
    LawfulAppend(trace, HappyEvent(n));
  }

  lemma HappyIsPlain(n: nat)
    requires n < 12
    ensures !MustBeRecorded(HappyEvent(n)) && !IsTerminal(HappyEvent(n)) && !IsRenewal(HappyEvent(n))
  {
  }

  lemma HappyValues()
    ensures HappyEvent(0) == Call(Load) && HappyEvent(1) == Return(Load, Succeeded)
    ensures HappyEvent(2) == Call(Begin) && HappyEvent(3) == Return(Begin, Succeeded)
    ensures forall d :: 0 <= d < 4 ==> HappyEvent(4 + 2 * d) == Call(WorkStep(d))
    ensures forall d :: 0 <= d < 4 ==> HappyEvent(5 + 2 * d) == Return(WorkStep(d), Succeeded)
  {
  }

  lemma StepKeepsInv(c: Config, t: Task, a: Action)
    requires Inv(t) && Enabled(c, t, a)
    ensures Inv(Next(c, t, a))
  {
    HappyValues();
    hide Core, Terminals, Happy, HappyEvent, Lawful, Running, MustBeRecorded, Settle;
    var u := Next(c, t, a);
    match a {
      case Start =>
        EmptyTrace();
        if c.valid { HappyStep([], 0); } else { assert t.trace + [] == t.trace; }
      case LoadReturns(Succeeded, identityOk) =>
        HappyStep(t.trace, 1);
        if identityOk {
          HappyStep(t.trace + [HappyEvent(1)], 2);
          assert u.trace == t.trace + [HappyEvent(1)] + [HappyEvent(2)];
        }
      case LoadReturns(Failed(e), _) => PlainReturn(t, Load, Failed(e));
      case BeginReturns(Succeeded) => HappyStep(t.trace, 3);
      case BeginReturns(Failed(e)) => PlainReturn(t, Begin, Failed(e));
      case WorkCalls => HappyStep(t.trace, 4 + 2 * t.phase.done);
      case WorkReturns(outcome) => WorkReturnKeeps(c, t, outcome);
      case RenewalDue =>
        RacingRuns(t);
        if c.leaseFits { RenewalKeeps(t, Call(Renew)); } else { LeaseKeeps(t); }
      case RenewReturns(Succeeded) =>
        RacingRuns(t);
        RenewalKeeps(t, Return(Renew, Succeeded));
      case RenewReturns(Failed(e)) =>
        RacingRuns(t);
        SettleKeeps(t, Return(Renew, Failed(e)), e);
      case DeadlineDue =>
        RacingRuns(t);
        SettleKeeps(t, DeadlinePassed, TimedOut);
      case CompleteReturns(outcome) => PlainReturn(t, Complete, outcome);
      case FailReturns(outcome) => PlainReturn(t, Fail, outcome);
      case Wait(_) =>
    }
  }

  lemma EmptyTrace()
    ensures Core([]) == Happy(0) && Terminals([]) == 0 && Lawful([])
  {
  }

  /** A return outside the race needs no follow-up. */
  lemma PlainReturn(t: Task, step: Step, outcome: Outcome)
    requires Inv(t) && !Raced(step)
    ensures Lawful(t.trace + [Return(step, outcome)])
  {
    LawfulAppend(t.trace, Return(step, outcome));
  }

  lemma LeaseKeeps(t: Task)
    requires Inv(t)
    ensures Lawful(t.trace + [LeaseRejected])
  {
    LawfulAppend(t.trace, LeaseRejected);
  }

  lemma RenewalKeeps(t: Task, e: Event)
    requires Inv(t) && Running(t.trace) && (e == Call(Renew) || e == Return(Renew, Succeeded))
    ensures Lawful(t.trace + [e]) && Core(t.trace + [e]) == Core(t.trace)
    ensures Terminals(t.trace + [e]) == Terminals(t.trace)
  {
    LawfulAppend(t.trace, e);
    CoreAppend(t.trace, e);
    hide Lawful, Running, Core, Terminals;
  }

  lemma WorkReturnKeeps(c: Config, t: Task, outcome: Outcome)
    requires Inv(t) && Enabled(c, t, WorkReturns(outcome))
    ensures Inv(Next(c, t, WorkReturns(outcome)))
  {
    hide Core, Terminals, Happy, HappyEvent, Lawful, Running, MustBeRecorded, Settle;
    RacingRuns(t);
    var d := t.phase.done;
    var event := Return(WorkStep(d), outcome);
    if outcome.Failed? {
      assert Raced(WorkStep(d));
      SettleKeeps(t, event, outcome.error);
    } else {
      WorkEvent(d);
      HappyStep(t.trace, 5 + 2 * d);
      if d == 3 {
        CompleteKeeps(t.trace + [event]);
        SettledComplete(t, event);
      }
    }
  }

  lemma WorkEvent(d: nat)
    requires d < 4
    ensures HappyEvent(5 + 2 * d) == Return(WorkStep(d), Succeeded)
  {
  }

  lemma SettledComplete(t: Task, event: Event)
    requires Lawful(t.trace + [event] + [Call(Complete)]) && Terminals(t.trace + [event] + [Call(Complete)]) == 1
    ensures Inv(Settle(t, event, Succeeded))
  {
    hide Core, Terminals, Happy, Lawful;
    assert t.trace + [event] + [Call(Complete)] == t.trace + [event, Call(Complete)];
  }

  lemma CompleteKeeps(trace: seq<Event>)
    requires Lawful(trace) && Core(trace) == Happy(12) && Terminals(trace) == 0
    ensures Lawful(trace + [Call(Complete)]) && Terminals(trace + [Call(Complete)]) == 1
  {
    hide Core, Happy, Lawful;
    LawfulAppend(trace, Call(Complete));
    CoreAppend(trace, Call(Complete));
  }

  lemma {:induction false} RunKeepsInv(c: Config, run: seq<Task>, i: nat)
    requires IsRun(c, run) && i < |run|
    ensures Inv(run[i])
  {
    hide Inv, Enabled, Next;
    if i == 0 {
      assert Inv(run[0]) by { FreshInv(run[0]); }
    } else {
      RunKeepsInv(c, run, i - 1);
      assert Follows(c, run[i - 1], run[i - 1 + 1]);
      var a :| Enabled(c, run[i - 1], a) && run[i] == Next(c, run[i - 1], a);
      StepKeepsInv(c, run[i - 1], a);
    }
  }

  lemma FreshInv(t: Task)
    requires exists now :: t == NewTask(now)
    ensures Inv(t)
  {
    EmptyTrace();
  }

  /**
    Over every interleaving of work, renewal and deadline: at most one terminal call;
    Complete only after all six steps succeeded in order; Fail exactly after a non-retryable
    error between Begin and Complete; renewals only between Begin and the terminal call.
   */
  lemma EveryTraceLawful(c: Config, run: seq<Task>)
    requires IsRun(c, run)
    ensures forall i :: 0 <= i < |run| ==> Lawful(run[i].trace)
  {
    forall i | 0 <= i < |run|
      ensures Lawful(run[i].trace)
    {
      RunKeepsInv(c, run, i);
    }
  }

  predicate EndsTask(e: Event) {
    e.Return? && (e.step == Complete || e.step == Fail)
  }

  /** Complete and Fail return only right after they were called. */
  ghost predicate AllAnswer(trace: seq<Event>) {
    forall i :: 0 <= i < |trace| && EndsTask(trace[i]) ==> i > 0 && trace[i - 1] == Call(trace[i].step)
  }

  ghost predicate Answered(t: Task) {
    && AllAnswer(t.trace)
    && (t.phase.Completing? ==> t.trace != [] && t.trace[|t.trace| - 1] == Call(Complete))
    && (t.phase.Failing? ==> t.trace != [] && t.trace[|t.trace| - 1] == Call(Fail))
  }

  lemma AnswerAppend(trace: seq<Event>, events: seq<Event>)
    requires AllAnswer(trace) && |events| <= 2 && (|events| == 2 ==> !EndsTask(events[1]))
    requires events != [] && EndsTask(events[0]) ==> trace != [] && trace[|trace| - 1] == Call(events[0].step)
    ensures AllAnswer(trace + events)
  {
  }

  /** What one step appends to the trace. */
  lemma Appended(c: Config, t: Task, a: Action) returns (events: seq<Event>)
    requires Enabled(c, t, a)
    ensures var u := Next(c, t, a);
      && u.trace == t.trace + events && |events| <= 2 && (|events| == 2 ==> !EndsTask(events[1]))
      && (events != [] && EndsTask(events[0]) ==>
            events[0].step == (if t.phase.Completing? then Complete else Fail) && (t.phase.Completing? || t.phase.Failing?))
      && (u.phase.Completing? ==> (u.phase == t.phase && events == []) || (events != [] && events[|events| - 1] == Call(Complete)))
      && (u.phase.Failing? ==> (u.phase == t.phase && events == []) || (events != [] && events[|events| - 1] == Call(Fail)))
  {
    events := Next(c, t, a).trace[|t.trace|..];
  }

  lemma StepAnswers(c: Config, t: Task, a: Action)
    requires Enabled(c, t, a) && Answered(t)
    ensures Answered(Next(c, t, a))
  {
    var events := Appended(c, t, a);
    AnswerAppend(t.trace, events);
    hide Enabled, Next, AllAnswer;
  }

  lemma {:induction false} RunAnswers(c: Config, run: seq<Task>, i: nat)
    requires IsRun(c, run) && i < |run|
    ensures Answered(run[i])
  {
    if i > 0 {
      RunAnswers(c, run, i - 1);
      assert Follows(c, run[i - 1], run[i]);
      var a :| Enabled(c, run[i - 1], a) && run[i] == Next(c, run[i - 1], a);
      StepAnswers(c, run[i - 1], a);
    }
  }

  /** A retryable failure of any call ends the task at once, with nothing recorded after it. */
  ghost predicate RetryEnds(t: Task) {
    forall i :: 0 <= i < |t.trace| && RetryableReturn(t.trace[i]) ==> i == |t.trace| - 1 && t.phase.Finished?
  }

  predicate RetryableReturn(e: Event) {
    e.Return? && e.outcome == Failed(Backend(true))
  }

  lemma StepRetryEnds(c: Config, t: Task, a: Action)
    requires Enabled(c, t, a) && RetryEnds(t)
    ensures RetryEnds(Next(c, t, a))
  {
    var u := Next(c, t, a);
    var events := RetryAppended(c, t, a);
    hide Enabled, Next;
    forall i | 0 <= i < |u.trace| && RetryableReturn(u.trace[i])
      ensures i == |u.trace| - 1 && u.phase.Finished?
    {
      if i < |t.trace| { assert t.trace[i] == u.trace[i]; }
    }
  }

  lemma RetryAppended(c: Config, t: Task, a: Action) returns (events: seq<Event>)
    requires Enabled(c, t, a)
    ensures var u := Next(c, t, a);
      && u.trace == t.trace + events && |events| <= 2 && (t.phase.Finished? ==> events == [] && u.phase.Finished?)
      && (forall j :: 0 <= j < |events| && RetryableReturn(events[j]) ==> j == |events| - 1 && u.phase.Finished?)
  {
    events := Next(c, t, a).trace[|t.trace|..];
  }

  lemma {:induction false} RunRetryEnds(c: Config, run: seq<Task>, i: nat)
    requires IsRun(c, run) && i < |run|
    ensures RetryEnds(run[i])
  {
    if i > 0 {
      RunRetryEnds(c, run, i - 1);
      assert Follows(c, run[i - 1], run[i]);
      var a :| Enabled(c, run[i - 1], a) && run[i] == Next(c, run[i - 1], a);
      hide IsRun;
      StepRetryEnds(c, run[i - 1], a);
    }
  }

  /** A timeout, or a failure of a raced call with any error but a retryable one of the backend. */
  predicate FailsForGood(e: Event) {
    || e == DeadlinePassed
    || (&& e.Return? && e.outcome.Failed? && e.outcome.error != Backend(true)
        && e.step in {ReadInput, Execute, Prepare, Promote, Renew})
  }

  /**
    The laws of a claimed task, spelled out: Fail is called exactly after a failure for good,
    a retryable failure ends the task, and before Complete the six steps were called and
    returned with success, in this order and with nothing but renewals in between.
   */
  lemma TraceSpelledOut(c: Config, run: seq<Task>, i: nat)
    requires IsRun(c, run) && i < |run[|run| - 1].trace|
    ensures var trace := run[|run| - 1].trace;
      && (trace[i] == Call(Fail) ==> i > 0 && FailsForGood(trace[i - 1]))
      && (FailsForGood(trace[i]) ==> i + 1 < |trace| && trace[i + 1] == Call(Fail))
      && (trace[i].Return? && trace[i].outcome == Failed(Backend(true)) ==> i == |trace| - 1)
      && (trace[i] == Call(Complete) ==>
            Core(trace[..i]) == [
              Call(Load), Return(Load, Succeeded), Call(Begin), Return(Begin, Succeeded),
              Call(ReadInput), Return(ReadInput, Succeeded), Call(Execute), Return(Execute, Succeeded),
              Call(Prepare), Return(Prepare, Succeeded), Call(Promote), Return(Promote, Succeeded)])
  {
    var trace := run[|run| - 1].trace;
    RunKeepsInv(c, run, |run| - 1);
    RunRetryEnds(c, run, |run| - 1);
    HappyList();
    hide IsRun, Shape, Core, Happy, Running, Terminals;
    forall e: Event
      ensures MustBeRecorded(e) <==> FailsForGood(e)
    {
      RecordedErrors(e);
    }
    hide MustBeRecorded, FailsForGood;
    assert RetryableReturn(trace[i]) ==> i == |trace| - 1;
  }

  lemma RecordedErrors(e: Event)
    ensures MustBeRecorded(e) <==> FailsForGood(e)
  {
    if e.Return? {
      match e.step {
        case Load =>
        case Begin =>
        case ReadInput =>
        case Execute =>
        case Prepare =>
        case Promote =>
        case Renew =>
        case Complete =>
        case Fail =>
      }
    }
  }

  lemma HappyList()
    ensures Happy(12) == [
      Call(Load), Return(Load, Succeeded), Call(Begin), Return(Begin, Succeeded),
      Call(ReadInput), Return(ReadInput, Succeeded), Call(Execute), Return(Execute, Succeeded),
      Call(Prepare), Return(Prepare, Succeeded), Call(Promote), Return(Promote, Succeeded)]
  {
    HappyValues();
    assert WorkStep(0) == ReadInput && WorkStep(1) == Execute && WorkStep(2) == Prepare && WorkStep(3) == Promote;
    assert HappyEvent(4) == HappyEvent(4 + 2 * 0) && HappyEvent(6) == HappyEvent(4 + 2 * 1);
    assert HappyEvent(8) == HappyEvent(4 + 2 * 2) && HappyEvent(10) == HappyEvent(4 + 2 * 3);
    assert HappyEvent(5) == HappyEvent(5 + 2 * 0) && HappyEvent(7) == HappyEvent(5 + 2 * 1);
    assert HappyEvent(9) == HappyEvent(5 + 2 * 2) && HappyEvent(11) == HappyEvent(5 + 2 * 3);
    hide HappyEvent, WorkStep;
  }

  /** In particular a Complete that failed is never turned into a Fail. */
  lemma FailedCompleteStays(c: Config, run: seq<Task>, i: nat, error: Error)
    requires IsRun(c, run) && i < |run[|run| - 1].trace|
    requires run[|run| - 1].trace[i] == Return(Complete, Failed(error))
    ensures Call(Fail) !in run[|run| - 1].trace
  {
    var trace := run[|run| - 1].trace;
    RunKeepsInv(c, run, |run| - 1);
    RunAnswers(c, run, |run| - 1);
    hide IsRun;
    if Call(Fail) in trace {
      var k :| 0 <= k < |trace| && trace[k] == Call(Fail);
      TwoTerminals(trace, i - 1, k);
      assert false;
    }
  }

  lemma {:induction false} TwoTerminals(trace: seq<Event>, j: nat, k: nat)
    requires j < |trace| && k < |trace| && j != k && IsTerminal(trace[j]) && IsTerminal(trace[k])
    ensures Terminals(trace) >= 2
  {
    var n := |trace| - 1;
    if j < n && k < n {
      TwoTerminals(trace[..n], j, k);
    } else {
      OneTerminal(trace[..n], if j < n then j else k);
    }
  }

  lemma {:induction false} OneTerminal(trace: seq<Event>, j: nat)
    requires j < |trace| && IsTerminal(trace[j])
    ensures Terminals(trace) >= 1
  {
    if j < |trace| - 1 { OneTerminal(trace[..|trace| - 1], j); }
  }

  // ---------- The returned result, timing, and the lease width ----------

  /** The error an event carries. */
  function ErrorOf(e: Event): Error {
    if e.Return? && e.outcome.Failed? then e.outcome.error
    else if e.LeaseRejected? then InvalidConfiguration
    else TimedOut
  }

  /** What the task returns, read off its trace. */
  function ResultOf(trace: seq<Event>): Outcome {
    if trace == [] then Failed(InvalidConfiguration)
    else
      var last := trace[|trace| - 1];
      match last
      case Return(Complete, outcome) => outcome
      case Return(Fail, Succeeded) => if |trace| >= 3 then Failed(ErrorOf(trace[|trace| - 3])) else Succeeded
      case Return(Load, Succeeded) => Failed(InvalidTask)
      case _ => Failed(ErrorOf(last))
  }

  ghost predicate Reported(t: Task) {
    && (t.phase.Finished? ==> t.phase.result == ResultOf(t.trace))
    && (t.phase.Failing? ==> |t.trace| >= 2 && ErrorOf(t.trace[|t.trace| - 2]) == t.phase.error)
    && (t.phase.Fresh? ==> t.trace == [])
  }

  lemma StepReports(c: Config, t: Task, a: Action)
    requires Enabled(c, t, a) && Reported(t)
    ensures Reported(Next(c, t, a))
  {
  }

  /** A claimed task returns the original error, unless recording it failed; else what Complete said. */
  lemma {:induction false} ResultIsReported(c: Config, run: seq<Task>, i: nat)
    requires IsRun(c, run) && i < |run|
    ensures Reported(run[i])
  {
    hide Enabled, Next, ResultOf, ErrorOf;
    if i > 0 {
      ResultIsReported(c, run, i - 1);
      assert Follows(c, run[i - 1], run[i - 1 + 1]);
      var a :| Enabled(c, run[i - 1], a) && run[i] == Next(c, run[i - 1], a);
      StepReports(c, run[i - 1], a);
    }
  }

  /**
    After a failure was recorded or not, the task returns the error that had to be recorded
    exactly when recording succeeded or failed with that very error.
   */
  lemma OriginalErrorReturnedIff(c: Config, run: seq<Task>, r: Outcome)
    requires IsRun(c, run)
    requires var t := run[|run| - 1];
      t.phase.Finished? && t.trace != [] && t.trace[|t.trace| - 1] == Return(Fail, r)
    ensures var t := run[|run| - 1]; var n := |t.trace|;
      && n >= 3 && t.trace[n - 2] == Call(Fail) && MustBeRecorded(t.trace[n - 3])
      && var original := ErrorOf(t.trace[n - 3]);
         t.phase.result == Failed(original) <==> r == Succeeded || r == Failed(original)
  {
    var i := |run| - 1;
    RunKeepsInv(c, run, i);
    RunAnswers(c, run, i);
    ResultIsReported(c, run, i);
    var trace := run[i].trace;
    hide IsRun, Shape, Running, Core, Happy, Terminals;
    assert trace[|trace| - 2] == Call(Fail);
  }

  /** A failure to record hides the timeout behind it: any error of the Fail call is returned instead. */
  lemma RecordingFailureReturned(c: Config, now: int, error: Error) returns (run: seq<Task>)
    requires c.valid && c.nodeTimeout >= 0
    ensures IsRun(c, run)
    ensures var t := run[|run| - 1]; var n := |t.trace|;
      && t.phase == Finished(Failed(error))
      && n >= 3 && t.trace[n - 3] == DeadlinePassed && t.trace[n - 1] == Return(Fail, Failed(error))
  {
    run := RunToRace(c, now);
    run := Extend(c, run, Wait(c.nodeTimeout));
    run := Extend(c, run, DeadlineDue);
    run := Extend(c, run, FailReturns(Failed(error)));
  }

  /** Renewals are at least one interval apart, and the first comes no sooner after Begin. */
  ghost predicate Timely(c: Config, t: Task) {
    && (t.renewals != [] ==> t.renewals[0] - t.begun >= c.renewInterval)
    && (t.renewals == [] && t.phase.Racing? ==> t.nextRenewal - t.begun >= c.renewInterval)
    && (forall i :: 0 <= i < |t.renewals| - 1 ==> t.renewals[i + 1] - t.renewals[i] >= c.renewInterval)
    && (t.renewals != [] ==> t.renewals[|t.renewals| - 1] <= t.now)
    && (t.renewals != [] && t.phase.Racing? && !t.phase.renewing ==>
        t.nextRenewal - t.renewals[|t.renewals| - 1] >= c.renewInterval)
    && (t.phase.Fresh? || t.phase.Loading? || t.phase.Beginning? ==> t.renewals == [])
    && (t.phase.Racing? && t.phase.renewing ==> t.renewals != [])
  }

  /** A task is timed out no sooner than the node timeout after Begin, and only once. */
  ghost predicate DeadlineKept(c: Config, t: Task) {
    && (t.phase.Racing? ==> t.deadline == t.begun + c.nodeTimeout)
    && (DeadlinePassed in t.trace ==> t.now >= t.begun + c.nodeTimeout && (t.phase.Failing? || t.phase.Finished?))
  }

  lemma StepTimely(c: Config, t: Task, a: Action)
    requires Enabled(c, t, a) && Timely(c, t)
    ensures Timely(c, Next(c, t, a))
  {
    var u := Next(c, t, a);
    if a.RenewalDue? && c.leaseFits {
      assert u.renewals == t.renewals + [t.now];
    } else {
      assert u.renewals == t.renewals;
    }
  }

  lemma StepDeadline(c: Config, t: Task, a: Action)
    requires Enabled(c, t, a) && DeadlineKept(c, t)
    ensures DeadlineKept(c, Next(c, t, a))
  {
    var u := Next(c, t, a);
    if DeadlinePassed in u.trace && DeadlinePassed !in t.trace {
      var i :| 0 <= i < |u.trace| && u.trace[i] == DeadlinePassed;
      assert i >= |t.trace|;
      assert a.DeadlineDue?;
    }
  }

  lemma {:induction false} RunTimely(c: Config, run: seq<Task>, i: nat)
    requires IsRun(c, run) && i < |run|
    ensures Timely(c, run[i]) && DeadlineKept(c, run[i])
  {
    hide Enabled, Next;
    if i > 0 {
      RunTimely(c, run, i - 1);
      assert Follows(c, run[i - 1], run[i - 1 + 1]);
      var a :| Enabled(c, run[i - 1], a) && run[i] == Next(c, run[i - 1], a);
      hide Timely, DeadlineKept;
      StepTimely(c, run[i - 1], a);
      StepDeadline(c, run[i - 1], a);
    }
  }

  /** Under an invalid configuration nothing is ever called. */
  lemma {:induction false} InvalidConfigurationCallsNothing(c: Config, run: seq<Task>, i: nat)
    requires IsRun(c, run) && i < |run| && !c.valid
    ensures run[i].trace == [] && (run[i].phase == Fresh || run[i].phase == Finished(Failed(InvalidConfiguration)))
  {
    if i > 0 {
      InvalidConfigurationCallsNothing(c, run, i - 1);
      assert Follows(c, run[i - 1], run[i]);
      var a :| Enabled(c, run[i - 1], a) && run[i] == Next(c, run[i - 1], a);
      assert a.Start? || a.Wait?;
    }
  }

  /** With a lease that fits its field no run rejects it, so every error after Begin is recorded or retryable. */
  lemma {:induction false} LeaseNeverRejected(c: Config, run: seq<Task>, i: nat)
    requires IsRun(c, run) && i < |run| && c.leaseFits
    ensures LeaseRejected !in run[i].trace
  {
    if i > 0 {
      LeaseNeverRejected(c, run, i - 1);
      assert Follows(c, run[i - 1], run[i - 1 + 1]);
      var a :| Enabled(c, run[i - 1], a) && run[i] == Next(c, run[i - 1], a);
      hide IsRun;
      LeaseAccepted(c, run[i - 1], a);
    }
  }

  lemma LeaseAccepted(c: Config, t: Task, a: Action)
    requires Enabled(c, t, a) && c.leaseFits && LeaseRejected !in t.trace
    ensures LeaseRejected !in Next(c, t, a).trace
  {
  }

  /**
    A lease too long for its field: under every such configuration the first renewal can end
    the task, with neither Complete nor Fail.
   */
  lemma OversizedLeaseUnrecorded(c: Config, now: int) returns (run: seq<Task>)
    requires c.valid && !c.leaseFits && c.renewInterval >= 0
    ensures IsRun(c, run)
    ensures var t := run[|run| - 1];
      t.phase == Finished(Failed(InvalidConfiguration)) && Running(t.trace) && LeaseRejected in t.trace
  {
    hide Core, Terminals, Happy, Lawful, Inv;
    run := RunToRace(c, now);
    run := Extend(c, run, Wait(c.renewInterval));
    var racing := run[|run| - 1];
    RunKeepsInv(c, run, |run| - 1);
    RacingRuns(racing);
    run := Extend(c, run, RenewalDue);
    hide Core, Terminals, Happy, Inv, IsRun, Running;
    RejectionRuns(racing.trace);
  }

  lemma RunToRace(c: Config, now: int) returns (run: seq<Task>)
    requires c.valid
    ensures IsRun(c, run) && run[|run| - 1].phase == Racing(0, false, false)
    ensures var t := run[|run| - 1];
      t.now == now && t.nextRenewal == now + c.renewInterval && t.deadline == now + c.nodeTimeout
  {
    run := [NewTask(now)];
    run := Extend(c, run, Start);
    run := Extend(c, run, LoadReturns(Succeeded, true));
    run := Extend(c, run, BeginReturns(Succeeded));
  }

  /** So a running task escapes recording exactly under a lease that does not fit. */
  lemma LeaseRejectedIff(c: Config)
    requires c.valid && c.renewInterval >= 0
    ensures !c.leaseFits <==> exists run: seq<Task> :: IsRun(c, run) && LeaseRejected in run[|run| - 1].trace
  {
    if c.leaseFits {
      forall run: seq<Task> | IsRun(c, run)
        ensures LeaseRejected !in run[|run| - 1].trace
      {
        LeaseNeverRejected(c, run, |run| - 1);
      }
    } else {
      var run := OversizedLeaseUnrecorded(c, 0);
    }
  }

  /** A claimed task can end with a timeout, and with an identity that does not match. */
  lemma TaskCanFail(c: Config, now: int, error: Error) returns (run: seq<Task>)
    requires c.valid && c.nodeTimeout >= 0 && (error == TimedOut || error == InvalidTask)
    ensures IsRun(c, run) && run[|run| - 1].phase == Finished(Failed(error))
  {
    if error == TimedOut {
      run := RunToRace(c, now);
      run := Extend(c, run, Wait(c.nodeTimeout));
      run := Extend(c, run, DeadlineDue);
      run := Extend(c, run, FailReturns(Succeeded));
    } else {
      run := [NewTask(now)];
      run := Extend(c, run, Start);
      run := Extend(c, run, LoadReturns(Succeeded, false));
    }
  }

  lemma RejectionRuns(trace: seq<Event>)
    requires Running(trace)
    ensures Running(trace + [LeaseRejected])
  {
    CoreAppend(trace, LeaseRejected);
    hide Core, Terminals, Happy;
  }

  lemma Extend(c: Config, run: seq<Task>, a: Action) returns (longer: seq<Task>)
    requires IsRun(c, run) && Enabled(c, run[|run| - 1], a)
    ensures IsRun(c, longer) && |longer| == |run| + 1 && longer[|run|] == Next(c, run[|run| - 1], a)
  {
    hide Enabled, Next;
    longer := run + [Next(c, run[|run| - 1], a)];
    assert Follows(c, run[|run| - 1], longer[|run|]);
    forall i | 0 <= i < |longer| - 1
      ensures Follows(c, longer[i], longer[i + 1])
    {
      if i < |run| - 1 { assert Follows(c, run[i], run[i + 1]); }
    }
  }

  // ---------- The claiming loop ----------

  datatype ClaimResult = Nothing | Found | ClaimFailed(error: Error)

  datatype LoopEvent =
    | Observed(drain: bool)
    | Maintained(outcome: Outcome)
    | Claimed(result: ClaimResult)
    | Ran(outcome: Outcome)
    | Slept

  datatype LoopPhase = AtTop | Maintaining | Claiming | Working | Idle | Stopped(result: Outcome)

  /** `maintained` holds the times at which maintenance succeeded. */
  datatype Loop = Loop(phase: LoopPhase, trace: seq<LoopEvent>, now: int, nextMaintenance: int, maintained: seq<int>)

  datatype LoopAction =
    | Observe(drain: bool)
    | MaintenanceReturns(outcome: Outcome)
    | ClaimReturns(result: ClaimResult)
    | TaskReturns(outcome: Outcome)
    | Wake
    | Pass(seconds: nat)

  predicate LoopEnabled(w: Loop, a: LoopAction) {
    match a
    case Observe(_) => w.phase.AtTop?
    case MaintenanceReturns(_) => w.phase.Maintaining?
    case ClaimReturns(_) => w.phase.Claiming?
    case TaskReturns(_) => w.phase.Working?
    case Wake => w.phase.Idle?
    case Pass(_) => true
  }

  predicate Fatal(outcome: Outcome) {
    outcome.Failed? && !Retryable(outcome.error)
  }

  /** One step of run_worker, for a valid configuration whose lease fits its field. */
  function LoopNext(w: Loop, interval: int, a: LoopAction): Loop
    requires LoopEnabled(w, a)
  {
    match a
    case Observe(drain) =>
      w.(trace := w.trace + [Observed(drain)],
         phase := if drain then Stopped(Succeeded) else if w.now >= w.nextMaintenance then Maintaining else Claiming)
    case MaintenanceReturns(outcome) =>
      w.(trace := w.trace + [Maintained(outcome)],
         phase := if outcome.Failed? then Stopped(outcome) else Claiming,
         nextMaintenance := if outcome.Failed? then w.nextMaintenance else w.now + interval,
         maintained := if outcome.Failed? then w.maintained else w.maintained + [w.now])
    case ClaimReturns(result) =>
      w.(trace := w.trace + [Claimed(result)],
         phase := match result
                  case Found => Working
                  case Nothing => Idle
                  case ClaimFailed(e) => if Retryable(e) then Idle else Stopped(Failed(e)))
    case TaskReturns(outcome) =>
      w.(trace := w.trace + [Ran(outcome)], phase := if Fatal(outcome) then Stopped(outcome) else AtTop)
    case Wake => w.(trace := w.trace + [Slept], phase := AtTop)
    case Pass(seconds) => w.(now := w.now + seconds)
  }

  ghost predicate LoopFollows(interval: int, w: Loop, v: Loop) {
    exists a :: LoopEnabled(w, a) && v == LoopNext(w, interval, a)
  }

  ghost predicate IsLoopRun(interval: int, run: seq<Loop>) {
    && run != [] && run[0].phase.AtTop? && run[0].trace == []
    && run[0].nextMaintenance == run[0].now && run[0].maintained == []
    && forall i :: 0 <= i < |run| - 1 ==> LoopFollows(interval, run[i], run[i + 1])
  }

  /** Which event may come next: the grammar of a worker's life. */
  predicate Allowed(before: seq<LoopEvent>, e: LoopEvent) {
    if before == [] then e.Observed?
    else
      var last := before[|before| - 1];
      match e
      case Observed(_) => last.Slept? || (last.Ran? && !Fatal(last.outcome))
      case Maintained(_) => last == Observed(false)
      case Claimed(_) => last == Observed(false) || last == Maintained(Succeeded)
      case Ran(_) => last == Claimed(Found)
      case Slept => last == Claimed(Nothing) || (last.Claimed? && last.result.ClaimFailed? && Retryable(last.result.error))
  }

  /** The loop's phase is what its last event left it in. */
  ghost predicate LoopShape(w: Loop) {
    if w.trace == [] then w.phase.AtTop?
    else
      var last := w.trace[|w.trace| - 1];
      match w.phase
      case AtTop => last.Slept? || (last.Ran? && !Fatal(last.outcome))
      case Maintaining => last == Observed(false)
      case Claiming => last == Observed(false) || last == Maintained(Succeeded)
      case Working => last == Claimed(Found)
      case Idle => last == Claimed(Nothing) || (last.Claimed? && last.result.ClaimFailed? && Retryable(last.result.error))
      case Stopped(r) =>
        || (last == Observed(true) && r == Succeeded)
        || (last.Maintained? && last.outcome == r && r.Failed?)
        || (last.Claimed? && last.result.ClaimFailed? && r == Failed(last.result.error) && Fatal(r))
        || (last.Ran? && last.outcome == r && Fatal(r))
  }

  ghost predicate Grammatical(trace: seq<LoopEvent>) {
    forall i :: 0 <= i < |trace| ==> Allowed(trace[..i], trace[i])
  }

  lemma LoopStep(w: Loop, interval: int, a: LoopAction)
    requires LoopEnabled(w, a) && LoopShape(w) && Grammatical(w.trace)
    ensures var v := LoopNext(w, interval, a); LoopShape(v) && Grammatical(v.trace)
  {
    if a.Pass? {
      SameShape(w, LoopNext(w, interval, a));
    } else {
      var e := EventOf(a);
      NextAllowed(w, a, e);
      NextShape(w, interval, a, e);
      hide Grammatical, Allowed, LoopShape;
      GrammarAppend(w.trace, e);
    }
  }

  function EventOf(a: LoopAction): LoopEvent
    requires !a.Pass?
  {
    match a
    case Observe(drain) => Observed(drain)
    case MaintenanceReturns(outcome) => Maintained(outcome)
    case ClaimReturns(result) => Claimed(result)
    case TaskReturns(outcome) => Ran(outcome)
    case Wake => Slept
  }

  lemma SameShape(w: Loop, v: Loop)
    requires v.phase == w.phase && v.trace == w.trace && LoopShape(w)
    ensures LoopShape(v)
  {
  }

  lemma NextAllowed(w: Loop, a: LoopAction, e: LoopEvent)
    requires LoopEnabled(w, a) && !a.Pass? && e == EventOf(a) && LoopShape(w)
    ensures Allowed(w.trace, e)
  {
  }

  lemma NextShape(w: Loop, interval: int, a: LoopAction, e: LoopEvent)
    requires LoopEnabled(w, a) && !a.Pass? && e == EventOf(a)
    ensures LoopNext(w, interval, a).trace == w.trace + [e] && LoopShape(LoopNext(w, interval, a))
  {
  }

  lemma GrammarAppend(trace: seq<LoopEvent>, e: LoopEvent)
    requires Grammatical(trace) && Allowed(trace, e)
    ensures Grammatical(trace + [e])
  {
    hide Allowed;
    var longer := trace + [e];
    assert forall i :: 0 <= i <= |trace| ==> longer[..i] == trace[..i];
    assert trace[..|trace|] == trace;
  }

  lemma {:induction false} LoopRunShape(interval: int, run: seq<Loop>, i: nat)
    requires IsLoopRun(interval, run) && i < |run|
    ensures LoopShape(run[i]) && Grammatical(run[i].trace)
  {
    hide LoopEnabled, LoopNext;
    if i > 0 {
      LoopRunShape(interval, run, i - 1);
      assert LoopFollows(interval, run[i - 1], run[i - 1 + 1]);
      var a :| LoopEnabled(run[i - 1], a) && run[i] == LoopNext(run[i - 1], interval, a);
      LoopStep(run[i - 1], interval, a);
    }
  }

  /** Nothing follows an observed drain, and every claim is made right after observing none. */
  lemma NoClaimAfterDrain(interval: int, run: seq<Loop>, i: nat)
    requires IsLoopRun(interval, run) && i < |run[|run| - 1].trace|
    ensures var trace := run[|run| - 1].trace;
      && (trace[i] == Observed(true) ==> i == |trace| - 1)
      && (trace[i].Claimed? ==> (i >= 1 && trace[i - 1] == Observed(false))
                                || (i >= 2 && trace[i - 1] == Maintained(Succeeded) && trace[i - 2] == Observed(false)))
  {
    LoopRunShape(interval, run, |run| - 1);
    var trace := run[|run| - 1].trace;
    hide IsLoopRun, LoopShape;
    assert Allowed(trace[..i], trace[i]);
    if i + 1 < |trace| {
      assert Allowed(trace[..i + 1], trace[i + 1]);
      assert trace[..i + 1][i] == trace[i];
    }
    if i >= 1 {
      assert Allowed(trace[..i - 1], trace[i - 1]);
    }
  }

  /** Maintenance is at least one interval apart, and no claim comes before the first one. */
  ghost predicate Maintains(interval: int, w: Loop) {
    && (forall i :: 0 <= i < |w.maintained| - 1 ==> w.maintained[i + 1] - w.maintained[i] >= interval)
    && (w.maintained != [] ==> w.nextMaintenance == w.maintained[|w.maintained| - 1] + interval)
    && (w.phase.Maintaining? ==> w.now >= w.nextMaintenance)
    && (w.maintained == [] ==> w.now >= w.nextMaintenance && (w.phase.AtTop? || w.phase.Maintaining? || w.phase.Stopped?))
    && (w.maintained == [] ==> forall i :: 0 <= i < |w.trace| ==> !w.trace[i].Claimed?)
  }

  lemma StepMaintains(interval: int, w: Loop, a: LoopAction)
    requires LoopEnabled(w, a) && Maintains(interval, w)
    ensures Maintains(interval, LoopNext(w, interval, a))
  {
  }

  lemma {:induction false} RunMaintains(interval: int, run: seq<Loop>, i: nat)
    requires IsLoopRun(interval, run) && i < |run|
    ensures Maintains(interval, run[i])
  {
    hide LoopEnabled, LoopNext;
    if i > 0 {
      RunMaintains(interval, run, i - 1);
      assert LoopFollows(interval, run[i - 1], run[i - 1 + 1]);
      var a :| LoopEnabled(run[i - 1], a) && run[i] == LoopNext(run[i - 1], interval, a);
      StepMaintains(interval, run[i - 1], a);
    }
  }

  /** Which last events stop a worker with which error, spelled out. */
  lemma StopsSpelledOut(interval: int, run: seq<Loop>, e: Error)
    requires IsLoopRun(interval, run)
    ensures var w := run[|run| - 1];
      w.phase == Stopped(Failed(e)) <==>
        w.trace != [] &&
        var last := w.trace[|w.trace| - 1];
        if e == Backend(true) then last == Maintained(Failed(e))
        else last == Maintained(Failed(e)) || last == Claimed(ClaimFailed(e)) || last == Ran(Failed(e))
  {
    assert run != [];
    assert Retryable(e) <==> e == Backend(true);
    hide IsLoopRun, Retryable;
    ReturnsErrorIff(interval, run, e);
  }

  /** The events that end a worker with `e`: failed maintenance, or a fatal claim or task. */
  predicate StopsWith(event: LoopEvent, e: Error) {
    || event == Maintained(Failed(e))
    || ((event == Claimed(ClaimFailed(e)) || event == Ran(Failed(e))) && !Retryable(e))
  }

  /** A worker returns an error exactly when its trace holds an event that ends it so, and then as its last. */
  lemma ReturnsErrorIff(interval: int, run: seq<Loop>, e: Error)
    requires IsLoopRun(interval, run)
    ensures var w := run[|run| - 1];
      && (w.phase == Stopped(Failed(e)) <==> w.trace != [] && StopsWith(w.trace[|w.trace| - 1], e))
      && (forall i :: 0 <= i < |w.trace| && StopsWith(w.trace[i], e) ==> i == |w.trace| - 1)
  {
    assert run != [];
    hide *;
    LoopRunShape(interval, run, |run| - 1);
    StopShape(run[|run| - 1], e);
    StopIsLast(run[|run| - 1].trace, e);
  }

  lemma StopShape(w: Loop, e: Error)
    requires LoopShape(w)
    ensures w.phase == Stopped(Failed(e)) <==> w.trace != [] && StopsWith(w.trace[|w.trace| - 1], e)
  {
  }

  lemma StopIsLast(trace: seq<LoopEvent>, e: Error)
    requires Grammatical(trace)
    ensures forall i :: 0 <= i < |trace| && StopsWith(trace[i], e) ==> i == |trace| - 1
  {
    forall i | 0 <= i < |trace| - 1
      ensures !StopsWith(trace[i], e)
    {
      assert Allowed(trace[..i + 1], trace[i + 1]);
      assert trace[..i + 1][i] == trace[i];
    }
  }

  /** A retryable error is returned exactly when maintaining orphans met it. */
  lemma StopsWithRetryableError(interval: int, run: seq<Loop>, e: Error)
    requires IsLoopRun(interval, run) && Retryable(e)
    ensures var w := run[|run| - 1];
      w.phase == Stopped(Failed(e)) <==> Maintained(Failed(e)) in w.trace
  {
    ReturnsErrorIff(interval, run, e);
    hide IsLoopRun;
    var w := run[|run| - 1];
    if Maintained(Failed(e)) in w.trace {
      var i :| 0 <= i < |w.trace| && w.trace[i] == Maintained(Failed(e));
      assert StopsWith(w.trace[i], e);
    }
  }

  /** Neither a configuration error nor a non-retryable failure of the backend. */
  predicate Undocumented(e: Error) {
    e != InvalidConfiguration && e != Backend(false)
  }

  /**
    An error outside the documented kinds is returned exactly when the last event is failed
    maintenance, or a claim or task that failed with a timeout or an invalid task.
   */
  lemma UndocumentedErrorIff(interval: int, run: seq<Loop>, e: Error)
    requires IsLoopRun(interval, run) && Undocumented(e)
    ensures var w := run[|run| - 1];
      w.phase == Stopped(Failed(e))
      <==> w.trace != [] &&
           var last := w.trace[|w.trace| - 1];
           || last == Maintained(Failed(e))
           || ((e == TimedOut || e == InvalidTask) && (last == Claimed(ClaimFailed(e)) || last == Ran(Failed(e))))
  {
    ReturnsErrorIff(interval, run, e);
    hide IsLoopRun;
  }

  /** And every such error is returned by some run: from maintenance, or from a task when it is not retryable. */
  lemma UndocumentedErrorReturned(now: int, interval: int, e: Error, fromTask: bool) returns (run: seq<Loop>)
    requires Undocumented(e) && (fromTask ==> !Retryable(e))
    ensures IsLoopRun(interval, run) && run[|run| - 1].phase == Stopped(Failed(e))
    ensures (if fromTask then Ran(Failed(e)) else Maintained(Failed(e))) in run[|run| - 1].trace
  {
    var w0 := Loop(AtTop, [], now, now, []);
    var w1 := LoopNext(w0, interval, Observe(false));
    assert LoopFollows(interval, w0, w1);
    if fromTask {
      var w2 := LoopNext(w1, interval, MaintenanceReturns(Succeeded));
      var w3 := LoopNext(w2, interval, ClaimReturns(Found));
      var w4 := LoopNext(w3, interval, TaskReturns(Failed(e)));
      run := [w0, w1, w2, w3, w4];
      assert LoopFollows(interval, w1, w2) && LoopFollows(interval, w2, w3) && LoopFollows(interval, w3, w4);
    } else {
      var w2 := LoopNext(w1, interval, MaintenanceReturns(Failed(e)));
      run := [w0, w1, w2];
      assert LoopFollows(interval, w1, w2);
    }
  }
}
