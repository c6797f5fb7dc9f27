/**
 * Admission of log stream requests against shutdown. Any number of request threads and
 * the thread that stops and starts the bundle interleave; each load, store, increment or
 * decrement of the two atomics is one step.
 */
module LogStreamLifecycle {

  type Thread = nat

  /** Where a thread is inside tryAcquire and release. */
  datatype Phase =
    | Unchecked // found no shutdown, has not counted itself yet
    | Counted   // has counted itself, has not looked again
    | Refused   // looked again and found a shutdown, still counted
    | Admitted

  /** Where the thread that stops the bundle is. */
  datatype Control = Serving | Flagged | Waiting(waitedMs: nat) | LastLook | Over(seen: int)

  datatype State = State(shuttingDown: bool, active: int, requests: map<Thread, Phase>, control: Control)

  datatype Step =
    | Enter(t: Thread)
    | Increment(t: Thread)
    | Recheck(t: Thread)
    | Withdraw(t: Thread)
    | Release(t: Thread)
    | BeginShutdown
    | FirstLook
    | Poll
    | FinalLook
    | BeginStartup

  const WAIT_SLICE_MS := 100
  const WAIT_TIMEOUT_MS := 5000

  const INITIAL := State(false, 0, map[], Serving)

  predicate InPhase(s: State, t: Thread, phase: Phase) {
    t in s.requests && s.requests[t] == phase
  }

  predicate Enabled(s: State, step: Step) {
    match step
    case Enter(t) => t !in s.requests
    case Increment(t) => InPhase(s, t, Unchecked)
    case Recheck(t) => InPhase(s, t, Counted)
    case Withdraw(t) => InPhase(s, t, Refused)
    case Release(t) => InPhase(s, t, Admitted)
    case BeginShutdown => s.control.Serving?
    case FirstLook => s.control.Flagged?
    case Poll => s.control.Waiting?
    case FinalLook => s.control.LastLook?
    case BeginStartup => s.control.Serving? || s.control.Over?
  }

  function Next(s: State, step: Step): State
    requires Enabled(s, step)
  {
    match step
    case Enter(t) => if s.shuttingDown then s else s.(requests := s.requests[t := Unchecked])
    case Increment(t) => s.(requests := s.requests[t := Counted], active := s.active + 1)
    case Recheck(t) => s.(requests := s.requests[t := if s.shuttingDown then Refused else Admitted])
    case Withdraw(t) => s.(requests := s.requests - {t}, active := s.active - 1)
    case Release(t) => s.(requests := s.requests - {t}, active := s.active - 1)
    case BeginShutdown => s.(shuttingDown := true, control := Flagged)
    case FirstLook => s.(control := Waiting(0))
    case Poll =>
      if s.active > 0 && s.control.waitedMs < WAIT_TIMEOUT_MS
      then s.(control := Waiting(s.control.waitedMs + WAIT_SLICE_MS))
      else s.(control := LastLook)
    case FinalLook => s.(control := Over(s.active))
    case BeginStartup => s.(shuttingDown := false, control := Serving)
  }

  function AdmittedThreads(s: State): set<Thread> {
    set t | t in s.requests && s.requests[t] == Admitted
  }

  /** Counted but not admitted: on the way in, or about to withdraw. */
  function PassingThreads(s: State): set<Thread> {
    set t | t in s.requests && (s.requests[t] == Counted || s.requests[t] == Refused)
  }

  ghost predicate Inv(s: State) {
    && s.active == |AdmittedThreads(s)| + |PassingThreads(s)|
    && (s.shuttingDown <==> !s.control.Serving?)
    && (s.control.Over? ==> |AdmittedThreads(s)| <= s.control.seen)
    && (s.control.Waiting? ==> s.control.waitedMs <= WAIT_TIMEOUT_MS && s.control.waitedMs % WAIT_SLICE_MS == 0)
  }

  /** What a request's step does to the two sets. */
  lemma RequestMoves(s: State, step: Step)
    requires Enabled(s, step)
    ensures var n := Next(s, step);
      match step
      case Increment(t) =>
        t !in PassingThreads(s) && AdmittedThreads(n) == AdmittedThreads(s) && PassingThreads(n) == PassingThreads(s) + {t}
      case Recheck(t) =>
        && t in PassingThreads(s) && t !in AdmittedThreads(s)
        && (s.shuttingDown ==> AdmittedThreads(n) == AdmittedThreads(s) && PassingThreads(n) == PassingThreads(s))
        && (!s.shuttingDown ==> AdmittedThreads(n) == AdmittedThreads(s) + {t} && PassingThreads(n) == PassingThreads(s) - {t})
      case Withdraw(t) =>
        t in PassingThreads(s) && AdmittedThreads(n) == AdmittedThreads(s) && PassingThreads(n) == PassingThreads(s) - {t}
      case Release(t) =>
        t in AdmittedThreads(s) && AdmittedThreads(n) == AdmittedThreads(s) - {t} && PassingThreads(n) == PassingThreads(s)
      case _ => AdmittedThreads(n) == AdmittedThreads(s) && PassingThreads(n) == PassingThreads(s)
  {
  }

  lemma StepKeepsInv(s: State, step: Step)
    requires Inv(s) && Enabled(s, step)
    ensures Inv(Next(s, step))
  {
    hide AdmittedThreads;
    hide PassingThreads;
    RequestMoves(s, step);
  }

  /** While the flag is up nobody is admitted; requests that were admitted before can only leave. */
  lemma FlagStopsAdmission(s: State, step: Step)
    requires Inv(s) && Enabled(s, step)
    requires s.shuttingDown && !step.BeginStartup?
    ensures Next(s, step).shuttingDown
    ensures AdmittedThreads(Next(s, step)) <= AdmittedThreads(s)
  {
  }

  // ---- Runs ----

  predicate IsRun(states: seq<State>, steps: seq<Step>) {
    && |states| == |steps| + 1
    && states[0] == INITIAL
    && forall k :: 0 <= k < |steps| ==> Enabled(states[k], steps[k]) && states[k + 1] == Next(states[k], steps[k])
  }

  lemma {:induction false} RunKeepsInv(states: seq<State>, steps: seq<Step>, k: nat)
    requires IsRun(states, steps) && k < |states|
    ensures Inv(states[k])
  {
    if k > 0 {
      RunKeepsInv(states, steps, k - 1);
      StepKeepsInv(states[k - 1], steps[k - 1]);
    } else {
      assert AdmittedThreads(INITIAL) == {} && PassingThreads(INITIAL) == {};
    }
  }

  predicate NoStartup(steps: seq<Step>, i: nat, j: nat)
    requires i <= j <= |steps|
  {
    forall k :: i <= k < j ==> !steps[k].BeginStartup?
  }

  /** From the moment the flag is up until the next startup, the admitted requests only become fewer. */
  lemma {:induction false} OnlyLeavingUntilStartup(states: seq<State>, steps: seq<Step>, i: nat, j: nat)
    requires IsRun(states, steps) && i <= j < |states|
    requires states[i].shuttingDown && NoStartup(steps, i, j)
    ensures states[j].shuttingDown && AdmittedThreads(states[j]) <= AdmittedThreads(states[i])
    decreases j
  {
    if i < j {
      OnlyLeavingUntilStartup(states, steps, i, j - 1);
      RunKeepsInv(states, steps, j - 1);
      FlagStopsAdmission(states[j - 1], steps[j - 1]);
    }
  }

  /** When the last look of a shutdown sees no active request, none is admitted then or later until the next startup. */
  lemma NoneAdmittedAfterCleanShutdown(states: seq<State>, steps: seq<Step>, i: nat, j: nat)
    requires IsRun(states, steps) && i < j < |states|
    requires steps[i] == FinalLook && states[i + 1].control == Over(0)
    requires NoStartup(steps, i, j)
    ensures AdmittedThreads(states[j]) == {}
  {
    RunKeepsInv(states, steps, i + 1);
    OnlyLeavingUntilStartup(states, steps, i + 1, j);
    assert AdmittedThreads(states[i + 1]) == {};
  }

  /** The last look sees exactly the requests that are admitted or passing through. */
  lemma LastLookCounts(states: seq<State>, steps: seq<Step>, i: nat)
    requires IsRun(states, steps) && i < |steps| && steps[i] == FinalLook
    ensures states[i + 1].control == Over(|AdmittedThreads(states[i])| + |PassingThreads(states[i])|)
  {
    RunKeepsInv(states, steps, i);
  }

  // ---- The wait is bounded ----

  /** How many steps of its own a shutdown can still take. */
  function Patience(control: Control): nat {
    match control
    case Serving => 0
    case Flagged => 54
    case Waiting(waitedMs) =>
      if waitedMs <= WAIT_TIMEOUT_MS then 2 + (WAIT_TIMEOUT_MS - waitedMs) / WAIT_SLICE_MS else 2
    case LastLook => 1
    case Over(_) => 0
  }

  /** Whatever the requests do, a shutdown comes to its end: its own steps use up its patience, theirs do not touch it. */
  lemma ShutdownComesToAnEnd(s: State, step: Step)
    requires Inv(s) && Enabled(s, step)
    ensures step in {FirstLook, Poll, FinalLook} ==> Patience(Next(s, step).control) < Patience(s.control)
    ensures !(step in {BeginShutdown, FirstLook, Poll, FinalLook, BeginStartup}) ==> Next(s, step).control == s.control
    ensures s.control.Flagged? || s.control.Waiting? || s.control.LastLook? ==>
      exists own :: own in {FirstLook, Poll, FinalLook} && Enabled(s, own)
  {
    if s.control.Flagged? {
      assert Enabled(s, FirstLook);
    } else if s.control.Waiting? {
      assert Enabled(s, Poll);
    } else if s.control.LastLook? {
      assert Enabled(s, FinalLook);
    }
  }

  // ---- Why the flag is looked at twice ----

  /** Admission that looks at the flag only before it counts. */
  function NextCheckingOnce(s: State, step: Step): State
    requires Enabled(s, step)
  {
    match step
    case Recheck(t) => s.(requests := s.requests[t := Admitted])
    case _ => Next(s, step)
  }

  lemma RunGoesOn(states: seq<State>, steps: seq<Step>, step: Step) returns (longer: seq<State>, more: seq<Step>)
    requires IsRun(states, steps) && Enabled(states[|steps|], step)
    ensures IsRun(longer, more) && more == steps + [step] && |longer| == |more| + 1
    ensures longer[|more|] == Next(states[|steps|], step)
  {
    hide Next, Enabled;
    longer, more := states + [Next(states[|steps|], step)], steps + [step];
  }

  /** With one look only, a run admits a request after a shutdown that saw no active request. */
  lemma OneLookIsNotEnough()
    ensures exists states: seq<State>, steps: seq<Step> ::
      && IsRun(states, steps)
      && FinalLook in steps && states[|steps|].control == Over(0)
      && Enabled(states[|steps|], Recheck(0))
      && AdmittedThreads(NextCheckingOnce(states[|steps|], Recheck(0))) != {}
  {
    hide IsRun;
    SingleState();
    var states, steps := [INITIAL], [];
    states, steps := RunGoesOn(states, steps, Enter(0));
    states, steps := RunGoesOn(states, steps, BeginShutdown);
    states, steps := RunGoesOn(states, steps, FirstLook);
    states, steps := RunGoesOn(states, steps, Poll);
    states, steps := RunGoesOn(states, steps, FinalLook);
    states, steps := RunGoesOn(states, steps, Increment(0));
    assert steps[4] == FinalLook;
    assert 0 in AdmittedThreads(NextCheckingOnce(states[|steps|], Recheck(0)));
  }

  lemma SingleState()
    ensures IsRun([INITIAL], [])
  {
  }
}
