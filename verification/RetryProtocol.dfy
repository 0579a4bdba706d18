/**
 * The retry queue as a concurrent step machine: any number of Add callers, one
 * processor goroutine and one lifecycle caller. Every lock section and every
 * atomic operation of the queue is one step, so a legal sequence of steps is an
 * interleaving of the goroutines.
 */
module RetryProtocol {
  import opened Int64s

  /**
   * An item is named by the position of its Add in the order in which Add calls
   * append (the source holds a pointer, which is as unique).
   */
  type Ticket = nat

  /** One call of an item's RetryFunc; `ok` when it returned nil. */
  datatype Run = Run(ticket: Ticket, ok: bool)

  /** Where the processor goroutine is. */
  datatype Processor =
    | Absent                       // no goroutine, or it has returned
    | Idle                         // in the select of process
    | Waiting(item: Ticket)        // popped; in the select of processNextItem
    | Interrupted(item: Ticket)    // ctx or stopCh won that select
    | Failing(item: Ticket)        // RetryFunc failed, Attempt is bumped
    | Succeeded(item: Ticket)      // RetryFunc returned nil
    | Completing(item: Ticket)     // depth is decremented, OnComplete is next

  /** Where the caller of Start and Stop is. */
  datatype Lifecycle =
    | Free         // between calls
    | Launching    // Start swapped running and has not yet spawned process
    | Joining      // Stop closed stopCh and is in wg.Wait
    | Joined       // wg.Wait returned
    | Renewing     // running is false again, stopCh is still the closed channel

  datatype State = State(
    items: seq<Ticket>,
    depth: int,
    attempt: seq<int64>,        // the Attempt field of every item ever added
    adders: set<Ticket>,        // appended, depth not yet incremented
    proc: Processor,
    life: Lifecycle,
    running: bool,
    stopClosed: bool,
    ctxDone: bool,              // of the context given to process
    // history
    initial: seq<int64>,        // Attempt as it was when added
    runs: seq<Run>,
    completed: seq<Ticket>      // OnComplete calls
  )

  function Init(): State {
    State([], 0, [], {}, Absent, Free, false, false, false, [], [], [])
  }

  datatype Step =
    // Add callers
    | AddAppend(attempt: int64)
    | AddBump(ticket: Ticket)
    // the lifecycle caller
    | StartSwap
    | Launch(cancelled: bool)
    | StopClose
    | Join
    | StoreFalse
    | Renew
    // the environment
    | Cancel
    // the processor
    | Exit
    | Pop
    | Interrupt
    | Prepend
    | Execute(ok: bool)
    | Append
    | Decrement
    | Complete

  predicate Enabled(s: State, step: Step) {
    match step
    case AddAppend(_) => true
    case AddBump(t) => t in s.adders
    case StartSwap => s.life.Free? && !s.running
    case Launch(_) => s.life.Launching?
    case StopClose => s.life.Free? && s.running
    case Join => s.life.Joining? && s.proc.Absent?
    case StoreFalse => s.life.Joined?
    case Renew => s.life.Renewing?
    case Cancel => true
    case Exit => s.proc.Idle? && (s.ctxDone || s.stopClosed)
    case Pop => s.proc.Idle? && s.items != []
    case Interrupt => s.proc.Waiting? && (s.ctxDone || s.stopClosed)
    case Prepend => s.proc.Interrupted?
    case Execute(_) => s.proc.Waiting? && s.proc.item < |s.attempt|
    case Append => s.proc.Failing?
    case Decrement => s.proc.Succeeded?
    case Complete => s.proc.Completing?
  }

  function Apply(s: State, step: Step): State
    requires Enabled(s, step)
  {
    match step
    case AddAppend(a) =>
      var t := |s.attempt|;
      s.(items := s.items + [t], attempt := s.attempt + [a], initial := s.initial + [a], adders := s.adders + {t})
    case AddBump(t) => s.(depth := s.depth + 1, adders := s.adders - {t})
    case StartSwap => s.(running := true, life := Launching)
    case Launch(cancelled) => s.(proc := Idle, life := Free, ctxDone := cancelled)
    case StopClose => s.(stopClosed := true, life := Joining)
    case Join => s.(life := Joined)
    case StoreFalse => s.(running := false, life := Renewing)
    case Renew => s.(stopClosed := false, life := Free)
    case Cancel => s.(ctxDone := true)
    case Exit => s.(proc := Absent)
    case Pop => s.(items := s.items[1..], proc := Waiting(s.items[0]))
    case Interrupt => s.(proc := Interrupted(s.proc.item))
    case Prepend => s.(items := [s.proc.item] + s.items, proc := Idle)
    case Execute(ok) =>
      var t := s.proc.item;
      if ok then s.(runs := s.runs + [Run(t, true)], proc := Succeeded(t))
      else s.(runs := s.runs + [Run(t, false)], proc := Failing(t),
              attempt := s.attempt[t := Increment(s.attempt[t])])
    case Append => s.(items := s.items + [s.proc.item], proc := Idle)
    case Decrement => s.(depth := s.depth - 1, proc := Completing(s.proc.item))
    case Complete => s.(completed := s.completed + [s.proc.item], proc := Idle)
  }

  /** The steps can be taken one after the other from s. */
  predicate Legal(s: State, steps: seq<Step>)
    decreases |steps|
  {
    steps == [] || (Enabled(s, steps[0]) && Legal(Apply(s, steps[0]), steps[1..]))
  }

  function After(s: State, steps: seq<Step>): State
    requires Legal(s, steps)
    decreases |steps|
  {
    if steps == [] then s else After(Apply(s, steps[0]), steps[1..])
  }

  // ----- what the invariant speaks about -----

  /** The item that is counted by depth but is in no list. */
  function InFlight(p: Processor): seq<Ticket> {
    match p
    case Waiting(t) => [t]
    case Interrupted(t) => [t]
    case Failing(t) => [t]
    case Succeeded(t) => [t]
    case _ => []
  }

  /** The items whose RetryFunc is known to have returned nil and that are out of the queue. */
  function Done(s: State): seq<Ticket> {
    s.completed + if s.proc.Completing? then [s.proc.item] else []
  }

  /** The order in which items will be executed, the next one first. */
  function Line(s: State): seq<Ticket> {
    match s.proc
    case Waiting(t) => [t] + s.items
    case Interrupted(t) => [t] + s.items
    case Failing(t) => s.items + [t]
    case _ => s.items
  }

  function Range(lo: nat, hi: nat): (r: seq<nat>)
    requires lo <= hi
  {
    seq(hi - lo, i => lo + i)
  }

  function Fails(runs: seq<Run>, t: Ticket): nat {
    if runs == [] then 0
    else Fails(runs[..|runs| - 1], t) + if runs[|runs| - 1] == Run(t, false) then 1 else 0
  }

  /** Attempt after n increments. */
  function Bumped(attempt: int64, n: nat): int64 {
    if n == 0 then attempt else Increment(Bumped(attempt, n - 1))
  }

  /** The items in the order of their first executions. */
  function FirstRuns(runs: seq<Run>): seq<Ticket> {
    if runs == [] then []
    else
      var before := FirstRuns(runs[..|runs| - 1]);
      var t := runs[|runs| - 1].ticket;
      if t in before then before else before + [t]
  }

  /** The members of line not yet executed, when those executed are the tickets below k. */
  function NotBelow(line: seq<Ticket>, k: nat): seq<Ticket> {
    if line == [] then []
    else (if line[0] >= k then [line[0]] else []) + NotBelow(line[1..], k)
  }

  // ----- the invariant, part by part -----

  /** depth lags behind appends and never misses a removal. */
  ghost predicate DepthCounts(s: State) {
    && (forall t :: t in s.adders ==> t < |s.attempt|)
    && s.depth + |s.adders| == |s.items| + |InFlight(s.proc)|
  }

  /** Queued, in flight or finished. */
  function Places(s: State): multiset<Ticket> {
    multiset(s.items) + multiset(InFlight(s.proc)) + multiset(Done(s))
  }

  /** Every item ever added is in exactly one place. */
  ghost predicate Partitioned(s: State) {
    Places(s) == multiset(Range(0, |s.attempt|))
  }

  /** First executions so far are a prefix of the Add order; the rest waits in Add order. */
  ghost predicate FirstComeFirstRun(s: State) {
    exists k :: FirstRunPrefix(s, k)
  }

  ghost predicate FirstRunPrefix(s: State, k: nat) {
    && k <= |s.attempt|
    && FirstRuns(s.runs) == Range(0, k)
    && NotBelow(Line(s), k) == Range(k, |s.attempt|)
    && (s.proc.Failing? ==> s.proc.item < k)
  }

  ghost predicate AttemptsCounted(s: State) {
    && |s.initial| == |s.attempt|
    && forall t :: 0 <= t < |s.attempt| ==> s.attempt[t] == Bumped(s.initial[t], Fails(s.runs, t))
  }

  ghost predicate Finished(s: State, t: Ticket) {
    t in Done(s) || s.proc == Succeeded(t)
  }

  /** The finished items are those with a successful run, which is their last run. */
  ghost predicate SuccessIsFinal(s: State) {
    && (forall t: Ticket :: Finished(s, t) <==> Run(t, true) in s.runs)
    && (forall i, j :: 0 <= i < j < |s.runs| && s.runs[i].ok ==> s.runs[j].ticket != s.runs[i].ticket)
    && (forall i :: 0 <= i < |s.runs| ==> s.runs[i].ticket < |s.attempt|)
  }

  /** At most one processor, and stopCh is never closed twice. */
  ghost predicate OneProcessor(s: State) {
    match s.life
    case Free => !s.stopClosed && (!s.proc.Absent? ==> s.running)
    case Launching => !s.stopClosed && s.running && s.proc.Absent?
    case Joining => s.stopClosed && s.running
    case Joined => s.stopClosed && s.running && s.proc.Absent?
    case Renewing => s.stopClosed && !s.running && s.proc.Absent?
  }

  ghost predicate Inv(s: State) {
    && DepthCounts(s)
    && Partitioned(s)
    && FirstComeFirstRun(s)
    && AttemptsCounted(s)
    && SuccessIsFinal(s)
    && OneProcessor(s)
  }
}
