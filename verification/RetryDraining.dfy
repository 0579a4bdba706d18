/** How many undisturbed ticks of the processor empty the queue. */
module RetryDraining {
  import opened RetryProtocol
  import opened RetryInvariants
  import opened RetryTheorems
  import opened RetryQueues

  /** Between two items, with a head to process. */
  predicate Ready(s: State) {
    s.proc.Idle? && s.items != [] && s.items[0] < |s.attempt|
  }

  /** Whether the head's RetryFunc succeeds when it is called now. */
  predicate HeadSucceeds(s: State, fate: Ticket -> nat)
    requires s.items != []
  {
    Fails(s.runs, s.items[0]) == fate(s.items[0])
  }

  /** One processNextItem whose backoff elapses. */
  function Tick(s: State, fate: Ticket -> nat): State
    requires Ready(s)
  {
    var ok := HeadSucceeds(s, fate);
    var ran := Apply(Apply(s, Pop), Execute(ok));
    if ok then Apply(Apply(ran, Decrement), Complete) else Apply(ran, Append)
  }

  /** A tick is what the class's method does. */
  lemma TickIsProcessNextItem(s: State, fate: Ticket -> nat)
    requires Ready(s)
    ensures var steps := RetryQueue.ProcessSteps(false, TimerFired, HeadSucceeds(s, fate));
            Legal(s, steps) && After(s, steps) == Tick(s, fate)
  {
    var ok := HeadSucceeds(s, fate);
    var s1 := Apply(s, Pop);
    var s2 := Apply(s1, Execute(ok));
    if ok {
      var s3 := Apply(s2, Decrement);
      Steps3(s1, Execute(ok), s2, Decrement, s3, Complete, Apply(s3, Complete));
    } else {
      Steps2(s1, Execute(ok), s2, Append, Apply(s2, Append));
    }
    StepThen(s, Pop, s1, RetryQueue.WaitSteps(TimerFired, ok));
  }

  /** At most n ticks, until the queue is empty. */
  function Ticks(s: State, fate: Ticket -> nat, n: nat): State
    decreases n
  {
    if n == 0 || !Ready(s) then s else Ticks(Tick(s, fate), fate, n - 1)
  }

  lemma HeadKnown(s: State)
    requires Partitioned(s) && s.proc.Idle? && s.items != []
    ensures Ready(s)
  {
    assert s.items[0] in Places(s);
    OnePlace(s, s.items[0]);
  }

  /** Fates are kept to, so far and by the items still in line. */
  ghost predicate OnTrack(s: State, fate: Ticket -> nat) {
    Inv(s) && s.proc.Idle? && FailsBelowFate(s, fate)
  }

  lemma TickEffect(s: State, fate: Ticket -> nat)
    requires Ready(s)
    ensures var t, ok, s' := s.items[0], HeadSucceeds(s, fate), Tick(s, fate);
            && s'.proc.Idle?
            && s'.runs == s.runs + [Run(t, ok)]
            && s'.items == if ok then s.items[1..] else s.items[1..] + [t]
  {
  }

  lemma TickKeepsInv(s: State, fate: Ticket -> nat)
    requires Inv(s) && Ready(s)
    ensures Inv(Tick(s, fate))
  {
    hide RetryProtocol.Inv, RetryProtocol.Apply, Tick;
    TickIsProcessNextItem(s, fate);
    InvAfter(s, RetryQueue.ProcessSteps(false, TimerFired, HeadSucceeds(s, fate)));
  }

  /** A tick is one execution of the work left, whatever its outcome. */
  lemma TickKeepsTrack(s: State, fate: Ticket -> nat)
    requires OnTrack(s, fate) && Ready(s)
    ensures OnTrack(Tick(s, fate), fate)
    ensures Work(Tick(s, fate).items, Tick(s, fate).runs, fate) == Work(s.items, s.runs, fate) - 1
  {
    hide RetryProtocol.Inv, Tick, Work, Fails;
    var t, rest := s.items[0], s.items[1..];
    var r := Run(t, HeadSucceeds(s, fate));
    TickKeepsInv(s, fate);
    TickEffect(s, fate);
    HeadOnce(s);
    assert s.items == [t] + rest;
    HeadWork(rest, s.runs, r, fate);
    HeadFails(s.items, s.runs, r, fate);
  }

  lemma HeadOnce(s: State)
    requires Inv(s) && s.items != []
    ensures s.items[0] !in s.items[1..]
  {
    OnePlace(s, s.items[0]);
    HeadCount(s.items);
    hide RetryProtocol.Inv, RetryProtocol.InFlight, RetryProtocol.Done;
  }

  lemma HeadCount(q: seq<Ticket>)
    requires q != []
    ensures multiset(q)[q[0]] == 1 + multiset(q[1..])[q[0]]
  {
    assert q == [q[0]] + q[1..];
  }

  lemma TrackFacts(s: State, fate: Ticket -> nat)
    requires OnTrack(s, fate)
    ensures if s.items == [] then Work(s.items, s.runs, fate) == 0 && !Ready(s)
            else Work(s.items, s.runs, fate) > 0 && Ready(s)
  {
    if s.items != [] {
      HeadKnown(s);
      hide RetryProtocol.Inv, Work, Fails;
      WorkIsPositive(s.items, s.runs, fate);
    }
  }

  /**
   * From any state between two items, ticks empty the queue exactly when they
   * are at least as many as the executions its items still need.
   */
  lemma {:induction false} DrainedIff(s: State, fate: Ticket -> nat, n: nat)
    requires OnTrack(s, fate)
    ensures Ticks(s, fate, n).items == [] <==> n >= Work(s.items, s.runs, fate)
    decreases n
  {
    hide OnTrack, Ready, Tick, Work;
    TrackFacts(s, fate);
    if s.items != [] && n > 0 {
      TickKeepsTrack(s, fate);
      DrainedIff(Tick(s, fate), fate, n - 1);
    }
  }

  /** In particular from any state that the queue can reach between two items. */
  lemma DrainsInExactly(steps: seq<Step>, fate: Ticket -> nat, n: nat)
    requires Legal(Init(), steps) && Obeys(After(Init(), steps).runs, fate)
    requires After(Init(), steps).proc.Idle?
    ensures var s := After(Init(), steps);
            Ticks(s, fate, n).items == [] <==> |s.runs| + n >= TotalRuns(|s.attempt|, fate)
  {
    ReachableTrack(steps, fate);
    hide RetryProtocol.Init, RetryProtocol.Inv, RetryProtocol.Legal, RetryProtocol.After, FailsBelowFate;
    DrainedIff(After(Init(), steps), fate, n);
  }

  // ----- from any reachable state -----

  /** A next step on the way to an empty queue, restarting the processor if there is none. */
  function NextStep(s: State, fate: Ticket -> nat): Step {
    match s.proc
    case Idle => Pop
    case Waiting(t) => Execute(Fails(s.runs, t) == fate(t))
    case Interrupted(_) => Prepend
    case Failing(_) => Append
    case Succeeded(_) => Decrement
    case Completing(_) => Complete
    case Absent =>
      match s.life
      case Free => if s.running then StopClose else StartSwap
      case Launching => Launch(false)
      case Joining => Join
      case Joined => StoreFalse
      case Renewing => Renew
  }

  /** A bound on the steps before the next execution. */
  function Distance(s: State): nat {
    match s.proc
    case Waiting(_) => 0
    case Idle => 1
    case Succeeded(_) => 3
    case Absent =>
      (match s.life
       case Launching => 2
       case Free => if s.running then 7 else 3
       case Renewing => 4
       case Joined => 5
       case Joining => 6)
    case _ => 2
  }

  ghost predicate Drained(s: State) {
    s.proc.Idle? && s.items == []
  }

  lemma NextStepEnabled(s: State, fate: Ticket -> nat)
    requires Partitioned(s) && OneProcessor(s) && !Drained(s)
    ensures Enabled(s, NextStep(s, fate))
  {
    if s.proc.Waiting? {
      assert s.proc.item in Places(s);
      OnePlace(s, s.proc.item);
    }
  }

  lemma NextStepEffect(s: State, fate: Ticket -> nat)
    requires OneProcessor(s) && Enabled(s, NextStep(s, fate))
    ensures var s' := Apply(s, NextStep(s, fate));
            && |s'.attempt| == |s.attempt|
            && (s.proc.Waiting? ==> s'.runs == s.runs + [Run(s.proc.item, Fails(s.runs, s.proc.item) == fate(s.proc.item))])
            && (!s.proc.Waiting? ==> s'.runs == s.runs && Distance(s') < Distance(s))
  {
  }

  lemma ObeysOneMore(runs: seq<Run>, t: Ticket, fate: Ticket -> nat)
    requires Obeys(runs, fate)
    ensures Obeys(runs + [Run(t, Fails(runs, t) == fate(t))], fate)
  {
    var more := runs + [Run(t, Fails(runs, t) == fate(t))];
    forall i | 0 <= i < |more|
      ensures more[i].ok <==> Fails(more[..i], more[i].ticket) == fate(more[i].ticket)
    {
      assert more[..i] == runs[..i];
      assert runs[..|runs|] == runs;
    }
  }

  /** Everything that a drained run is built on. */
  ghost predicate Drainable(s: State, fate: Ticket -> nat) {
    Inv(s) && Obeys(s.runs, fate) && WorkConserved(s, fate) && FailsBelowFate(s, fate)
  }

  lemma NextStepKeeps(s: State, fate: Ticket -> nat)
    requires Drainable(s, fate) && !Drained(s)
    ensures var step := NextStep(s, fate);
            Enabled(s, step) && Drainable(Apply(s, step), fate)
  {
    hide RetryProtocol.Apply, WorkConserved, FailsBelowFate, Obeys;
    NextStepEnabled(s, fate);
    NextStepEffect(s, fate);
    if s.proc.Waiting? {
      ObeysOneMore(s.runs, s.proc.item, fate);
    }
    hide RetryProtocol.Inv;
    InvStep(s, NextStep(s, fate));
    WorkStep(s, NextStep(s, fate), fate);
  }

  lemma RunsBounded(s: State, fate: Ticket -> nat)
    requires Drainable(s, fate)
    ensures |s.runs| <= TotalRuns(|s.attempt|, fate)
  {
    WorkIsPositive(Line(s), s.runs, fate);
  }

  lemma {:induction false} Drain(s: State, fate: Ticket -> nat) returns (steps: seq<Step>)
    requires Drainable(s, fate)
    ensures Legal(s, steps) && Drained(After(s, steps))
    ensures |After(s, steps).attempt| == |s.attempt|
    ensures Obeys(After(s, steps).runs, fate) && Inv(After(s, steps))
    ensures |After(s, steps).runs| == TotalRuns(|s.attempt|, fate)
    decreases TotalRuns(|s.attempt|, fate) - |s.runs|, Distance(s)
  {
    if Drained(s) {
      steps := [];
    } else {
      hide RetryProtocol.Apply, RetryProtocol.Enabled, Drainable;
      var step := NextStep(s, fate);
      NextStepKeeps(s, fate);
      InvOf(s, fate);
      NextStepEffect(s, fate);
      RunsBounded(Apply(s, step), fate);
      var rest := Drain(Apply(s, step), fate);
      steps := [step] + rest;
      assert steps[1..] == rest;
    }
  }

  lemma InvOf(s: State, fate: Ticket -> nat)
    requires Drainable(s, fate)
    ensures OneProcessor(s)
  {
  }

  lemma DrainedIsCompleted(s: State)
    requires Inv(s) && Drained(s)
    ensures multiset(s.completed) == multiset(Range(0, |s.attempt|))
  {
    assert Places(s) == multiset(s.completed);
  }

  /**
   * Every reachable state, be an item in its backoff, failing or interrupted and
   * be Start or Stop under way, has a continuation without Adds that executes
   * exactly the missing executions and completes every item ever added.
   */
  lemma AlwaysDrainable(history: seq<Step>, fate: Ticket -> nat) returns (steps: seq<Step>)
    requires Legal(Init(), history) && Obeys(After(Init(), history).runs, fate)
    ensures var s := After(Init(), history);
            && Legal(s, steps)
            && Obeys(After(s, steps).runs, fate)
            && Executions(steps) == TotalRuns(|s.attempt|, fate) - |s.runs|
            && After(s, steps).items == []
            && multiset(After(s, steps).completed) == multiset(Range(0, |s.attempt|))
  {
    var s := After(Init(), history);
    ReachableTrack(history, fate);
    hide RetryProtocol.Init, RetryProtocol.Inv, WorkConserved, FailsBelowFate, Obeys;
    steps := Drain(s, fate);
    RunsGrow(s, steps);
    DrainedIsCompleted(After(s, steps));
  }
}
