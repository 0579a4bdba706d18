/** When the queue is left without a processor although it counts as running. */
module RetryLifecycle {
  import opened RetryProtocol
  import opened RetryInvariants

  /** running is set, no call of Start or Stop is under way, and the processor has returned. */
  ghost predicate Abandoned(s: State) {
    s.life.Free? && s.running && s.proc.Absent?
  }

  /** A run during which nobody calls Stop, cancels the context or launches a processor. */
  ghost predicate LeftAlone(steps: seq<Step>) {
    forall i :: 0 <= i < |steps| ==> !steps[i].StopClose? && !steps[i].Cancel? && !steps[i].Launch?
  }

  // ----- no way back without Stop -----

  /**
   * A processor that has returned is not replaced: until Stop is called, no
   * Start spawns another one and nothing is executed.
   */
  lemma {:induction false} AbandonedUntilStop(s: State, steps: seq<Step>)
    requires Abandoned(s) && Legal(s, steps)
    requires forall i :: 0 <= i < |steps| ==> !steps[i].StopClose?
    ensures Abandoned(After(s, steps))
    ensures After(s, steps).runs == s.runs
    decreases |steps|
  {
    if steps != [] {
      assert !steps[0].StopClose?;
      AbandonedUntilStop(Apply(s, steps[0]), steps[1..]);
    }
  }

  /** A run that gets there: Start with a context that is already cancelled. */
  lemma AbandonedRun() returns (steps: seq<Step>)
    ensures Legal(Init(), steps) && Abandoned(After(Init(), steps))
  {
    var s1 := Apply(Init(), StartSwap);
    var s2 := Apply(s1, Launch(true));
    StepThen(s2, Exit, Apply(s2, Exit), []);
    StepThen(s1, Launch(true), s2, [Exit] + []);
    StepThen(Init(), StartSwap, s1, [Launch(true)] + ([Exit] + []));
    steps := [StartSwap] + ([Launch(true)] + ([Exit] + []));
  }

  // ----- exactly when it happens -----

  lemma CancelledStep(s: State, step: Step)
    requires OneProcessor(s) && Enabled(s, step) && (Abandoned(s) ==> s.ctxDone)
    ensures Abandoned(Apply(s, step)) ==> Apply(s, step).ctxDone
  {
  }

  /** Only a cancelled context makes a processor return while it counts as running. */
  lemma {:induction false} AbandonedIsCancelled(s: State, steps: seq<Step>)
    requires OneProcessor(s) && (Abandoned(s) ==> s.ctxDone) && Legal(s, steps)
    ensures OneProcessor(After(s, steps)) && (Abandoned(After(s, steps)) ==> After(s, steps).ctxDone)
    decreases |steps|
  {
    if steps != [] {
      ProcessorStep(s, steps[0]);
      CancelledStep(s, steps[0]);
      AbandonedIsCancelled(Apply(s, steps[0]), steps[1..]);
    }
  }

  /** Not yet abandoned, and no way to become so without Stop, Cancel or a Launch. */
  ghost predicate Kept(s: State) {
    s.life.Launching? || (s.life.Free? && !(s.running && s.ctxDone) && (s.proc.Absent? ==> !s.running))
  }

  lemma {:induction false} KeptWhileAlone(s: State, steps: seq<Step>)
    requires OneProcessor(s) && Kept(s) && Legal(s, steps) && LeftAlone(steps)
    ensures Kept(After(s, steps))
    decreases |steps|
  {
    if steps != [] {
      var first := steps[0];
      assert !first.StopClose? && !first.Cancel? && !first.Launch?;
      ProcessorStep(s, first);
      KeptWhileAlone(Apply(s, first), steps[1..]);
    }
  }

  /** What the processor does next to get to its return. */
  function LeaveStep(p: Processor): Step
    requires !p.Absent?
  {
    match p
    case Idle => Exit
    case Waiting(_) => Interrupt
    case Interrupted(_) => Prepend
    case Failing(_) => Append
    case Succeeded(_) => Decrement
    case Completing(_) => Complete
  }

  function StepsToLeave(p: Processor): nat {
    match p
    case Absent => 0
    case Idle => 1
    case Waiting(_) => 3
    case Succeeded(_) => 3
    case _ => 2
  }

  lemma {:induction false} Leave(s: State) returns (steps: seq<Step>)
    requires s.life.Free? && s.running && s.ctxDone
    ensures Legal(s, steps) && LeftAlone(steps) && Abandoned(After(s, steps))
    decreases StepsToLeave(s.proc)
  {
    if s.proc.Absent? {
      steps := [];
    } else {
      var first := LeaveStep(s.proc);
      var rest := Leave(Apply(s, first));
      steps := [first] + rest;
      assert steps[1..] == rest;
    }
  }

  /**
   * From every reachable state between calls of Start and Stop: left alone, the
   * queue can lose its processor for good if and only if it counts as running
   * and the context given to Start is cancelled.
   */
  lemma AbandonedIff(history: seq<Step>)
    requires Legal(Init(), history) && After(Init(), history).life.Free?
    ensures var s := After(Init(), history);
            (s.running && s.ctxDone) <==>
              exists steps :: Legal(s, steps) && LeftAlone(steps) && Abandoned(After(s, steps))
  {
    var s := After(Init(), history);
    AbandonedIsCancelled(Init(), history);
    if s.running && s.ctxDone {
      var steps := Leave(s);
    } else {
      forall steps | Legal(s, steps) && LeftAlone(steps)
        ensures !Abandoned(After(s, steps))
      {
        KeptWhileAlone(s, steps);
      }
    }
  }
}
