/** What the retry queue promises over whole runs. */
module RetryTheorems {
  import opened Int64s
  import opened RetryProtocol
  import opened RetryInvariants

  function Executions(steps: seq<Step>): nat {
    if steps == [] then 0 else (if steps[0].Execute? then 1 else 0) + Executions(steps[1..])
  }

  ghost predicate Executed(runs: seq<Run>, t: Ticket) {
    exists i :: 0 <= i < |runs| && runs[i].ticket == t
  }

  // ----- every reachable state -----

  lemma ReachableInv(steps: seq<Step>)
    requires Legal(Init(), steps)
    ensures Inv(After(Init(), steps))
  {
    InitInv();
    InvAfter(Init(), steps);
  }

  /** depth is the queue length except for the adders and the item on their way. */
  lemma DepthIsExact(steps: seq<Step>)
    requires Legal(Init(), steps)
    ensures var s := After(Init(), steps);
            && s.depth == |s.items| + |InFlight(s.proc)| - |s.adders|
            && (s.adders == {} && InFlight(s.proc) == [] ==> s.depth == |s.items|)
  {
    ReachableInv(steps);
  }

  /** An item can be executed and counted out before its Add counts it in. */
  lemma DepthCanBeNegative() returns (steps: seq<Step>)
    ensures Legal(Init(), steps) && After(Init(), steps).depth == -1
  {
    var s1 := Apply(Init(), AddAppend(0));
    var s2 := Apply(s1, StartSwap);
    var s3 := Apply(s2, Launch(false));
    var s4 := Apply(s3, Pop);
    var s5 := Apply(s4, Execute(true));
    var s6 := Apply(s5, Decrement);
    StepThen(s5, Decrement, s6, []);
    StepThen(s4, Execute(true), s5, [Decrement] + []);
    StepThen(s3, Pop, s4, [Execute(true)] + ([Decrement] + []));
    var tail := [Pop] + ([Execute(true)] + ([Decrement] + []));
    StepThen(s2, Launch(false), s3, tail);
    StepThen(s1, StartSwap, s2, [Launch(false)] + tail);
    StepThen(Init(), AddAppend(0), s1, [StartSwap] + ([Launch(false)] + tail));
    steps := [AddAppend(0)] + ([StartSwap] + ([Launch(false)] + tail));
  }

  /**
   * Items are first executed in the order in which they were added, and those
   * never executed wait in that order, whatever was interrupted, stopped or
   * started in between.
   */
  lemma FirstRunsInAddOrder(steps: seq<Step>)
    requires Legal(Init(), steps)
    ensures var s := After(Init(), steps);
            var k := |FirstRuns(s.runs)|;
            && k <= |s.attempt|
            && FirstRuns(s.runs) == Range(0, k)
            && NotBelow(Line(s), k) == Range(k, |s.attempt|)
            && (forall t: Ticket :: t < k <==> Executed(s.runs, t))
  {
    ReachableInv(steps);
    var s := After(Init(), steps);
    var k :| FirstRunPrefix(s, k);
    assert |Range(0, k)| == k;
    forall t: Ticket
      ensures t < k <==> Executed(s.runs, t)
    {
      FirstRunsMembers(s.runs, t);
      assert t < k ==> Range(0, k)[t] == t;
    }
  }

  /** No item is lost or duplicated, and none is completed twice or before it succeeded. */
  lemma NothingLostOrDuplicated(steps: seq<Step>)
    requires Legal(Init(), steps)
    ensures var s := After(Init(), steps);
            && multiset(s.items) + multiset(InFlight(s.proc)) + multiset(Done(s)) == multiset(Range(0, |s.attempt|))
            && (forall t :: multiset(s.completed)[t] <= 1)
            && (forall t :: t in s.completed ==>
                  exists i :: 0 <= i < |s.runs| && s.runs[i] == Run(t, true)
                              && forall j :: i < j < |s.runs| ==> s.runs[j].ticket != t)
  {
    ReachableInv(steps);
    var s := After(Init(), steps);
    forall t {:trigger multiset(s.completed)[t]}
      ensures multiset(s.completed)[t] <= 1
    {
      if t >= 0 {
        OnePlace(s, t);
      } else if t in s.completed {
        assert false;
      }
    }
    forall t | t in s.completed
      ensures exists i :: 0 <= i < |s.runs| && s.runs[i] == Run(t, true)
                          && forall j :: i < j < |s.runs| ==> s.runs[j].ticket != t
    {
      assert Finished(s, t);
      var i :| 0 <= i < |s.runs| && s.runs[i] == Run(t, true);
      assert forall j :: i < j < |s.runs| ==> s.runs[j].ticket != t;
    }
  }

  lemma {:induction false} BumpedWraps(a: int64, n: nat)
    ensures Bumped(a, n) == Wrap(a + n)
  {
    if n > 0 {
      BumpedWraps(a, n - 1);
      WrapIncrement(a + n - 1);
    }
  }

  lemma CountedAttempt(s: State, t: Ticket)
    requires AttemptsCounted(s) && t < |s.attempt|
    ensures t < |s.initial| && s.attempt[t] == Wrap(s.initial[t] + Fails(s.runs, t))
  {
    hide Fails;
    BumpedWraps(s.initial[t], Fails(s.runs, t));
  }

  /** Attempt is its initial value plus the number of failed executions, as an int64. */
  lemma AttemptCountsFailures(steps: seq<Step>, t: Ticket)
    requires Legal(Init(), steps) && t < |After(Init(), steps).attempt|
    ensures var s := After(Init(), steps);
            t < |s.initial| && s.attempt[t] == Wrap(s.initial[t] + Fails(s.runs, t))
  {
    ReachableInv(steps);
    hide RetryProtocol.Init, RetryProtocol.Legal, RetryProtocol.After;
    CountedAttempt(After(Init(), steps), t);
  }

  /** Start never spawns a second processor, and Stop never closes a closed channel. */
  lemma LifecycleIsSafe(steps: seq<Step>, next: Step)
    requires Legal(Init(), steps) && Enabled(After(Init(), steps), next)
    ensures var s := After(Init(), steps);
            && (next.Launch? ==> s.proc.Absent?)
            && (next.StopClose? ==> !s.stopClosed)
            && (next.Renew? ==> s.proc.Absent?)
  {
    ReachableInv(steps);
  }

  // ----- waiting -----

  lemma PositionStep(s: State, step: Step, k: nat)
    requires Enabled(s, step) && k < |Line(s)|
    requires s.proc.Failing? ==> k < |s.items|
    requires step.Execute? ==> k > 0
    requires OneProcessor(s)
    ensures var s' := Apply(s, step);
            var k' := if step.Execute? then k - 1 else k;
            && k' < |Line(s')|
            && Line(s')[k'] == Line(s)[k]
            && (s'.proc.Failing? ==> k' < |s'.items|)
  {
    if step.Execute? {
      ExecuteEffect(s, step.ok);
      hide RetryProtocol.Apply, RetryProtocol.Line, OneProcessor;
    } else if step.AddAppend? {
      AddLine(s, step.attempt);
      hide RetryProtocol.Apply, RetryProtocol.Line, OneProcessor;
    } else {
      QuietOrder(s, step);
      QuietItems(s, step);
      hide RetryProtocol.Apply, RetryProtocol.Line, OneProcessor;
    }
  }

  /** An Add puts its item behind the queue, before an item that is failing. */
  lemma AddLine(s: State, a: int64)
    ensures var s' := Apply(s, AddAppend(a));
            && s'.proc == s.proc
            && s'.items == s.items + [|s.attempt|]
            && (if s.proc.Failing? then Line(s) == s.items + [s.proc.item] && Line(s') == s'.items + [s.proc.item]
                else Line(s') == Line(s) + [|s.attempt|])
  {
  }

  lemma QuietItems(s: State, step: Step)
    requires Enabled(s, step) && !step.AddAppend? && !step.Execute?
    ensures Apply(s, step).proc.Failing? ==> Apply(s, step).items == s.items
  {
  }

  /**
   * An item waiting at position k moves forward by exactly one place with every
   * execution and by nothing else: concurrent Adds, interrupted backoffs, Stop
   * and Start, and the outcomes of the items ahead make no difference. So it is
   * the next item to run after exactly k executions.
   */
  lemma {:induction false} BoundedWaiting(s: State, steps: seq<Step>, k: nat)
    requires OneProcessor(s) && Legal(s, steps) && k < |Line(s)|
    requires s.proc.Failing? ==> k < |s.items|
    requires Executions(steps) <= k
    ensures var s' := After(s, steps);
            var k' := k - Executions(steps);
            k' < |Line(s')| && Line(s')[k'] == Line(s)[k]
    decreases |steps|
  {
    if steps != [] {
      PositionStep(s, steps[0], k);
      ProcessorStep(s, steps[0]);
      BoundedWaiting(Apply(s, steps[0]), steps[1..], if steps[0].Execute? then k - 1 else k);
    }
  }

  // ----- draining -----

  /** RetryFunc of item t fails its first fate(t) calls and then succeeds. */
  ghost predicate Obeys(runs: seq<Run>, fate: Ticket -> nat) {
    forall i :: 0 <= i < |runs| ==>
      (runs[i].ok <==> Fails(runs[..i], runs[i].ticket) == fate(runs[i].ticket))
  }

  /** The executions the items of line still need. */
  function Work(line: seq<Ticket>, runs: seq<Run>, fate: Ticket -> nat): int {
    if line == [] then 0
    else fate(line[0]) - Fails(runs, line[0]) + 1 + Work(line[1..], runs, fate)
  }

  lemma {:induction false} WorkAppend(a: seq<Ticket>, b: seq<Ticket>, runs: seq<Run>, fate: Ticket -> nat)
    ensures Work(a + b, runs, fate) == Work(a, runs, fate) + Work(b, runs, fate)
  {
    if a == [] {
      assert a + b == b;
    } else {
      assert (a + b)[1..] == a[1..] + b;
      WorkAppend(a[1..], b, runs, fate);
    }
  }

  /** A run of another item changes nothing about the work left for line. */
  lemma {:induction false} WorkFrame(line: seq<Ticket>, runs: seq<Run>, r: Run, fate: Ticket -> nat)
    requires r.ticket !in line
    ensures Work(line, runs + [r], fate) == Work(line, runs, fate)
  {
    if line != [] {
      FailsAppend(runs, r, line[0]);
      WorkFrame(line[1..], runs, r, fate);
    }
  }

  /** The executions the first n added items need altogether. */
  function TotalRuns(n: nat, fate: Ticket -> nat): nat {
    if n == 0 then 0 else TotalRuns(n - 1, fate) + fate(n - 1) + 1
  }

  /** Executions done and still to do add up to what the added items need altogether. */
  ghost predicate WorkConserved(s: State, fate: Ticket -> nat) {
    |s.runs| + Work(Line(s), s.runs, fate) == TotalRuns(|s.attempt|, fate)
  }

  ghost predicate FailsBelowFate(s: State, fate: Ticket -> nat) {
    forall t :: t in Line(s) ==> Fails(s.runs, t) <= fate(t)
  }

  lemma WorkStep(s: State, step: Step, fate: Ticket -> nat)
    requires Inv(s) && Enabled(s, step) && Obeys(Apply(s, step).runs, fate)
    requires WorkConserved(s, fate) && FailsBelowFate(s, fate)
    ensures WorkConserved(Apply(s, step), fate) && FailsBelowFate(Apply(s, step), fate)
  {
    if step.AddAppend? {
      AddWork(s, step.attempt, fate);
    } else if step.Execute? {
      ExecuteWork(s, step.ok, fate);
    } else {
      QuietOrder(s, step);
    }
  }

  lemma AddWork(s: State, a: int64, fate: Ticket -> nat)
    requires SuccessIsFinal(s) && WorkConserved(s, fate) && FailsBelowFate(s, fate)
    ensures WorkConserved(Apply(s, AddAppend(a)), fate) && FailsBelowFate(Apply(s, AddAppend(a)), fate)
  {
    var n := |s.attempt|;
    var s' := Apply(s, AddAppend(a));
    FailsNone(s.runs, n);
    WorkAppend(s.items, [n], s.runs, fate);
    if s.proc.Failing? {
      WorkAppend(s.items, [s.proc.item], s.runs, fate);
      WorkAppend(s.items + [n], [s.proc.item], s.runs, fate);
    } else {
      assert Line(s') == Line(s) + [n];
      WorkAppend(Line(s), [n], s.runs, fate);
    }
  }

  /** Running the head costs one execution of the work left, whatever its outcome. */
  lemma HeadWork(items: seq<Ticket>, runs: seq<Run>, r: Run, fate: Ticket -> nat)
    requires r.ticket !in items && (r.ok <==> Fails(runs, r.ticket) == fate(r.ticket))
    ensures Work([r.ticket] + items, runs, fate)
         == 1 + Work(if r.ok then items else items + [r.ticket], runs + [r], fate)
  {
    var t := r.ticket;
    assert ([t] + items)[1..] == items;
    FailsAppend(runs, r, t);
    WorkFrame(items, runs, r, fate);
    WorkAppend(items, [t], runs + [r], fate);
  }

  lemma HeadFails(line: seq<Ticket>, runs: seq<Run>, r: Run, fate: Ticket -> nat)
    requires forall t :: t in line ==> Fails(runs, t) <= fate(t)
    requires r.ok <==> Fails(runs, r.ticket) == fate(r.ticket)
    ensures forall t :: t in line ==> Fails(runs + [r], t) <= fate(t)
  {
    forall t | t in line {
      FailsAppend(runs, r, t);
    }
  }

  lemma HeadNotQueued(s: State)
    requires Partitioned(s) && s.proc.Waiting?
    ensures s.proc.item !in s.items
  {
    OnePlace(s, s.proc.item);
  }

  lemma OutcomeIsFated(s: State, ok: bool, fate: Ticket -> nat)
    requires Enabled(s, Execute(ok)) && Obeys(Apply(s, Execute(ok)).runs, fate)
    ensures ok <==> Fails(s.runs, s.proc.item) == fate(s.proc.item)
  {
    var s' := Apply(s, Execute(ok));
    assert s'.runs[|s.runs|] == Run(s.proc.item, ok) && s'.runs[..|s.runs|] == s.runs;
  }

  lemma ExecuteWork(s: State, ok: bool, fate: Ticket -> nat)
    requires Partitioned(s) && Enabled(s, Execute(ok)) && Obeys(Apply(s, Execute(ok)).runs, fate)
    requires WorkConserved(s, fate) && FailsBelowFate(s, fate)
    ensures WorkConserved(Apply(s, Execute(ok)), fate) && FailsBelowFate(Apply(s, Execute(ok)), fate)
  {
    hide RetryProtocol.Apply, RetryProtocol.Line, Partitioned, Obeys, Work, Fails;
    var r := Run(s.proc.item, ok);
    HeadNotQueued(s);
    ExecuteEffect(s, ok);
    OutcomeIsFated(s, ok, fate);
    HeadWork(s.items, s.runs, r, fate);
    HeadFails(Line(s), s.runs, r, fate);
  }

  lemma ObeysPrefix(runs: seq<Run>, more: seq<Run>, fate: Ticket -> nat)
    requires Obeys(runs + more, fate)
    ensures Obeys(runs, fate)
  {
    forall i | 0 <= i < |runs|
      ensures runs[i].ok <==> Fails(runs[..i], runs[i].ticket) == fate(runs[i].ticket)
    {
      assert (runs + more)[i] == runs[i] && (runs + more)[..i] == runs[..i];
    }
  }

  lemma {:induction false} RunsGrow(s: State, steps: seq<Step>)
    requires Legal(s, steps)
    ensures |After(s, steps).runs| == |s.runs| + Executions(steps)
    ensures After(s, steps).runs[..|s.runs|] == s.runs
    decreases |steps|
  {
    if steps != [] {
      var s1 := Apply(s, steps[0]);
      RunsOneMore(s, steps[0]);
      hide RetryProtocol.Apply, RetryProtocol.Enabled;
      RunsGrow(s1, steps[1..]);
      assert After(s, steps).runs[..|s.runs|] == s1.runs[..|s.runs|];
    }
  }

  lemma RunsOneMore(s: State, step: Step)
    requires Enabled(s, step)
    ensures |Apply(s, step).runs| == |s.runs| + if step.Execute? then 1 else 0
    ensures Apply(s, step).runs[..|s.runs|] == s.runs
  {
  }

  lemma ObeysBefore(s: State, steps: seq<Step>, fate: Ticket -> nat)
    requires Legal(s, steps) && Obeys(After(s, steps).runs, fate)
    ensures Obeys(s.runs, fate)
  {
    hide RetryProtocol.Legal, RetryProtocol.After, Obeys;
    RunsGrow(s, steps);
    var last := After(s, steps).runs;
    assert last == s.runs + last[|s.runs|..];
    ObeysPrefix(s.runs, last[|s.runs|..], fate);
  }

  lemma {:induction false} WorkAfter(s: State, steps: seq<Step>, fate: Ticket -> nat)
    requires Inv(s) && Legal(s, steps) && Obeys(After(s, steps).runs, fate)
    requires WorkConserved(s, fate) && FailsBelowFate(s, fate)
    ensures WorkConserved(After(s, steps), fate) && FailsBelowFate(After(s, steps), fate)
    decreases |steps|
  {
    if steps != [] {
      hide RetryProtocol.Apply, RetryProtocol.Enabled, RetryProtocol.Inv, Obeys, WorkConserved, FailsBelowFate, Executions;
      var s1 := Apply(s, steps[0]);
      ObeysBefore(s1, steps[1..], fate);
      WorkStep(s, steps[0], fate);
      InvStep(s, steps[0]);
      WorkAfter(s1, steps[1..], fate);
    }
  }

  lemma {:induction false} WorkIsPositive(line: seq<Ticket>, runs: seq<Run>, fate: Ticket -> nat)
    requires forall t :: t in line ==> Fails(runs, t) <= fate(t)
    ensures Work(line, runs, fate) >= |line|
  {
    if line != [] {
      WorkIsPositive(line[1..], runs, fate);
    }
  }

  lemma InitTrack(fate: Ticket -> nat)
    ensures Inv(Init()) && Init().runs == []
    ensures WorkConserved(Init(), fate) && FailsBelowFate(Init(), fate)
  {
    InitInv();
  }

  /** In every reachable state that keeps to the fates, work is conserved. */
  lemma ReachableTrack(steps: seq<Step>, fate: Ticket -> nat)
    requires Legal(Init(), steps) && Obeys(After(Init(), steps).runs, fate)
    ensures var s := After(Init(), steps);
            && Inv(s) && WorkConserved(s, fate) && FailsBelowFate(s, fate)
            && |s.runs| == Executions(steps)
  {
    InitTrack(fate);
    hide RetryProtocol.Init, RetryProtocol.Inv, RetryProtocol.Legal, RetryProtocol.After;
    hide Obeys, WorkConserved, FailsBelowFate, Executions;
    WorkAfter(Init(), steps, fate);
    InvAfter(Init(), steps);
    RunsGrow(Init(), steps);
  }

  /**
   * When item t fails fate(t) times before it succeeds, the n items added so
   * far need exactly the sum of fate(t) + 1 executions: there are never more,
   * and the queue is drained at the last of them and not before, under every
   * interleaving of adders, interrupts and restarts.
   */
  lemma Draining(steps: seq<Step>, fate: Ticket -> nat)
    requires Legal(Init(), steps) && Obeys(After(Init(), steps).runs, fate)
    ensures var s := After(Init(), steps);
            && |s.runs| == Executions(steps)
            && |s.runs| + |Line(s)| <= TotalRuns(|s.attempt|, fate)
            && (|s.runs| == TotalRuns(|s.attempt|, fate) <==> Line(s) == [])
  {
    hide RetryProtocol.Init, RetryProtocol.Inv, RetryProtocol.Legal, RetryProtocol.After;
    hide Obeys, WorkConserved, FailsBelowFate, TotalRuns;
    ReachableTrack(steps, fate);
    DrainedAtTheEnd(After(Init(), steps), fate);
  }

  lemma DrainedAtTheEnd(s: State, fate: Ticket -> nat)
    requires WorkConserved(s, fate) && FailsBelowFate(s, fate)
    ensures |s.runs| + |Line(s)| <= TotalRuns(|s.attempt|, fate)
    ensures |s.runs| == TotalRuns(|s.attempt|, fate) <==> Line(s) == []
  {
    WorkIsPositive(Line(s), s.runs, fate);
  }
}
