/** The invariant of the retry queue holds in every state of every run, and what it means. */
module RetryInvariants {
  import opened Int64s
  import opened RetryProtocol

  // ----- facts about the history functions -----

  lemma FailsAppend(runs: seq<Run>, r: Run, t: Ticket)
    ensures Fails(runs + [r], t) == Fails(runs, t) + if r == Run(t, false) then 1 else 0
  {
    assert (runs + [r])[..|runs|] == runs;
  }

  lemma {:induction false} FailsNone(runs: seq<Run>, t: Ticket)
    requires forall i :: 0 <= i < |runs| ==> runs[i].ticket != t
    ensures Fails(runs, t) == 0
  {
    if runs != [] {
      FailsNone(runs[..|runs| - 1], t);
    }
  }

  lemma FirstRunsAppend(runs: seq<Run>, r: Run)
    ensures FirstRuns(runs + [r])
         == FirstRuns(runs) + if r.ticket in FirstRuns(runs) then [] else [r.ticket]
  {
    assert (runs + [r])[..|runs|] == runs;
  }

  lemma {:induction false} FirstRunsMembers(runs: seq<Run>, t: Ticket)
    ensures t in FirstRuns(runs) <==> exists i :: 0 <= i < |runs| && runs[i].ticket == t
  {
    if runs != [] {
      var m := |runs| - 1;
      FirstRunsMembers(runs[..m], t);
      assert forall i :: 0 <= i < m ==> runs[..m][i] == runs[i];
      if t in FirstRuns(runs[..m]) {
        var i :| 0 <= i < m && runs[..m][i].ticket == t;
        assert runs[i].ticket == t;
      }
    }
  }

  lemma {:induction false} NotBelowAppend(a: seq<Ticket>, b: seq<Ticket>, k: nat)
    ensures NotBelow(a + b, k) == NotBelow(a, k) + NotBelow(b, k)
  {
    if a == [] {
      assert a + b == b;
    } else {
      assert (a + b)[0] == a[0] && (a + b)[1..] == a[1..] + b;
      NotBelowAppend(a[1..], b, k);
      var first := if a[0] >= k then [a[0]] else [];
      assert first + (NotBelow(a[1..], k) + NotBelow(b, k)) == first + NotBelow(a[1..], k) + NotBelow(b, k);
    }
  }

  /** When the waiting items are k, k+1, .., raising the bound to k+1 drops exactly k. */
  lemma {:induction false} NotBelowNext(line: seq<Ticket>, k: nat, n: nat)
    requires k < n && NotBelow(line, k) == Range(k, n)
    ensures NotBelow(line, k + 1) == Range(k + 1, n)
  {
    NotBelowRaise(line, k);
    assert Range(k, n) == [k] + Range(k + 1, n);
    NotBelowAppend([k], Range(k + 1, n), k + 1);
    NotBelowAll(Range(k + 1, n), k + 1);
  }

  lemma {:induction false} NotBelowRaise(line: seq<Ticket>, k: nat)
    ensures NotBelow(line, k + 1) == NotBelow(NotBelow(line, k), k + 1)
  {
    if line != [] {
      NotBelowRaise(line[1..], k);
      var rest := NotBelow(line[1..], k);
      if line[0] >= k {
        assert ([line[0]] + rest)[1..] == rest;
      } else {
        assert [] + rest == rest;
      }
    }
  }

  lemma {:induction false} NotBelowAll(line: seq<Ticket>, k: nat)
    requires forall i :: 0 <= i < |line| ==> line[i] >= k
    ensures NotBelow(line, k) == line
  {
    if line != [] {
      NotBelowAll(line[1..], k);
    }
  }

  lemma RangeMember(n: nat, t: nat)
    ensures multiset(Range(0, n))[t] == if t < n then 1 else 0
    decreases n
  {
    if n > 0 {
      RangeMember(n - 1, t);
      assert Range(0, n) == Range(0, n - 1) + [n - 1];
    }
  }

  lemma RangeGrows(n: nat)
    ensures multiset(Range(0, n + 1)) == multiset(Range(0, n)) + multiset{n}
  {
    assert Range(0, n + 1) == Range(0, n) + [n];
  }

  /** An item is in no two places at once. */
  lemma OnePlace(s: State, t: Ticket)
    requires Partitioned(s)
    ensures Places(s)[t] == if t < |s.attempt| then 1 else 0
  {
    RangeMember(|s.attempt|, t);
  }

  // ----- preservation, part by part -----

  /** The processor's steps keep the sum of the counts. */
  lemma MoveDepth(s: State, step: Step)
    requires OneProcessor(s) && Enabled(s, step) && !step.AddAppend? && !step.AddBump?
    ensures var s' := Apply(s, step);
            && s'.adders == s.adders && |s'.attempt| == |s.attempt|
            && |s'.items| + |InFlight(s'.proc)| - s'.depth == |s.items| + |InFlight(s.proc)| - s.depth
  {
  }

  lemma DepthStep(s: State, step: Step)
    requires DepthCounts(s) && OneProcessor(s) && Enabled(s, step)
    ensures DepthCounts(Apply(s, step))
  {
    if !step.AddAppend? && !step.AddBump? {
      hide RetryProtocol.Apply;
      MoveDepth(s, step);
    }
  }

  /** What a step that moves an item does to the three places. */
  lemma MoveEffect(s: State, step: Step)
    requires Enabled(s, step) && (step.Pop? || step.Prepend? || step.Append? || step.Decrement?)
    ensures var s' := Apply(s, step);
            var t := if step.Pop? then s.items[0] else s.proc.item;
            && InFlight(s.proc) == (if step.Pop? then [] else [t])
            && InFlight(s'.proc) == (if step.Pop? then [t] else [])
            && s'.items == (match step
                            case Pop => s.items[1..]
                            case Prepend => [t] + s.items
                            case Append => s.items + [t]
                            case _ => s.items)
            && Done(s') == (if step.Decrement? then Done(s) + [t] else Done(s))
  {
  }

  /** One item moved between the three places leaves their sum. */
  lemma SumOfPlaces(q: seq<Ticket>, t: Ticket, done: seq<Ticket>)
    ensures var sum := multiset(q) + multiset([t]) + multiset(done);
            && multiset([t] + q) + multiset([]) + multiset(done) == sum
            && multiset(q + [t]) + multiset([]) + multiset(done) == sum
            && multiset(q) + multiset([]) + multiset(done + [t]) == sum
  {
    var empty: seq<Ticket> := [];
    assert multiset([t] + q) == multiset(q) + multiset([t]);
    assert multiset(q + [t]) == multiset(q) + multiset([t]);
    assert multiset(done + [t]) == multiset(done) + multiset([t]);
    assert multiset(empty) == multiset{};
  }

  lemma MovePlaces(s: State, step: Step)
    requires Enabled(s, step) && (step.Pop? || step.Prepend? || step.Append? || step.Decrement?)
    ensures Places(Apply(s, step)) == Places(s)
  {
    MoveEffect(s, step);
    var t := if step.Pop? then s.items[0] else s.proc.item;
    var q := if step.Pop? then s.items[1..] else s.items;
    assert step.Pop? ==> s.items == [t] + q;
    var s' := Apply(s, step);
    hide RetryProtocol.Apply, RetryProtocol.Enabled, RetryProtocol.InFlight, RetryProtocol.Done;
    SumOfPlaces(q, t, Done(s));
  }

  /** The other steps leave every item where it is. */
  lemma StillPlaces(s: State, step: Step)
    requires !step.AddAppend? && !step.Pop? && !step.Prepend? && !step.Append? && !step.Decrement?
    requires OneProcessor(s) && Enabled(s, step)
    ensures var s' := Apply(s, step);
            s'.items == s.items && InFlight(s'.proc) == InFlight(s.proc) && Done(s') == Done(s)
  {
  }

  lemma AddPlaces(s: State, a: int64)
    ensures Places(Apply(s, AddAppend(a))) == Places(s) + multiset{|s.attempt|}
  {
    var n: Ticket := |s.attempt|;
    assert multiset(s.items + [n]) == multiset(s.items) + multiset{n};
  }

  /** No step but an Add changes which items exist; the others only move them. */
  lemma PlacesStep(s: State, step: Step)
    requires OneProcessor(s) && Enabled(s, step)
    ensures Places(Apply(s, step)) == Places(s) + if step.AddAppend? then multiset{|s.attempt|} else multiset{}
  {
    hide RetryProtocol.Apply;
    match step
    case AddAppend(a) => AddPlaces(s, a);
    case Pop => MovePlaces(s, step);
    case Prepend => MovePlaces(s, step);
    case Append => MovePlaces(s, step);
    case Decrement => MovePlaces(s, step);
    case _ => StillPlaces(s, step);
  }

  lemma AddedStep(s: State, step: Step)
    requires Enabled(s, step)
    ensures |Apply(s, step).attempt| == |s.attempt| + if step.AddAppend? then 1 else 0
  {
  }

  lemma PartitionStep(s: State, step: Step)
    requires Partitioned(s) && OneProcessor(s) && Enabled(s, step)
    ensures Partitioned(Apply(s, step))
  {
    hide RetryProtocol.Apply, RetryProtocol.Places;
    PlacesStep(s, step);
    AddedStep(s, step);
    if step.AddAppend? {
      RangeGrows(|s.attempt|);
    }
  }

  /** What an execution changes. */
  lemma ExecuteEffect(s: State, ok: bool)
    requires Enabled(s, Execute(ok))
    ensures var t, s' := s.proc.item, Apply(s, Execute(ok));
            && t < |s.attempt|
            && s'.runs == s.runs + [Run(t, ok)]
            && s'.initial == s.initial
            && s'.attempt == (if ok then s.attempt else s.attempt[t := Increment(s.attempt[t])])
            && s'.proc == (if ok then Succeeded(t) else Failing(t))
            && Done(s) == Done(s') == s.completed
            && Line(s) == [t] + s.items
            && Line(s') == (if ok then s.items else s.items + [t])
  {
  }

  lemma QuietAttempts(s: State, step: Step)
    requires Enabled(s, step) && !step.AddAppend? && !step.Execute?
    ensures var s' := Apply(s, step);
            s'.attempt == s.attempt && s'.initial == s.initial && s'.runs == s.runs
  {
  }

  lemma AddAttempts(s: State, a: int64)
    requires AttemptsCounted(s) && SuccessIsFinal(s)
    ensures AttemptsCounted(Apply(s, AddAppend(a)))
  {
    FailsNone(s.runs, |s.attempt|);
    hide Fails;
  }

  lemma ExecuteAttempts(s: State, ok: bool)
    requires AttemptsCounted(s) && Enabled(s, Execute(ok))
    ensures AttemptsCounted(Apply(s, Execute(ok)))
  {
    ExecuteEffect(s, ok);
    hide RetryProtocol.Apply, RetryProtocol.Enabled, RetryProtocol.Fails, RetryProtocol.Bumped, Int64s.Increment;
    var s' := Apply(s, Execute(ok));
    forall t | 0 <= t < |s.attempt|
      ensures s'.attempt[t] == Bumped(s'.initial[t], Fails(s'.runs, t))
    {
      FailsAppend(s.runs, Run(s.proc.item, ok), t);
      BumpedNext(s.initial[t], Fails(s.runs, t));
    }
  }

  lemma BumpedNext(a: int64, n: nat)
    ensures Bumped(a, n + 1) == Increment(Bumped(a, n))
  {
  }

  lemma AttemptStep(s: State, step: Step)
    requires AttemptsCounted(s) && SuccessIsFinal(s) && Enabled(s, step)
    ensures AttemptsCounted(Apply(s, step))
  {
    hide RetryProtocol.Apply, RetryProtocol.Enabled, SuccessIsFinal;
    if step.AddAppend? {
      AddAttempts(s, step.attempt);
    } else if step.Execute? {
      ExecuteAttempts(s, step.ok);
    } else {
      QuietAttempts(s, step);
    }
  }

  lemma WaitingIsUnfinished(s: State)
    requires Partitioned(s) && s.proc.Waiting?
    ensures !Finished(s, s.proc.item)
  {
    OnePlace(s, s.proc.item);
  }

  lemma ExecuteFinished(s: State, ok: bool)
    requires Enabled(s, Execute(ok))
    ensures forall u: Ticket :: Finished(Apply(s, Execute(ok)), u) <==> Finished(s, u) || (ok && u == s.proc.item)
  {
    ExecuteEffect(s, ok);
    hide RetryProtocol.Apply, RetryProtocol.Done;
  }

  lemma ExecuteSuccess(s: State, ok: bool)
    requires Partitioned(s) && SuccessIsFinal(s) && Enabled(s, Execute(ok))
    ensures SuccessIsFinal(Apply(s, Execute(ok)))
  {
    var t := s.proc.item;
    WaitingIsUnfinished(s);
    ExecuteFinished(s, ok);
    ExecuteEffect(s, ok);
    hide RetryProtocol.Apply, RetryProtocol.Enabled, RetryProtocol.Done, RetryProtocol.Line, Finished, Partitioned;
    assert forall i :: 0 <= i < |s.runs| && s.runs[i].ok ==> Run(s.runs[i].ticket, true) in s.runs;
    RunAppended(s.runs, Run(t, ok));
  }

  lemma RunAppended(runs: seq<Run>, r: Run)
    ensures forall q :: q in runs + [r] <==> q in runs || q == r
  {
  }

  lemma SuccessStep(s: State, step: Step)
    requires Partitioned(s) && SuccessIsFinal(s) && OneProcessor(s) && Enabled(s, step)
    ensures SuccessIsFinal(Apply(s, step))
  {
    if step.Execute? {
      ExecuteSuccess(s, step.ok);
    } else {
      QuietFinished(s, step);
    }
  }

  lemma QuietFinished(s: State, step: Step)
    requires OneProcessor(s) && Enabled(s, step) && !step.Execute?
    ensures var s' := Apply(s, step);
            && s'.runs == s.runs && |s'.attempt| >= |s.attempt|
            && forall t: Ticket :: Finished(s', t) <==> Finished(s, t)
  {
  }

  lemma FirstStep(s: State, step: Step)
    requires FirstComeFirstRun(s) && OneProcessor(s) && Enabled(s, step)
    ensures FirstComeFirstRun(Apply(s, step))
  {
    var s' := Apply(s, step);
    var n := |s.attempt|;
    var k :| FirstRunPrefix(s, k);
    match step
    case AddAppend(_) =>
      assert Range(k, n + 1) == Range(k, n) + [n];
      AddKeepsOrder(s, k, n);
      assert FirstRunPrefix(s', k);
    case Execute(ok) =>
      ExecuteKeepsOrder(s, k, ok);
    case _ =>
      QuietOrder(s, step);
      hide RetryProtocol.Apply, RetryProtocol.Enabled, RetryProtocol.Line, RetryProtocol.FirstRuns, RetryProtocol.NotBelow;
      assert FirstRunPrefix(s', k);
  }

  /** The other steps leave the line as it is. */
  lemma QuietOrder(s: State, step: Step)
    requires OneProcessor(s) && Enabled(s, step) && !step.AddAppend? && !step.Execute?
    ensures var s' := Apply(s, step);
            && Line(s') == Line(s) && s'.runs == s.runs && |s'.attempt| == |s.attempt|
            && (s'.proc.Failing? ==> s.proc == s'.proc)
  {
  }

  /** An item just added waits behind everything not yet executed. */
  lemma AddKeepsOrder(s: State, k: nat, n: nat)
    requires FirstRunPrefix(s, k) && n == |s.attempt|
    ensures NotBelow(Line(s.(items := s.items + [n])), k) == Range(k, n) + [n]
  {
    if s.proc.Failing? {
      NotBelowAppend(s.items, [s.proc.item], k);
      NotBelowAppend(s.items + [n], [s.proc.item], k);
      NotBelowAppend(s.items, [n], k);
    } else {
      assert Line(s.(items := s.items + [n])) == Line(s) + [n];
      NotBelowAppend(Line(s), [n], k);
    }
  }

  /** Executing the head extends the first executions by the next item in Add order, or by nothing. */
  lemma ExecuteKeepsOrder(s: State, k: nat, ok: bool)
    requires FirstRunPrefix(s, k) && Enabled(s, Execute(ok))
    ensures s.proc.item <= k
    ensures FirstRunPrefix(Apply(s, Execute(ok)), if s.proc.item < k then k else k + 1)
  {
    var s' := Apply(s, Execute(ok));
    var t := s.proc.item;
    var k' := if t < k then k else k + 1;
    HeadIsNext(s, k);
    RunExtendsFirstRuns(s.runs, Run(t, ok), k);
    ExecuteEffect(s, ok);
    hide RetryProtocol.Apply, RetryProtocol.Line, RetryProtocol.FirstRuns, RetryProtocol.NotBelow;
    BelowAtTheEnd(s.items, t, k');
  }

  lemma RunExtendsFirstRuns(runs: seq<Run>, r: Run, k: nat)
    requires FirstRuns(runs) == Range(0, k) && r.ticket <= k
    ensures FirstRuns(runs + [r]) == Range(0, if r.ticket < k then k else k + 1)
  {
    FirstRunsAppend(runs, r);
    if r.ticket < k {
      assert Range(0, k)[r.ticket] == r.ticket;
    } else {
      assert Range(0, k + 1) == Range(0, k) + [k];
    }
  }

  lemma BelowAtTheEnd(line: seq<Ticket>, t: Ticket, k: nat)
    requires t < k
    ensures NotBelow(line + [t], k) == NotBelow(line, k)
  {
    NotBelowAppend(line, [t], k);
    assert NotBelow([t], k) == [];
  }

  /** The item about to run is an old one or the next one in Add order; the rest of the line follows. */
  lemma HeadIsNext(s: State, k: nat)
    requires FirstRunPrefix(s, k) && s.proc.Waiting?
    ensures s.proc.item <= k <= |s.attempt| && (s.proc.item == k ==> k < |s.attempt|)
    ensures var k' := if s.proc.item < k then k else k + 1;
            NotBelow(s.items, k') == Range(k', |s.attempt|)
  {
    var t, n := s.proc.item, |s.attempt|;
    assert Line(s)[0] == t && Line(s)[1..] == s.items;
    if t >= k {
      assert NotBelow(Line(s), k)[0] == t;
      assert t == k;
      NotBelowNext(Line(s), k, n);
    }
  }

  lemma ProcessorStep(s: State, step: Step)
    requires OneProcessor(s) && Enabled(s, step)
    ensures OneProcessor(Apply(s, step))
  {
  }

  lemma InvStep(s: State, step: Step)
    requires Inv(s) && Enabled(s, step)
    ensures Inv(Apply(s, step))
  {
    DepthStep(s, step);
    PartitionStep(s, step);
    FirstStep(s, step);
    AttemptStep(s, step);
    SuccessStep(s, step);
    ProcessorStep(s, step);
  }

  lemma InitInv()
    ensures Inv(Init())
  {
    assert FirstRunPrefix(Init(), 0);
  }

  lemma StepThen(s0: State, a: Step, s1: State, rest: seq<Step>)
    requires Enabled(s0, a) && s1 == Apply(s0, a) && Legal(s1, rest)
    ensures Legal(s0, [a] + rest) && After(s0, [a] + rest) == After(s1, rest)
  {
    assert ([a] + rest)[1..] == rest;
  }

  /** The invariant holds in every state of every interleaving. */
  lemma {:induction false} InvAfter(s: State, steps: seq<Step>)
    requires Inv(s) && Legal(s, steps)
    ensures Inv(After(s, steps))
    decreases |steps|
  {
    if steps != [] {
      InvStep(s, steps[0]);
      InvAfter(Apply(s, steps[0]), steps[1..]);
    }
  }
}
