/**
 * The retry queue with its fields. Each lock section and each atomic operation
 * is a method that takes exactly one step of RetryProtocol, from any state, so
 * every interleaving of these methods is a run of that machine; the exported methods are the
 * sequences of them that the source performs.
 */
module RetryQueues {
  import opened Int64s
  import opened RetryProtocol
  import opened RetryInvariants
  import Backoff

  class RetryItem {
    const path: string
    var attempt: int64

    constructor (path: string, attempt: int64)
      ensures this.path == path && this.attempt == attempt
    {
      this.path := path;
      this.attempt := attempt;
    }
  }

  /** Which case of the select in processNextItem won. */
  datatype Signal = ContextDone | StopRequested | TimerFired

  /** queue is the list of pointers that tickets stand for. */
  ghost predicate Names(log: seq<RetryItem>, queue: seq<RetryItem>, tickets: seq<Ticket>) {
    && |queue| == |tickets|
    && forall i :: 0 <= i < |queue| ==> tickets[i] < |log| && queue[i] == log[tickets[i]]
  }

  /** log holds different items with the attempts given. */
  ghost predicate Records(log: seq<RetryItem>, attempt: seq<int64>)
    reads log
  {
    && |log| == |attempt|
    && (forall i, j :: 0 <= i < j < |log| ==> log[i] != log[j])
    && (forall i :: 0 <= i < |log| ==> log[i].attempt == attempt[i])
  }

  /** What taking the head changes. */
  lemma PopEffect(s: State)
    requires Enabled(s, Pop) && s.items[0] < |s.attempt|
    ensures var s' := Apply(s, Pop);
            && s'.proc == Waiting(s.items[0]) && s'.items == s.items[1..]
            && s'.attempt == s.attempt && s'.depth == s.depth && s'.ctxDone == s.ctxDone
            && s'.running == s.running && s'.stopClosed == s.stopClosed
            && Enabled(s', Execute(true)) && Enabled(s', Execute(false))
  {
  }

  lemma NamesTail(log: seq<RetryItem>, queue: seq<RetryItem>, tickets: seq<Ticket>)
    requires Names(log, queue, tickets) && queue != []
    ensures Names(log, queue[1..], tickets[1..]) && tickets[0] < |log| && queue[0] == log[tickets[0]]
  {
  }

  lemma NamesCons(log: seq<RetryItem>, queue: seq<RetryItem>, tickets: seq<Ticket>, t: Ticket)
    requires Names(log, queue, tickets) && t < |log|
    ensures Names(log, [log[t]] + queue, [t] + tickets)
    ensures Names(log, queue + [log[t]], tickets + [t])
  {
  }

  predicate Carries(p: Processor) {
    p.Waiting? || p.Interrupted? || p.Failing? || p.Succeeded?
  }

  /** Each step's effect, field by field, so that the methods below need not unfold Apply. */
  lemma EffectOf(s: State, step: Step)
    requires Enabled(s, step) && !step.AddAppend?
    ensures var s' := Apply(s, step);
            && |s'.attempt| == |s.attempt|
            && s'.items == (match step
                            case Pop => s.items[1..]
                            case Prepend => [s.proc.item] + s.items
                            case Append => s.items + [s.proc.item]
                            case _ => s.items)
            && s'.depth == s.depth + (if step.AddBump? then 1 else if step.Decrement? then -1 else 0)
            && s'.running == (step.StartSwap? || (!step.StoreFalse? && s.running))
            && s'.stopClosed == (step.StopClose? || (!step.Renew? && s.stopClosed))
            && (!step.Execute? ==> s'.attempt == s.attempt && s'.runs == s.runs)
            && (step.Execute? ==>
                  s'.attempt == if step.ok then s.attempt
                                else s.attempt[s.proc.item := Increment(s.attempt[s.proc.item])])
  {
  }

  lemma ControlOf(s: State, step: Step)
    requires Enabled(s, step)
    ensures var s' := Apply(s, step);
            && s'.proc == (match step
                           case Launch(_) => Idle
                           case Exit => Absent
                           case Pop => Waiting(s.items[0])
                           case Interrupt => Interrupted(s.proc.item)
                           case Execute(ok) => if ok then Succeeded(s.proc.item) else Failing(s.proc.item)
                           case Decrement => Completing(s.proc.item)
                           case Prepend => Idle
                           case Append => Idle
                           case Complete => Idle
                           case _ => s.proc)
            && s'.life == (match step
                           case StartSwap => Launching
                           case Launch(_) => Free
                           case StopClose => Joining
                           case Join => Joined
                           case StoreFalse => Renewing
                           case Renew => Free
                           case _ => s.life)
            && s'.ctxDone == (match step
                              case Launch(cancelled) => cancelled
                              case Cancel => true
                              case _ => s.ctxDone)
  {
  }

  /** The last three steps of Stop. */
  lemma RenewEffect(s: State, step: Step)
    requires Enabled(s, step) && (step.Join? || step.StoreFalse? || step.Renew?)
    ensures var s' := Apply(s, step);
            && s'.items == s.items && s'.depth == s.depth && s'.attempt == s.attempt && s'.proc == s.proc
            && s'.running == (!step.StoreFalse? && s.running)
            && s'.stopClosed == (!step.Renew? && s.stopClosed)
            && s'.life == (if step.Join? then Joined else if step.StoreFalse? then Renewing else Free)
  {
  }

  class RetryQueue {
    const baseBackoff: int64
    const maxBackoff: int64
    var items: seq<RetryItem>
    var depth: int
    var running: bool
    var stopClosed: bool

    ghost var log: seq<RetryItem>   // every item ever added, in Add order
    ghost var state: State

    ghost predicate Valid()
      reads this, log
    {
      && Records(log, state.attempt)
      && Names(log, items, state.items)
      && depth == state.depth
      && running == state.running
      && stopClosed == state.stopClosed
    }

    /** item is the pointer the processor has popped. */
    ghost predicate Holds(item: RetryItem)
      reads this
    {
      Carries(state.proc) && state.proc.item < |log| && item == log[state.proc.item]
    }

    constructor (maxBackoff: int64)
      ensures Valid() && state == Init() && items == [] && depth == 0 && log == []
      ensures baseBackoff == 1_000_000_000
      ensures this.maxBackoff == if maxBackoff <= 0 then 300_000_000_000 else maxBackoff
    {
      baseBackoff := Backoff.DEFAULT_BASE_BACKOFF;
      this.maxBackoff := if maxBackoff <= 0 then Backoff.DEFAULT_MAX_BACKOFF else maxBackoff;
      items, depth, running, stopClosed := [], 0, false, false;
      log, state := [], Init();
    }

    // ----- one step each -----

    /** Add: the lock section. */
    method AppendItem(path: string, attempt: int64) returns (item: RetryItem)
      requires Valid()
      modifies this
      ensures Valid() && fresh(item) && item.path == path && item.attempt == attempt
      ensures state == Apply(old(state), AddAppend(attempt))
      ensures log == old(log) + [item] && items == old(items) + [item]
      ensures depth == old(depth) && running == old(running) && stopClosed == old(stopClosed)
    {
      item := new RetryItem(path, attempt);
      items := items + [item];
      state := Apply(state, AddAppend(attempt));
      log := log + [item];
    }

    /** Add: the atomic increment. */
    method IncrementDepth(ghost ticket: Ticket) returns (newDepth: int)
      requires Valid() && ticket in state.adders
      modifies this`depth, this`state
      ensures Valid() && state == Apply(old(state), AddBump(ticket))
      ensures newDepth == depth == old(depth) + 1
    {
      hide Records, Names, RetryProtocol.Apply;
      EffectOf(state, AddBump(ticket));
      ControlOf(state, AddBump(ticket));
      depth := depth + 1;
      state := Apply(state, AddBump(ticket));
      newDepth := depth;
    }

    /** processNextItem: the first lock section, when the queue is not empty. */
    method PopHead() returns (item: RetryItem)
      requires Valid() && state.proc.Idle? && items != []
      modifies this`items, this`state
      ensures Enabled(old(state), Pop) && state == Apply(old(state), Pop)
      ensures Valid() && Holds(item)
      ensures Enabled(state, Execute(true)) && Enabled(state, Execute(false))
      ensures state.ctxDone == old(state.ctxDone) && stopClosed == old(stopClosed)
      ensures item == old(items)[0] && items == old(items)[1..]
    {
      NamesTail(log, items, state.items);
      assert |log| == |state.attempt|;
      PopEffect(state);
      hide Names, Records, RetryProtocol.Apply, RetryProtocol.Enabled;
      item := items[0];
      items := items[1..];
      state := Apply(state, Pop);
    }

    /** processNextItem: putting an interrupted item back in front. */
    method PrependItem(item: RetryItem)
      requires Valid() && Enabled(state, Prepend) && Holds(item)
      modifies this`items, this`state
      ensures Valid() && state == Apply(old(state), Prepend) && state.proc.Idle? && state.life == old(state.life)
      ensures items == [item] + old(items)
    {
      hide RetryProtocol.Apply, Records, Names;
      NamesCons(log, items, state.items, state.proc.item);
      EffectOf(state, Prepend);
      ControlOf(state, Prepend);
      items := [item] + items;
      state := Apply(state, Prepend);
    }

    /** processNextItem: RetryFunc has returned; a failure counts an attempt. */
    method RecordOutcome(item: RetryItem, ok: bool)
      requires Valid() && Enabled(state, Execute(ok)) && Holds(item)
      modifies this`state, item
      ensures Valid() && state == Apply(old(state), Execute(ok)) && Holds(item) && state.life == old(state.life)
      ensures if ok then Enabled(state, Decrement) else Enabled(state, Append)
      ensures item.attempt == if ok then old(item.attempt) else Increment(old(item.attempt))
    {
      hide RetryProtocol.Apply;
      EffectOf(state, Execute(ok));
      ControlOf(state, Execute(ok));
      if !ok {
        item.attempt := Increment(item.attempt);
      }
      state := Apply(state, Execute(ok));
    }

    /** processNextItem: re-queueing a failed item at the back. */
    method RequeueItem(item: RetryItem)
      requires Valid() && Enabled(state, Append) && Holds(item)
      modifies this`items, this`state
      ensures Valid() && state == Apply(old(state), Append) && state.proc.Idle? && state.life == old(state.life)
      ensures items == old(items) + [item]
    {
      hide RetryProtocol.Apply, Records, Names;
      NamesCons(log, items, state.items, state.proc.item);
      EffectOf(state, Append);
      ControlOf(state, Append);
      items := items + [item];
      state := Apply(state, Append);
    }

    /** processNextItem: the atomic decrement after a success. */
    method DecrementDepth() returns (newDepth: int)
      requires Valid() && Enabled(state, Decrement)
      modifies this`depth, this`state
      ensures Valid() && state == Apply(old(state), Decrement) && Enabled(state, Complete) && state.life == old(state.life)
      ensures newDepth == depth == old(depth) - 1
    {
      hide Records, Names, RetryProtocol.Apply;
      EffectOf(state, Decrement);
      ControlOf(state, Decrement);
      depth := depth - 1;
      state := Apply(state, Decrement);
      newDepth := depth;
    }

    /** A step that touches no field: the select, OnComplete, or the goroutine's return. */
    ghost method Silent(step: Step)
      requires Valid() && Enabled(state, step)
      requires step.Interrupt? || step.Complete? || step.Exit? || step.Launch? || step.Join? || step.Cancel?
      modifies this`state
      ensures Valid() && state == Apply(old(state), step)
    {
      hide Records, Names, RetryProtocol.Apply;
      EffectOf(state, step);
      ControlOf(state, step);
      state := Apply(state, step);
    }

    // ----- the exported methods, without interference -----

    method Add(path: string, attempt: int64) returns (item: RetryItem, reported: int)
      requires Valid()
      modifies this
      ensures Valid() && fresh(item) && item.path == path && item.attempt == attempt
      ensures items == old(items) + [item]
      ensures reported == depth == old(depth) + 1
      ensures var steps := [AddAppend(attempt), AddBump(|old(log)|)];
              Legal(old(state), steps) && state == After(old(state), steps)
    {
      ghost var s0 := state;
      item := AppendItem(path, attempt);
      ghost var s1 := state;
      reported := IncrementDepth(|old(log)|);
      Steps2(s0, AddAppend(attempt), s1, AddBump(|old(log)|), state);
    }

    /** The steps after the pop, by what the select chose and what RetryFunc returned. */
    static function WaitSteps(signal: Signal, ok: bool): seq<Step> {
      if !signal.TimerFired? then [Interrupt, Prepend]
      else if ok then [Execute(true), Decrement, Complete]
      else [Execute(false), Append]
    }

    static function ProcessSteps(empty: bool, signal: Signal, ok: bool): seq<Step> {
      if empty then [] else [Pop] + WaitSteps(signal, ok)
    }

    /** processNextItem after the pop: put back, requeue or finish. */
    method SettleItem(item: RetryItem, signal: Signal, ok: bool)
      requires Valid() && Enabled(state, Execute(true)) && Holds(item)
      requires !signal.TimerFired? ==> state.ctxDone || stopClosed
      modifies this`items, this`depth, this`state, item
      ensures Valid() && state.proc.Idle? && state.life == old(state.life)
      ensures !signal.TimerFired? ==> items == [item] + old(items)
      ensures signal.TimerFired? ==> items == if ok then old(items) else old(items) + [item]
      ensures depth == old(depth) - if signal.TimerFired? && ok then 1 else 0
      ensures item.attempt == if signal.TimerFired? && !ok then Increment(old(item.attempt)) else old(item.attempt)
      ensures Legal(old(state), WaitSteps(signal, ok)) && state == After(old(state), WaitSteps(signal, ok))
    {
      hide RetryProtocol.Apply;
      ghost var s1 := state;
      if !signal.TimerFired? {
        ControlOf(state, Interrupt);
        Silent(Interrupt);
        ghost var s2 := state;
        PrependItem(item);
        Steps2(s1, Interrupt, s2, Prepend, state);
        return;
      }
      RecordOutcome(item, ok);
      ghost var s2 := state;
      if !ok {
        RequeueItem(item);
        Steps2(s1, Execute(false), s2, Append, state);
        return;
      }
      var _ := DecrementDepth();
      ghost var s3 := state;
      ControlOf(state, Complete);
      Silent(Complete);
      Steps3(s1, Execute(true), s2, Decrement, s3, Complete, state);
    }

    /**
     * One tick: nothing on an empty queue; an interrupted backoff leaves the
     * queue as it was; a failure rotates the head to the back with one more
     * attempt; a success removes it.
     */
    method ProcessNextItem(signal: Signal, ok: bool) returns (delay: int64)
      requires Valid() && state.proc.Idle?
      requires !signal.TimerFired? ==> state.ctxDone || stopClosed
      modifies this`items, this`depth, this`state, items
      ensures Valid() && state.proc.Idle?
      ensures old(items) == [] ==> items == []
      ensures old(items) != [] ==> delay == Backoff.Delay(baseBackoff, maxBackoff, old(items[0].attempt))
      ensures old(items) != [] && !signal.TimerFired? ==> items == old(items)
      ensures old(items) != [] && signal.TimerFired? && ok ==> items == old(items)[1..]
      ensures old(items) != [] && signal.TimerFired? && !ok ==>
                && items == old(items)[1..] + [old(items)[0]]
                && old(items)[0].attempt == Increment(old(items[0].attempt))
      ensures depth == old(depth) - if old(items) != [] && signal.TimerFired? && ok then 1 else 0
      ensures var steps := ProcessSteps(old(items) == [], signal, ok);
              Legal(old(state), steps) && state == After(old(state), steps)
    {
      hide RetryProtocol.Apply, Backoff.Delay;
      delay := 0;
      if items == [] {
        return;
      }
      assert items == [items[0]] + items[1..];
      hide RetryProtocol.Legal, RetryProtocol.After, Valid, Holds, WaitSteps;
      ghost var s0 := state;
      var item := PopHead();
      ghost var s1 := state;
      var backoff, _ := Backoff.CalculateBackoff(baseBackoff, maxBackoff, item.attempt);
      delay := backoff;
      SettleItem(item, signal, ok);
      StepThen(s0, Pop, s1, WaitSteps(signal, ok));
    }

    /** Start, given a context that may already be cancelled. */
    method Start(ghost cancelled: bool)
      requires Valid() && state.life.Free?
      modifies this`running, this`state
      ensures Valid() && running
      ensures old(running) ==> state == old(state)
      ensures !old(running) ==>
                var steps := [StartSwap, Launch(cancelled)];
                Legal(old(state), steps) && state == After(old(state), steps) && state.proc.Idle?
    {
      hide RetryProtocol.Apply;
      if running {
        return;
      }
      ghost var s0 := state;
      EffectOf(state, StartSwap);
      ControlOf(state, StartSwap);
      running := true;
      state := Apply(state, StartSwap);
      ghost var s1 := state;
      ControlOf(state, Launch(cancelled));
      Silent(Launch(cancelled));
      Steps2(s0, StartSwap, s1, Launch(cancelled), state);
    }

    /** held is the item the processor has taken out of the queue, if it still has one. */
    ghost predicate HoldsAll(held: seq<RetryItem>)
      reads this
    {
      if Carries(state.proc) then |held| == 1 && Holds(held[0]) else held == []
    }

    /** How the processor finishes with its item and returns: the select and RetryFunc decide only for a waiting one. */
    static function FinishSteps(p: Processor, signal: Signal, ok: bool): seq<Step> {
      match p
      case Waiting(_) => WaitSteps(signal, ok)
      case Interrupted(_) => [Prepend]
      case Failing(_) => [Append]
      case Succeeded(_) => [Decrement, Complete]
      case Completing(_) => [Complete]
      case _ => []
    }

    static function ReturnSteps(p: Processor, signal: Signal, ok: bool): seq<Step> {
      FinishSteps(p, signal, ok) + if p.Absent? then [] else [Exit]
    }

    static function StopSteps(p: Processor, signal: Signal, ok: bool): seq<Step> {
      [StopClose] + ReturnSteps(p, signal, ok) + [Join, StoreFalse, Renew]
    }

    /** Where the held item ends up: in front, at the back, or out. */
    static ghost function QueueAfter(p: Processor, signal: Signal, ok: bool, held: seq<RetryItem>, queue: seq<RetryItem>): seq<RetryItem> {
      if p.Interrupted? || (p.Waiting? && !signal.TimerFired?) then held + queue
      else if p.Failing? || (p.Waiting? && !ok) then queue + held
      else queue
    }

    /**
     * Stop, wherever the processor is (`at`): it finishes with the item it holds and
     * returns, and the channel is renewed. An item whose backoff is interrupted
     * is the head again.
     */
    method Stop(at: Processor, held: seq<RetryItem>, signal: Signal, ok: bool)
      requires Valid() && state.life.Free? && at == state.proc && HoldsAll(held)
      requires at.Waiting? ==> Enabled(state, Execute(true))
      modifies this`items, this`depth, this`running, this`stopClosed, this`state, held
      ensures Valid() && !running
      ensures !old(running) ==> state == old(state) && items == old(items)
      ensures old(running) ==>
                && items == QueueAfter(at, signal, ok, held, old(items))
                && !stopClosed && state.proc.Absent? && state.life.Free?
                && Legal(old(state), StopSteps(at, signal, ok))
                && state == After(old(state), StopSteps(at, signal, ok))
    {
      hide RetryProtocol.Apply, RetryProtocol.Legal, RetryProtocol.After, QueueAfter;
      if !running {
        return;
      }
      ghost var s0 := state;
      EffectOf(state, StopClose);
      ControlOf(state, StopClose);
      stopClosed := true;
      state := Apply(state, StopClose);
      Steps1(s0, StopClose);
      ghost var steps := [StopClose];
      steps := ReturnProcessor(at, held, signal, ok, s0, steps);
      steps := RenewChannel(s0, steps);
      assert steps == StopSteps(at, signal, ok);
    }

    /** Stop, from wg.Wait on. */
    method RenewChannel(ghost s0: State, ghost before: seq<Step>) returns (ghost steps: seq<Step>)
      requires Valid() && Enabled(state, Join)
      requires Legal(s0, before) && state == After(s0, before)
      modifies this`running, this`stopClosed, this`state
      ensures Valid() && !running && !stopClosed && state.proc.Absent? && state.life.Free?
      ensures steps == before + [Join, StoreFalse, Renew]
      ensures Legal(s0, steps) && state == After(s0, steps)
    {
      hide Records, Names, RetryProtocol.Apply, RetryProtocol.Legal, RetryProtocol.After;
      StepLast(s0, before, state, Join);
      RenewEffect(state, Join);
      Silent(Join);
      steps := before + [Join];
      StepLast(s0, steps, state, StoreFalse);
      RenewEffect(state, StoreFalse);
      running := false;
      state := Apply(state, StoreFalse);
      steps := steps + [StoreFalse];
      StepLast(s0, steps, state, Renew);
      RenewEffect(state, Renew);
      stopClosed := false;
      state := Apply(state, Renew);
      steps := steps + [Renew];
    }

    /** The processor's way to its return, after which wg.Wait returns. */
    method ReturnProcessor(at: Processor, held: seq<RetryItem>, signal: Signal, ok: bool, ghost s0: State, ghost before: seq<Step>)
      returns (ghost steps: seq<Step>)
      requires Valid() && state.life.Joining? && stopClosed && at == state.proc && HoldsAll(held)
      requires at.Waiting? ==> Enabled(state, Execute(true))
      requires Legal(s0, before) && state == After(s0, before)
      modifies this`items, this`depth, this`state, held
      ensures Valid() && state.proc.Absent? && state.life.Joining? && stopClosed
      ensures items == QueueAfter(at, signal, ok, held, old(items))
      ensures steps == before + ReturnSteps(at, signal, ok)
      ensures Legal(s0, steps) && state == After(s0, steps)
    {
      hide RetryProtocol.Apply, RetryProtocol.Legal, RetryProtocol.After, Holds, FinishSteps, QueueAfter;
      steps := FinishItem(at, held, signal, ok, s0, before);
      if !at.Absent? {
        StepLast(s0, steps, state, Exit);
        ControlOf(state, Exit);
        EffectOf(state, Exit);
        Silent(Exit);
        steps := steps + [Exit];
      }
    }

    /** processNextItem, from wherever it is to its end. */
    method FinishItem(at: Processor, held: seq<RetryItem>, signal: Signal, ok: bool, ghost s0: State, ghost before: seq<Step>)
      returns (ghost steps: seq<Step>)
      requires Valid() && stopClosed && at == state.proc && HoldsAll(held)
      requires at.Waiting? ==> Enabled(state, Execute(true))
      requires Legal(s0, before) && state == After(s0, before)
      modifies this`items, this`depth, this`state, held
      ensures Valid() && stopClosed && state.life == old(state.life)
      ensures state.proc == if at.Absent? then Absent else Idle
      ensures items == QueueAfter(at, signal, ok, held, old(items))
      ensures steps == before + FinishSteps(at, signal, ok)
      ensures Legal(s0, steps) && state == After(s0, steps)
    {
      hide RetryProtocol.Apply, RetryProtocol.Legal, RetryProtocol.After, Names;
      steps := before;
      match at
      case Waiting(_) =>
        ghost var s := state;
        SettleItem(held[0], signal, ok);
        assert held == [held[0]];
        StepsThen(s0, before, s, WaitSteps(signal, ok));
        steps := before + WaitSteps(signal, ok);
      case Interrupted(_) =>
        StepLast(s0, steps, state, Prepend);
        ControlOf(state, Prepend);
        PrependItem(held[0]);
        assert held == [held[0]];
        steps := steps + [Prepend];
      case Failing(_) =>
        StepLast(s0, steps, state, Append);
        ControlOf(state, Append);
        RequeueItem(held[0]);
        assert held == [held[0]];
        steps := steps + [Append];
      case Succeeded(_) =>
        StepLast(s0, steps, state, Decrement);
        ControlOf(state, Decrement);
        var _ := DecrementDepth();
        steps := CompleteItem(s0, before + [Decrement]);
      case Completing(_) =>
        steps := CompleteItem(s0, before);
      case _ =>
    }

    /** processNextItem: the call of OnComplete and the return. */
    ghost method CompleteItem(s0: State, before: seq<Step>) returns (steps: seq<Step>)
      requires Valid() && Enabled(state, Complete)
      requires Legal(s0, before) && state == After(s0, before)
      modifies this`state
      ensures Valid() && state.proc.Idle? && state.life == old(state.life)
      ensures steps == before + [Complete]
      ensures Legal(s0, steps) && state == After(s0, steps)
    {
      hide RetryProtocol.Apply, RetryProtocol.Legal, RetryProtocol.After;
      StepLast(s0, before, state, Complete);
      ControlOf(state, Complete);
      Silent(Complete);
      steps := before + [Complete];
    }
  }

  lemma Steps1(s0: State, a: Step)
    requires Enabled(s0, a)
    ensures Legal(s0, [a]) && After(s0, [a]) == Apply(s0, a)
  {
    assert [a][1..] == [];
  }

  lemma {:induction false} StepLast(s0: State, steps: seq<Step>, s: State, last: Step)
    requires Legal(s0, steps) && s == After(s0, steps) && Enabled(s, last)
    ensures Legal(s0, steps + [last]) && After(s0, steps + [last]) == Apply(s, last)
    decreases |steps|
  {
    hide RetryProtocol.Apply, RetryProtocol.Enabled;
    if steps == [] {
      assert [] + [last] == [last] && [last][1..] == [];
    } else {
      StepLast(Apply(s0, steps[0]), steps[1..], s, last);
      assert (steps + [last])[1..] == steps[1..] + [last];
    }
  }

  lemma Steps2(s0: State, a: Step, s1: State, b: Step, s2: State)
    requires Enabled(s0, a) && s1 == Apply(s0, a) && Enabled(s1, b) && s2 == Apply(s1, b)
    ensures Legal(s0, [a, b]) && After(s0, [a, b]) == s2
  {
    hide RetryProtocol.Apply, RetryProtocol.Enabled;
    assert [a, b][1..] == [b] && [b][1..] == [];
    assert Legal(s1, [b]) && After(s1, [b]) == s2;
  }

  lemma Steps3(s0: State, a: Step, s1: State, b: Step, s2: State, c: Step, s3: State)
    requires Enabled(s0, a) && s1 == Apply(s0, a) && Enabled(s1, b) && s2 == Apply(s1, b)
    requires Enabled(s2, c) && s3 == Apply(s2, c)
    ensures Legal(s0, [a, b, c]) && After(s0, [a, b, c]) == s3
  {
    hide RetryProtocol.Apply, RetryProtocol.Enabled;
    assert [a, b, c][1..] == [b, c];
    Steps2(s1, b, s2, c, s3);
  }

  lemma {:induction false} StepsThen(s0: State, steps: seq<Step>, s: State, rest: seq<Step>)
    requires Legal(s0, steps) && s == After(s0, steps) && Legal(s, rest)
    ensures Legal(s0, steps + rest) && After(s0, steps + rest) == After(s, rest)
    decreases |steps|
  {
    hide RetryProtocol.Apply, RetryProtocol.Enabled;
    if steps == [] {
      assert [] + rest == rest;
    } else {
      StepsThen(Apply(s0, steps[0]), steps[1..], s, rest);
      assert (steps + rest)[1..] == steps[1..] + rest;
    }
  }
}
