/**
 * The exported gauge of the queue depth. The queue reports the new absolute
 * depth after each atomic update, and the providers add what is reported to an
 * up-down counter.
 */
module DepthGauge {
  import opened RetryProtocol

  /** The two atomic updates of the depth are followed by a report. */
  predicate IsReported(step: Step) {
    step.AddBump? || step.Decrement?
  }

  /** The values passed to onDepthChange over a run. */
  function Reports(s: State, steps: seq<Step>): seq<int>
    requires Legal(s, steps)
    decreases |steps|
  {
    if steps == [] then []
    else
      var s1 := Apply(s, steps[0]);
      (if IsReported(steps[0]) then [s1.depth] else []) + Reports(s1, steps[1..])
  }

  function Sum(xs: seq<int>): int {
    if xs == [] then 0 else Sum(xs[..|xs| - 1]) + xs[|xs| - 1]
  }

  /** The depth after the first n reports. */
  function DepthAt(start: int, reports: seq<int>, n: nat): int
    requires n <= |reports|
  {
    if n == 0 then start else reports[n - 1]
  }

  ghost predicate UnitSteps(start: int, reports: seq<int>) {
    forall n: nat :: n < |reports| ==> reports[n] - DepthAt(start, reports, n) in {-1, 1}
  }

  lemma DepthMoves(s: State, step: Step)
    requires Enabled(s, step)
    ensures Apply(s, step).depth - s.depth in (if IsReported(step) then {-1, 1} else {0})
  {
  }

  lemma UnitStepsCons(start: int, first: int, rest: seq<int>)
    requires first - start in {-1, 1} && UnitSteps(first, rest)
    ensures UnitSteps(start, [first] + rest)
    ensures DepthAt(start, [first] + rest, |rest| + 1) == DepthAt(first, rest, |rest|)
  {
    var reports := [first] + rest;
    forall n: nat | n < |reports|
      ensures reports[n] - DepthAt(start, reports, n) in {-1, 1}
    {
      if n > 0 {
        assert reports[n] == rest[n - 1] && DepthAt(first, rest, n - 1) == DepthAt(start, reports, n);
      }
    }
  }

  /** Each report differs by one from the depth before, and the last is the depth now. */
  lemma {:induction false} ReportsAreDepths(s: State, steps: seq<Step>)
    requires Legal(s, steps)
    ensures var rs := Reports(s, steps);
            && After(s, steps).depth == DepthAt(s.depth, rs, |rs|)
            && forall n: nat :: n < |rs| ==> rs[n] - DepthAt(s.depth, rs, n) in {-1, 1}
    decreases |steps|
  {
    hide RetryProtocol.Apply, RetryProtocol.Enabled;
    if steps != [] {
      var s1 := Apply(s, steps[0]);
      ReportsAreDepths(s1, steps[1..]);
      DepthMoves(s, steps[0]);
      if IsReported(steps[0]) {
        UnitStepsCons(s.depth, s1.depth, Reports(s1, steps[1..]));
      } else {
        assert Reports(s, steps) == Reports(s1, steps[1..]);
      }
    }
  }

  /** The gauge shows the depth after each of the first updates. */
  ghost predicate GaugeRight(reports: seq<int>) {
    forall n: nat :: n <= |reports| ==> Sum(reports[..n]) == DepthAt(0, reports, n)
  }

  /**
   * The gauge is described as the current depth. It keeps to that over a run
   * exactly when the run updates the depth at most once: the second report is
   * added to the first instead of replacing it.
   */
  lemma GaugeRightIff(steps: seq<Step>)
    requires Legal(Init(), steps)
    ensures GaugeRight(Reports(Init(), steps)) <==> |Reports(Init(), steps)| <= 1
  {
    var rs := Reports(Init(), steps);
    ReportsAreDepths(Init(), steps);
    assert rs[..0] == [];
    if |rs| >= 1 {
      assert rs[0] - DepthAt(0, rs, 0) in {-1, 1};
      assert rs[..1] == [rs[0]] && rs[..1][..0] == [];
      assert Sum(rs[..1]) == rs[0];
    }
    if |rs| >= 2 {
      assert rs[..2][..1] == rs[..1];
      assert Sum(rs[..2]) == rs[0] + rs[1];
      assert DepthAt(0, rs, 2) == rs[1];
    }
  }

  lemma ReportsCons(s: State, step: Step, rest: seq<Step>)
    requires Enabled(s, step) && Legal(Apply(s, step), rest)
    ensures Legal(s, [step] + rest)
    ensures Reports(s, [step] + rest)
         == (if IsReported(step) then [Apply(s, step).depth] else []) + Reports(Apply(s, step), rest)
  {
    assert ([step] + rest)[1..] == rest;
  }

  /** Two items added one after the other: the reports are 1 and 2, and the gauge shows 3. */
  lemma GaugeDrifts() returns (steps: seq<Step>)
    ensures Legal(Init(), steps)
    ensures Reports(Init(), steps) == [1, 2] && Sum(Reports(Init(), steps)) == 3
    ensures !GaugeRight(Reports(Init(), steps))
  {
    var s1 := Apply(Init(), AddAppend(0));
    var s2 := Apply(s1, AddBump(0));
    var s3 := Apply(s2, AddAppend(0));
    var tail3 := [AddBump(1)] + [];
    var tail2 := [AddAppend(0)] + tail3;
    var tail1 := [AddBump(0)] + tail2;
    steps := [AddAppend(0)] + tail1;
    ReportsCons(s3, AddBump(1), []);
    ReportsCons(s2, AddAppend(0), tail3);
    ReportsCons(s1, AddBump(0), tail2);
    ReportsCons(Init(), AddAppend(0), tail1);
    GaugeRightIff(steps);
    assert [1, 2][..1] == [1] && [1][..0] == [];
  }
}
