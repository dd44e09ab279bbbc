/**
 * Many control cycles in a row. The firmware keeps the Peltier command across
 * cycles; only it is fed back into the next decision, while the fan is
 * recomputed every time. A run is the sequence of readings the successive
 * decisions see.
 */
module History {
  import opened Regulator

  /** The readings one decision sees. */
  datatype Sample = Sample(temp: TempReading, current: real)

  /** One control cycle applied to the carried state. */
  function Apply(o: Outputs, x: Sample): Outputs {
    Step(o.peltier, x.temp, x.current)
  }

  /** The state after the decisions on `xs`, in order, starting from `o`. */
  function Run(o: Outputs, xs: seq<Sample>): (r: Outputs)
    decreases |xs|
    ensures FanCoversPeltier(o) ==> FanCoversPeltier(r)
    ensures |xs| > 0 ==> FanCoversPeltier(r)
    ensures |xs| > 0 && r.peltier ==> InWindow(xs[|xs| - 1].current)
  {
    if xs == [] then o else Run(Apply(o, xs[0]), xs[1..])
  }

  /**
   * Reference for the Peltier command after a run: the verdict of the last
   * reading that forced one, or the initial command when every reading fell
   * in the dead-band.
   */
  function LastDecision(init: bool, xs: seq<Sample>): bool
    decreases |xs|
  {
    if xs == [] then init
    else
      var x := xs[|xs| - 1];
      Decided(LastDecision(init, xs[..|xs| - 1]), Decision(x.temp, x.current))
  }

  /** Running one more cycle at the end is one more decision on the result. */
  lemma {:induction false} RunSnoc(o: Outputs, xs: seq<Sample>, x: Sample)
    ensures Run(o, xs + [x]) == Apply(Run(o, xs), x)
    decreases |xs|
  {
    if xs == [] {
      assert (xs + [x])[1..] == [];
    } else {
      assert (xs + [x])[0] == xs[0];
      assert (xs + [x])[1..] == xs[1..] + [x];
      RunSnoc(Apply(o, xs[0]), xs[1..], x);
    }
  }

  /** The hysteresis memory: the command after a run is the last forced verdict. */
  lemma {:induction false} RunIsLastDecision(o: Outputs, xs: seq<Sample>)
    ensures Run(o, xs).peltier == LastDecision(o.peltier, xs)
    decreases |xs|
  {
    if xs != [] {
      var ys, x := xs[..|xs| - 1], xs[|xs| - 1];
      assert xs == ys + [x];
      RunSnoc(o, ys, x);
      RunIsLastDecision(o, ys);
      StepFollowsDecision(Run(o, ys).peltier, x.temp, x.current);
    }
  }

  /** Readings that all fall in the dead-band never change the Peltier command. */
  lemma {:induction false} DeadBandHoldsAcrossRun(o: Outputs, xs: seq<Sample>)
    requires forall i :: 0 <= i < |xs| ==> Decision(xs[i].temp, xs[i].current).None?
    ensures Run(o, xs).peltier == o.peltier
    decreases |xs|
  {
    if xs != [] {
      assert Decision(xs[0].temp, xs[0].current).None?;
      StepFollowsDecision(o.peltier, xs[0].temp, xs[0].current);
      assert forall i :: 0 <= i < |xs[1..]| ==> xs[1..][i] == xs[i + 1];
      DeadBandHoldsAcrossRun(Apply(o, xs[0]), xs[1..]);
    }
  }

  /** A last forced verdict of "on" comes from a reading that satisfied the engage guard. */
  lemma {:induction false} LastDecisionOnWitness(xs: seq<Sample>)
    requires LastDecision(false, xs)
    ensures exists i :: 0 <= i < |xs| && EngageGuard(xs[i].temp, xs[i].current)
    decreases |xs|
  {
    assert xs != [];
    var ys, x := xs[..|xs| - 1], xs[|xs| - 1];
    match Decision(x.temp, x.current)
    case Some(b) =>
      assert b;
      assert EngageGuard(xs[|xs| - 1].temp, xs[|xs| - 1].current);
    case None =>
      LastDecisionOnWitness(ys);
      var i :| 0 <= i < |ys| && EngageGuard(ys[i].temp, ys[i].current);
      assert xs[i] == ys[i];
  }

  /**
   * From power-up (both outputs off) the Peltier element is on only if some
   * reading was above 15.5 degrees with the current in window.
   */
  lemma {:induction false} OnOnlyAfterEngage(xs: seq<Sample>)
    requires Run(AllOff, xs).peltier
    ensures exists i :: 0 <= i < |xs| && Above(xs[i].temp, MaxTemp + Hysteresis) && InWindow(xs[i].current)
  {
    RunIsLastDecision(AllOff, xs);
    LastDecisionOnWitness(xs);
  }
}
