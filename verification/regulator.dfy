/**
 * The hysteretic (bang-bang) Peltier/fan decision that both firmware targets
 * run once per control cycle, and the advisory warnings printed after it.
 *
 * Readings are floats in the firmware. Every finite float value is a real
 * number and every threshold below is exactly representable, so the
 * comparisons are modelled exactly on `real` (an infinite float compares with
 * these constants like any large real). A temperature may also be NaN (failed read on the
 * Arduino target); every ordered comparison with NaN is false.
 */
module Regulator {

  // Compile-time thresholds: degrees Celsius and amperes.
  const MinTemp: real := 2.0
  const MaxTemp: real := 15.0
  const Hysteresis: real := 0.5
  const MinCurrent: real := 6.0
  const MaxCurrent: real := 7.0

  datatype Option<T> = None | Some(value: T)

  /** What one control cycle reports: whether the temperature read succeeded, and the warnings. */
  datatype Report<W> = Report(sensorOk: bool, warnings: W)

  /** A temperature as a float holds it: a number, or NaN. */
  datatype TempReading = Degrees(celsius: real) | NaN

  /** `t > k` on a float: false when `t` is NaN. */
  predicate Above(t: TempReading, k: real) {
    t.Degrees? && t.celsius > k
  }

  /** `t < k` on a float: false when `t` is NaN. */
  predicate Below(t: TempReading, k: real) {
    t.Degrees? && t.celsius < k
  }

  /** The safe operating window of the Peltier drive current. */
  predicate InWindow(c: real) {
    MinCurrent <= c <= MaxCurrent
  }

  /** The first branch of the decision: switch the Peltier element on. */
  predicate EngageGuard(t: TempReading, c: real) {
    Above(t, MaxTemp + Hysteresis) && c >= MinCurrent && c <= MaxCurrent
  }

  /** The second branch of the decision: switch the Peltier element off. */
  predicate DisengageGuard(t: TempReading, c: real) {
    Below(t, MinTemp - Hysteresis) || c < MinCurrent || c > MaxCurrent
  }

  /** The commanded state of the two binary outputs. */
  datatype Outputs = Outputs(peltier: bool, cooler: bool)

  /** The state both outputs start in. */
  const AllOff := Outputs(false, false)

  /** The cooler is never off while the Peltier element is driven. */
  predicate FanCoversPeltier(o: Outputs) {
    o.peltier ==> o.cooler
  }

  /**
   * One run of the decision: engage, else disengage, else keep the previous
   * Peltier command; then the fan follows the Peltier command or a hot reading.
   */
  function Step(prev: bool, t: TempReading, c: real): (r: Outputs)
    ensures r.peltier ==> InWindow(c)
    ensures FanCoversPeltier(r)
    ensures Above(t, MaxTemp + 2.0) ==> r.cooler
    ensures !Above(t, MaxTemp + 2.0) ==> r.cooler == r.peltier
  {
    var peltier :=
      if EngageGuard(t, c) then true
      else if DisengageGuard(t, c) then false
      else prev;
    Outputs(peltier, peltier || Above(t, MaxTemp + 2.0))
  }

  /**
   * The decision as a table, with the disengage rule taking precedence:
   * Some(b) when a reading forces the Peltier command to b, None in the
   * dead-band, where the previous command is kept.
   */
  function Decision(t: TempReading, c: real): Option<bool> {
    if DisengageGuard(t, c) then Some(false)
    else if EngageGuard(t, c) then Some(true)
    else None
  }

  /** The command the table gives, starting from `prev`. */
  function Decided(prev: bool, d: Option<bool>): bool {
    match d
    case Some(b) => b
    case None => prev
  }

  /** The engage and disengage guards never hold together. */
  lemma GuardsExclusive(t: TempReading, c: real)
    ensures !(EngageGuard(t, c) && DisengageGuard(t, c))
  {
  }

  /** Checking engage first (as the firmware does) or disengage first gives the same command. */
  lemma StepFollowsDecision(prev: bool, t: TempReading, c: real)
    ensures Step(prev, t, c).peltier == Decided(prev, Decision(t, c))
  {
    GuardsExclusive(t, c);
  }

  /** Above 15.5 degrees with the current in window, the element is on, whatever it was before. */
  lemma EngageFromAnyState(prev: bool, t: TempReading, c: real)
    requires Above(t, MaxTemp + Hysteresis) && InWindow(c)
    ensures Step(prev, t, c).peltier && Step(prev, t, c).cooler
  {
  }

  /** Below 1.5 degrees, or with the current out of window, the element is off, whatever it was before. */
  lemma DisengageFromAnyState(prev: bool, t: TempReading, c: real)
    requires Below(t, MinTemp - Hysteresis) || !InWindow(c)
    ensures !Step(prev, t, c).peltier
  {
  }

  /** For a numeric reading, neither guard holds exactly in the band 1.5..15.5 with the current in window. */
  lemma DeadBandIs(t: real, c: real)
    ensures (!EngageGuard(Degrees(t), c) && !DisengageGuard(Degrees(t), c))
            <==> (MinTemp - Hysteresis <= t <= MaxTemp + Hysteresis && InWindow(c))
  {
  }

  /** In the dead-band the Peltier command is held. */
  lemma DeadBandHolds(prev: bool, t: TempReading, c: real)
    requires !EngageGuard(t, c) && !DisengageGuard(t, c)
    ensures Step(prev, t, c).peltier == prev
  {
  }

  /** A NaN reading holds the Peltier command unless the current is out of window, and the fan mirrors it. */
  lemma NaNReading(prev: bool, c: real)
    ensures Step(prev, NaN, c) == Outputs(prev && InWindow(c), prev && InWindow(c))
  {
  }

  /** The stored outputs are what the decision gives on the stored readings. */
  predicate Settled(o: Outputs, t: TempReading, c: real) {
    Step(o.peltier, t, c) == o
  }

  /**
   * After a failed read the current is the one the previous decision already
   * checked, so from a settled state a NaN reading always keeps the Peltier
   * command; only a fan that was on because of heat can go off.
   */
  lemma NaNHoldsPeltierWhenSettled(o: Outputs, t: TempReading, c: real)
    requires Settled(o, t, c)
    ensures Step(o.peltier, NaN, c).peltier == o.peltier
    ensures Step(o.peltier, NaN, c).cooler == o.peltier
  {
  }

  /** A second decision on the same readings changes nothing (idempotence). */
  lemma StepSettles(prev: bool, t: TempReading, c: real)
    ensures Settled(Step(prev, t, c), t, c)
  {
  }

  // Advisory warnings, evaluated on the state after the decision.

  predicate CurrentLowWarning(c: real, peltier: bool) {
    c < MinCurrent && peltier
  }

  predicate CurrentHighWarning(c: real) {
    c > MaxCurrent
  }

  predicate TempCriticalHighWarning(t: TempReading) {
    Above(t, MaxTemp + 5.0)
  }

  predicate TempCriticalLowWarning(t: TempReading) {
    Below(t, MinTemp - 2.0)
  }

  /** The four warnings of one status report. */
  datatype Alarms = Alarms(currentLow: bool, currentHigh: bool, tempCriticalHigh: bool, tempCriticalLow: bool)

  function AlarmsOf(t: TempReading, c: real, peltier: bool): Alarms {
    Alarms(CurrentLowWarning(c, peltier), CurrentHighWarning(c),
           TempCriticalHighWarning(t), TempCriticalLowWarning(t))
  }

  /**
   * On a settled state the low-current warning cannot fire, the high-current
   * and critical-low warnings come with the element off, and the
   * critical-high warning with the fan on.
   */
  lemma SettledAlarms(o: Outputs, t: TempReading, c: real)
    requires Settled(o, t, c)
    ensures !AlarmsOf(t, c, o.peltier).currentLow
    ensures AlarmsOf(t, c, o.peltier).currentHigh ==> !o.peltier
    ensures AlarmsOf(t, c, o.peltier).tempCriticalLow ==> !o.peltier
    ensures AlarmsOf(t, c, o.peltier).tempCriticalHigh ==> o.cooler
  {
  }

  /** A NaN reading raises neither temperature warning. */
  lemma NaNRaisesNoTempAlarm(c: real, peltier: bool)
    ensures !AlarmsOf(NaN, c, peltier).tempCriticalHigh && !AlarmsOf(NaN, c, peltier).tempCriticalLow
  {
  }

  /** Worked cycles, as the firmware computes them. */
  lemma Scenarios()
    ensures Step(false, Degrees(16.0), 6.5) == Outputs(true, true)
    ensures AlarmsOf(Degrees(16.0), 6.5, true) == Alarms(false, false, false, false)
    ensures Step(true, Degrees(16.0), 7.5) == Outputs(false, false)
    ensures AlarmsOf(Degrees(16.0), 7.5, false) == Alarms(false, true, false, false)
    ensures Step(true, Degrees(10.0), 6.5) == Outputs(true, true)
    ensures Step(false, Degrees(10.0), 6.5) == Outputs(false, false)
    ensures AlarmsOf(Degrees(20.1), 6.5, true).tempCriticalHigh
    ensures Step(true, Degrees(1.0), 6.5) == Outputs(false, false)
    ensures !AlarmsOf(Degrees(1.0), 6.5, false).tempCriticalLow
  {
  }
}
