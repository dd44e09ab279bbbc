/**
 * The STM32 HAL target: the controller's globals as the fields of one object,
 * with the readings, the decision, the status warnings and the tick gate as
 * its members. GPIO writes, UART text and the DHT11/ADC drivers are not
 * modelled; their results arrive as parameters.
 */
module HalControl {
  import opened Regulator
  import opened Tick

  newtype u8 = x: int | 0 <= x < 0x100

  /** The two warnings the HAL status report prints. */
  datatype CurrentWarnings = CurrentWarnings(currentLow: bool, currentHigh: bool)

  class TemperatureControl {
    var currentTemp: real
    var currentCurrent: real
    var peltierState: u8
    var coolerState: u8
    var lastReadTime: u32

    /** The output flags only ever hold 0 or 1. */
    ghost predicate Valid()
      reads this
    {
      peltierState <= 1 && coolerState <= 1
    }

    /** The output flags read as C truth values. */
    function State(): Outputs
      reads this
    {
      Outputs(peltierState != 0, coolerState != 0)
    }

    /** The flags are what the decision gives on the stored readings. */
    predicate Settled()
      reads this
    {
      Regulator.Settled(State(), Degrees(currentTemp), currentCurrent)
    }

    /** The static initialisers: readings zero, both outputs off, clock at zero. */
    constructor ()
      ensures Valid() && Settled()
      ensures currentTemp == 0.0 && currentCurrent == 0.0
      ensures State() == AllOff && lastReadTime == 0
    {
      currentTemp := 0.0;
      currentCurrent := 0.0;
      peltierState := 0;
      coolerState := 0;
      lastReadTime := 0;
    }

    /**
     * Refreshes the readings. The DHT11 driver leaves `dhtTemp` in the
     * temperature whether or not it succeeds; on failure the current is not
     * read and keeps its previous (stale) value.
     */
    method ReadSensors(dhtOk: bool, dhtTemp: real, sensedCurrent: real) returns (ok: bool)
      modifies this`currentTemp, this`currentCurrent
      ensures ok == dhtOk && currentTemp == dhtTemp
      ensures currentCurrent == if dhtOk then sensedCurrent else old(currentCurrent)
    {
      currentTemp := dhtTemp;
      if !dhtOk {
        ok := false;
        return;
      }
      currentCurrent := sensedCurrent;
      ok := true;
    }

    /** The engage / disengage / hold decision, then the fan rule. */
    method ControlSystem()
      requires Valid()
      modifies this`peltierState, this`coolerState
      ensures Valid() && Settled()
      ensures State() == Step(old(peltierState) != 0, Degrees(currentTemp), currentCurrent)
    {
      if currentTemp > MaxTemp + Hysteresis && currentCurrent >= MinCurrent && currentCurrent <= MaxCurrent {
        peltierState := 1;
      } else if currentTemp < MinTemp - Hysteresis || currentCurrent < MinCurrent || currentCurrent > MaxCurrent {
        peltierState := 0;
      }

      if peltierState != 0 || currentTemp > MaxTemp + 2.0 {
        coolerState := 1;
      } else {
        coolerState := 0;
      }
      StepSettles(old(peltierState) != 0, Degrees(currentTemp), currentCurrent);
    }

    /** The warnings the status report prints after the decision. */
    function StatusWarnings(): (w: CurrentWarnings)
      reads this
      ensures Settled() ==> !w.currentLow
      ensures w.currentHigh <==> currentCurrent > MaxCurrent
      ensures Settled() && w.currentHigh ==> peltierState == 0
    {
      CurrentWarnings(CurrentLowWarning(currentCurrent, peltierState != 0), CurrentHighWarning(currentCurrent))
    }

    /**
     * One call of the process hook: when the interval has passed, read, decide
     * and report (with the outcome of the read), then remember the time; otherwise change nothing.
     */
    method Process(now: u32, dhtOk: bool, dhtTemp: real, sensedCurrent: real) returns (report: Option<Report<CurrentWarnings>>)
      requires Valid()
      modifies this
      ensures Valid()
      ensures report.Some? <==> Due(now, old(lastReadTime))
      ensures report.None? ==> unchanged(this)
      ensures report.Some? ==>
        && lastReadTime == now
        && currentTemp == dhtTemp
        && currentCurrent == (if dhtOk then sensedCurrent else old(currentCurrent))
        && State() == Step(old(peltierState) != 0, Degrees(dhtTemp), currentCurrent)
        && Settled()
        && report.value == Report(dhtOk, StatusWarnings())
        && !report.value.warnings.currentLow
    {
      if Elapsed(now, lastReadTime) >= ReadInterval {
        var ok := ReadSensors(dhtOk, dhtTemp, sensedCurrent);
        ControlSystem();
        report := Some(Report(ok, StatusWarnings()));
        lastReadTime := now;
      } else {
        report := None;
      }
    }
  }
}
