/**
 * The Arduino target: the same controller, with a temperature that becomes
 * NaN when the DHT11 read fails and a status report with four warnings.
 * Pin writes, Serial text, delays and the sensor libraries are not modelled;
 * their results arrive as parameters.
 */
module ArduinoControl {
  import opened Regulator
  import opened Tick

  class Controller {
    var currentTemp: TempReading
    var currentCurrent: real
    var peltierState: bool
    var coolerState: bool
    var lastReadTime: u32

    function State(): Outputs
      reads this
    {
      Outputs(peltierState, coolerState)
    }

    /** The outputs are what the decision gives on the stored readings. */
    predicate Settled()
      reads this
    {
      Regulator.Settled(State(), currentTemp, currentCurrent)
    }

    /** The static initialisers: readings zero, both outputs off (as setup drives the pins), clock at zero. */
    constructor ()
      ensures Settled()
      ensures currentTemp == Degrees(0.0) && currentCurrent == 0.0
      ensures State() == AllOff && lastReadTime == 0
    {
      currentTemp := Degrees(0.0);
      currentCurrent := 0.0;
      peltierState := false;
      coolerState := false;
      lastReadTime := 0;
    }

    /**
     * Stores the temperature the DHT library returns; when it is NaN the
     * current is not read and keeps its previous (stale) value.
     */
    method ReadSensors(reading: TempReading, sensedCurrent: real) returns (ok: bool)
      modifies this`currentTemp, this`currentCurrent
      ensures ok == reading.Degrees? && currentTemp == reading
      ensures currentCurrent == if ok then sensedCurrent else old(currentCurrent)
    {
      currentTemp := reading;
      if currentTemp.NaN? {
        ok := false;
        return;
      }
      currentCurrent := sensedCurrent;
      ok := true;
    }

    /** The engage / disengage / hold decision, then the fan rule; comparisons with NaN are false. */
    method ControlSystem()
      modifies this`peltierState, this`coolerState
      ensures Settled()
      ensures State() == Step(old(peltierState), currentTemp, currentCurrent)
      ensures currentTemp.NaN? ==>
        peltierState == coolerState == (old(peltierState) && InWindow(currentCurrent))
    {
      if Above(currentTemp, MaxTemp + Hysteresis) && currentCurrent >= MinCurrent && currentCurrent <= MaxCurrent {
        peltierState := true;
      } else if Below(currentTemp, MinTemp - Hysteresis) || currentCurrent < MinCurrent || currentCurrent > MaxCurrent {
        peltierState := false;
      }

      if peltierState || Above(currentTemp, MaxTemp + 2.0) {
        coolerState := true;
      } else {
        coolerState := false;
      }
      StepSettles(old(peltierState), currentTemp, currentCurrent);
    }

    /** The warnings the status report prints after the decision. */
    function StatusWarnings(): (a: Alarms)
      reads this
      ensures Settled() ==> !a.currentLow
      ensures Settled() && (a.currentHigh || a.tempCriticalLow) ==> !peltierState
      ensures Settled() && a.tempCriticalHigh ==> coolerState
      ensures currentTemp.NaN? ==> !a.tempCriticalHigh && !a.tempCriticalLow
    {
      AlarmsOf(currentTemp, currentCurrent, peltierState)
    }

    /**
     * One pass of the main loop: when the interval has passed, read, decide
     * and report (with the outcome of the read), then remember the time; otherwise change nothing.
     */
    method Loop(now: u32, reading: TempReading, sensedCurrent: real) returns (report: Option<Report<Alarms>>)
      modifies this
      ensures report.Some? <==> Due(now, old(lastReadTime))
      ensures report.None? ==> unchanged(this)
      ensures report.Some? ==>
        && lastReadTime == now
        && currentTemp == reading
        && currentCurrent == (if reading.Degrees? then sensedCurrent else old(currentCurrent))
        && State() == Step(old(peltierState), reading, currentCurrent)
        && Settled()
        && report.value == Report(reading.Degrees?, StatusWarnings())
      ensures old(Settled()) && reading.NaN? ==> peltierState == old(peltierState)
      ensures report.Some? && old(Settled()) && reading.NaN? ==> coolerState == peltierState
    {
      if Elapsed(now, lastReadTime) >= ReadInterval {
        var ok := ReadSensors(reading, sensedCurrent);
        ControlSystem();
        report := Some(Report(ok, StatusWarnings()));
        lastReadTime := now;
      } else {
        report := None;
      }
    }
  }
}
