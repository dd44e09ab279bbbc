# Peltier cooler controller — Dafny model

A model of the hysteretic (bang-bang) thermal regulator of the SOKOLF405 cooler
firmware. The firmware exists for two targets, an STM32 HAL build
(`src/temperature_control.c`) and an Arduino build (`src/main.cpp`), which run
the same decision every 2000 ms:

- **engage** the Peltier element when the temperature is above 15.5 °C
  (`MAX_TEMP + HYSTERESIS`) and the drive current lies in [6 A, 7 A];
- otherwise **disengage** it when the temperature is below 1.5 °C
  (`MIN_TEMP - HYSTERESIS`) or the current is outside [6 A, 7 A];
- otherwise **hold** the previous command (the dead-band);
- then switch the **fan** on when the Peltier element is on or the temperature
  is above 17 °C (`MAX_TEMP + 2`);
- then print advisory warnings (current low while the element is on, current
  high, temperature above 20 °C, temperature below 0 °C).

Files and modules:

| file | module | models |
|---|---|---|
| `regulator.dfy` | `Regulator` | the shared decision `Step`, the warning predicates, and the laws of one cycle |
| `history.dfy` | `History` | successive cycles: `Run` and the hysteresis memory it keeps |
| `tick.dfy` | `Tick` | the 32-bit millisecond clock and the wrap-around-safe tick gate |
| `hal_control.dfy` | `HalControl` | the globals and functions of `src/temperature_control.c` as class `TemperatureControl` |
| `arduino_control.dfy` | `ArduinoControl` | the globals and functions of `src/main.cpp` as class `Controller` |

Readings are `real`. Every finite float value is a real number, and every threshold
(2.0, 15.0, 0.5, 6.0, 7.0 and the sums 1.5, 15.5, 17, 20, 0) is exactly
representable, so each `<`, `>`, `<=`, `>=` of the firmware is modelled
exactly; an infinite float compares with these constants like any large real. The Arduino temperature is a `TempReading`: `Degrees(x)` or `NaN`,
and every ordered comparison with `NaN` is false, as in C++. The HAL output
flags are `uint8_t`, modelled as the newtype `u8`, read as C truth values
(`!= 0`). The clock (`uint32_t` / 32-bit `unsigned long`) is the newtype
`u32`, and `currentTime - lastReadTime` is subtraction modulo 2^32.

Each class keeps the invariant `Settled()`: the stored outputs are exactly
what the decision gives on the stored readings. The constructor establishes
it, `ControlSystem` re-establishes it, and the loop hook (`Process` / `Loop`)
either changes nothing or ends in it. The warnings' guarantees follow from it.
Those guarantees are: the low-current warning never fires; the high-current
and critical-low warnings come with the element off; the critical-high
warning comes with the fan on.

Behaviour of the code worth knowing:

- On an invalid (NaN) temperature every temperature comparison is false. The
  current is not refreshed, so it is the current the previous decision already
  checked, and from any reachable (settled) state the Peltier command is
  always held (`Regulator.NaNHoldsPeltierWhenSettled`,
  `ArduinoControl.Controller.Loop`). The fan is recomputed as
  `coolerState = peltierState`, so only a fan that was on because of heat goes
  off. The cycle's report carries the failed read as `sensorOk == false`; no
  other fault flag exists.
- The code tests engage before disengage. The guards are mutually exclusive,
  so a disengage-first table gives the same command
  (`Regulator.StepFollowsDecision`).
- At 16.0 °C and 7.5 A the fan ends up off, because 16 is not above 17; at
  1.0 °C no critical-low warning fires, because that threshold is 0 °C
  (`Regulator.Scenarios`).

## Model

| member | source | states |
|---|---|---|
| `Regulator.Step` | src/temperature_control.c:112-135 | after a decision the element is on only with current in [6,7]; the fan is on whenever the element is; the fan is on above 17 °C and otherwise equals the Peltier command |
| `Regulator.GuardsExclusive` | src/temperature_control.c:114-122 | the engage and disengage guards never both hold |
| `Regulator.StepFollowsDecision` | src/temperature_control.c:112-125 | the engage-first if/else-if gives the same command as the disengage-first decision table (forced on, forced off, or held) |
| `Regulator.EngageFromAnyState` | src/temperature_control.c:114-118 | above 15.5 °C with current in [6,7], the element (and so the fan) is on whatever the previous state |
| `Regulator.DisengageFromAnyState` | src/temperature_control.c:120-125 | below 1.5 °C or with current outside [6,7], the element is off whatever the previous state |
| `Regulator.DeadBandIs` | src/main.cpp:95-103 | for a numeric temperature neither guard holds exactly when 1.5 ≤ t ≤ 15.5 and the current is in [6,7] |
| `Regulator.DeadBandHolds` | src/main.cpp:93-106 | when neither guard holds, the Peltier command keeps its previous value |
| `Regulator.NaNReading` | src/main.cpp:95-116 | on a NaN temperature the element stays on only if it was on and the current is in window, and the fan equals it |
| `Regulator.NaNHoldsPeltierWhenSettled` | src/main.cpp:72-77 | from a settled state a NaN reading (with the current left stale) keeps the Peltier command and sets the fan equal to it |
| `Regulator.StepSettles` | src/main.cpp:93-116 | a second decision on the same readings changes nothing |
| `Regulator.SettledAlarms` | src/main.cpp:130-141 | on a settled state the low-current warning is off; high-current and critical-low warnings imply the element is off; critical-high implies the fan is on |
| `Regulator.NaNRaisesNoTempAlarm` | src/main.cpp:136-141 | a NaN temperature raises neither critical temperature warning |
| `Regulator.Scenarios` | src/main.cpp:93-141 | the outputs and warnings of five concrete cycles (16 °C/6.5 A from off, 16 °C/7.5 A from on, 10 °C/6.5 A from on and from off, 20.1 °C, 1.0 °C) |
| `History.Run` | src/main.cpp:56-64 | over any run of cycles, the fan covers the element, and after a non-empty run the element is on only if the last current read is in window |
| `History.RunSnoc` | src/main.cpp:56-64 | one more cycle at the end of a run is one more decision on the run's result |
| `History.RunIsLastDecision` | src/main.cpp:93-106 | the Peltier command after a run equals the verdict of the last reading that forced one, or the initial command if none did |
| `History.DeadBandHoldsAcrossRun` | src/main.cpp:93-106 | readings that all fall in the dead-band never change the Peltier command, over any number of cycles |
| `History.LastDecisionOnWitness` | src/main.cpp:95-99 | a last forced verdict of "on" from an off start comes from a reading that met the engage guard |
| `History.OnOnlyAfterEngage` | src/main.cpp:25-26 | from power-up with both outputs off, the element is on only after some reading above 15.5 °C with current in window |
| `Tick.Elapsed` | src/temperature_control.c:69 | the unsigned difference is the forward distance from the last read time to now modulo 2^32 |
| `Tick.ElapsedIsDelay` | src/main.cpp:59 | across a wrap of the counter the difference equals the true delay (under 2^32 ms) |
| `Tick.DueIffIntervalPassed` | src/temperature_control.c:66-75 | the gate opens exactly when at least 2000 ms have truly passed |
| `HalControl.TemperatureControl.constructor` | src/temperature_control.c:23-27 | both outputs off, readings and clock zero, and the state settled |
| `HalControl.TemperatureControl.ReadSensors` | src/temperature_control.c:77-87 | the temperature is what the driver left; on a driver failure the current keeps its stale value, otherwise it is the new reading |
| `HalControl.TemperatureControl.ControlSystem` | src/temperature_control.c:112-135 | the new flags are 0/1, equal the decision on the stored readings and previous flag, and are settled |
| `HalControl.TemperatureControl.StatusWarnings` | src/temperature_control.c:148-156 | high current warns iff current > 7; on a settled state the low-current warning cannot fire and high current implies the element is off |
| `HalControl.TemperatureControl.Process` | src/temperature_control.c:66-75 | runs iff the modular elapsed time is at least 2000; then read, decide (with a stale current after a driver failure), report the read outcome and the warnings, and set the last read time; otherwise nothing changes |
| `ArduinoControl.Controller.constructor` | src/main.cpp:23-27 | both outputs off, readings and clock zero, and the state settled |
| `ArduinoControl.Controller.ReadSensors` | src/main.cpp:70-91 | the temperature is stored as read; on NaN the current keeps its stale value, otherwise it is the new reading |
| `ArduinoControl.Controller.ControlSystem` | src/main.cpp:93-117 | the new outputs equal the decision on the stored readings and are settled; on NaN both equal the old command gated by the current window |
| `ArduinoControl.Controller.StatusWarnings` | src/main.cpp:129-141 | on a settled state low current never warns, high current or critical-low imply the element is off, critical-high implies the fan is on; NaN raises no temperature warning |
| `ArduinoControl.Controller.Loop` | src/main.cpp:56-64 | runs iff the modular elapsed time is at least 2000; then read, decide, report the read outcome and the warnings, and set the last read time; from a settled state a NaN reading keeps the Peltier command; otherwise nothing changes |

## Left out

- GPIO pin setup and writes (`HAL_GPIO_Init`, `HAL_GPIO_WritePin`, `pinMode`, `digitalWrite`): hardware side effects. Only the flags they mirror are modelled.
- UART/Serial text, `snprintf` formatting and the start-up banners: output only. The warnings are modelled as booleans, and the DHT11 error line as the `sensorOk` flag of the cycle's report.
- The DHT11 drivers (`DHT11_Init`, `DHT11_ReadTempHumidity`, `dht.begin`, `dht.readTemperature`): foreign libraries. Their result is a parameter. On the HAL target, what the driver leaves in `currentTemp` after a failure is an arbitrary input.
- ADC sequencing and the voltage-to-current conversion (`readCurrentSensor`, `analogRead`, `((adc/4095)*3.3 - 1.65)/0.1`): peripheral I/O and floating-point arithmetic. The current is an input value.
- The HAL temperature is always a number. Whether that driver can produce NaN is not visible in its source, so the NaN case is modelled for the Arduino target only.
- `HAL_GetTick` and `millis`: clock reads become the `now` parameter. `delay(...)`: timing only.
- The Arduino runtime's endless repetition of `loop()`: `Loop` models one pass, and `History.Run` models the decisions of successive passes.
