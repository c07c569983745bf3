# Solar array tracker, modelled in Dafny

This project models the controller of the Space Engineers script in
`SolarArray/Program.cs`, namely class `SolarArray`. The controller turns a
rotor that carries a group of solar panels and hill-climbs toward the angle
of highest power output. The model covers four parts:

- the state machine: `ChangeState` gives each state its entry action, and
  `Update` holds the per-tick logic of `Reset`, `SearchingForMax`,
  `GoingTowardsMax` and `Idle`, with `Stopped` as the terminal state;
- the peak bookkeeping at the end of `Update`;
- the power aggregation `GetCurrentArrayPower`;
- the panel readout parser `GetSolarPanelPowerOutput`.

The project has five files:

- `text_ops.dfy` (module `TextOps`) models .NET `String.Split` with one
  separator character and `String.Trim`. Trim uses the white-space set of
  `char.IsWhiteSpace`. Split keeps empty pieces.
- `panel_info.dfy` (module `PanelInfo`) holds the parser.
  - `PowerOutput` is the imperative line scan, with its `continue` and its
    early return.
  - `PanelOutput` is the specification function the scan is proved to
    compute.
  - Lemmas say what `PanelOutput` reports, ending with an end-to-end
    statement about readouts that contain a `Current Output: <n> <unit>`
    line.
- `control.dfy` (module `Control`) is the control law on values. Its
  specification functions are:
  - `Enter`: the entry action of a state;
  - `Decide`: the switch statement;
  - `Finish`: the tail of `Update`;
  - `AfterRead`: the effect of reading the power;
  - `Step`: one whole tick;
  - `Run`: a sequence of ticks.
- `control_proofs.dfy` (module `ControlProofs`) proves properties of `Step`
  and `Run`.
- `solar_array.dfy` (module `SolarArrays`) has the classes `Rotor` and
  `SolarArray`.
  - Their fields are updated in place exactly as the source does.
  - Each method is proved to perform the matching specification function.
    For example, `Update` leaves `Current() == Step(old(Current()), tick)`.
    So every property in `control_proofs.dfy` holds of the object.

The model keeps these features of the code:

- The three transition tests use exact equality or the strict comparison
  the code has: `== 0` at line 179, `== MaxPowerAngle` at line 207, and
  `< MaxPower * 0.8` at line 216.
- `float.MaxValue` and `Math.PI` are their exact decimal values.
- The rotor's angle is moved by the game between ticks. `Update` reads it at
  the start of a tick, and nothing in the tick changes it. That is why the
  second read of `Rotor.Angle` at line 207 sees the same value as
  `CurrentAngle`.
- The number conversion `Convert.ToSingle` is the parameter
  `parseNum: string -> real` of the parser and of `Update`.
- A panel's detailed-info text is an input of `Update` per panel
  (`infos[i]`), because the game rewrites it between ticks.
- The panel group's discovery leaves a non-empty panel list. This is the
  constructor's precondition `panelCount > 0`.

Three behaviours of the code that are easy to miss:

- On a tick where a panel fails, `Update` does not stop after the
  aggregation.
  - The switch runs, but finds no case for `Stopped`.
  - The tail still sets the last reading to 0.
  - The peak stays unchanged, because 0 never exceeds a non-negative peak
    (`SensorFailure`).
- The peak can also fall on `GoingTowardsMax -> Idle` (lines 209-210), not
  only on a new search (`PeakFallsOnlyOnRestart`).
- The plain direction reversal at line 199 is dead only in the first search
  pass after the constructor (`NoReversalInFirstPass`). After
  `Idle -> SearchingForMax` the tail seeds the peak with the current reading
  while the crest flag stays false. A following lower reading then takes
  the branch (`ReversalAfterIdle`, `ReversalReachable`).

## Model

| member | source | states |
|---|---|---|
| TextOps.Split | SolarArray/Program.cs:131 | `s.Split(sep)`: the pieces between separators, empty pieces kept, at least one piece |
| TextOps.TrimStart | SolarArray/Program.cs:140-141 | `s` without its leading `char.IsWhiteSpace` characters |
| TextOps.TrimEnd | SolarArray/Program.cs:140-141 | `s` without its trailing `char.IsWhiteSpace` characters |
| TextOps.Trim | SolarArray/Program.cs:140-141 | `s.Trim()`: `TrimStart` then `TrimEnd` |
| TextOps.SplitSpec | SolarArray/Program.cs:134 | no piece of `s.Split(sep)` holds `sep`; joining the pieces at `sep` gives back `s`; there is one piece more than `s` has separators, so exactly one piece iff `s` holds no `sep` |
| TextOps.SplitCount | SolarArray/Program.cs:134-135 | a string with n separators splits into n + 1 pieces |
| TextOps.SplitHead | SolarArray/Program.cs:145-146 | the first piece of a split is a prefix of the string, ending at the end of the string or at the first separator |
| TextOps.SplitJoin | SolarArray/Program.cs:131 | splitting a join of separator-free pieces gives back exactly those pieces |
| TextOps.TrimStartSpec | SolarArray/Program.cs:140-141 | `TrimStart` leaves a suffix that starts with a non-white character (or is empty), and all it removes is white space |
| TextOps.TrimEndSpec | SolarArray/Program.cs:140-141 | `TrimEnd` leaves a prefix that ends with a non-white character (or is empty), and all it removes is white space |
| TextOps.TrimSpec | SolarArray/Program.cs:140-141 | `Trim(s)` is the part of `s` between leading and trailing white space, and neither starts nor ends with white space |
| TextOps.TrimIdempotent | SolarArray/Program.cs:140-141 | trimming twice is trimming once |
| PanelInfo.IsOutputLine | SolarArray/Program.cs:134-143 | a line splits at `:` into exactly two pieces and its trimmed name is `Current Output` |
| PanelInfo.OutputToken | SolarArray/Program.cs:141-146 | the first space-separated piece of an output line's trimmed value |
| PanelInfo.FirstOutput | SolarArray/Program.cs:132-150 | over the lines in order: the converted token of the first output line, -1 when there is none |
| PanelInfo.PanelOutput | SolarArray/Program.cs:129-151 | `FirstOutput` of the detailed info split at newlines |
| PanelInfo.ColonCountSkipped | SolarArray/Program.cs:134-138 | a line whose number of colons is not exactly one is never taken as the output line |
| PanelInfo.OutputTokenIsLeadingWord | SolarArray/Program.cs:145-146 | the converted token is the leading space-free word of the trimmed value; the unit after it is ignored |
| PanelInfo.NoOutputLine | SolarArray/Program.cs:148-150 | when no line is a `Current Output` line with exactly one colon, the parser reports -1 |
| PanelInfo.FirstOutputLine | SolarArray/Program.cs:132-147 | otherwise it reports the converted token of the first such line, whatever lines follow |
| PanelInfo.OutputLineToken | SolarArray/Program.cs:140-146 | the line `Current Output: <num> <unit>` is an output line and its token is `<num>` (a non-empty number with no white space and no colon) |
| PanelInfo.ReportedOutput | SolarArray/Program.cs:129-151 | a readout whose first output line is `Current Output: <num> <unit>` reports `parseNum(num)`, whatever other lines it has |
| PanelInfo.PowerOutput | SolarArray/Program.cs:129-151 | the line scan returns exactly `PanelOutput(info, parseNum)` |
| Control.Enter | SolarArray/Program.cs:82-127 | ChangeState: the entry action of each state on the fields and rotor command, then the state becomes the new one |
| Control.Initial | SolarArray/Program.cs:78 | the fields at their defaults with the rotor as found, then the entry action of SearchingForMax |
| Control.ArrayPower | SolarArray/Program.cs:152-170 | the sum of the outputs in panel order, none when some output is negative |
| Control.Reading | SolarArray/Program.cs:166-169 | the power `GetCurrentArrayPower` returns: the sum, or 0 after a failure |
| Control.AfterRead | SolarArray/Program.cs:159-167 | the snapshot after the power reading: unchanged, or with Stopped entered when some panel failed |
| Control.Decide | SolarArray/Program.cs:175-222 | the switch of `Update`: Reset, SearchingForMax, GoingTowardsMax and Idle on this tick's angle and power; no case for Stopped |
| Control.Finish | SolarArray/Program.cs:223-229 | the tail of `Update`: remember the reading, and raise the peak to it with this tick's angle when it is higher |
| Control.Step | SolarArray/Program.cs:171-230 | one `Update`: the power reading, the switch, then the tail, on the angle read at the start |
| Control.Run | SolarArray/Program.cs:171-230 | `Update` applied once per tick, in order |
| ControlProofs.SumNonNegative | SolarArray/Program.cs:159-162 | the sum of readable outputs is non-negative |
| ControlProofs.ReadSnoc | SolarArray/Program.cs:155-162 | reading one more panel keeps the prefix readable iff its output is non-negative, and adds that output to the sum |
| ControlProofs.ReadablePrefix | SolarArray/Program.cs:155-167 | if all outputs are readable, so is every prefix of them |
| ControlProofs.ArrayPowerSpec | SolarArray/Program.cs:152-170 | the aggregate fails iff some output is negative, and otherwise is the non-negative sum of all outputs |
| ControlProofs.EntryLock | SolarArray/Program.cs:82-127 | entering Stopped or Idle locks the rotor, entering Reset or SearchingForMax unlocks it, entering GoingTowardsMax keeps the lock; only Reset and GoingTowardsMax change the velocity; the state becomes the new state |
| ControlProofs.SensorFailure | SolarArray/Program.cs:152-170 | a tick with a negative output ends Stopped, with the rotor locked, velocity and limits kept, peak and crest flag unchanged, and last reading 0 |
| ControlProofs.StoppedStep | SolarArray/Program.cs:175-222 | a tick from Stopped stays Stopped (the switch has no Stopped case), and the rotor command changes only by being locked again when a panel fails |
| ControlProofs.StoppedForever | SolarArray/Program.cs:171-229 | from Stopped with the rotor locked, every run of ticks stays Stopped with the same rotor command |
| ControlProofs.InitialInv | SolarArray/Program.cs:78 | the constructor leaves SearchingForMax, with the invariant of reachable snapshots established |
| ControlProofs.InvStep | SolarArray/Program.cs:171-230 | every tick preserves the invariant: non-negative peak and last reading, rotor locked iff Idle or Stopped, and last reading at most the peak while searching |
| ControlProofs.InvRun | SolarArray/Program.cs:171-230 | every run of ticks preserves the invariant |
| ControlProofs.ReachableInvariant | SolarArray/Program.cs:86-124 | after any ticks from the constructor, the rotor is locked iff the state is Idle or Stopped, and the invariant holds |
| ControlProofs.NeverReset | SolarArray/Program.cs:91-100 | no tick enters Reset |
| ControlProofs.PeakCoversReading | SolarArray/Program.cs:223-229 | after a tick whose panels all reported, the peak is at least the reading, and the last reading is the reading |
| ControlProofs.PeakRiseRecordsAngle | SolarArray/Program.cs:225-229 | whenever the peak rises, its angle becomes this tick's angle |
| ControlProofs.PeakAngleFrame | SolarArray/Program.cs:225-229 | the peak angle changes only when the peak rises (to this tick's angle, with the peak this tick's reading) or when Reset/Idle -> SearchingForMax clears the peak to 0 at angle 0 |
| ControlProofs.PeakFallsOnlyOnRestart | SolarArray/Program.cs:205-213 | the peak falls only on Reset/Idle -> SearchingForMax or GoingTowardsMax -> Idle, and then equals this tick's reading |
| ControlProofs.SearchingStep | SolarArray/Program.cs:185-204 | from SearchingForMax: GoingTowardsMax iff power fell below the last reading while the crest flag is set (set before, or set now by a reading above the peak), with the velocity negated and both limits at the peak angle; otherwise still searching, with the velocity negated exactly when power fell; the crest flag is updated |
| ControlProofs.ResetStep | SolarArray/Program.cs:177-184 | Reset moves on to SearchingForMax iff the angle is exactly 0, and otherwise leaves the rotor alone |
| ControlProofs.GoingStep | SolarArray/Program.cs:205-213 | GoingTowardsMax moves to Idle iff the angle equals the peak angle exactly; the rotor is then locked and the peak becomes the reading |
| ControlProofs.IdleStep | SolarArray/Program.cs:214-221 | Idle restarts the search iff power is below 0.8 of the peak, unlocking the rotor with wide limits and the velocity kept; otherwise the rotor is untouched |
| ControlProofs.IdleThreshold | SolarArray/Program.cs:216 | with a peak of 100 in Idle, 79.9 restarts the search and 80 does not |
| ControlProofs.CrestThenReverse | SolarArray/Program.cs:185-203 | from the constructor, readings 10, 20, 30, 25 at angles 0, 1, 2, 3 turn to GoingTowardsMax at 25, with the velocity negated, both limits at 2 and the peak 30 at angle 2 |
| ControlProofs.FirstPassStep | SolarArray/Program.cs:187-200 | in the first search pass no tick takes the plain reversal, and a tick that keeps searching stays in the first pass |
| ControlProofs.FirstPassPrefix | SolarArray/Program.cs:107-110 | while every snapshot from the constructor has been searching, the snapshot is still in the first pass |
| ControlProofs.NoReversalInFirstPass | SolarArray/Program.cs:199 | the plain direction reversal never fires in the first search pass after the constructor |
| ControlProofs.ReversalAfterIdle | SolarArray/Program.cs:216-218 | from Idle with peak 100, readings 70 and then 60 take the reversal branch, negating the velocity and staying in SearchingForMax |
| ControlProofs.ReversalReachable | SolarArray/Program.cs:199 | from the constructor, readings 100, 50, 100, 70 reach a snapshot where 60 takes the reversal branch |
| ControlProofs.LimitsCanLagPeak | SolarArray/Program.cs:117 | from the constructor, readings 10, 20, 15, 30 at angles 0, 1, 2, 1.5 leave GoingTowardsMax clamped at 1 while the peak angle moves to 1.5 |
| SolarArrays.PanelOutputs | SolarArray/Program.cs:155-158 | one output per panel, in panel order: output i is what panel i's detailed info reports |
| SolarArrays.PanelOutputsPrefix | SolarArray/Program.cs:155-158 | reading the first k panels gives the first k outputs |
| SolarArrays.SolarArray.constructor | SolarArray/Program.cs:45-80 | the new array holds its panel count and rotor, is valid, and is in the snapshot `Initial` (the entry action of SearchingForMax on default fields) |
| SolarArrays.SolarArray.ChangeState | SolarArray/Program.cs:82-127 | the fields and rotor command become `Enter(old snapshot, newState, angle)`, and the angle is untouched |
| SolarArrays.SolarArray.GetCurrentArrayPower | SolarArray/Program.cs:152-170 | returns the sum of the panel outputs, or 0 with the array Stopped at the first failed panel; the state is `AfterRead` of the old one, and a valid array stays valid |
| SolarArrays.SolarArray.Update | SolarArray/Program.cs:171-230 | the new snapshot is `Step` of the old one on this tick's angle and outputs, and the array stays valid |
| SolarArrays.SolarArray.Respond | SolarArray/Program.cs:175-229 | the switch and the tail leave `Finish(Decide(old snapshot, angle, power), angle, power)` |

## Left out

- The group and panel discovery, the `Valid` flag and the early returns of
  the constructor (lines 45-77) are game API lookups. The model starts from
  their successful outcome: a non-empty panel count and a rotor.
- `ShowStatus`, `Echo` and all message text (lines 49-77, 149, 231-240)
  produce output only and never feed back into the controller.
- The `Program` class is not part of this model. It is the game's
  scheduler plumbing and runs independent arrays.
- `Convert.ToSingle` is the parameter `parseNum`. Its culture-dependent
  parsing and its exceptions on malformed or empty tokens are not modelled.
- Powers and angles are `real`. The single-precision sum and the
  double-precision product `MaxPower * 0.8` (whose factor is the double
  nearest 0.8) are exact reals here, with the factor the exact real 0.8.
  Readings within rounding distance of 80% of the peak may compare
  differently in the program.
- Rotor physics is not modelled: how the rotor moves toward its velocity
  and limits between ticks. The angle is an input of each tick.
- The unused `SolarReadout` split at line 157 has no effect and is not
  modelled.
- SolarArrays.SolarArray.Respond: this method does not exist in the source.
  It holds the switch and the tail of `Update` (lines 175-229) unchanged,
  so that their proof is separate from the power reading.
- TextOps.Split: its own contract states only that there is at least one
  piece. What the pieces are is stated by `SplitSpec` and `SplitJoin`.
