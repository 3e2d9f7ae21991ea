# Hinge-angle tablet-mode daemon — decision logic in Dafny

The daemon `angle-sensor-service/angle-sensor.py` polls two accelerometers (one
in the base, one in the display of a convertible laptop) and the ACPI lid
switch, classifies the device as `CLOSED`, `LAPTOP` or `TABLET`, and runs a
trigger command with the old and new state names whenever the classification
changes. This project models the part of that daemon that decides:

- `TabletStates` — the `TabletState` enum (`UNKNOWN`, `CLOSED`, `LAPTOP`,
  `TABLET`) and the names passed to the trigger command.
- `Angles` — `angle_within`, the circular tolerance test, and the tilt gate
  built from it (level right way up at 0 degrees or upside down at 180).
- `Classifier` — `Tablet.evaluate`: the lid override and the Schmitt trigger
  on `|hinge|` (enter tablet mode at or below `threshold`, stay while at or
  below `threshold + hysteresis`).
- `Daemon` — the `Tablet` object as an immutable record (`TabletDaemon`):
  `update` (commit on a difference, one trigger run per change), one tick of
  `run` (jerk gate, then tilt gate, then evaluate and commit), the zero jerk of
  the first poll, the poll loop over a sequence of ticks, and the `LAPTOP`
  commit on the exit path of `main`.
- `Text`, `IntLiteral`, `MountMatrix` — `Accel.parse_mount_matrix`: Python's
  `str.split`, Python's `int()` on decimal text, and the udev mount-matrix
  notation `"1,0,0;0,1,0;0,0,1"`, with a format/parse round trip.
- `Wrappers` — `Option` and `Result`, standing for `None` and raised errors.

Sensor values reach the model as opaque reals per tick (`Tick`): the lid
switch string, the base jerk magnitude, the base tilt and the hinge angle, all
as the numpy code computes them. The trigger command is observable as the list
of committed `Change`s and, through `Invocations`, the argument lists the
command would be run with.

Behaviour of the code worth knowing before reading the model:

- The daemon enters `TABLET` when `|hinge| <= threshold` and keeps it while
  `|hinge| <= threshold + hysteresis`; above that it is `LAPTOP`.
- It starts in `UNKNOWN` and has no `TENT` state (that enum member is
  commented out).
- `update` commits the new state before running the trigger command and only
  logs a `CalledProcessError`, so a failing command does not hold the state
  back.
- Hysteresis and thresholds are not validated: any float is accepted (the
  model takes any finite real; see "## Left out"). A negative hysteresis makes
  the classifier oscillate on a constant angle
  (`Classifier.NegativeHysteresisOscillates`).
- The jerk gate compares the magnitude of the base vector's rate of change
  (difference over elapsed seconds) and is zero on the first poll; the tilt
  gate is `angle_within(base_tilt, 180, t) or angle_within(base_tilt, 0, t)`.
- The jerk and tilt gates run before the lid switch is read, so a jerky or
  tilted tick holds the state even with the lid closed.

`angle_within` computes `min(d, 360 - d)`, which equals the circular distance
only while `d <= 360`. Further apart, `360 - d` is negative, and for any
non-negative tolerance the test accepts the pair
(`Angles.AngleWithinFarApart`; `Angles.AngleWithinBeyondOneTurn` gives 540
against 0). The tilt the daemon passes comes from `arctan2`, within
[-180, 180], so `Tablet.run` never meets that case
(`Angles.IsLevelIsCircular`).

## Model

| member | source | states |
|---|---|---|
| TabletStates.FromName | angle-sensor-service/angle-sensor.py:40-45 | a name read back from a trigger argument is the name of the state returned |
| TabletStates.FromNameOfName | angle-sensor-service/angle-sensor.py:40-45 | every state's `.name` reads back as that state |
| TabletStates.NamesDistinct | angle-sensor-service/angle-sensor.py:40-45 | two states have the same name iff they are the same state |
| Angles.AngleWithinSymmetric | angle-sensor-service/angle-sensor.py:48-54 | `angle_within` gives the same answer with theta and target swapped |
| Angles.AngleWithinReflexive | angle-sensor-service/angle-sensor.py:48-54 | every angle is within any non-negative tolerance of itself |
| Angles.AngleWithinIsCircular | angle-sensor-service/angle-sensor.py:48-54 | for angles at most 360 degrees apart, `angle_within` holds iff some whole-turn shift of theta lies within tolerance of target |
| Angles.AngleWithinBeyondOneTurn | angle-sensor-service/angle-sensor.py:48-54 | beyond one turn apart the test accepts angles half a turn apart on the circle (540 vs 0 within 20) |
| Angles.AngleWithinFarApart | angle-sensor-service/angle-sensor.py:53-54 | angles more than a whole turn apart pass the test for every non-negative tolerance, since `360 - delta` is then negative |
| Angles.IsLevelIsCircular | angle-sensor-service/angle-sensor.py:270-271 | for a tilt in [-180, 180] the tilt gate passes iff the tilt is within tolerance of 0 or 180 on the circle |
| Angles.FlatBaseIsLevel | angle-sensor-service/angle-sensor.py:270-271 | tilts of 0, 180 and -180 pass the gate for any non-negative tolerance |
| Classifier.Evaluate | angle-sensor-service/angle-sensor.py:212-230 | closed lid gives CLOSED; lid open and not in TABLET gives TABLET iff `\|hinge\| <= threshold`; in TABLET stays TABLET iff `\|hinge\| <= threshold + hysteresis`; otherwise LAPTOP; never UNKNOWN |
| Classifier.BandKeepsState | angle-sensor-service/angle-sensor.py:221-230 | with the lid open, an angle with `threshold < \|hinge\| <= threshold + hysteresis` leaves LAPTOP and TABLET unchanged |
| Classifier.EvaluateSettles | angle-sensor-service/angle-sensor.py:221-230 | with hysteresis >= 0, evaluating again on the same readings returns the same state |
| Classifier.NegativeHysteresisOscillates | angle-sensor-service/angle-sensor.py:221-230 | with hysteresis -10 and threshold 45, a constant 40-degree angle alternates LAPTOP -> TABLET -> LAPTOP |
| Classifier.EvaluateEven | angle-sensor-service/angle-sensor.py:222-227 | the classification depends only on the magnitude of the hinge angle |
| Daemon.Init | angle-sensor-service/angle-sensor.py:165-176 | a new daemon is in UNKNOWN, has not polled, and carries its configuration |
| Daemon.Invocation | angle-sensor-service/angle-sensor.py:241 | the command's argument list is the configured command followed by two arguments naming the old and the new state |
| Daemon.Invocations | angle-sensor-service/angle-sensor.py:240-241 | no command runs without a configured command; otherwise one run per committed change, in order |
| Daemon.Update | angle-sensor-service/angle-sensor.py:232-246 | the state afterwards is the requested one; an equal state commits nothing, a different one commits exactly the change old -> new; configuration and poll memory are untouched |
| Daemon.UpdateIdempotent | angle-sensor-service/angle-sensor.py:235 | committing the same state a second time changes nothing and commits nothing |
| Daemon.UpdateRunsCommandOnChange | angle-sensor-service/angle-sensor.py:235-246 | the trigger command runs once, with old and new names appended, iff the state differs and a command is configured |
| Daemon.Step | angle-sensor-service/angle-sensor.py:265-280 | a tick skipped for jerk or tilt keeps the state and commits nothing; an accepted tick commits the evaluated state; at most one change, from the old to the new state; the poll is recorded either way |
| Daemon.FirstTickPassesJerkGate | angle-sensor-service/angle-sensor.py:192-194 | with a non-negative jerk threshold the first tick is never skipped for jerk, and a level first tick commits the evaluation from UNKNOWN |
| Daemon.SkippedTickIgnoresLid | angle-sensor-service/angle-sensor.py:265-280 | a skipped tick holds the state even when the lid reads closed |
| Daemon.FirstTickLidClosed | angle-sensor-service/angle-sensor.py:215-217 | a level first tick with the lid closed commits CLOSED and runs the command with `UNKNOWN CLOSED` |
| Daemon.Run | angle-sensor-service/angle-sensor.py:366-369 | over a sequence of ticks the committed changes form one chain from the initial to the final state, each a real change, and no more changes than ticks |
| Daemon.RunNeverReturnsToUnknown | angle-sensor-service/angle-sensor.py:212-230 | once out of UNKNOWN the daemon never returns to it |
| Daemon.RunInBandCommitsNothing | angle-sensor-service/angle-sensor.py:221-230 | while the lid stays open and every angle stays in the hysteresis band, LAPTOP or TABLET is kept and nothing is committed, whatever the gates decide |
| Daemon.RunTiltedCommitsNothing | angle-sensor-service/angle-sensor.py:270-275 | a run in which the base is never level commits nothing |
| Daemon.DefaultTuningScenario | angle-sensor-service/angle-sensor.py:293-300 | with the default 45/20 tuning, angles 90, 50, 44, 60, 66 from LAPTOP enter TABLET at 44, hold it at 60 and leave it at 66 |
| Daemon.Shutdown | angle-sensor-service/angle-sensor.py:372-376 | after the exit path the state is LAPTOP; a change is committed iff the prior state was not LAPTOP |
| Daemon.ShutdownRunsCommand | angle-sensor-service/angle-sensor.py:372-376 | the exit path runs the trigger command once iff the state was not LAPTOP and a command is configured, and never otherwise |
| Daemon.Session | angle-sensor-service/angle-sensor.py:360-376 | a whole run, from construction through the poll loop to the exit path, ends in LAPTOP with its changes forming one chain from UNKNOWN to LAPTOP |
| Text.Split | angle-sensor-service/angle-sensor.py:67-68 | `str.split` yields one more piece than there are separators, none containing the separator |
| Text.JoinSplit | angle-sensor-service/angle-sensor.py:67-68 | joining the pieces of a split with the separator restores the string |
| Text.SplitJoin | angle-sensor-service/angle-sensor.py:67-68 | splitting the join of separator-free pieces gives the pieces back |
| IntLiteral.TrimStartDropsLeadingSpace | angle-sensor-service/angle-sensor.py:67 | stripping the front of a field removes exactly its leading whitespace and leaves a suffix not starting with whitespace |
| IntLiteral.TrimEndDropsTrailingSpace | angle-sensor-service/angle-sensor.py:67 | stripping the back of a field removes exactly its trailing whitespace and leaves a prefix not ending with whitespace |
| IntLiteral.StripIsSlice | angle-sensor-service/angle-sensor.py:67 | the stripped field is a slice of the field with only whitespace outside it |
| IntLiteral.ParseIntAccepts | angle-sensor-service/angle-sensor.py:67 | text `int()` accepts consists only of whitespace, digits, underscores and signs, and holds at least one digit |
| IntLiteral.ParseIntRefusesBlank | angle-sensor-service/angle-sensor.py:67 | empty or all-whitespace text is refused |
| IntLiteral.ParseFormatInt | angle-sensor-service/angle-sensor.py:67 | `int(str(n)) == n` for every integer |
| IntLiteral.PaddedGroupedLiteral | angle-sensor-service/angle-sensor.py:67 | surrounding whitespace, a minus sign and an underscore between digits are accepted (`" -1_0\n"` is -10) |
| IntLiteral.DoubleUnderscoreRefused | angle-sensor-service/angle-sensor.py:67 | two underscores in a row are refused |
| IntLiteral.BareSignRefused | angle-sensor-service/angle-sensor.py:67 | a sign without digits is refused |
| IntLiteral.FileSeparatorRefused | angle-sensor-service/angle-sensor.py:67 | the ASCII separator U+001C is not stripped, so `int("\x1c1")` is refused |
| MountMatrix.ParseFields | angle-sensor-service/angle-sensor.py:67 | a row parses to one integer per field, each the field's value; it fails iff some field is not an integer, naming such a field |
| MountMatrix.ParseRows | angle-sensor-service/angle-sensor.py:67-68 | one parsed row per list of row fields, each the parse of those fields; a failure happens only when some row has a non-integer field, and names a field of the given rows that is not an integer |
| MountMatrix.ParseMountMatrix | angle-sensor-service/angle-sensor.py:63-68 | a parsed matrix has one row per `;` segment (separators plus one), each row parsed from its `,` fields, all rows of equal length; a refusal names a non-integer field taken from the `;`/`,` fields of the input, or reports inhomogeneous rows |
| MountMatrix.ParseFormatMatrix | angle-sensor-service/angle-sensor.py:63-68 | formatting a matrix with non-empty rows as `a,b,c;d,e,f;...` and parsing it gives the matrix back if rectangular, and an inhomogeneous-rows refusal otherwise |
| MountMatrix.IdentityParses | angle-sensor-service/angle-sensor.py:314-319 | the identity `"1,0,0;0,1,0;0,0,1"` parses to the 3x3 identity |
| MountMatrix.NonIntegerFieldRefused | angle-sensor-service/angle-sensor.py:67 | a non-integer field refuses the whole matrix with that field named |
| MountMatrix.EmptyStringRefused | angle-sensor-service/angle-sensor.py:67-68 | the empty string is refused: its one field is empty |

## Left out

- Device discovery and sensor reads (`Accel.get`, `read_attr`, `read_raw`, `read`, lines 70-137): kernel and udev I/O; their results enter as the per-tick reals.
- The lid switch file read and its regular expression (lines 140-147): only the resulting string enters the model. A file the expression does not match raises in the source; that is not modelled.
- The numpy arithmetic: `magnitude`, the `arctan2` angles, the jerk division by elapsed wall-clock time and the mount-matrix multiply (lines 57-59, 136, 196-208). They are floating-point and transcendental; the hinge angle, tilt and jerk magnitude are opaque reals. A zero elapsed time (numpy infinities and NaNs) is therefore not modelled.
- `subprocess.run` (line 244): only the argument list is modelled. A command that raises something other than `CalledProcessError` (for example a missing executable) ends the poll loop through the exit path in the source; the model does not represent that exception.
- Logging, `time.sleep` cadence, `GracefulKiller` and signals, `argparse` and `shlex.split` (lines 30-37, 284-363): process plumbing. The trigger command enters already split into arguments; the default tuning values are kept in `Daemon.Defaults`.
- The enum's numeric values (0, 1, 2, 4): nothing in the daemon observes them.
- IntLiteral.ParseInt: covers ASCII digits and the whitespace `int()` strips among ASCII and Latin-1 (space, tab, line feed, vertical tab, form feed, carriage return, U+0085, U+00A0); `int()` also accepts other Unicode decimal digits and strips other Unicode whitespace.
- IntLiteral.ParseInt: has no length limit; Python 3.11 and later refuse `int()` of a decimal string of more than 4300 digits unless that limit is raised.
- Daemon.Config: thresholds and hysteresis are finite reals. `argparse`'s `type=float` (lines 293-308) also accepts `nan` and infinities; a NaN jerk threshold turns the jerk gate off, a NaN threshold never enters tablet mode and a NaN tilt threshold skips every tick. None of this is modelled.
- Classifier.Evaluate: the arithmetic is exact. The source computes `threshold + hysteresis` (line 227) and `360 - delta` in `angle_within` (line 54) in floating point, whose rounding the model does not represent; the same holds for Angles.AngleWithin.
- MountMatrix.ParseMountMatrix: the refusal names a field that is not an integer but does not state that it is the first one in row-major order, which is the one Python's `ValueError` reports (the recursion does pick that one).
- MountMatrix.ParseMountMatrix: entries are exact unbounded integers. `np.array` (line 67) stores them as int64 only within [-2^63, 2^63); outside that range numpy switches to uint64, to object arrays, or to float64 when signs are mixed (rounding the entry), and none of that dtype behaviour is modelled; the same holds for MountMatrix.ParseFormatMatrix.
- MountMatrix.ParseMountMatrix: ragged rows are refused as numpy 1.24 and later do; older numpy built an object array with a warning. The later `vec @ transform` needs a 3x3 matrix, which the parser does not check and the model does not either.
