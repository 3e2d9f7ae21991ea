/** The `Tablet` object of the daemon as a value: its tuning, its committed
    hinge state, and the one piece of poll memory the decision logic reads
    (whether an earlier poll exists). A tick (`Tablet.run`) gates the reading
    on jerk and tilt, evaluates, and commits (`Tablet.update`); the exit path
    of `main` commits `LAPTOP`. */
module Daemon {
  import opened Wrappers
  import opened Angles
  import opened TabletStates
  import opened Classifier

  /** The tuning parameters and the optional trigger command (already split
      into arguments). */
  datatype Config = Config(
    threshold: real,
    hysteresis: real,
    tiltThreshold: real,
    jerkThreshold: real,
    triggerCommand: Option<seq<string>>)

  /** The command-line defaults: 45 degrees, 20 degrees of hysteresis, 20
      degrees of tilt, 6 m/s^3 of jerk, no trigger command. */
  const Defaults: Config := Config(45.0, 20.0, 20.0, 6.0, None)

  /** `polled` is false until the first poll has recorded a base vector and a
      timestamp; until then the jerk is taken as zero. */
  datatype TabletDaemon = TabletDaemon(config: Config, state: TabletState, polled: bool)

  /** A freshly constructed daemon: state `UNKNOWN`, nothing polled. */
  function Init(config: Config): (t: TabletDaemon)
    ensures t.state == Unknown && !t.polled && t.config == config
  {
    TabletDaemon(config, Unknown, false)
  }

  /** What one poll yields to the decision logic: the lid switch reading,
      the magnitude of the base jerk vector, the base tilt and the hinge
      angle, in degrees. */
  datatype Tick = Tick(lid: string, jerk: real, tilt: real, hinge: real)

  /** A committed state change, as logged by `update`. */
  datatype Change = Change(from: TabletState, to: TabletState)

  /** The daemon after an action, and the state changes it committed. */
  datatype Effect = Effect(tablet: TabletDaemon, changes: seq<Change>)

  /** The argument list the trigger command is run with for one change. */
  function Invocation(command: seq<string>, c: Change): (argv: seq<string>)
    ensures |argv| == |command| + 2 && argv[..|command|] == command
    ensures FromName(argv[|command|]) == Some(c.from)
    ensures FromName(argv[|command| + 1]) == Some(c.to)
  {
    FromNameOfName(c.from);
    FromNameOfName(c.to);
    command + [c.from.Name(), c.to.Name()]
  }

  /** The trigger command runs, one per committed change, in order; nothing
      runs when no command is configured. */
  function Invocations(config: Config, changes: seq<Change>): (runs: seq<seq<string>>)
    ensures config.triggerCommand.None? ==> runs == []
    ensures config.triggerCommand.Some? ==>
              |runs| == |changes|
              && forall i :: 0 <= i < |changes| ==>
                   runs[i] == Invocation(config.triggerCommand.value, changes[i])
  {
    match config.triggerCommand
    case None => []
    case Some(command) =>
      seq(|changes|, i requires 0 <= i < |changes| => Invocation(command, changes[i]))
  }

  /** `Tablet.update(state)`: a state equal to the current one changes
      nothing; any other is committed and logged as one change. The commit
      happens before the trigger command runs, and a failing command is only
      logged, so its outcome does not enter the model. */
  function Update(t: TabletDaemon, s: TabletState): (r: Effect)
    ensures r.tablet.config == t.config && r.tablet.polled == t.polled
    ensures r.tablet.state == s
    ensures s == t.state ==> r.changes == []
    ensures s != t.state ==> r.changes == [Change(t.state, s)]
  {
    if t.state == s then Effect(t, [])
    else Effect(t.(state := s), [Change(t.state, s)])
  }

  /** The jerk magnitude the gate compares: zero on the first poll, where the
      source sets the jerk vector to `(0, 0, 0)`. */
  function EffectiveJerk(t: TabletDaemon, tick: Tick): real
  {
    if t.polled then tick.jerk else 0.0
  }

  /** The gate of `Tablet.run`: the jerk is not above its threshold and the
      base is level, right way up or upside down. */
  predicate Accepted(t: TabletDaemon, tick: Tick)
  {
    && !(Abs(EffectiveJerk(t, tick)) > t.config.jerkThreshold)
    && IsLevel(tick.tilt, t.config.tiltThreshold)
  }

  /** `Tablet.run`: poll, then skip the tick on too much jerk or too much
      tilt, and otherwise evaluate and commit. The lid switch is read only
      when the gate lets the tick through. */
  function Step(t: TabletDaemon, tick: Tick): (r: Effect)
    ensures r.tablet.config == t.config && r.tablet.polled
    ensures !Accepted(t, tick) ==> r.tablet.state == t.state && r.changes == []
    ensures Accepted(t, tick) ==>
              r.tablet.state == Evaluate(tick.lid, t.state, tick.hinge,
                                         t.config.threshold, t.config.hysteresis)
    ensures r.changes == [] <==> r.tablet.state == t.state
    ensures r.changes != [] ==> r.changes == [Change(t.state, r.tablet.state)]
  {
    var afterPoll := t.(polled := true);
    if Abs(EffectiveJerk(t, tick)) > t.config.jerkThreshold then
      Effect(afterPoll, [])
    else if !IsLevel(tick.tilt, t.config.tiltThreshold) then
      Effect(afterPoll, [])
    else
      Update(afterPoll, Evaluate(tick.lid, t.state, tick.hinge,
                                 t.config.threshold, t.config.hysteresis))
  }

  /** `changes` is a sequence of real transitions leading from `from` to
      `to`, each starting where the previous one ended. */
  predicate Chain(from: TabletState, changes: seq<Change>, to: TabletState)
  {
    && (|changes| == 0 ==> from == to)
    && (|changes| > 0 ==> changes[0].from == from && changes[|changes| - 1].to == to)
    && (forall i :: 0 <= i < |changes| - 1 ==> changes[i].to == changes[i + 1].from)
    && (forall i :: 0 <= i < |changes| ==> changes[i].from != changes[i].to)
  }

  lemma ChainAppend(a: TabletState, xs: seq<Change>, b: TabletState,
                    ys: seq<Change>, c: TabletState)
    requires Chain(a, xs, b) && Chain(b, ys, c)
    ensures Chain(a, xs + ys, c)
  {
    var zs := xs + ys;
    forall i | 0 <= i < |zs| - 1
      ensures zs[i].to == zs[i + 1].from
    {
      if i + 1 < |xs| {
      } else if i + 1 == |xs| {
      } else {
        assert zs[i] == ys[i - |xs|] && zs[i + 1] == ys[i - |xs| + 1];
      }
    }
  }

  /** The poll loop of `main` over a sequence of ticks: the final daemon and
      every change committed on the way, in order. */
  function Run(t: TabletDaemon, ticks: seq<Tick>): (r: Effect)
    ensures r.tablet.config == t.config
    ensures r.tablet.polled == (t.polled || |ticks| > 0)
    ensures Chain(t.state, r.changes, r.tablet.state)
    ensures |r.changes| <= |ticks|
    decreases |ticks|
  {
    if |ticks| == 0 then Effect(t, [])
    else
      var first := Step(t, ticks[0]);
      var rest := Run(first.tablet, ticks[1..]);
      ChainAppend(t.state, first.changes, first.tablet.state, rest.changes, rest.tablet.state);
      Effect(rest.tablet, first.changes + rest.changes)
  }

  /** The exit path of `main`: whatever happened, commit `LAPTOP`, since the
      firmware disables keyboard and touchpad in tablet mode. */
  function Shutdown(t: TabletDaemon): (r: Effect)
    ensures r.tablet.state == Laptop
    ensures r.changes == [] <==> t.state == Laptop
    ensures t.state != Laptop ==> r.changes == [Change(t.state, Laptop)]
  {
    Update(t, Laptop)
  }

  /** A whole run of the daemon: construction, the poll loop, and the exit
      path. It ends in `LAPTOP`, and its committed changes form one chain
      from `UNKNOWN` to `LAPTOP`. */
  function Session(config: Config, ticks: seq<Tick>): (r: Effect)
    ensures r.tablet.state == Laptop && r.tablet.config == config
    ensures Chain(Unknown, r.changes, Laptop)
    ensures |r.changes| <= |ticks| + 1
  {
    var run := Run(Init(config), ticks);
    var stop := Shutdown(run.tablet);
    ChainAppend(Unknown, run.changes, run.tablet.state, stop.changes, Laptop);
    Effect(stop.tablet, run.changes + stop.changes)
  }

  /** Committing the same state twice changes nothing the second time. */
  lemma UpdateIdempotent(t: TabletDaemon, s: TabletState)
    ensures var once := Update(t, s);
            Update(once.tablet, s) == Effect(once.tablet, [])
  {
  }

  /** A committed change runs the trigger command exactly once, with the old
      and the new state's names appended, iff a command is configured. */
  lemma UpdateRunsCommandOnChange(t: TabletDaemon, s: TabletState)
    ensures var runs := Invocations(t.config, Update(t, s).changes);
            && (s == t.state || t.config.triggerCommand.None? ==> runs == [])
            && (s != t.state && t.config.triggerCommand.Some? ==>
                  runs == [t.config.triggerCommand.value + [t.state.Name(), s.Name()]])
  {
  }

  /** The first tick is never skipped for jerk when the jerk threshold is
      non-negative, whatever jerk the sensors would report. */
  lemma FirstTickPassesJerkGate(config: Config, tick: Tick)
    requires config.jerkThreshold >= 0.0
    ensures !(Abs(EffectiveJerk(Init(config), tick)) > config.jerkThreshold)
    ensures IsLevel(tick.tilt, config.tiltThreshold) ==>
              Step(Init(config), tick).tablet.state
                == Evaluate(tick.lid, Unknown, tick.hinge, config.threshold, config.hysteresis)
  {
  }

  /** A skipped tick holds the state even when the lid is closed. */
  lemma SkippedTickIgnoresLid(t: TabletDaemon, tick: Tick)
    requires tick.lid == LidClosed && t.state != Closed
    requires !Accepted(t, tick)
    ensures Step(t, tick).tablet.state == t.state
    ensures Step(t, tick).changes == []
  {
  }

  /** Once a state other than `UNKNOWN` is committed the daemon never goes
      back to `UNKNOWN`. */
  lemma {:induction false} RunNeverReturnsToUnknown(t: TabletDaemon, ticks: seq<Tick>)
    requires t.state != Unknown
    ensures Run(t, ticks).tablet.state != Unknown
    decreases |ticks|
  {
    if |ticks| > 0 {
      RunNeverReturnsToUnknown(Step(t, ticks[0]).tablet, ticks[1..]);
    }
  }

  /** No flapping over a whole run: while the lid stays open and every
      evaluated angle stays inside the hysteresis band, a daemon in laptop or
      tablet mode commits nothing, whatever the gate decides tick by tick. */
  lemma {:induction false} RunInBandCommitsNothing(t: TabletDaemon, ticks: seq<Tick>)
    requires t.state == Laptop || t.state == Tablet
    requires forall i :: 0 <= i < |ticks| ==>
               ticks[i].lid != LidClosed
               && t.config.threshold < Abs(ticks[i].hinge) <= t.config.threshold + t.config.hysteresis
    ensures Run(t, ticks).tablet.state == t.state
    ensures Run(t, ticks).changes == []
    decreases |ticks|
  {
    if |ticks| > 0 {
      var first := Step(t, ticks[0]);
      if Accepted(t, ticks[0]) {
        BandKeepsState(ticks[0].lid, t.state, ticks[0].hinge,
                       t.config.threshold, t.config.hysteresis);
      }
      assert first.tablet.state == t.state;
      RunInBandCommitsNothing(first.tablet, ticks[1..]);
    }
  }

  /** A run in which the base is never level commits nothing. */
  lemma {:induction false} RunTiltedCommitsNothing(t: TabletDaemon, ticks: seq<Tick>)
    requires forall i :: 0 <= i < |ticks| ==> !IsLevel(ticks[i].tilt, t.config.tiltThreshold)
    ensures Run(t, ticks).tablet.state == t.state
    ensures Run(t, ticks).changes == []
    decreases |ticks|
  {
    if |ticks| > 0 {
      RunTiltedCommitsNothing(Step(t, ticks[0]).tablet, ticks[1..]);
    }
  }

  /** The exit path runs the trigger command iff the daemon was not already
      in laptop mode and a command is configured. */
  lemma ShutdownRunsCommand(t: TabletDaemon)
    ensures var runs := Invocations(t.config, Shutdown(t).changes);
            && (|runs| == 1 <==> t.state != Laptop && t.config.triggerCommand.Some?)
            && (|runs| != 1 ==> runs == [])
  {
  }

  /** A lid-open, level, still tick with hinge angle `hinge`. */
  function LevelTick(hinge: real): Tick
  {
    Tick("open", 0.0, 0.0, hinge)
  }

  /** With the default tuning, a laptop folding back through 90, 50, 44, 60
      and 66 degrees enters tablet mode at 44 (at or below 45), holds it at
      60 (at or below 45 + 20) and leaves it at 66. */
  lemma DefaultTuningScenario()
    ensures var r := Run(TabletDaemon(Defaults, Laptop, true),
                         [LevelTick(90.0), LevelTick(50.0), LevelTick(44.0), LevelTick(60.0), LevelTick(66.0)]);
            && r.tablet.state == Laptop
            && r.changes == [Change(Laptop, Tablet), Change(Tablet, Laptop)]
  {
    var laptop := TabletDaemon(Defaults, Laptop, true);
    ScenarioInTablet();
    LevelStep(laptop, 44.0);
    assert Evaluate("open", Laptop, 44.0, 45.0, 20.0) == Tablet;
    RunCons(laptop, LevelTick(44.0), [LevelTick(60.0), LevelTick(66.0)]);
    LevelStep(laptop, 50.0);
    assert Evaluate("open", Laptop, 50.0, 45.0, 20.0) == Laptop;
    RunCons(laptop, LevelTick(50.0), [LevelTick(44.0), LevelTick(60.0), LevelTick(66.0)]);
    LevelStep(laptop, 90.0);
    assert Evaluate("open", Laptop, 90.0, 45.0, 20.0) == Laptop;
    RunCons(laptop, LevelTick(90.0), [LevelTick(50.0), LevelTick(44.0), LevelTick(60.0), LevelTick(66.0)]);
  }

  /** The last two ticks of the scenario: 60 degrees holds tablet mode, 66
      leaves it. */
  lemma ScenarioInTablet()
    ensures Run(TabletDaemon(Defaults, Tablet, true), [LevelTick(60.0), LevelTick(66.0)])
         == Effect(TabletDaemon(Defaults, Laptop, true), [Change(Tablet, Laptop)])
  {
    var tablet := TabletDaemon(Defaults, Tablet, true);
    LevelStep(tablet, 66.0);
    assert Evaluate("open", Tablet, 66.0, 45.0, 20.0) == Laptop;
    RunCons(tablet, LevelTick(66.0), []);
    LevelStep(tablet, 60.0);
    assert Evaluate("open", Tablet, 60.0, 45.0, 20.0) == Tablet;
    RunCons(tablet, LevelTick(60.0), [LevelTick(66.0)]);
  }

  lemma LevelStep(t: TabletDaemon, hinge: real)
    requires t.config == Defaults && t.polled
    ensures Step(t, LevelTick(hinge))
         == Update(t, Evaluate("open", t.state, hinge, 45.0, 20.0))
  {
    assert IsLevel(0.0, 20.0);
  }

  lemma RunCons(t: TabletDaemon, tick: Tick, rest: seq<Tick>)
    ensures var first := Step(t, tick);
            var after := Run(first.tablet, rest);
            Run(t, [tick] + rest) == Effect(after.tablet, first.changes + after.changes)
  {
    assert ([tick] + rest)[1..] == rest;
  }

  /** A closed lid on the first tick commits `CLOSED`, and the trigger
      command hears `UNKNOWN CLOSED`. */
  lemma FirstTickLidClosed(command: seq<string>)
    ensures var config := Defaults.(triggerCommand := Some(command));
            var r := Step(Init(config), Tick(LidClosed, 100.0, 180.0, 90.0));
            && r.tablet.state == Closed
            && Invocations(config, r.changes) == [command + ["UNKNOWN", "CLOSED"]]
  {
    assert IsLevel(180.0, 20.0);
  }
}
