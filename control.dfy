/** The control sequence of the main body (xdamtwreceive.py, `__main__`):
    set up the wireless master, wait for trackers, record, drain, restore,
    and always close the control object. Every device call is replaced by
    the outcome it reports, supplied in a `Script`. */
module Control {
  import opened Common
  import opened Xda
  import opened UpdateRate
  import opened MtwSetup

  const DesiredUpdateRate: int := 75
  const DesiredRadioChannel: int := 19
  const LogFileName: string := "logfile.mtb"

  /** The first scanned port whose device id reports the wireless master
      role. */
  function FindWirelessMaster(ports: seq<PortInfo>): (master: Option<PortInfo>)
    ensures master.None? <==> forall k :: 0 <= k < |ports| ==> !ports[k].deviceId.IsWirelessMaster()
    ensures master.Some? ==>
      exists k :: 0 <= k < |ports| && ports[k] == master.value &&
        master.value.deviceId.IsWirelessMaster() &&
        forall j :: 0 <= j < k ==> !ports[j].deviceId.IsWirelessMaster()
  {
    if ports == [] then None
    else if ports[0].deviceId.IsWirelessMaster() then Some(ports[0])
    else
      var r := FindWirelessMaster(ports[1..]);
      assert r.Some? ==> (exists k :: 1 <= k < |ports| && ports[k] == r.value &&
                            forall j :: 0 <= j < k ==> !ports[j].deviceId.IsWirelessMaster()) by {
        if r.Some? {
          var k :| 0 <= k < |ports[1..]| && ports[1..][k] == r.value &&
            forall j :: 0 <= j < k ==> !ports[1..][j].deviceId.IsWirelessMaster();
          assert ports[k + 1] == r.value;
          assert forall j :: 1 <= j < k + 1 ==> ports[j] == ports[1..][j - 1];
        }
      }
      r
  }

  // ---------------------------------------------------------------------
  // Waiting for trackers to connect

  /** The counts reported to the operator while waiting: every polled count
      that differs from the last count seen. */
  function CountChanges(seen: nat, polls: seq<nat>): seq<nat>
    decreases |polls|
  {
    if polls == [] then []
    else if polls[0] != seen then [polls[0]] + CountChanges(polls[0], polls[1..])
    else CountChanges(seen, polls[1..])
  }

  /** The count last seen after a series of polls: the last poll, or the
      starting count when there was none. */
  function LastSeen(seen: nat, polls: seq<nat>): nat
  {
    if polls == [] then seen else polls[|polls| - 1]
  }

  /** Completeness: one more poll is reported exactly when it differs from
      the count last seen. */
  lemma {:induction false} CountChangesSnoc(seen: nat, polls: seq<nat>, x: nat)
    ensures CountChanges(seen, polls + [x]) ==
      CountChanges(seen, polls) + (if x != LastSeen(seen, polls) then [x] else [])
    decreases |polls|
  {
    if polls != [] {
      var rest := polls[1..];
      assert (polls + [x])[0] == polls[0];
      assert (polls + [x])[1..] == rest + [x];
      if polls[0] != seen {
        CountChangesSnoc(polls[0], rest, x);
        assert LastSeen(polls[0], rest) == LastSeen(seen, polls);
      } else {
        CountChangesSnoc(seen, rest, x);
        assert LastSeen(seen, rest) == LastSeen(seen, polls);
      }
    }
  }

  /** The wait-for-connections loop. `initial` is the size of the connected
      set before the loop; `polls` are the sizes read in each pass, up to
      and including the pass in which the start key is seen. Returns what is
      reported and the last count seen. */
  method AwaitTrackers(initial: nat, polls: seq<nat>) returns (reports: seq<nat>, count: nat)
    ensures reports == CountChanges(initial, polls)
    ensures count == LastSeen(initial, polls)
  {
    count := initial;
    reports := [];
    var i := 0;
    while i < |polls|
      invariant 0 <= i <= |polls|
      invariant reports + CountChanges(count, polls[i..]) == CountChanges(initial, polls)
      invariant count == if i == 0 then initial else polls[i - 1]
    {
      var next := polls[i];
      assert polls[i..][1..] == polls[i + 1..];
      if next != count {
        reports := reports + [next];
        count := next;
      }
      i := i + 1;
    }
  }

  /** Each report is a real change (it differs from the count before it),
      reports follow the polls in order, nothing is reported exactly when
      the count never moved, and the last report is the final count. */
  lemma {:induction false} CountChangesAreTransitions(seen: nat, polls: seq<nat>)
    ensures var r := CountChanges(seen, polls);
      && (r != [] ==> r[0] != seen)
      && (forall k :: 0 < k < |r| ==> r[k] != r[k - 1])
      && Embeds(r, polls)
      && (r == [] <==> forall k :: 0 <= k < |polls| ==> polls[k] == seen)
      && (r != [] ==> r[|r| - 1] == polls[|polls| - 1])
    decreases |polls|
  {
    if polls != [] {
      var rest := polls[1..];
      if polls[0] != seen {
        CountChangesAreTransitions(polls[0], rest);
        var r := CountChanges(seen, polls);
        var t := CountChanges(polls[0], rest);
        assert r == [polls[0]] + t;
        assert forall k :: 0 < k < |r| ==> r[k] == t[k - 1];
        assert r[1..] == t;
        if t == [] {
          assert r[|r| - 1] == polls[0];
          assert forall k :: 0 <= k < |rest| ==> polls[k + 1] == rest[k];
        }
      } else {
        CountChangesAreTransitions(seen, rest);
        assert forall k :: 1 <= k < |polls| ==> polls[k] == rest[k - 1];
      }
    }
  }

  // ---------------------------------------------------------------------
  // The setup / record / teardown sequence

  /** How one of the three polling loops ends: its own condition ('y'
      pressed, every tracker has data, the stop poll fires) or an interrupt,
      which the bare `except:` catches. `user_input_ready` in the source is
      a stub that always returns False, so as written only an interrupt
      leaves the main loop. */
  datatype LoopExit = ConditionMet | Interrupt

  /** What every device call of the main body reports. */
  datatype Script = Script(
    ports: seq<PortInfo>,
    openPortOk: bool,
    masterDeviceOk: bool,
    gotoConfigOk: bool,
    supportedRates: seq<int>,
    setUpdateRateOk: bool,
    radioEnabled: bool,
    disableRadioOk: bool,
    enableRadioOk: bool,
    trackerWaitExit: LoopExit,
    gotoMeasurementOk: bool,
    deviceIds: seq<DeviceId>,
    known: map<DeviceId, Device>,
    logFileOk: bool,
    firstDataWaitExit: LoopExit,
    startRecordingOk: bool,
    loopExit: LoopExit,
    finalGotoConfigOk: bool,
    finalDisableRadioOk: bool)

  datatype Step =
    | FindMaster | OpenPort | GetMasterDevice | GotoConfig
    | SetUpdateRate(rate: int) | DisableRadio | EnableRadio(channel: int)
    | WaitForTrackers | GotoMeasurement | InstantiateTrackers
    | CreateLogFile(name: string) | WaitForFirstData | StartRecording
    | Ingest | RestoreConfig | ShutdownRadio | Close

  /** Why a run aborted: the error raised at that step. */
  datatype Failure =
    | NoMasterFound | PortOpenError | MasterDeviceError | ConfigModeError
    | RateSetError | RadioDisableError | RadioEnableError | MeasurementModeError
    | TrackerInstantiationError | LogCreationError | RecordingStartError
    | Interrupted | RestoreConfigError | ShutdownRadioError

  function Check(ok: bool, failure: Failure): Option<Failure>
  {
    if ok then None else Some(failure)
  }

  /** The error a step raises in a given script, or None if it succeeds. The
      three polling loops fail only by being interrupted. */
  function StepOutcome(step: Step, s: Script): Option<Failure>
  {
    match step
    case FindMaster => Check(FindWirelessMaster(s.ports).Some?, NoMasterFound)
    case OpenPort => Check(s.openPortOk, PortOpenError)
    case GetMasterDevice => Check(s.masterDeviceOk, MasterDeviceError)
    case GotoConfig => Check(s.gotoConfigOk, ConfigModeError)
    case SetUpdateRate(_) => Check(s.setUpdateRateOk, RateSetError)
    case DisableRadio => Check(s.disableRadioOk, RadioDisableError)
    case EnableRadio(_) => Check(s.enableRadioOk, RadioEnableError)
    case WaitForTrackers => Check(s.trackerWaitExit == ConditionMet, Interrupted)
    case GotoMeasurement => Check(s.gotoMeasurementOk, MeasurementModeError)
    case InstantiateTrackers => Check(TrackersResolvable(s.deviceIds, s.known), TrackerInstantiationError)
    case CreateLogFile(_) => Check(s.logFileOk, LogCreationError)
    case WaitForFirstData => Check(s.firstDataWaitExit == ConditionMet, Interrupted)
    case StartRecording => Check(s.startRecordingOk, RecordingStartError)
    case Ingest => Check(s.loopExit == ConditionMet, Interrupted)
    case RestoreConfig => Check(s.finalGotoConfigOk, RestoreConfigError)
    case ShutdownRadio => Check(s.finalDisableRadioOk, ShutdownRadioError)
    case Close => None
  }

  /** Position of a step in the source's sequence (close comes last). */
  function Order(step: Step): nat
  {
    match step
    case FindMaster => 0
    case OpenPort => 1
    case GetMasterDevice => 2
    case GotoConfig => 3
    case SetUpdateRate(_) => 4
    case DisableRadio => 5
    case EnableRadio(_) => 6
    case WaitForTrackers => 7
    case GotoMeasurement => 8
    case InstantiateTrackers => 9
    case CreateLogFile(_) => 10
    case WaitForFirstData => 11
    case StartRecording => 12
    case Ingest => 13
    case RestoreConfig => 14
    case ShutdownRadio => 15
    case Close => 16
  }

  /** Find, open and configure the master, and set the update rate. */
  function SetupSteps(rate: int): (steps: seq<Step>)
    ensures |steps| == 5
    ensures forall k :: 0 <= k < |steps| ==> Order(steps[k]) == k
  {
    [FindMaster, OpenPort, GetMasterDevice, GotoConfig, SetUpdateRate(rate)]
  }

  /** From enabling the radio to putting the master back into config mode
      and disabling the radio at the end. */
  function RecordSteps(): (steps: seq<Step>)
    ensures |steps| == 10
    ensures forall k :: 0 <= k < |steps| ==> Order(steps[k]) == k + 6
  {
    [EnableRadio(DesiredRadioChannel), WaitForTrackers, GotoMeasurement,
     InstantiateTrackers, CreateLogFile(LogFileName), WaitForFirstData,
     StartRecording, Ingest, RestoreConfig, ShutdownRadio]
  }

  /** The steps of the `try` block from phase p on: phase 0 sets the master
      up, phase 1 disables the radio if the master reports it enabled, and
      phase 2 records and restores. */
  function PlanFrom(s: Script, phase: nat): seq<Step>
    decreases 2 - phase
  {
    if phase == 0 then SetupSteps(ClosestUpdateRate(s.supportedRates, DesiredUpdateRate)) + PlanFrom(s, 1)
    else if phase == 1 then (if s.radioEnabled then [DisableRadio] else []) + PlanFrom(s, 2)
    else RecordSteps()
  }

  /** The steps of the `try` block in source order. */
  function Plan(s: Script): seq<Step>
  {
    PlanFrom(s, 0)
  }

  /** The plan starts by looking for the master and holds the steps in
      source order, skipping only the disable step when the radio is off. */
  lemma PlanShape(s: Script)
    ensures |Plan(s)| == if s.radioEnabled then 16 else 15
    ensures Plan(s)[0] == FindMaster
    ensures forall k :: 0 <= k < |Plan(s)| ==> Order(Plan(s)[k]) == if s.radioEnabled || k < 5 then k else k + 1
  {
    var setup := SetupSteps(ClosestUpdateRate(s.supportedRates, DesiredUpdateRate));
    var radio: seq<Step> := if s.radioEnabled then [DisableRadio] else [];
    assert PlanFrom(s, 1) == radio + RecordSteps();
    assert Plan(s) == setup + radio + RecordSteps();
    assert setup[0] == FindMaster;
  }

  /** The plan lists steps in strictly increasing source order, never the
      close, and disables the radio exactly when it is enabled. */
  lemma PlanIsOrdered(s: Script)
    ensures forall i, j :: 0 <= i < j < |Plan(s)| ==> Order(Plan(s)[i]) < Order(Plan(s)[j])
    ensures forall k :: 0 <= k < |Plan(s)| ==> Plan(s)[k] != Close
    ensures s.radioEnabled <==> exists k :: 0 <= k < |Plan(s)| && Plan(s)[k] == DisableRadio
  {
    PlanShape(s);
    if s.radioEnabled {
      assert Order(Plan(s)[5]) == 5;
    }
  }

  datatype Executed = Executed(attempted: seq<Step>, failure: Option<Failure>)

  /** The run attempted the step at some point. */
  predicate Attempted(r: Executed, st: Step)
  {
    exists k :: 0 <= k < |r.attempted| && r.attempted[k] == st
  }

  /** The index of the first planned step that raises, or the length of the
      plan when none does. */
  function FirstFailure(plan: seq<Step>, s: Script): (n: nat)
    ensures n <= |plan|
  {
    if plan == [] || StepOutcome(plan[0], s).Some? then 0
    else 1 + FirstFailure(plan[1..], s)
  }

  /** No step before the first failure raises: a failing step at index j
      bounds the first failure by j. */
  lemma {:induction false} FirstFailureBound(plan: seq<Step>, s: Script, j: nat)
    requires j < |plan| && StepOutcome(plan[j], s).Some?
    ensures FirstFailure(plan, s) <= j
  {
    if j > 0 && StepOutcome(plan[0], s).None? {
      assert plan[1..][j - 1] == plan[j];
      FirstFailureBound(plan[1..], s, j - 1);
    }
  }

  /** The error of the first planned step that raises, if any. */
  function FailureOf(plan: seq<Step>, s: Script): Option<Failure>
  {
    if plan == [] then None
    else if StepOutcome(plan[0], s).Some? then StepOutcome(plan[0], s)
    else FailureOf(plan[1..], s)
  }

  lemma {:induction false} FailureOfFirst(plan: seq<Step>, s: Script)
    ensures var n := FirstFailure(plan, s);
      FailureOf(plan, s) == if n < |plan| then StepOutcome(plan[n], s) else None
    ensures var n := FirstFailure(plan, s);
      n < |plan| ==> StepOutcome(plan[n], s).Some?
  {
    if plan != [] && StepOutcome(plan[0], s).None? {
      FailureOfFirst(plan[1..], s);
      assert FirstFailure(plan[1..], s) < |plan[1..]| ==>
        plan[FirstFailure(plan, s)] == plan[1..][FirstFailure(plan[1..], s)];
    }
  }

  /** A whole run: the steps of the `try` block up to and including the
      first that raises, then `control.close()` on every path. */
  function Run(s: Script): (r: Executed)
    ensures |r.attempted| >= 2 && r.attempted[0] == FindMaster
    ensures r.attempted[|r.attempted| - 1] == Close
  {
    var plan := Plan(s);
    var n := FirstFailure(plan, s);
    PlanShape(s);
    Executed(plan[..if n < |plan| then n + 1 else n] + [Close], FailureOf(plan, s))
  }

  /** The steps a run attempts before the close are the plan's first steps,
      up to and including the first failing one. */
  lemma RunAttemptsPrefix(s: Script)
    ensures var n := FirstFailure(Plan(s), s);
      |Run(s).attempted| == 1 + if n < |Plan(s)| then n + 1 else n
    ensures forall k :: 0 <= k < |Run(s).attempted| - 1 ==> Run(s).attempted[k] == Plan(s)[k]
  {
  }

  /** The close is attempted once, last. */
  lemma CloseOnlyAtEnd(s: Script)
    ensures forall k :: 0 <= k < |Run(s).attempted| - 1 ==> Run(s).attempted[k] != Close
  {
    RunAttemptsPrefix(s);
    PlanIsOrdered(s);
  }

  // ---------------------------------------------------------------------
  // Properties of a run

  /** A step later in the source order than a failing planned step, other
      than the close, is never attempted. */
  lemma NotAttemptedAfter(s: Script, j: nat, failing: Step, st: Step)
    requires j < |Plan(s)| && Plan(s)[j] == failing && StepOutcome(failing, s).Some?
    requires st != Close && Order(st) > Order(failing)
    ensures !Attempted(Run(s), st)
  {
    var plan := Plan(s);
    var n := FirstFailure(plan, s);
    FirstFailureBound(plan, s, j);
    RunAttemptsPrefix(s);
    PlanShape(s);
  }

  /** A planned step that is attempted and fails is the last one attempted
      before the close, and its error is the run's failure. */
  lemma FailingStepEndsRun(s: Script, st: Step)
    requires Attempted(Run(s), st) && st != Close && StepOutcome(st, s).Some?
    ensures Run(s).failure == StepOutcome(st, s)
    ensures Run(s).attempted[|Run(s).attempted| - 2] == st
  {
    var plan := Plan(s);
    var n := FirstFailure(plan, s);
    RunAttemptsPrefix(s);
    var a := Run(s).attempted;
    var k :| 0 <= k < |a| && a[k] == st;
    assert k < |a| - 1;
    FirstFailureBound(plan, s, k);
    FailureOfFirst(plan, s);
    assert n < |plan| && k == n;
  }

  /** The radio is disabled during setup only when the master reported it
      already enabled. */
  lemma DisableRadioOnlyWhenEnabled(s: Script)
    ensures Attempted(Run(s), DisableRadio) ==> s.radioEnabled
  {
    RunAttemptsPrefix(s);
    PlanIsOrdered(s);
    var a := Run(s).attempted;
    if Attempted(Run(s), DisableRadio) {
      var k :| 0 <= k < |a| && a[k] == DisableRadio;
    }
  }

  /** If disabling an enabled radio fails, enabling it is never attempted,
      nor is waiting for trackers or recording. */
  lemma FailedDisableSkipsEnable(s: Script)
    requires s.radioEnabled && !s.disableRadioOk
    ensures forall c :: !Attempted(Run(s), EnableRadio(c))
    ensures !Attempted(Run(s), WaitForTrackers) && !Attempted(Run(s), Ingest)
  {
    assert Plan(s)[5] == DisableRadio by {
      PlanShape(s);
      assert Order(Plan(s)[5]) == 5;
    }
    forall c
      ensures !Attempted(Run(s), EnableRadio(c))
    {
      NotAttemptedAfter(s, 5, DisableRadio, EnableRadio(c));
    }
    NotAttemptedAfter(s, 5, DisableRadio, WaitForTrackers);
    NotAttemptedAfter(s, 5, DisableRadio, Ingest);
  }

  /** If the disable step is reached and fails, the run aborts there with
      the radio-disable error. */
  lemma FailedDisableAborts(s: Script)
    requires Attempted(Run(s), DisableRadio) && !s.disableRadioOk
    ensures Run(s).failure == Some(RadioDisableError)
  {
    assert StepOutcome(DisableRadio, s) == Some(RadioDisableError);
    FailingStepEndsRun(s, DisableRadio);
  }

  /** No wireless master among the scanned ports: the run stops at once and
      only closes the control object. */
  lemma NoMasterAbortsImmediately(s: Script)
    requires FindWirelessMaster(s.ports).None?
    ensures Run(s).attempted == [FindMaster, Close]
    ensures Run(s).failure == Some(NoMasterFound)
  {
    PlanShape(s);
    assert FirstFailure(Plan(s), s) == 0;
    FailureOfFirst(Plan(s), s);
  }

  /** A tracker id without a device handle means no log file is created
      and recording is never started. */
  lemma UnresolvedTrackerSkipsRecording(s: Script)
    requires !TrackersResolvable(s.deviceIds, s.known)
    ensures forall name :: !Attempted(Run(s), CreateLogFile(name))
    ensures !Attempted(Run(s), StartRecording) && !Attempted(Run(s), Ingest)
  {
    var j := if s.radioEnabled then 9 else 8;
    assert Plan(s)[j] == InstantiateTrackers by {
      PlanShape(s);
      assert Order(Plan(s)[j]) == 9;
    }
    forall name
      ensures !Attempted(Run(s), CreateLogFile(name))
    {
      NotAttemptedAfter(s, j, InstantiateTrackers, CreateLogFile(name));
    }
    NotAttemptedAfter(s, j, InstantiateTrackers, StartRecording);
    NotAttemptedAfter(s, j, InstantiateTrackers, Ingest);
  }

  /** If tracker set-up is reached with an id that has no device handle, the
      run aborts there with the tracker-instantiation error. */
  lemma UnresolvedTrackerAborts(s: Script)
    requires Attempted(Run(s), InstantiateTrackers)
    requires !TrackersResolvable(s.deviceIds, s.known)
    ensures Run(s).failure == Some(TrackerInstantiationError)
  {
    assert StepOutcome(InstantiateTrackers, s) == Some(TrackerInstantiationError);
    FailingStepEndsRun(s, InstantiateTrackers);
  }

  /** An interrupt while waiting for trackers to connect: measurement mode
      is never entered and the main loop never runs, the run records a
      failure and still closes. */
  lemma InterruptedTrackerWaitSkipsMeasurement(s: Script)
    requires s.trackerWaitExit == Interrupt
    ensures !Attempted(Run(s), GotoMeasurement) && !Attempted(Run(s), Ingest)
    ensures Run(s).failure.Some?
  {
    var j := if s.radioEnabled then 7 else 6;
    assert Plan(s)[j] == WaitForTrackers by {
      PlanShape(s);
      assert Order(Plan(s)[j]) == 7;
    }
    NotAttemptedAfter(s, j, WaitForTrackers, GotoMeasurement);
    NotAttemptedAfter(s, j, WaitForTrackers, Ingest);
    FailureIsRecorded(s, j);
  }

  /** An interrupt while waiting for every tracker's first packet:
      recording never starts and the main loop never runs, the run records
      a failure and still closes. */
  lemma InterruptedDataWaitSkipsRecording(s: Script)
    requires s.firstDataWaitExit == Interrupt
    ensures !Attempted(Run(s), StartRecording) && !Attempted(Run(s), Ingest)
    ensures Run(s).failure.Some?
  {
    var j := if s.radioEnabled then 11 else 10;
    assert Plan(s)[j] == WaitForFirstData by {
      PlanShape(s);
      assert Order(Plan(s)[j]) == 11;
    }
    NotAttemptedAfter(s, j, WaitForFirstData, StartRecording);
    NotAttemptedAfter(s, j, WaitForFirstData, Ingest);
    FailureIsRecorded(s, j);
  }

  /** A planned step that raises means the run records a failure. */
  lemma FailureIsRecorded(s: Script, j: nat)
    requires j < |Plan(s)| && StepOutcome(Plan(s)[j], s).Some?
    ensures Run(s).failure.Some?
  {
    FirstFailureBound(Plan(s), s, j);
    FailureOfFirst(Plan(s), s);
  }

  /** The main loop ends only on an interrupt (the stop-signal poll is a
      stub that never fires): the run then closes the control object without
      restoring config mode or disabling the radio, and records a failure. */
  lemma InterruptSkipsRestore(s: Script)
    requires s.loopExit == Interrupt
    ensures !Attempted(Run(s), RestoreConfig) && !Attempted(Run(s), ShutdownRadio)
    ensures Run(s).failure.Some?
  {
    var j := if s.radioEnabled then 13 else 12;
    assert Plan(s)[j] == Ingest by {
      PlanShape(s);
      assert Order(Plan(s)[j]) == 13;
    }
    NotAttemptedAfter(s, j, Ingest, RestoreConfig);
    NotAttemptedAfter(s, j, Ingest, ShutdownRadio);
    FailureIsRecorded(s, j);
  }

  /** A run without failure attempted the whole plan and then closed; that
      happens exactly when every planned step succeeds. */
  lemma SuccessfulRunAttemptsEverything(s: Script)
    ensures Run(s).failure.None? <==> forall k :: 0 <= k < |Plan(s)| ==> StepOutcome(Plan(s)[k], s).None?
    ensures Run(s).failure.None? ==> Run(s).attempted == Plan(s) + [Close]
  {
    var plan := Plan(s);
    FailureOfFirst(plan, s);
    if exists k :: 0 <= k < |plan| && StepOutcome(plan[k], s).Some? {
      var k :| 0 <= k < |plan| && StepOutcome(plan[k], s).Some?;
      FirstFailureBound(plan, s, k);
    }
  }
}
