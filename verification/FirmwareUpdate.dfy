/**
 * sources/model/firmware_update.c: the installation of firmware, with a progress record that the device keeps through
 * a power loss. The results of the callbacks are part of the event that makes them run.
 */
module FirmwareUpdateSpec {
  datatype Phase = Idle | Installation | Completed | Error

  datatype Status = AwaitingDevice | Installing | Success | Failure | Aborted | UnknownStatus
  datatype Problem = NoProblem | Unknown | UnknownFile | InstallationFailed

  /** What verification_read returns: the stored state, or whatever the memory held before. */
  datatype Record = Stored(phase: Phase) | Other

  /** What the listener is told, and the callbacks that act on the device. */
  datatype Output = Tells(status: Status) | StartsInstallation(name: string) | AbortsInstallation

  /** The volatile fields; the record, which survives; and the outputs so far. */
  datatype Updater = Updater(phase: Phase, status: Status, problem: Problem, name: string, record: Record,
                             out: seq<Output>)

  /** The arguments of firmware_update_init; without one of them no command has an effect. */
  datatype Callback =
    | StartInstallation | IsInstallationCompleted | VerificationStore | VerificationRead | AbortInstallation

  predicate Complete(callbacks: set<Callback>) {
    {StartInstallation, IsInstallationCompleted, VerificationStore, VerificationRead, AbortInstallation} <= callbacks
  }

  /** firmware_update_init; the status is not set by it, and zero memory is AwaitingDevice. */
  function Booted(record: Record, out: seq<Output>): Updater {
    Updater(Idle, AwaitingDevice, NoProblem, "", record, out)
  }

  function Put(u: Updater, o: Output): Updater { u.(out := u.out + [o]) }

  /** set_status, and the listener is told the status. */
  function Reported(u: Updater, s: Status): Updater { Put(u.(status := s), Tells(s)) }

  function Stop(u: Updater, p: Problem): Updater { u.(phase := Error, problem := p) }

  /** verification_store: a store that fails leaves the record as it was. */
  function Store(u: Updater, ok: bool): Updater {
    if ok then u.(record := Stored(u.phase)) else Stop(u, UnknownFile)
  }

  function Reset(u: Updater): Updater { u.(phase := Idle, name := "") }

  /** handle */
  function OnInstall(u: Updater, name: string, storeOk: bool, startOk: bool): Updater {
    match u.phase
    case Idle =>
      var started := Put(Store(Reported(u, Installing).(phase := Installation), storeOk), StartsInstallation(name));
      if !startOk then Stop(started, Unknown) else started
    case Installation => Reported(u, Installing)
    case Completed => u
    case Error => Reported(u, Failure).(phase := Idle)
  }

  /** handle_verification */
  function OnVerify(u: Updater): Updater {
    match u.record
    case Stored(Idle) => u
    case Stored(Installation) => u.(phase := Installation)
    case _ => u.(phase := Idle)
  }

  /** handle_abort; the phase stays as it is. */
  function OnAbort(u: Updater, abortOk: bool): Updater {
    var asked := Put(u, AbortsInstallation);
    match u.phase
    case Installation =>
      if !abortOk then Reported(asked.(problem := Unknown), Failure) else Reported(asked, Aborted)
    case _ => Reported(asked, if abortOk then Aborted else u.status)
  }

  /** check_firmware_update */
  function OnProcess(u: Updater, done: bool, success: bool, storeOk: bool): Updater {
    match u.phase
    case Idle => u
    case Installation =>
      if !done then u else if !success then Stop(u, InstallationFailed) else u.(phase := Completed)
    case Completed => Store(Reset(Reported(u, Success)), storeOk)
    case Error => Reset(Reported(u, Failure))
  }

  /** Where the power is lost inside a handler: at its start, or in front of its store, or right behind it. */
  datatype Point = AtEntry | BeforeStore | AfterStore

  datatype Event =
    | Install(name: string, storeOk: bool, startOk: bool)
    | Verify
    | Abort(abortOk: bool)
    | Process(done: bool, success: bool, storeOk: bool)
    | Restart
    | CutInstall(point: Point, storeOk: bool)
    | CutProcess(point: Point, storeOk: bool)

  /** The power is lost: the record and what was reported are all that stays. */
  function PowerLost(u: Updater): Updater { Booted(u.record, u.out) }

  function UpToStore(u: Updater, told: Updater, point: Point, storeOk: bool): Updater {
    match point
    case AtEntry => PowerLost(u)
    case BeforeStore => PowerLost(told)
    case AfterStore => PowerLost(Store(told, storeOk))
  }

  function OnCutInstall(u: Updater, point: Point, storeOk: bool): Updater {
    if u.phase == Idle then UpToStore(u, Reported(u, Installing).(phase := Installation), point, storeOk)
    else if point == AtEntry then PowerLost(u)
    else PowerLost(OnInstall(u, "", storeOk, true))
  }

  function OnCutProcess(u: Updater, point: Point, storeOk: bool): Updater {
    if u.phase == Completed then UpToStore(u, Reset(Reported(u, Success)), point, storeOk)
    else if point == AtEntry then PowerLost(u)
    else PowerLost(OnProcess(u, true, true, storeOk))
  }

  function Step(u: Updater, e: Event): Updater {
    match e
    case Install(name, storeOk, startOk) => OnInstall(u, name, storeOk, startOk)
    case Verify => OnVerify(u)
    case Abort(abortOk) => OnAbort(u, abortOk)
    case Process(done, success, storeOk) => OnProcess(u, done, success, storeOk)
    case Restart => PowerLost(u)
    case CutInstall(point, storeOk) => OnCutInstall(u, point, storeOk)
    case CutProcess(point, storeOk) => OnCutProcess(u, point, storeOk)
  }

  function Run(u: Updater, events: seq<Event>): Updater
    decreases |events|
  {
    if events == [] then u else Run(Step(u, events[0]), events[1..])
  }

  // --- the record ---------------------------------------------------------------------------------------------

  predicate Installs(u: Updater) { u.phase == Installation || u.phase == Completed }

  predicate Recorded(u: Updater) { u.record == Stored(Installation) }

  /** An installation that is under way is on record. */
  predicate Consistent(u: Updater) { Installs(u) ==> Recorded(u) }

  lemma StepKeepsConsistent(u: Updater, e: Event)
    requires Consistent(u)
    ensures Consistent(Step(u, e))
  {
  }

  /** Over every run, whatever the record held at first and wherever the power is lost. */
  lemma {:induction false} RunKeepsConsistent(u: Updater, events: seq<Event>)
    requires Consistent(u)
    ensures Consistent(Run(u, events))
    decreases |events|
  {
    if events != [] {
      StepKeepsConsistent(u, events[0]);
      RunKeepsConsistent(Step(u, events[0]), events[1..]);
    }
  }

  /** A restart, at any point of any run, resumes the installation that was under way. */
  lemma RestartResumes(record: Record, events: seq<Event>)
    ensures var u := Run(Booted(record, []), events);
            Installs(u) ==> Step(Step(u, Restart), Verify).phase == Installation
  {
    RunKeepsConsistent(Booted(record, []), events);
  }

  // --- success reports ----------------------------------------------------------------------------------------

  function Successes(out: seq<Output>): nat {
    if out == [] then 0
    else Successes(out[..|out| - 1]) + (if out[|out| - 1] == Tells(Success) then 1 else 0)
  }

  lemma OneMoreOutput(out: seq<Output>, o: Output)
    ensures Successes(out + [o]) == Successes(out) + (if o == Tells(Success) then 1 else 0)
  {
    assert (out + [o])[..|out|] == out;
  }

  /** The record of an installation is cleared. */
  predicate Clears(u: Updater, e: Event) { Recorded(u) && !Recorded(Step(u, e)) }

  /** The success is reported, but the record is not cleared: the store fails, or the power is lost before it. */
  predicate Repeats(u: Updater, e: Event) {
    u.phase == Completed
    && ((e.Process? && !e.storeOk)
        || (e.CutProcess? && (e.point == BeforeStore || (e.point == AfterStore && !e.storeOk))))
  }

  /** An abort that the device refuses is answered with the status reported last. */
  predicate Echoes(u: Updater, e: Event) {
    e.Abort? && !e.abortOk && u.phase != Installation && u.status == Success
  }

  function Count(b: bool): nat { if b then 1 else 0 }

  lemma InstallCountsSuccess(u: Updater, name: string, storeOk: bool, startOk: bool)
    ensures Successes(OnInstall(u, name, storeOk, startOk).out) == Successes(u.out)
    ensures Recorded(u) ==> Recorded(OnInstall(u, name, storeOk, startOk))
  {
    if u.phase == Idle {
      TwoMoreOutputs(u.out, Tells(Installing), StartsInstallation(name));
    } else if u.phase == Installation {
      OneMoreOutput(u.out, Tells(Installing));
    } else if u.phase == Error {
      OneMoreOutput(u.out, Tells(Failure));
    }
  }

  lemma TwoMoreOutputs(out: seq<Output>, o: Output, p: Output)
    requires o != Tells(Success) && p != Tells(Success)
    ensures Successes(out + [o] + [p]) == Successes(out)
  {
    OneMoreOutput(out, o);
    OneMoreOutput(out + [o], p);
  }

  lemma AbortCountsSuccess(u: Updater, abortOk: bool)
    ensures Successes(OnAbort(u, abortOk).out) == Successes(u.out) + Count(Echoes(u, Abort(abortOk)))
    ensures OnAbort(u, abortOk).record == u.record
  {
    var asked := u.out + [AbortsInstallation];
    OneMoreOutput(u.out, AbortsInstallation);
    OneMoreOutput(asked, Tells(Aborted));
    OneMoreOutput(asked, Tells(Failure));
    OneMoreOutput(asked, Tells(u.status));
  }

  lemma ProcessCountsSuccess(u: Updater, done: bool, success: bool, storeOk: bool)
    ensures Successes(OnProcess(u, done, success, storeOk).out) == Successes(u.out) + Count(u.phase == Completed)
    ensures OnProcess(u, done, success, storeOk).record ==
            if u.phase == Completed && storeOk then Stored(Idle) else u.record
  {
    OneMoreOutput(u.out, Tells(Success));
    OneMoreOutput(u.out, Tells(Failure));
  }

  lemma CutInstallCountsSuccess(u: Updater, point: Point, storeOk: bool)
    ensures Successes(OnCutInstall(u, point, storeOk).out) == Successes(u.out)
    ensures Recorded(u) ==> Recorded(OnCutInstall(u, point, storeOk))
  {
    OneMoreOutput(u.out, Tells(Installing));
    OneMoreOutput(u.out, Tells(Failure));
  }

  lemma CutProcessCountsSuccess(u: Updater, point: Point, storeOk: bool)
    ensures Successes(OnCutProcess(u, point, storeOk).out) ==
            Successes(u.out) + Count(u.phase == Completed && point != AtEntry)
    ensures OnCutProcess(u, point, storeOk).record ==
            if u.phase == Completed && point == AfterStore && storeOk then Stored(Idle) else u.record
  {
    OneMoreOutput(u.out, Tells(Success));
    OneMoreOutput(u.out, Tells(Failure));
  }

  /** The record is cleared by nothing but a process step of a completed installation that reports its success. */
  lemma StepCountsSuccess(u: Updater, e: Event)
    requires Consistent(u)
    ensures Clears(u, e) ==> u.phase == Completed && (e.Process? || e.CutProcess?)
    ensures Successes(Step(u, e).out) ==
            Successes(u.out) + Count(Clears(u, e)) + Count(Repeats(u, e)) + Count(Echoes(u, e))
  {
    match e
    case Install(name, storeOk, startOk) => InstallCountsSuccess(u, name, storeOk, startOk);
    case Verify =>
    case Abort(abortOk) => AbortCountsSuccess(u, abortOk);
    case Process(done, success, storeOk) => ProcessCountsSuccess(u, done, success, storeOk);
    case Restart =>
    case CutInstall(point, storeOk) => CutInstallCountsSuccess(u, point, storeOk);
    case CutProcess(point, storeOk) => CutProcessCountsSuccess(u, point, storeOk);
  }

  /** How often a run clears the record, and how often it reports a success otherwise. */
  function Cleared(u: Updater, events: seq<Event>): nat
    decreases |events|
  {
    if events == [] then 0 else Count(Clears(u, events[0])) + Cleared(Step(u, events[0]), events[1..])
  }

  function Repeated(u: Updater, events: seq<Event>): nat
    decreases |events|
  {
    if events == [] then 0
    else Count(Repeats(u, events[0])) + Count(Echoes(u, events[0])) + Repeated(Step(u, events[0]), events[1..])
  }

  /** Over every run: one report of success for each clearing of the record, and one for each repetition. */
  lemma {:induction false} EveryClearingWasReported(u: Updater, events: seq<Event>)
    requires Consistent(u)
    ensures Successes(Run(u, events).out) == Successes(u.out) + Cleared(u, events) + Repeated(u, events)
    decreases |events|
  {
    if events != [] {
      StepKeepsConsistent(u, events[0]);
      StepCountsSuccess(u, events[0]);
      EveryClearingWasReported(Step(u, events[0]), events[1..]);
    }
  }

  /** A run that loses the record of an installation has cleared it at least once. */
  lemma {:induction false} LostRecordWasCleared(u: Updater, events: seq<Event>)
    requires Consistent(u) && Recorded(u) && !Recorded(Run(u, events))
    ensures Cleared(u, events) > 0
    ensures Successes(Run(u, events).out) > Successes(u.out)
    decreases |events|
  {
    EveryClearingWasReported(u, events);
    if events != [] {
      if !Clears(u, events[0]) {
        StepKeepsConsistent(u, events[0]);
        LostRecordWasCleared(Step(u, events[0]), events[1..]);
      }
    }
  }

  // --- when the record and the state agree --------------------------------------------------------------------

  predicate Agrees(u: Updater) { Installs(u) <==> Recorded(u) }

  /** The steps behind which the record no longer tells whether an installation is under way. */
  predicate Misleads(u: Updater, e: Event) {
    match e
    case Install(name, storeOk, startOk) => u.phase == Idle && storeOk && !startOk
    case Verify => false
    case Abort(abortOk) => false
    case Process(done, success, storeOk) =>
      (u.phase == Installation && done && !success) || (u.phase == Completed && !storeOk)
    case Restart => Recorded(u)
    case CutInstall(point, storeOk) => Recorded(u) || (u.phase == Idle && point == AfterStore && storeOk)
    case CutProcess(point, storeOk) => Recorded(u) && !(u.phase == Completed && point == AfterStore && storeOk)
  }

  /** A step keeps record and state in agreement exactly when it is none of these. */
  lemma AgreementIsKept(u: Updater, e: Event)
    requires Agrees(u)
    ensures Agrees(Step(u, e)) <==> !Misleads(u, e)
  {
  }

  /** Verification behind a restart restores the agreement, from any state. */
  lemma RestartAndVerifyAgree(u: Updater)
    ensures Agrees(Step(Step(u, Restart), Verify))
  {
  }

  /** An installation that could not be started is resumed by the next verification, with or without a restart. */
  lemma FailedStartIsResumed(name: string, out: seq<Output>)
    ensures var u := Run(Booted(Stored(Idle), out), [Install(name, true, false), Process(false, false, true)]);
            u.phase == Idle && Step(u, Verify).phase == Installation
            && Step(Step(u, Restart), Verify).phase == Installation
  {
    var first := Step(Booted(Stored(Idle), out), Install(name, true, false));
    assert [Install(name, true, false), Process(false, false, true)][1..] == [Process(false, false, true)];
    assert Run(first, [Process(false, false, true)]) == Step(first, Process(false, false, true));
  }

  // --- what is told -------------------------------------------------------------------------------------------

  /** An update that succeeds: started once, by its name, on record in between, and reported at both ends. */
  lemma SuccessfulUpdate(u: Updater, name: string, again: bool)
    requires u.phase == Idle
    ensures var started := Step(u, Install(name, true, true));
            var done := Step(started, Process(true, true, again));
            var ended := Step(done, Process(again, again, true));
            started.phase == Installation && started.record == Stored(Installation)
            && done == started.(phase := Completed)
            && ended.phase == Idle && ended.record == Stored(Idle) && ended.problem == u.problem
            && ended.out == u.out + [Tells(Installing), StartsInstallation(name), Tells(Success)]
  {
  }

  /** Those that fail, each with its problem: the record, the start, the installation, and the record of its end. */
  lemma FailedUpdates(u: Updater, name: string, storeOk: bool, again: bool)
    requires u.phase == Idle
    ensures var told := u.out + [Tells(Installing), StartsInstallation(name)];
            var started := Step(u, Install(name, true, true));
            var unrecorded := Step(u, Install(name, false, true));
            var notStarted := Step(u, Install(name, storeOk, false));
            var failed := Step(started, Process(true, false, again));
            var unended := Step(Step(started, Process(true, true, again)), Process(again, again, false));
            unrecorded.phase == Error && unrecorded.problem == UnknownFile && unrecorded.record == u.record
            && unrecorded.out == told
            && notStarted.phase == Error && notStarted.problem == Unknown && notStarted.out == told
            && failed.phase == Error && failed.problem == InstallationFailed && failed.out == told
            && unended.phase == Error && unended.problem == UnknownFile && unended.record == Stored(Installation)
            && unended.out == told + [Tells(Success)]
  {
  }

  /** A failure is told once, by the next process step or by the next command, which does nothing else. */
  lemma FailureIsTold(u: Updater, name: string, storeOk: bool, startOk: bool)
    requires u.phase == Error
    ensures Step(u, Process(startOk, startOk, storeOk)) ==
            u.(phase := Idle, name := "", status := Failure, out := u.out + [Tells(Failure)])
    ensures Step(u, Install(name, storeOk, startOk)) ==
            u.(phase := Idle, status := Failure, out := u.out + [Tells(Failure)])
  {
  }

  /** A command that comes too early does not start anything. */
  lemma EarlyCommands(u: Updater, name: string, storeOk: bool, startOk: bool)
    ensures u.phase == Installation ==>
              Step(u, Install(name, storeOk, startOk)) == u.(status := Installing, out := u.out + [Tells(Installing)])
    ensures u.phase == Completed ==> Step(u, Install(name, storeOk, startOk)) == u
  {
  }

  /** An abort asks the device once, tells what came of it, and leaves phase and record. */
  lemma AbortsAreTold(u: Updater)
    ensures Step(u, Abort(true)) == u.(status := Aborted, out := u.out + [AbortsInstallation, Tells(Aborted)])
    ensures u.phase == Installation ==>
              Step(u, Abort(false)) ==
              u.(status := Failure, problem := Unknown, out := u.out + [AbortsInstallation, Tells(Failure)])
    ensures u.phase != Installation ==>
              Step(u, Abort(false)) == u.(out := u.out + [AbortsInstallation, Tells(u.status)])
  {
  }

  predicate Starts(u: Updater, e: Event) {
    exists i :: |u.out| <= i < |Step(u, e).out| && Step(u, e).out[i].StartsInstallation?
  }

  /**
   * An installation is started in the idle state only, whether or not the record could be stored: the record tells of
   * it exactly when the store succeeded, or when an older record was left behind.
   */
  lemma StartedInstallationOnRecord(u: Updater, e: Event)
    ensures Starts(u, e) <==> e.Install? && u.phase == Idle
    ensures Starts(u, e) ==> (Recorded(Step(u, e)) <==> e.storeOk || Recorded(u))
    ensures Starts(u, e) ==> Step(u, e).out == u.out + [Tells(Installing), StartsInstallation(e.name)]
  {
    if e.Install? && u.phase == Idle {
      assert Step(u, e).out[|u.out| + 1] == StartsInstallation(e.name);
    }
  }
}

/** The handlers, which update the fields of the object. */
module FirmwareUpdate {
  import opened FirmwareUpdateSpec

  class FirmwareUpdater {
    const initialized: bool
    var phase: Phase
    var status: Status
    var problem: Problem
    var fileName: string
    /** What verification_store has stored. */
    var record: Record
    /** What the listener and the callbacks were told. */
    var out: seq<Output>

    function Snapshot(): Updater
      reads this
    {
      Updater(phase, status, problem, fileName, record, out)
    }

    /** What every run keeps: an installation that is under way is on record. */
    ghost predicate Valid()
      reads this
    {
      Consistent(Snapshot())
    }

    /** firmware_update_init */
    constructor (callbacks: set<Callback>, record: Record)
      ensures initialized == Complete(callbacks) && Snapshot() == Booted(record, [])
      ensures Valid()
    {
      initialized := Complete(callbacks);
      phase, status, problem, fileName := Idle, AwaitingDevice, NoProblem, "";
      this.record, out := record, [];
    }

    method SetStatus(s: Status)
      modifies this`status
      ensures status == s
    {
      status := s;
    }

    method TellStatus()
      modifies this`out
      ensures out == old(out) + [Tells(status)]
    {
      out := out + [Tells(status)];
    }

    method StoreRecord(ok: bool)
      modifies this
      ensures Snapshot() == Store(old(Snapshot()), ok)
    {
      if ok {
        record := Stored(phase);
      } else {
        phase, problem := Error, UnknownFile;
      }
    }

    method ResetState()
      modifies this`phase, this`fileName
      ensures phase == Idle && fileName == ""
    {
      phase, fileName := Idle, "";
    }

    /** firmware_update_handle_parameter */
    method HandleParameter(name: string, storeOk: bool, startOk: bool)
      modifies this
      ensures Snapshot() == if initialized then OnInstall(old(Snapshot()), name, storeOk, startOk) else old(Snapshot())
      ensures old(Valid()) ==> Valid()
    {
      if !initialized {
        return;
      }
      match phase {
        case Idle =>
          SetStatus(Installing);
          TellStatus();
          phase := Installation;
          StoreRecord(storeOk);
          out := out + [StartsInstallation(name)];
          if !startOk {
            phase, problem := Error, Unknown;
          }
        case Installation =>
          SetStatus(Installing);
          TellStatus();
        case Completed =>
        case Error =>
          SetStatus(Failure);
          TellStatus();
          phase := Idle;
      }
    }

    /** firmware_update_handle_verification */
    method HandleVerification()
      modifies this
      ensures Snapshot() == if initialized then OnVerify(old(Snapshot())) else old(Snapshot())
      ensures old(Valid()) ==> Valid()
    {
      if !initialized {
        return;
      }
      match record {
        case Stored(Idle) =>
        case Stored(Installation) => phase := Installation;
        case _ => phase := Idle;
      }
    }

    /** firmware_update_handle_abort */
    method HandleAbort(abortOk: bool)
      modifies this
      ensures Snapshot() == if initialized then OnAbort(old(Snapshot()), abortOk) else old(Snapshot())
      ensures old(Valid()) ==> Valid()
    {
      if !initialized {
        return;
      }
      out := out + [AbortsInstallation];
      match phase {
        case Installation =>
          if !abortOk {
            problem := Unknown;
            SetStatus(Failure);
            TellStatus();
          } else {
            SetStatus(Aborted);
            TellStatus();
          }
        case _ =>
          if abortOk {
            SetStatus(Aborted);
          }
          TellStatus();
      }
    }

    /** firmware_update_process */
    method Process(done: bool, success: bool, storeOk: bool)
      modifies this
      ensures Snapshot() == if initialized then OnProcess(old(Snapshot()), done, success, storeOk) else old(Snapshot())
      ensures old(Valid()) ==> Valid()
    {
      if !initialized {
        return;
      }
      match phase {
        case Idle =>
        case Installation =>
          if !done {
            return;
          }
          if !success {
            phase, problem := Error, InstallationFailed;
          } else {
            phase := Completed;
          }
        case Completed =>
          SetStatus(Success);
          TellStatus();
          ResetState();
          StoreRecord(storeOk);
        case Error =>
          SetStatus(Failure);
          TellStatus();
          ResetState();
      }
    }
  }
}
