/** Runs of requests and reboots: when a pending verdict can still be settled by the next boot, and what the log says then. */
module OtaRuns {
  import opened JsonText
  import opened Options
  import opened OtaLifecycle
  import opened PyStrings
  import opened UpdateLog

  /** A pending log comes with a state file that makes the next boot settle it. */
  predicate Recoverable(s: Standing) {
    s.pending ==> Resolvable(s.state)
  }

  /** A pending status has been saved. */
  predicate Linked(s: Standing) {
    s.status == OTA_PENDING ==> s.pending
  }

  datatype Snapshot = Snapshot(standing: Standing, otaType: string)

  ghost function Now(d: Device): Snapshot
    reads d, d.logger, d.states
  {
    Snapshot(d.Stands(), d.logger.otaType)
  }

  ghost predicate TameDevice(d: Device)
    reads d, d.logger, d.states
  {
    && KnownStatus(d.logger.status) && Linked(d.Stands())
    && Tame(d.logger.otaType) && Tame(d.logger.metadata) && Tame(d.logger.error)
  }

  datatype Operation =
    | Request(m: Manifest, metadata: string, now: ClockText, finish: Finally)
    | Boot(run: BootRun)

  /** The code outside the model is honest, and no text says PENDING. A boot may do anything. */
  ghost predicate Ordinary(op: Operation) {
    op.Request? ==> Faithful(op.m) && TameManifest(op.m) && Tame(op.metadata)
  }

  /** The request returns a result and saves the log. */
  predicate Returns(m: Manifest, file: StateFile, finish: Finally) {
    finish.sends && (Succeeds(m, file) || m.Unparsable? || finish.restores)
  }

  /** Software that leaves a pending status without a state file the next boot acts on. */
  predicate LeavesNothing(run: OtherRun) {
    run.ran && run.status == OTA_PENDING && !Resolvable(run.state)
  }

  /**
   * A request that returns and loses a verdict: a restart command that is carried out while an update is
   * pending, or a successful update whose software part leaves nothing to settle it by.
   */
  predicate LosesSaved(m: Manifest, s: Snapshot) {
    Succeeds(m, s.standing.state)
    && match m
       case Plain(restarts, _, _) => restarts && s.standing.status == OTA_PENDING && s.otaType in UPDATES
       case Pota(parts) => parts.TriesSoftware(s.standing.state) && LeavesNothing(parts.sota.value)
       case Other(ota, run) => ota in UPDATES && LeavesNothing(run)
       case _ => false
  }

  /** A firmware attempt whose log is not saved again: it has saved one, or one was pending, and what is left does not settle it. */
  predicate FirmwareLoses(attempt: FotaAttempt, pending: bool, file: StateFile) {
    attempt.Reached() && (attempt.run.Installs(file) || pending) && !Resolvable(attempt.run.After(file))
  }

  ghost predicate SoftwareLoses(run: OtherRun) {
    run.ran && PendingFile(run.log) && !Resolvable(run.state)
  }

  /** A request that does not return and loses a verdict. */
  ghost predicate LosesUnsaved(m: Manifest, s: Standing) {
    match m
    case Unparsable(_) => false
    case Refused(_) => false
    case Plain(restarts, ends, writing) => restarts && ends.Gives? && !writing.FailsBefore? && s.pending
    case Fota(attempt) => FirmwareLoses(attempt, s.pending, s.state)
    case Other(_, run) => SoftwareLoses(run)
    case Pota(parts) =>
      if !parts.Validates(s.state) then parts.Records() && parts.fotaRecording.FailsMidway? && s.pending
      else if parts.RunsSoftware(s.state) then SoftwareLoses(parts.sota.value)
      else parts.fota.Some? && FirmwareLoses(parts.fota.value, s.pending, parts.Validated(s.state))
  }

  /** A boot whose check after a software update ends in a DispatcherException before a verdict is written. */
  predicate LosesBoot(s: Standing, boot: BootRun) {
    s.pending && ChecksSota(s.state) && !UpdatesPlatform(s.state) && boot.Ends() == Raises(true) && !boot.Settles()
  }

  ghost predicate LosesVerdict(s: Snapshot, op: Operation) {
    match op
    case Request(m, _, _, finish) =>
      if Returns(m, s.standing.state, finish) then LosesSaved(m, s) else LosesUnsaved(m, s.standing)
    case Boot(run) => LosesBoot(s.standing, run)
  }

  /** Recording the running firmware does not change what the next boot does. */
  lemma RunningKeeps(run: FotaRun, file: StateFile)
    requires file.Pickled?
    ensures Resolvable(WriteFile(file, run.Running(), Writes)) <==> Resolvable(file)
  {
    hide Mentions;
    assert REASON != BIOS_VERSION && REASON != RELEASE_DATE && MENDER != BIOS_VERSION && MENDER != RELEASE_DATE by {
      assert REASON[0] == 'r' && REASON[2] == 's' && RELEASE_DATE[2] == 'l' && BIOS_VERSION[0] == 'b' && MENDER[0] == 'm';
    }
  }

  /** A successful installation leaves what the next boot needs; any other leaves nothing, if removing the file completes. */
  lemma AfterExactly(run: FotaRun, file: StateFile)
    ensures run.Succeeds(file) ==> Resolvable(run.After(file))
    ensures !run.Succeeds(file) && run.clearing == Completes ==> run.After(file) == Absent
  {
    hide Resolvable;
    MessageExactly(run, file);
    if run.Succeeds(file) {
      assert Recorded(run.After(file), if run.holdReboot then "pota" else "fota");
      RecordedResolvable(run.After(file));
    }
  }

  /**
   * A firmware request that does not return, when removing the state file completes: the log is left
   * pending without a state file exactly when the installation is begun, does not succeed, and either
   * got as far as saving the log or found it pending.
   */
  lemma UnsavedFirmware(attempt: FotaAttempt, s: Standing)
    requires attempt.run.clearing == Completes && Recoverable(s)
    ensures
      var s' := FotaStanding(attempt, s);
      s'.pending && s'.state == Absent
      <==> attempt.Reached() && !attempt.run.Succeeds(s.state) && (attempt.run.Installs(s.state) || s.pending)
  {
    hide FotaRun.Succeeds, FotaRun.Installs, FotaRun.After;
    AfterExactly(attempt.run, s.state);
  }

  lemma LinkedAfter(m: Manifest, s: Standing)
    requires Faithful(m) && Linked(s)
    ensures Linked(StandingAfter(m, s))
  {
    hide FotaRun.Installs, FotaRun.After, PendingFile, WriteFile;
  }

  lemma FirmwareUnsaved(attempt: FotaAttempt, s: Standing)
    requires Recoverable(s)
    ensures Recoverable(FotaStanding(attempt, s)) <==> !FirmwareLoses(attempt, s.pending, s.state)
  {
    hide FotaRun.Installs, FotaRun.After, Resolvable;
  }

  lemma SoftwareUnsaved(run: OtherRun, s: Standing)
    requires Recoverable(s)
    ensures Recoverable(OtherStanding(run, s)) <==> !SoftwareLoses(run)
  {
    hide PendingFile, Resolvable;
  }

  lemma RestartUnsaved(ends: Attempted, writing: Writing, s: Standing)
    requires Recoverable(s)
    ensures Recoverable(StandingAfter(Plain(true, ends, writing), s)) <==> !LosesUnsaved(Plain(true, ends, writing), s)
  {
    hide Mentions;
    if s.pending && ends.Gives? && writing == Writes {
      var file := WriteFile(s.state, RESTART_REASON, writing);
      RestartRecorded(file);
      RestartNotResolvable(file);
    }
  }

  lemma ValidationUnsaved(parts: PotaParts, s: Standing)
    requires Recoverable(s)
    ensures
      var s' := s.(state := parts.Validated(s.state));
      && (parts.Validates(s.state) ==> Recoverable(s'))
      && (!parts.Validates(s.state) ==> (Recoverable(s') <==> !(parts.Records() && parts.fotaRecording.FailsMidway? && s.pending)))
  {
    hide Mentions;
    if parts.Records() && parts.fotaRecording == Writes && s.pending {
      RunningKeeps(parts.fota.value.run, s.state);
    }
  }

  /** What a request that does not return does to a verdict, exactly. */
  lemma UnsavedExactly(m: Manifest, s: Standing)
    requires Recoverable(s)
    ensures Recoverable(StandingAfter(m, s)) <==> !LosesUnsaved(m, s)
  {
    match m
    case Unparsable(_) =>
    case Refused(_) =>
    case Plain(restarts, ends, writing) =>
      if restarts {
        RestartUnsaved(ends, writing, s);
      }
    case Fota(attempt) => FirmwareUnsaved(attempt, s);
    case Other(_, run) => SoftwareUnsaved(run, s);
    case Pota(parts) => PlatformUnsaved(parts, s);
  }

  lemma PlatformUnsaved(parts: PotaParts, s: Standing)
    requires Recoverable(s)
    ensures Recoverable(PotaStanding(parts, s)) <==> !LosesUnsaved(Manifest.Pota(parts), s)
  {
    hide Recoverable, FotaStanding, OtherStanding, FirmwareLoses, SoftwareLoses, FotaAttempt.Outcome,
      PotaParts.Validates, PotaParts.Validated, PotaParts.Records;
    ValidationUnsaved(parts, s);
    var validated := s.(state := parts.Validated(s.state));
    if parts.Validates(s.state) {
      if parts.fota.Some? {
        FirmwareUnsaved(parts.fota.value, validated);
      }
      if parts.RunsSoftware(s.state) {
        SoftwareRan(parts.sota.value, if parts.fota.Some? then FotaStanding(parts.fota.value, validated) else validated);
      } else if parts.TriesSoftware(s.state) {
        SoftwareIdle(parts.sota.value, if parts.fota.Some? then FotaStanding(parts.fota.value, validated) else validated);
      }
    }
  }

  lemma SoftwareRan(run: OtherRun, s: Standing)
    requires run.ran
    ensures Recoverable(OtherStanding(run, s)) <==> !SoftwareLoses(run)
  {
    hide PendingFile, Resolvable;
  }

  lemma SoftwareIdle(run: OtherRun, s: Standing)
    requires !run.ran
    ensures OtherStanding(run, s) == s
  {
  }

  /** The status that is saved with a request that returns. */
  ghost function SavedStatus(m: Manifest, s: Snapshot): string {
    if Succeeds(m, s.standing.state) then
      if TypeAfter(m, s.otaType) in UPDATES then StandingAfter(m, s.standing).status else OTA_SUCCESS
    else if m == Unparsable(None) then s.standing.status
    else OTA_FAIL
  }

  /** What a request that returns does to a verdict, exactly. */
  lemma SavedExactly(m: Manifest, s: Snapshot)
    requires Faithful(m) && Recoverable(s.standing) && Linked(s.standing)
    ensures SavedStatus(m, s) == OTA_PENDING && !Resolvable(StandingAfter(m, s.standing).state) <==> LosesSaved(m, s)
  {
    match m
    case Unparsable(_) =>
    case Refused(_) =>
    case Plain(restarts, ends, writing) => RestartSaved(restarts, ends, writing, s);
    case Fota(attempt) =>
      hide FotaAttempt.Outcome, Resolvable, FotaRun.Succeeds, FotaRun.After, FotaRun.Installs;
      OutcomeExactly(attempt, s.standing.state);
      AfterExactly(attempt.run, s.standing.state);
    case Other(_, run) =>
      hide Resolvable, PendingFile;
    case Pota(parts) => PlatformSaved(parts, s);
  }

  lemma RestartSaved(restarts: bool, ends: Attempted, writing: Writing, s: Snapshot)
    requires Recoverable(s.standing) && Linked(s.standing)
    ensures
      var m := Plain(restarts, ends, writing);
      SavedStatus(m, s) == OTA_PENDING && !Resolvable(StandingAfter(m, s.standing).state) <==> LosesSaved(m, s)
  {
    hide Mentions;
    if restarts && Succeeds(Plain(restarts, ends, writing), s.standing.state) {
      var file := WriteFile(s.standing.state, RESTART_REASON, writing);
      RestartRecorded(file);
      RestartNotResolvable(file);
    }
  }

  lemma PlatformSaved(parts: PotaParts, s: Snapshot)
    requires Faithful(Manifest.Pota(parts))
    ensures
      var m := Manifest.Pota(parts);
      SavedStatus(m, s) == OTA_PENDING && !Resolvable(StandingAfter(m, s.standing).state) <==> LosesSaved(m, s)
  {
    hide FotaAttempt.Outcome, Resolvable, FotaRun.Succeeds, FotaRun.After, FotaRun.Installs, PendingFile,
      PotaParts.Validates, PotaParts.Validated, FotaErrors;
    var file := s.standing.state;
    if parts.fota.Some? {
      OutcomeExactly(parts.fota.value, parts.Validated(file));
      AfterExactly(parts.fota.value.run, parts.Validated(file));
    }
  }

  lemma LogPending(logger: UpdateLogger)
    requires KnownStatus(logger.status) && Tame(logger.otaType) && Tame(logger.metadata) && Tame(logger.error)
    ensures Pending(RenderLog(logger.Now())) <==> logger.status == OTA_PENDING
  {
    hide RenderLog, Contains;
    RenderLogPending(logger.Now());
    KnownPending(logger.status);
  }

  /** One request, whether it returns or not: when it loses a verdict, exactly. */
  method OperateRequest(d: Device, op: Operation)
    requires TameDevice(d) && Ordinary(op) && op.Request?
    modifies d, d.logger`status, d.logger`error, d.logger`file, d.logger`otaType, d.logger`time, d.logger`metadata, d.states
    ensures TameDevice(d)
    ensures Recoverable(old(Now(d)).standing) ==> (Recoverable(Now(d).standing) <==> !LosesVerdict(old(Now(d)), op))
    ensures Returns(op.m, old(d.states.file), op.finish) ==>
      (PendingFile(d.logger.file) <==> d.logger.status == OTA_PENDING)
      && d.logger.file == Some(RenderLog(d.logger.Now())) && d.logger.status == SavedStatus(op.m, old(Now(d)))
      && d.logger.otaType == TypeAfter(op.m, old(d.logger.otaType))
    ensures d.states.file == StandingAfter(op.m, old(Now(d)).standing).state
  {
    hide Resolvable, Pending, Faithful, Tame, TameManifest, RenderLog, StandingAfter, Succeeds, LosesSaved, LosesUnsaved, KnownStatus,
      TypeAfter;
    ghost var before := Now(d);
    LinkedAfter(op.m, before.standing);
    if Recoverable(before.standing) {
      SavedExactly(op.m, before);
      UnsavedExactly(op.m, before.standing);
    }
    var result, returned := d.DoInstall(op.m, op.metadata, op.now, op.finish);
    LogPending(d.logger);
  }

  /** What a boot does to a verdict, exactly. */
  lemma BootExactly(s: Standing, boot: BootRun, log: Option<string>)
    requires Recoverable(s) && s.pending == PendingFile(log)
    ensures
      var log' := if BootSettles(s.state, boot) then Resolved(log, BootVerdict(s.state, boot)) else log;
      var state' := if BootEnds(s.state, boot) != Raises(false) then Absent else s.state;
      && (Recoverable(Standing("", PendingFile(log'), state')) <==> !LosesBoot(s, boot))
      && (boot.Ends() == Fine ==> !PendingFile(log') && state' == Absent)
  {
    hide Mentions, Resolved, PendingFile;
    ResolvedIsSettled(log, OTA_FAIL, "");
    ResolvedIsSettled(log, OTA_SUCCESS, "");
    MentionsResolvable(s.state);
  }

  lemma MentionsResolvable(file: StateFile)
    ensures UpdatesFirmware(file) || UpdatesPlatform(file) ==> Resolvable(file)
  {
  }

  method OperateBoot(d: Device, boot: BootRun)
    requires TameDevice(d)
    modifies d, d.logger`status, d.logger`error, d.logger`file, d.logger`otaType, d.logger`time, d.logger`metadata, d.states
    ensures TameDevice(d)
    ensures Recoverable(old(Now(d)).standing) ==>
      (Recoverable(Now(d).standing) <==> !LosesBoot(old(Now(d)).standing, boot))
      && (boot.Ends() == Fine ==> !PendingFile(d.logger.file) && d.states.file == Absent)
  {
    hide Resolvable, PendingFile, Tame, LosesBoot, BootSettles, BootVerdict, BootEnds, Resolved;
    FixedTypes();
    if Recoverable(d.Stands()) {
      BootExactly(d.Stands(), boot, d.logger.file);
    }
    var completed, verdict := d.Reboot(boot);
  }

  /** One request or one reboot. */
  method Operate(d: Device, op: Operation)
    requires TameDevice(d) && Ordinary(op)
    modifies d, d.logger`status, d.logger`error, d.logger`file, d.logger`otaType, d.logger`time, d.logger`metadata, d.states
    ensures TameDevice(d)
    ensures Recoverable(old(Now(d)).standing) ==> (Recoverable(Now(d).standing) <==> !LosesVerdict(old(Now(d)), op))
    ensures Recoverable(old(Now(d)).standing) && op.Boot? && op.run.Ends() == Fine ==>
      !PendingFile(d.logger.file) && d.states.file == Absent
  {
    hide Resolvable, PendingFile, Faithful, TameManifest, Tame, LosesBoot, LosesSaved, LosesUnsaved, Returns;
    match op {
      case Request(_, _, _, _) =>
        OperateRequest(d, op);
      case Boot(run) =>
        OperateBoot(d, run);
    }
  }

  /** The snapshots of a run, from before the first operation to after the last. */
  ghost predicate IsTrace(trace: seq<Snapshot>, ops: seq<Operation>) {
    && |trace| == |ops| + 1
    && forall i | 0 <= i < |ops| && Recoverable(trace[i].standing) ::
      && (Recoverable(trace[i + 1].standing) <==> !LosesVerdict(trace[i], ops[i]))
      && (ops[i].Boot? && ops[i].run.Ends() == Fine ==> !trace[i + 1].standing.pending && trace[i + 1].standing.state == Absent)
  }

  ghost predicate NothingLost(trace: seq<Snapshot>, ops: seq<Operation>)
    requires |trace| == |ops| + 1
  {
    forall i | 0 <= i < |ops| :: !LosesVerdict(trace[i], ops[i])
  }

  ghost predicate AlwaysRecoverable(trace: seq<Snapshot>) {
    forall i | 0 <= i < |trace| :: Recoverable(trace[i].standing)
  }

  /**
   * Over every run of requests and reboots: a pending log comes throughout with the state file that the
   * next boot settles it by, exactly when no operation of the run loses a verdict; and then every boot
   * whose check completes leaves a settled log.
   */
  method Run(d: Device, ops: seq<Operation>) returns (ghost trace: seq<Snapshot>)
    requires TameDevice(d) && Recoverable(d.Stands())
    requires forall op <- ops :: Ordinary(op)
    modifies d, d.logger`status, d.logger`error, d.logger`file, d.logger`otaType, d.logger`time, d.logger`metadata, d.states
    ensures TameDevice(d)
    ensures IsTrace(trace, ops) && trace[0] == old(Now(d)) && trace[|ops|] == Now(d)
    ensures AlwaysRecoverable(trace) <==> NothingLost(trace, ops)
  {
    hide Recoverable, LosesVerdict, Ordinary, TameDevice;
    trace := [Now(d)];
    for i := 0 to |ops|
      invariant TameDevice(d)
      invariant IsTrace(trace, ops[..i]) && trace[0] == old(Now(d)) && trace[i] == Now(d)
    {
      ghost var before := trace;
      Operate(d, ops[i]);
      trace := trace + [Now(d)];
      assert forall j | 0 <= j <= i :: trace[j] == before[j];
      assert forall j | 0 <= j < i :: ops[..i + 1][j] == ops[..i][j];
    }
    assert ops[..|ops|] == ops;
    TraceLoses(trace, ops);
  }

  lemma TraceLoses(trace: seq<Snapshot>, ops: seq<Operation>)
    requires IsTrace(trace, ops) && Recoverable(trace[0].standing)
    ensures AlwaysRecoverable(trace) <==> NothingLost(trace, ops)
  {
    hide Recoverable, LosesVerdict;
    if NothingLost(trace, ops) {
      RecoverableUpTo(trace, ops, |ops|);
    }
    if AlwaysRecoverable(trace) {
      forall i | 0 <= i < |ops|
        ensures !LosesVerdict(trace[i], ops[i])
      {
        assert Recoverable(trace[i].standing) && Recoverable(trace[i + 1].standing);
      }
    }
  }

  lemma {:induction false} RecoverableUpTo(trace: seq<Snapshot>, ops: seq<Operation>, n: nat)
    requires IsTrace(trace, ops) && Recoverable(trace[0].standing) && n <= |ops|
    requires NothingLost(trace, ops)
    ensures forall i | 0 <= i <= n :: Recoverable(trace[i].standing)
  {
    hide Recoverable, LosesVerdict;
    if n > 0 {
      RecoverableUpTo(trace, ops, n - 1);
      assert Recoverable(trace[n - 1].standing) && !LosesVerdict(trace[n - 1], ops[n - 1]);
    }
  }

  /**
   * What a restart command does to a device whose verdict could still be settled. After it and a boot
   * whose check completes, the log is pending exactly when the command was carried out while an update
   * was pending: the reason in the state file is replaced, so the boot does not look at the update, and
   * clears the file.
   */
  method RestartThenBoot(d: Device, ends: Attempted, writing: Writing, metadata: string, now: ClockText, boot: BootRun)
    requires TameDevice(d) && Recoverable(d.Stands()) && boot.Ends() == Fine
    requires Errors(ends) && TameAttempted(ends) && Tame(metadata)
    modifies d, d.logger`status, d.logger`error, d.logger`file, d.logger`otaType, d.logger`time, d.logger`metadata, d.states
    ensures d.states.file == Absent
    ensures
      PendingFile(d.logger.file) <==>
      ends.Gives? && ends.result.status == CODE_OK && WriteStep(old(d.states.file), writing) == Fine
      && old(d.logger.status) == OTA_PENDING && old(d.logger.otaType) in UPDATES
  {
    hide PendingFile, Tame, Recorded, RenderLog, Contains, Mentions, Resolved;
    var restart := Request(Plain(true, ends, writing), metadata, now, Finally(true, true));
    ghost var before := Now(d);
    OperateRequest(d, restart);
    ResolvedIsSettled(d.logger.file, OTA_FAIL, "");
    ResolvedIsSettled(d.logger.file, OTA_SUCCESS, "");
    MentionsResolvable(d.states.file);
    var completed, verdict := d.Reboot(boot);
  }

  /** A request that is neither an update with a reboot nor a restart command. */
  predicate Command(m: Manifest) {
    match m
    case Unparsable(_) => true
    case Refused(_) => true
    case Plain(restarts, _, _) => !restarts
    case Fota(_) => false
    case Pota(_) => false
    case Other(ota, _) => ota !in UPDATES
  }

  /** Such a request leaves a pending status: it is no update of another kind, and the result is 200 (or parsing raised an unlisted exception). */
  predicate KeepsPending(m: Manifest) {
    m == Unparsable(None) || (m.Plain? && m.ends.Gives? && m.ends.result.status == CODE_OK)
  }

  predicate AllKeep(ops: seq<Operation>) {
    forall op <- ops :: op.Request? && KeepsPending(op.m)
  }

  /** What one such request does to the status. */
  lemma CommandStatus(m: Manifest, s: Snapshot)
    requires Command(m)
    ensures SavedStatus(m, s) ==
      if m == Unparsable(None) || (KeepsPending(m) && s.otaType in UPDATES) then s.standing.status
      else if Succeeds(m, s.standing.state) then OTA_SUCCESS else OTA_FAIL
    ensures m.Plain? || m.Unparsable? || m.Refused? ==> StandingAfter(m, s.standing).state == s.standing.state
    ensures KeepsPending(m) ==> TypeAfter(m, s.otaType) == s.otaType
    ensures SavedStatus(m, s) in {s.standing.status, OTA_FAIL, OTA_SUCCESS}
    ensures !KeepsPending(m) ==> SavedStatus(m, s) in {OTA_FAIL, OTA_SUCCESS}
    ensures KeepsPending(m) && s.otaType in UPDATES ==> SavedStatus(m, s) == s.standing.status
  {
  }

  lemma NoneKeep(ops: seq<Operation>)
    ensures AllKeep(ops[..0])
  {
  }

  lemma AllKeepNext(ops: seq<Operation>, op: Operation)
    ensures AllKeep(ops + [op]) <==> AllKeep(ops) && op.Request? && KeepsPending(op.m)
  {
    var longer := ops + [op];
    assert longer[|ops|] == op;
    assert forall i | 0 <= i < |ops| :: longer[i] == ops[i];
  }

  /** Commands that return, after an update that has left PENDING: what the saved log says then. */
  method RunCommands(d: Device, ops: seq<Operation>)
    requires TameDevice(d) && d.logger.status == OTA_PENDING && d.logger.otaType in UPDATES
    requires d.logger.file == Some(RenderLog(d.logger.Now()))
    requires forall op <- ops :: Ordinary(op) && op.Request? && Command(op.m) && op.finish.Completes()
    modifies d, d.logger`status, d.logger`error, d.logger`file, d.logger`otaType, d.logger`time, d.logger`metadata, d.states
    ensures TameDevice(d) && d.logger.file == Some(RenderLog(d.logger.Now()))
    ensures
      if AllKeep(ops) then
        d.logger.status == OTA_PENDING && d.logger.otaType == old(d.logger.otaType) && d.states.file == old(d.states.file)
      else d.logger.status in {OTA_FAIL, OTA_SUCCESS}
  {
    hide Resolvable, PendingFile, Tame, RenderLog, Ordinary, TameDevice, LosesVerdict, Recoverable, SavedStatus, StandingAfter,
      TypeAfter, KeepsPending, AllKeep, Command;
    NoneKeep(ops);
    for i := 0 to |ops|
      invariant TameDevice(d) && d.logger.file == Some(RenderLog(d.logger.Now()))
      invariant
        if AllKeep(ops[..i]) then
          d.logger.status == OTA_PENDING && d.logger.otaType == old(d.logger.otaType) && d.states.file == old(d.states.file)
        else d.logger.status in {OTA_FAIL, OTA_SUCCESS}
    {
      assert ops[..i + 1] == ops[..i] + [ops[i]];
      AllKeepNext(ops[..i], ops[i]);
      CommandStatus(ops[i].m, Now(d));
      CommandKinds(ops[i].m);
      OperateRequest(d, ops[i]);
    }
    assert ops[..|ops|] == ops;
  }

  /**
   * From an update that has left PENDING and a state file, through commands that return, to the boot:
   * the boot's verdict reaches the log exactly when every command in between left the status PENDING.
   * It is SUCCESS exactly when there is no firmware to check, the diagnosis passes and the code for a
   * healthy system ends well without having written FAIL. Otherwise the log says what the commands
   * saved over it, whatever the boot finds.
   */
  method VerdictReachesLog(d: Device, ops: seq<Operation>, boot: BootRun) returns (ghost saved: Record)
    requires TameDevice(d) && d.logger.status == OTA_PENDING && d.logger.otaType in UPDATES
    requires d.logger.file == Some(RenderLog(d.logger.Now())) && Resolvable(d.states.file)
    requires forall op <- ops :: Ordinary(op) && op.Request? && Command(op.m) && op.finish.Completes()
    requires (if boot.diagnosed && boot.healthy.ends != Raises(true) then boot.healthy.ends else boot.unhealthy.ends) == Fine
    modifies d, d.logger`status, d.logger`error, d.logger`file, d.logger`otaType, d.logger`time, d.logger`metadata, d.states
    ensures
      if AllKeep(ops) then
        && saved.status == OTA_PENDING && saved.otaType == old(d.logger.otaType)
        && var succeeds :=
             !UpdatesFirmware(old(d.states.file)) && !UpdatesPlatform(old(d.states.file))
             && boot.diagnosed && boot.healthy.ends == Fine && !boot.healthy.settles;
           d.logger.file == Some(RenderLog(saved.(status := if succeeds then "SUCCESS" else "FAIL")))
      else
        saved.status in {OTA_FAIL, OTA_SUCCESS} && d.logger.file == Some(RenderLog(saved))
  {
    hide Resolvable, PendingFile, Tame, RenderLog, Ordinary, TameDevice, Replace, AllKeep, Command;
    RunCommands(d, ops);
    saved := d.logger.Now();
    SettledLog(d);
    BootOfUpdate(d.states.file, boot);
    if d.logger.status == OTA_PENDING {
      TameTexts(d);
      VerdictReplaces(saved, BootVerdict(d.states.file, boot));
    } else {
      SettledStays(d.logger.file, OTA_FAIL);
      SettledStays(d.logger.file, OTA_SUCCESS);
    }
    var completed, verdict := d.Reboot(boot);
  }

  lemma TameTexts(d: Device)
    requires TameDevice(d)
    ensures !Pending(d.logger.otaType) && !Pending(d.logger.metadata) && !Pending(d.logger.error)
  {
  }

  /**
   * A firmware request that succeeds, and the boot after it: the verdict sent is that the update was
   * successful exactly when the firmware then reported has another version than the one that ran when
   * the update was requested. What the state file said before has no part in it.
   */
  method FirmwareThenBoot(d: Device, attempt: FotaAttempt, metadata: string, now: ClockText, finish: Finally, boot: BootRun)
    returns (verdict: Option<Verdict>)
    requires FotaErrors(attempt)
    requires attempt.Reached() && attempt.run.Succeeds(d.states.file) && attempt.run.finish == Completes
    modifies d, d.logger`status, d.logger`error, d.logger`file, d.logger`otaType, d.logger`time, d.logger`metadata, d.states
    ensures verdict == Some(
      match boot.firmware
      case Unknown => Undecided
      case Known(version, _) => if version != attempt.run.version then Successful else Failed)
    ensures finish.sends && Tame(metadata) ==> d.logger.file == Some(RenderLog(Record("FAIL", "fota", now, metadata, "")))
  {
    hide FotaRun.Succeeds, FotaRun.Installs, FotaRun.After, FotaAttempt.Outcome, FotaAttempt.Reached, Mentions, RenderLog, Replace,
      FirmwareVerdict;
    SuccessRecords(attempt.run, d.states.file);
    SuccessReturns(attempt, d.states.file);
    var result, returned := d.DoInstall(Fota(attempt), metadata, now, finish);
    VersionDecides(d.states.file.values, boot.firmware);
    if finish.sends && Tame(metadata) {
      FixedTypes();
      VerdictReplaces(d.logger.Now(), OTA_FAIL);
    }
    var completed;
    completed, verdict := d.Reboot(boot);
  }

  lemma SuccessReturns(attempt: FotaAttempt, file: StateFile)
    requires attempt.Reached() && attempt.run.Succeeds(file) && attempt.run.finish == Completes
    ensures Succeeds(Fota(attempt), file) && attempt.run.Installs(file)
  {
    hide FotaRun.Message, FotaRun.Leaving, Then;
    OutcomeExactly(attempt, file);
  }

  lemma CommandKinds(m: Manifest)
    ensures KeepsPending(m) ==> m.Plain? || m.Unparsable?
  {
  }

  lemma SettledLog(d: Device)
    requires TameDevice(d) && d.logger.file == Some(RenderLog(d.logger.Now()))
    ensures PendingFile(d.logger.file) <==> d.logger.status == OTA_PENDING
  {
    LogPending(d.logger);
  }

  lemma BootOfUpdate(file: StateFile, boot: BootRun)
    ensures Resolvable(file) && boot.Ends() == Fine ==> BootSettles(file, boot)
    ensures BootVerdict(file, boot) in {OTA_FAIL, OTA_SUCCESS}
  {
  }

  lemma RestartNotResolvable(file: StateFile)
    requires Recorded(file, "restart_cmd")
    ensures !Resolvable(file)
  {
    var s := "restart_cmd";
    assert s[0..7] == "restart";
    assert MatchesAt(s, "restart", 0);
    NoMention(s, "fota");
    NoMention(s, "pota");
  }
}
