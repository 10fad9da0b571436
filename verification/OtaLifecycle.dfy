/** An update from the request to the verdict after the reboot: the state file, the log, and who writes them. */
module OtaLifecycle {
  import opened JsonText
  import opened Options
  import opened PyStrings
  import opened UpdateLog

  datatype Result = Result(status: int, message: string)

  const CODE_OK := 200
  const COMMAND_SUCCESS := Result(200, "COMMAND SUCCESSFUL")
  const INSTALL_FAILURE := Result(400, "FAILED TO INSTALL")
  const OTA_FAILURE := Result(302, "OTA FAILURE")
  const OTA_FAILURE_IN_PROGRESS := Result(302, "ANOTHER OTA IN PROGRESS, TRY LATER")
  /** `Result()`, what a local variable holds before anything is last */
  const NO_RESULT := Result(0, "")

  /** A call of code outside the model: it succeeds, or raises one of the exceptions the caller lists, or another. */
  datatype Step = Fine | Raises(listed: bool)

  /** The dispatcher state file: a pickled dictionary, or something that cannot be read back. */
  datatype StateFile = Absent | Pickled(values: map<string, string>) | Damaged(listed: bool)

  /** How writing the file ends: a failure may leave it as it was or damaged. */
  datatype Writing = Writes | FailsBefore(listed: bool) | FailsMidway(listed: bool, readingListed: bool)

  const REASON := "restart_reason"

  const SAVING_MESSAGE: string := "Error during install: " + "Exception while saving " + "dispatcher state to disk"
  const SAVING_FAILED := Result(400, SAVING_MESSAGE)

  function Merged(file: StateFile, values: map<string, string>): map<string, string> {
    if file.Pickled? then file.values + values else values
  }

  /** The state file says why the device restarts. */
  predicate Recorded(file: StateFile, reason: string) {
    file.Pickled? && REASON in file.values && file.values[REASON] == reason
  }

  const MENDER := "mender-version"

  predicate Mentions(reason: string, word: string) {
    Find(reason, word) != -1
  }

  /** The next boot will check the update: the reason is an update, not a restart command. */
  predicate Resolvable(file: StateFile) {
    file.Pickled?
    && if REASON in file.values then
         Mentions(file.values[REASON], "fota") || Mentions(file.values[REASON], "pota") || !Mentions(file.values[REASON], "restart")
       else MENDER in file.values
  }

  lemma RecordedResolvable(file: StateFile)
    requires Recorded(file, "fota") || Recorded(file, "pota")
    ensures Resolvable(file)
  {
    assert MatchesAt("fota", "fota", 0) && MatchesAt("pota", "pota", 0);
    assert Find("fota", "fota") != -1 && Find("pota", "pota") != -1;
  }

  /** The statuses that the agents give to an update */
  predicate KnownStatus(status: string) {
    status in {"", OTA_PENDING, OTA_FAIL, OTA_SUCCESS}
  }

  /** What is asked of the code outside the model: a pending status has been saved, and a success comes with a run. */
  ghost predicate Honest(run: OtherRun) {
    && (run.ran ==> KnownStatus(run.status))
    && (run.ran && run.status == OTA_PENDING ==> PendingFile(run.log))
    && (run.attempted.Gives? && run.attempted.result.status == CODE_OK ==> run.ran)
  }

  /** A manifest as `do_install` meets it. */
  datatype Manifest =
    | Unparsable(error: Option<Result>)       // the result made of the exception, if it is listed
    | Refused(error: Option<Result>)          // the same for an exception after parsing and before the attempt
    | Plain(restarts: bool, ends: Attempted, writing: Writing)   // a command, source or configuration request
    | Fota(attempt: FotaAttempt)
    | Pota(parts: PotaParts)
    | Other(ota: string, run: OtherRun)

  /** Results made of exceptions are errors, and the code outside the model is honest. */
  ghost predicate Faithful(m: Manifest) {
    match m
    case Unparsable(error) => ListedError(error)
    case Refused(error) => ListedError(error)
    case Plain(_, ends, _) => Errors(ends)
    case Fota(attempt) => FotaErrors(attempt)
    case Pota(parts) =>
      && (parts.fota.Some? ==> FotaErrors(parts.fota.value))
      && (parts.sota.Some? ==> Errors(parts.sota.value.attempted) && Honest(parts.sota.value))
      && (parts.refused.Some? ==> parts.refused.value.status != CODE_OK)
    case Other(_, run) => Errors(run.attempted) && Honest(run)
  }

  /** What the exception handlers make of an exception is an error. */
  predicate ListedError(error: Option<Result>) {
    error.Some? ==> error.value.status != CODE_OK
  }

  predicate Errors(a: Attempted) {
    a.Throws? && a.handled.Some? ==> a.handled.value.status != CODE_OK
  }

  predicate FotaErrors(attempt: FotaAttempt) {
    && (attempt.parse.Some? ==> ListedError(attempt.parse.value))
    && (attempt.preCheck.Some? ==> ListedError(attempt.preCheck.value))
    && (attempt.report.Some? ==> ListedError(attempt.report.value))
    && (attempt.construct.RaisesOther? ==> ListedError(attempt.construct.handled))
    && (attempt.run.clearing.RaisesOther? ==> ListedError(attempt.run.clearing.handled))
    && (attempt.run.finish.RaisesOther? ==> ListedError(attempt.run.finish.handled))
  }

  /** How adding values to a state file ends: a file that cannot be read stops it before the writing. */
  function WriteStep(file: StateFile, writing: Writing): Step {
    if file.Damaged? then Raises(file.listed)
    else if writing == Writes then Fine
    else Raises(writing.listed)
  }

  /** What writing leaves. */
  function WriteFile(file: StateFile, values: map<string, string>, writing: Writing): StateFile {
    if file.Damaged? then file
    else
      match writing
      case Writes => Pickled(Merged(file, values))
      case FailsBefore(_) => file
      case FailsMidway(_, readingListed) => Damaged(readingListed)
  }

  class StateStore {
    var file: StateFile

    constructor (file: StateFile)
      ensures this.file == file
    {
      this.file := file;
    }

    /** Adds values to the dictionary in the file, which must be readable if it exists. */
    method Write(values: map<string, string>, writing: Writing) returns (r: Step)
      modifies this
      ensures r == WriteStep(old(file), writing)
      ensures file == WriteFile(old(file), values, writing)
      ensures r == Fine ==> file == Pickled(if old(file).Pickled? then old(file).values + values else values)
      ensures r != Fine ==> file == if writing.FailsMidway? && !old(file).Damaged? then Damaged(writing.readingListed) else old(file)
    {
      var merged := values;
      if file.Damaged? {
        return Raises(file.listed);
      }
      if file.Pickled? {
        merged := file.values + values;
      }
      match writing
      case Writes =>
        file := Pickled(merged);
        return Fine;
      case FailsBefore(listed) =>
        return Raises(listed);
      case FailsMidway(listed, readingListed) =>
        file := Damaged(readingListed);
        return Raises(listed);
    }

    /** Reads without removing; the `finally` clause turns every exception into no state. */
    method Consume() returns (values: Option<map<string, string>>)
      ensures values == if file.Pickled? then Some(file.values) else None
    {
      values := if file.Pickled? then Some(file.values) else None;
    }

    method Clear()
      modifies this
      ensures file == Absent
    {
      file := Absent;
    }
  }

  /** One step after another: the first exception ends both. */
  function Then(step: Step, next: Step): Step {
    if step == Fine then next else step
  }

  /** A call whose exception leaves the installation: a FotaError is caught by the thread, any other goes further. */
  datatype Ending = Completes | RaisesFotaError | RaisesOther(handled: Option<Result>)

  /** What happens outside the model during a firmware installation. */
  datatype FotaRun = FotaRun(
    prepare: Step,               // the OS factory
    check: Step,                 // the upgrade check, before it records the running firmware
    version: string,             // the running firmware it records
    date: string,
    recording: Writing,
    fetch: Step,                 // download and the tool options, up to the hold flag
    holdReboot: bool,
    install: Step,
    saving: Writing,
    deviceReboot: bool,
    timer: Step,
    telemetry: Step,             // reporting that the reboot is on hold
    abort: Step,                 // reporting a listed exception, before the result is set to the failure
    clearing: Ending,            // removing the state file, in the `finally` clause
    finish: Ending)              // reporting the end, in the `finally` clause
  {
    function Running(): map<string, string> {
      map[BIOS_VERSION := version, RELEASE_DATE := date]
    }

    /** The state file when the `try` clause ends. */
    function Left(file: StateFile): StateFile {
      if Then(prepare, check) != Fine then file
      else
        var checked := WriteFile(file, Running(), recording);
        if Preparing(file) != Fine then checked
        else WriteFile(checked, map[REASON := if holdReboot then "pota" else "fota"], saving)
    }

    /** The state file in the end. */
    function After(file: StateFile): StateFile {
      if Message(file) != COMMAND_SUCCESS && clearing == Completes then Absent else Left(file)
    }

    /** The firmware is handed over, given the state file there was. */
    predicate Installs(file: StateFile) {
      prepare == Fine && check == Fine && !file.Damaged? && recording == Writes && fetch == Fine && install == Fine
    }

    /** How the steps before the log is touched end: the first failure, if there is one. */
    function Preparing(file: StateFile): Step {
      Then(prepare, Then(check, Then(WriteStep(file, recording), Then(fetch, install))))
    }

    /** The steps up to the assignment of the result, with a state file that can be read. */
    function Assigning(): Step {
      Then(WriteStep(Absent, saving), if !holdReboot && deviceReboot then timer else Fine)
    }

    /** How the steps after the firmware was handed over end. */
    function Concluding(): Step {
      Then(Assigning(), if holdReboot then telemetry else Fine)
    }

    /** How the whole `try` clause ends. */
    function Ends(file: StateFile): Step {
      Then(Preparing(file), Concluding())
    }

    /**
     * The result in the variable when the `finally` clause begins. An exception after the assignment of
     * success replaces it only if it is listed and reporting it completes.
     */
    function Message(file: StateFile): Result {
      var ends := Ends(file);
      if ends.Raises? && ends.listed && abort == Fine then INSTALL_FAILURE
      else if Then(Preparing(file), Assigning()) == Fine then COMMAND_SUCCESS
      else NO_RESULT
    }

    /** How the `finally` clause ends: the state file is removed unless the result is success. */
    function Leaving(file: StateFile): Ending {
      if Message(file) != COMMAND_SUCCESS && clearing != Completes then clearing else finish
    }

    /** Everything succeeds that the result depends on; reporting the hold need not, unless the failure is handled. */
    predicate Succeeds(file: StateFile) {
      Installs(file) && saving == Writes
      && (if holdReboot then telemetry == Raises(true) ==> abort != Fine else deviceReboot ==> timer == Fine)
    }
  }

  /** How one of the update attempts ends: with a result, or with an exception that `do_install` does or does not name. */
  datatype Attempted = Gives(result: Result) | Throws(handled: Option<Result>)

  /** A firmware update as the dispatcher attempts it. */
  datatype FotaAttempt = FotaAttempt(
    parse: Option<Option<Result>>,     // an exception of the parser
    preCheck: Option<Option<Result>>,  // an exception of the check before the installation
    lockFree: bool,
    construct: Ending,                 // setting up the firmware tool
    run: FotaRun,
    report: Option<Option<Result>>)    // an exception of reporting the lost lock or the FotaError
  {
    /** What its exceptions are turned into, if they are listed. */
    function Exceptions(): set<Option<Result>> {
      (if parse.Some? then {parse.value} else {}) + (if preCheck.Some? then {preCheck.value} else {})
      + (if report.Some? then {report.value} else {})
      + (if construct.RaisesOther? then {construct.handled} else {})
      + (if run.clearing.RaisesOther? then {run.clearing.handled} else {})
      + (if run.finish.RaisesOther? then {run.finish.handled} else {})
    }

    /** The installation is begun. */
    predicate Reached() {
      parse.None? && preCheck.None? && lockFree && construct == Completes
    }

    /** How the attempt ends, with the state file there was. */
    function Outcome(file: StateFile): Attempted {
      if parse.Some? then Throws(parse.value)
      else if preCheck.Some? then Throws(preCheck.value)
      else if !lockFree then Reported(OTA_FAILURE_IN_PROGRESS)
      else
        match if construct == Completes then run.Leaving(file) else construct
        case Completes => Gives(run.Message(file))
        case RaisesFotaError => Reported(OTA_FAILURE)
        case RaisesOther(handled) => Throws(handled)
    }

    function Reported(result: Result): Attempted {
      if report.Some? then Throws(report.value) else Gives(result)
    }
  }

  /** A software or application update, whose code is outside the model: how it ends and what it leaves. */
  datatype OtherRun = OtherRun(
    attempted: Attempted, ran: bool, state: StateFile, status: string, error: string, log: Option<string>)

  /** The calls in the `finally` clause of `do_install`: sending the result, and going back to online mode. */
  datatype Finally = Finally(sends: bool, restores: bool) {
    predicate Completes() {
      sends && restores
    }
  }

  /** A platform update: which parts it has, how their checks end, and the parts. */
  datatype PotaParts = PotaParts(
    fota: Option<FotaAttempt>, fotaCheck: Step, fotaRecording: Writing,
    sota: Option<OtherRun>, sotaCheck: bool,
    refused: Option<Result>)           // what `do_install` makes of a failed check
  {
    /** The firmware check gets as far as recording the running firmware. */
    predicate Records() {
      fota.Some? && fotaCheck == Fine
    }

    /** The state file after the checks. */
    function Validated(file: StateFile): StateFile {
      if Records() then WriteFile(file, fota.value.run.Running(), fotaRecording) else file
    }

    /** All checks pass. */
    predicate Validates(file: StateFile) {
      (fota.Some? ==> fotaCheck == Fine && WriteStep(file, fotaRecording) == Fine) && (sota.Some? ==> sotaCheck)
    }

    /** The software part is attempted. */
    predicate TriesSoftware(file: StateFile) {
      Validates(file) && sota.Some?
      && (fota.None?
          || var outcome := fota.value.Outcome(Validated(file));
             outcome.Gives? && outcome.result != INSTALL_FAILURE && outcome.result != OTA_FAILURE)
    }

    /** It is attempted and gets to run. */
    predicate RunsSoftware(file: StateFile) {
      TriesSoftware(file) && sota.value.ran
    }

    predicate FirmwareSucceeds(file: StateFile) {
      fota.Some? && fota.value.Outcome(Validated(file)) == Gives(COMMAND_SUCCESS)
    }

    /** The result in the end is success. */
    predicate Succeeds(file: StateFile) {
      && Validates(file)
      && if TriesSoftware(file) then
           (sota.value.attempted.Gives? && sota.value.attempted.result.status == CODE_OK)
           || (sota.value.attempted == Throws(None) && FirmwareSucceeds(file))
         else FirmwareSucceeds(file)
    }
  }

  /** What is done to the device, in order. */
  datatype Event = LogSaved(status: string) | StateWritten(reason: string) | RebootScheduled | Checked(ota: string) | Started(ota: string)

  const BIOS_VERSION := "bios_version"
  const RELEASE_DATE := "release_date"

  /** The firmware the platform reports after the reboot: its version, and its date as a moment in time. */
  datatype Firmware = Unknown | Known(version: string, date: int)

  /** What the dates are for Python: the recorded one has been made a text, the reported one has not. */
  datatype PyValue = Text(text: string) | Moment(date: int)

  datatype Verdict = Successful | Failed | Undecided

  /** The verdict on a firmware update. */
  function FirmwareVerdict(values: map<string, string>, firmware: Firmware): Verdict {
    if BIOS_VERSION !in values || RELEASE_DATE !in values || firmware.Unknown? then Undecided
    else if Moment(firmware.date) != Text(values[RELEASE_DATE]) && firmware.version != values[BIOS_VERSION] then Successful
    else Failed
  }

  /** The test of the dates never fails, so the version alone decides. */
  lemma VersionDecides(values: map<string, string>, firmware: Firmware)
    ensures FirmwareVerdict(values, firmware) == Successful <==>
      "bios_version" in values && "release_date" in values && firmware.Known? && firmware.version != values["bios_version"]
    ensures FirmwareVerdict(values, firmware) == Undecided <==>
      !("bios_version" in values && "release_date" in values && firmware.Known?)
  {
  }

  /** What the documentation promises: version and date both differ from the recorded ones. */
  predicate Replaced(values: map<string, string>, firmware: Firmware, dateText: int -> string)
    requires BIOS_VERSION in values && RELEASE_DATE in values && firmware.Known?
  {
    dateText(firmware.date) != values[RELEASE_DATE] && firmware.version != values[BIOS_VERSION]
  }

  /** The verdict keeps that promise except where the version changed and the date did not. */
  lemma UnchangedDateIsMissed(values: map<string, string>, firmware: Firmware, dateText: int -> string)
    requires BIOS_VERSION in values && RELEASE_DATE in values && firmware.Known?
    ensures (FirmwareVerdict(values, firmware) == Successful <==> Replaced(values, firmware, dateText))
       <==> !(firmware.version != values[BIOS_VERSION] && dateText(firmware.date) == values[RELEASE_DATE])
  {
    VersionDecides(values, firmware);
  }

  /** What the software update code does at boot: how it ends, and whether it has put FAIL in place of PENDING by then. */
  datatype SotaAction = SotaAction(ends: Step, settles: bool)

  datatype BootRun = BootRun(firmware: Firmware, diagnosed: bool, healthy: SotaAction, unhealthy: SotaAction) {
    /** How the check after a software update ends: a listed exception of the healthy branch leads to the other. */
    function Ends(): Step {
      if diagnosed && healthy.ends != Raises(true) then healthy.ends else unhealthy.ends
    }

    predicate TriesUnhealthy() {
      !diagnosed || healthy.ends == Raises(true)
    }

    /** It has put a verdict in place of PENDING by its end. */
    predicate Settles() {
      Ends() == Fine || (diagnosed && healthy.settles) || (TriesUnhealthy() && unhealthy.settles)
    }

    /** That verdict. */
    function Verdict(): string {
      if diagnosed && healthy == SotaAction(Fine, false) then OTA_SUCCESS else OTA_FAIL
    }
  }

  /**
   * What the check after a software update makes of a pending log. SUCCESS is written exactly when the
   * diagnosis passes and the code for a healthy system ends well without having written FAIL itself.
   * FAIL is written exactly when the code for the healthy system writes it, or the code for an unhealthy
   * one, which is tried if the diagnosis fails or that of the healthy system raises a listed exception,
   * writes it or ends well. Otherwise the log stays.
   */
  ghost predicate SoftwareSettled(log: Option<string>, log': Option<string>, boot: BootRun) {
    && (log' == Resolved(log, "SUCCESS") <==> boot.diagnosed && boot.healthy.ends == Fine && !boot.healthy.settles)
    && (log' == Resolved(log, "FAIL") <==>
          || (boot.diagnosed && boot.healthy.settles)
          || ((!boot.diagnosed || boot.healthy.ends == Raises(true)) && (boot.unhealthy.settles || boot.unhealthy.ends == Fine)))
    && (log' == log || log' == Resolved(log, "SUCCESS") || log' == Resolved(log, "FAIL"))
  }

  /** Which of these it is, since the three texts differ. */
  lemma SettledExactly(log: Option<string>, boot: BootRun)
    requires PendingFile(log)
    ensures SoftwareSettled(log, if boot.Settles() then Resolved(log, boot.Verdict()) else log, boot)
  {
    hide Replace, Contains;
    VerdictsDiffer(log.value);
  }

  predicate UpdatesFirmware(file: StateFile) {
    file.Pickled? && REASON in file.values && Mentions(file.values[REASON], "fota")
  }

  predicate UpdatesPlatform(file: StateFile) {
    file.Pickled? && REASON in file.values && Mentions(file.values[REASON], "pota")
  }

  /** The check at boot looks after a software update. */
  predicate ChecksSota(file: StateFile) {
    Resolvable(file) && !UpdatesFirmware(file)
  }

  /** The check at boot puts a verdict in place of PENDING. */
  predicate BootSettles(file: StateFile, boot: BootRun) {
    UpdatesFirmware(file) || UpdatesPlatform(file) || (Resolvable(file) && boot.Settles())
  }

  /** That verdict: FAIL whenever there is firmware to check. */
  function BootVerdict(file: StateFile, boot: BootRun): string {
    if UpdatesFirmware(file) || UpdatesPlatform(file) then OTA_FAIL else boot.Verdict()
  }

  /** How the check at boot ends. */
  function BootEnds(file: StateFile, boot: BootRun): Step {
    match file
    case Absent => Fine
    case Damaged(_) => Raises(true)
    case Pickled(values) =>
      if REASON !in values && MENDER !in values then Raises(true)
      else if ChecksSota(file) then boot.Ends()
      else Fine
  }

  /** What the reasons that are written make the boot look after. */
  lemma ReasonsWritten(others: map<string, string>)
    requires "restart_reason" !in others
    ensures UpdatesFirmware(Pickled(others["restart_reason" := "fota"]))
    ensures var file := Pickled(others["restart_reason" := "pota"]); UpdatesPlatform(file) && !UpdatesFirmware(file)
    ensures var file := Pickled(others["restart_reason" := "sota_update"]); ChecksSota(file) && !UpdatesPlatform(file)
    ensures var file := Pickled(others["restart_reason" := "restart_cmd"]); !Resolvable(file)
    ensures ChecksSota(Pickled(others)) <==> "mender-version" in others
    ensures !UpdatesPlatform(Pickled(others)) && !UpdatesFirmware(Pickled(others))
  {
    hide Mentions;
    Mentioned("", "fota", "");
    Mentioned("", "pota", "");
    Mentioned("", "restart", "_cmd");
    NoMention("pota", "fota");
    NoMention("sota_update", "fota");
    NoMention("sota_update", "restart");
    NoMention("restart_cmd", "fota");
    NoMention("restart_cmd", "pota");
    SotaUpdate();
    assert "" + "fota" + "" == "fota" && "" + "pota" + "" == "pota" && "" + "restart" + "_cmd" == "restart_cmd";
  }

  lemma Mentioned(before: string, word: string, after: string)
    ensures Mentions(before + word + after, word)
  {
    assert MatchesAt(before + word + after, word, |before|);
  }

  lemma SotaUpdate()
    ensures !Mentions("sota_update", "pota")
  {
    var s := "sota_update";
    assert forall i | 0 <= i < 10 :: !(s[i] == 'p' && s[i + 1] == 'o');
    MentionsPair(s, "pota");
  }

  lemma MentionsPair(s: string, word: string)
    requires |word| > 1
    ensures Mentions(s, word) ==> exists i :: 0 <= i < |s| - 1 && s[i] == word[0] && s[i + 1] == word[1]
  {
    var k := Find(s, word);
    if k != -1 {
      assert s[k..k + |word|][0] == s[k] && s[k..k + |word|][1] == s[k + 1];
    }
  }

  lemma NoMention(s: string, word: string)
    requires word != ""
    ensures Mentions(s, word) ==> word[0] in s
  {
    var k := Find(s, word);
    if k != -1 {
      assert s[k..k + |word|][0] == s[k];
    }
  }

  lemma SotaReason()
    ensures !Mentions("sota", "fota") && !Mentions("sota", "pota") && !Mentions("sota", "restart")
  {
    assert "sota"[0..4] == "sota" && "sota"[0] != "fota"[0] && "sota"[0] != "pota"[0];
  }

  const UPDATES: set<string> := {"sota", "fota", "pota"}

  const INSTALL_PREFIX := "Error during install: "
  const PARSE_PREFIX := "Error parsing/validating manifest: "

  /** `str(result)` */
  function ErrorText(r: Result): string {
    ResultText(r.status, r.message)
  }

  /** The text of the exception a result was made of. */
  function ExceptionText(r: Result): string {
    if INSTALL_PREFIX <= r.message then r.message[|INSTALL_PREFIX|..]
    else if PARSE_PREFIX <= r.message then r.message[|PARSE_PREFIX|..]
    else r.message
  }

  /** The texts that the handlers put before an exception's text are not in the log. */
  lemma PrefixesDropped(status: int, text: string)
    ensures ExceptionText(Result(status, "Error during install: " + text)) == text
    ensures ExceptionText(Result(status, "Error parsing/validating manifest: " + text)) == text
    ensures !("Error during install: " <= text) && !("Error parsing/validating manifest: " <= text) ==>
      ExceptionText(Result(status, text)) == text
  {
    assert INSTALL_PREFIX[6] == 'd' && PARSE_PREFIX[6] == 'p';
    assert ("Error parsing/validating manifest: " + text)[6] == 'p';
    assert (INSTALL_PREFIX + text)[|INSTALL_PREFIX|..] == text && (PARSE_PREFIX + text)[|PARSE_PREFIX|..] == text;
  }

  /** A text without the word PENDING */
  ghost predicate Tame(text: string) {
    !Contains(text, OTA_PENDING)
  }

  ghost predicate TameResult(r: Option<Result>) {
    r.Some? ==> Tame(r.value.message)
  }

  ghost predicate TameAttempted(a: Attempted) {
    match a
    case Gives(r) => Tame(r.message)
    case Throws(handled) => TameResult(handled)
  }

  ghost predicate TameFota(attempt: FotaAttempt) {
    forall handled <- attempt.Exceptions() :: TameResult(handled)
  }

  ghost predicate TameRun(run: OtherRun) {
    TameAttempted(run.attempted) && (run.ran ==> Tame(run.error))
  }

  /** None of the messages that occur while the manifest is carried out says PENDING. */
  ghost predicate TameManifest(m: Manifest) {
    match m
    case Unparsable(error) => TameResult(error)
    case Refused(error) => TameResult(error)
    case Plain(_, ends, _) => TameAttempted(ends)
    case Fota(attempt) => TameFota(attempt)
    case Pota(parts) =>
      && (parts.fota.Some? ==> TameFota(parts.fota.value))
      && (parts.sota.Some? ==> TameRun(parts.sota.value))
      && TameResult(parts.refused)
    case Other(ota, run) => Tame(ota) && TameRun(run)
  }

  lemma WithoutLetter(text: string)
    ensures Tame(text) || ('P' in text && 'D' in text)
  {
    forall k | MatchesAt(text, OTA_PENDING, k)
      ensures 'P' in text && 'D' in text
    {
      var match' := text[k..k + |OTA_PENDING|];
      assert match' == OTA_PENDING && match'[0] == text[k] && match'[3] == text[k + 3];
      assert OTA_PENDING[0] == 'P' && OTA_PENDING[3] == 'D';
    }
  }

  lemma TameText(text: string)
    requires 'P' !in text || 'D' !in text
    ensures Tame(text)
  {
    hide Tame;
    WithoutLetter(text);
  }

  lemma FixedTypes()
    ensures Tame("") && Tame("fota") && Tame("sota") && Tame("pota")
  {
    hide Tame;
    TameText("");
    TameText("fota");
    TameText("sota");
    TameText("pota");
  }

  lemma FixedMessages()
    ensures Tame("COMMAND SUCCESSFUL") && Tame("FAILED TO INSTALL") && Tame("OTA FAILURE")
  {
    hide Tame;
    TameText("COMMAND SUCCESSFUL");
    TameText("FAILED TO INSTALL");
    TameText("OTA FAILURE");
  }

  lemma InProgressTame()
    ensures Tame("ANOTHER OTA IN PROGRESS, TRY LATER")
  {
    hide Tame;
    TameText("ANOTHER OTA IN PROGRESS, TRY LATER");
  }

  lemma SavingTame()
    ensures Tame(SAVING_MESSAGE)
  {
    hide Tame;
    TameText(SAVING_MESSAGE);
  }

  lemma FixedTexts()
    ensures Tame("") && Tame("fota") && Tame("sota") && Tame("pota") && Tame(SAVING_FAILED.message)
    ensures Tame(COMMAND_SUCCESS.message) && Tame(INSTALL_FAILURE.message) && Tame(NO_RESULT.message)
    ensures Tame(OTA_FAILURE.message) && Tame(OTA_FAILURE_IN_PROGRESS.message)
  {
    hide Tame;
    FixedTypes();
    FixedMessages();
    InProgressTame();
    SavingTame();
  }

  lemma StatusesKnown()
    ensures KnownStatus("") && KnownStatus(OTA_FAIL) && KnownStatus(OTA_SUCCESS) && KnownStatus(OTA_PENDING)
  {
  }

  lemma KnownPending(status: string)
    requires KnownStatus(status)
    ensures Pending(status) <==> status == OTA_PENDING
  {
    assert OTA_PENDING[0] == 'P';
    ContainedFirst(status, OTA_PENDING);
    assert MatchesAt(OTA_PENDING, OTA_PENDING, 0);
  }

  lemma TextsTame(r: Result)
    requires Tame(r.message)
    ensures Tame(ErrorText(r)) && Tame(ExceptionText(r))
  {
    ResultTextContains(r.status, r.message, OTA_PENDING);
    var text := ExceptionText(r);
    var n := |r.message| - |text|;
    assert r.message[n..] == text;
    forall k | MatchesAt(text, OTA_PENDING, k)
      ensures MatchesAt(r.message, OTA_PENDING, k + n)
    {
      assert r.message[k + n..k + n + 7] == text[k..k + 7];
    }
  }

  /** What decides whether a pending verdict can still be settled: the status to be saved, the saved log, the state file. */
  datatype Standing = Standing(status: string, pending: bool, state: StateFile)

  ghost function FotaStanding(attempt: FotaAttempt, s: Standing): Standing {
    if !attempt.Reached() then s
    else
      var installs := attempt.run.Installs(s.state);
      Standing(if installs then OTA_PENDING else s.status, installs || s.pending, attempt.run.After(s.state))
  }

  ghost function OtherStanding(run: OtherRun, s: Standing): Standing {
    if run.ran then Standing(run.status, PendingFile(run.log), run.state) else s
  }

  ghost function PotaStanding(parts: PotaParts, s: Standing): Standing {
    var validated := s.(state := parts.Validated(s.state));
    if !parts.Validates(s.state) then validated
    else
      var installed := if parts.fota.Some? then FotaStanding(parts.fota.value, validated) else validated;
      if parts.TriesSoftware(s.state) then OtherStanding(parts.sota.value, installed) else installed
  }

  const RESTART_REASON: map<string, string> := map[REASON := "restart_cmd"]

  /** The standing after the attempt a manifest asks for, before the log is saved. */
  ghost function StandingAfter(m: Manifest, s: Standing): Standing {
    match m
    case Unparsable(_) => s
    case Refused(_) => s
    case Plain(restarts, ends, writing) =>
      if restarts && ends.Gives? then s.(state := WriteFile(s.state, RESTART_REASON, writing)) else s
    case Fota(attempt) => FotaStanding(attempt, s)
    case Pota(parts) => PotaStanding(parts, s)
    case Other(_, run) => OtherStanding(run, s)
  }

  /** The result of the request has code 200. */
  predicate Succeeds(m: Manifest, file: StateFile) {
    match m
    case Unparsable(_) => false
    case Refused(_) => false
    case Plain(restarts, ends, writing) =>
      ends.Gives? && ends.result.status == CODE_OK && (restarts ==> WriteStep(file, writing) == Fine)
    case Fota(attempt) => attempt.Outcome(file) == Gives(COMMAND_SUCCESS)
    case Pota(parts) => parts.Succeeds(file)
    case Other(_, run) => run.attempted.Gives? && run.attempted.result.status == CODE_OK
  }

  /** The update type that is recorded for the log. */
  function TypeAfter(m: Manifest, otaType: string): string {
    match m
    case Fota(_) => "fota"
    case Pota(_) => "pota"
    case Other(ota, _) => ota
    case _ => otaType
  }

  lemma TypeExactly(m: Manifest, otaType: string)
    ensures TypeAfter(m, otaType) == if m.Fota? then "fota" else if m.Pota? then "pota" else if m.Other? then m.ota else otaType
  {
  }

  /** What a successful installation leaves in the state file for the next boot. */
  lemma SuccessRecords(run: FotaRun, file: StateFile)
    requires run.Succeeds(file)
    ensures run.After(file).Pickled?
    ensures
      var values := run.After(file).values;
      && "bios_version" in values && values["bios_version"] == run.version
      && "release_date" in values && values["release_date"] == run.date
      && "restart_reason" in values && values["restart_reason"] == (if run.holdReboot then "pota" else "fota")
    ensures UpdatesFirmware(run.After(file)) || UpdatesPlatform(run.After(file))
  {
    hide Mentions;
    MessageExactly(run, file);
    DistinctKeys();
    Mentioned("", "fota", "");
    Mentioned("", "pota", "");
    assert "" + "fota" + "" == "fota" && "" + "pota" + "" == "pota";
  }

  lemma DistinctKeys()
    ensures "restart_reason" != "bios_version" && "restart_reason" != "release_date" && "bios_version" != "release_date"
  {
    assert "restart_reason"[0] == 'r' && "bios_version"[0] == 'b' && "release_date"[0] == 'r';
    assert "restart_reason"[2] == 's' && "release_date"[2] == 'l';
  }

  /** When a firmware attempt ends with which result. */
  lemma OutcomeExactly(attempt: FotaAttempt, file: StateFile)
    ensures
      var r := attempt.Outcome(file);
      && (r.Gives? ==> r.result in {COMMAND_SUCCESS, INSTALL_FAILURE, NO_RESULT, OTA_FAILURE, OTA_FAILURE_IN_PROGRESS})
      && (r == Gives(COMMAND_SUCCESS) <==> attempt.Reached() && attempt.run.Succeeds(file) && attempt.run.finish == Completes)
      && (r == Gives(OTA_FAILURE_IN_PROGRESS) <==>
            attempt.parse.None? && attempt.preCheck.None? && !attempt.lockFree && attempt.report.None?)
      && (r == Gives(OTA_FAILURE) <==>
            attempt.parse.None? && attempt.preCheck.None? && attempt.lockFree && attempt.report.None?
            && (if attempt.construct == Completes then attempt.run.Leaving(file) else attempt.construct) == RaisesFotaError)
      && (r == Gives(INSTALL_FAILURE) || r == Gives(NO_RESULT) ==> attempt.Reached() && r.result == attempt.run.Message(file))
      && (r.Throws? ==> r.handled in attempt.Exceptions())
      && (FotaErrors(attempt) ==> Errors(r))
  {
    MessageExactly(attempt.run, file);
  }

  lemma OutcomeFacts(attempt: FotaAttempt, file: StateFile)
    ensures
      var r := attempt.Outcome(file);
      && (TameFota(attempt) ==> TameAttempted(r))
      && (FotaErrors(attempt) ==> Errors(r))
      && (r.Gives? && r.result.status == CODE_OK <==> r == Gives(COMMAND_SUCCESS))
  {
    hide FotaAttempt.Outcome, Tame;
    OutcomeExactly(attempt, file);
    FixedTexts();
  }

  lemma MessageExactly(run: FotaRun, file: StateFile)
    ensures run.Message(file) == COMMAND_SUCCESS <==> run.Succeeds(file)
    ensures run.Message(file) in {COMMAND_SUCCESS, INSTALL_FAILURE, NO_RESULT}
  {
  }

  /** The steps of an installation in their order, as far as they can raise before the end is reported. */
  function Steps(run: FotaRun, file: StateFile): seq<Step> {
    [run.prepare, run.check, if file.Damaged? then Raises(file.listed) else if run.recording == Writes then Fine else Raises(run.recording.listed),
     run.fetch, run.install, if run.saving == Writes then Fine else Raises(run.saving.listed),
     if run.holdReboot then run.telemetry else if run.deviceReboot then run.timer else Fine]
  }

  /**
   * The result by the first step that raises: a listed exception gives the failure, if reporting it
   * completes. Otherwise success stands when everything but the report of the hold is done, and no
   * result when it is not.
   */
  lemma MessageBySteps(run: FotaRun, file: StateFile)
    ensures
      var steps := Steps(run, file);
      && (run.Message(file) == INSTALL_FAILURE <==>
            run.abort == Fine && exists k | 0 <= k < 7 :: steps[k] == Raises(true) && forall j | 0 <= j < k :: steps[j] == Fine)
      && (run.Message(file) == COMMAND_SUCCESS <==>
            && (forall j | 0 <= j < 6 :: steps[j] == Fine)
            && (if run.holdReboot then steps[6] == Raises(true) ==> run.abort != Fine else steps[6] == Fine))
  {
    var steps := Steps(run, file);
    StepsEnd(run, file);
    FirstRaised(steps, 0);
    assert run.Ends(file) == Fine ==> forall j | 0 <= j < 7 :: steps[j] == Fine;
    assert run.Preparing(file) == Fine <==>
      steps[0] == Fine && steps[1] == Fine && steps[2] == Fine && steps[3] == Fine && steps[4] == Fine;
    assert run.Assigning() == Fine <==> steps[5] == Fine && (!run.holdReboot ==> steps[6] == Fine);
    assert (forall j | 0 <= j < 6 :: steps[j] == Fine) <==>
      steps[0] == Fine && steps[1] == Fine && steps[2] == Fine && steps[3] == Fine && steps[4] == Fine && steps[5] == Fine;
    assert Then(run.Preparing(file), run.Assigning()) == Fine <==>
      (forall j | 0 <= j < 6 :: steps[j] == Fine) && (!run.holdReboot ==> steps[6] == Fine);
  }

  lemma StepsEnd(run: FotaRun, file: StateFile)
    ensures Raised(Steps(run, file), 0) == run.Ends(file)
  {
    var steps := Steps(run, file);
    assert Raised(steps, 7) == Fine;
    assert Raised(steps, 6) == steps[6];
    assert Raised(steps, 5) == Then(steps[5], steps[6]) == run.Concluding();
    assert Raised(steps, 4) == Then(steps[4], run.Concluding());
    assert Raised(steps, 3) == Then(steps[3], Raised(steps, 4));
    assert Raised(steps, 2) == Then(steps[2], Raised(steps, 3));
    assert Raised(steps, 1) == Then(steps[1], Raised(steps, 2));
    assert Raised(steps, 0) == Then(steps[0], Raised(steps, 1));
  }

  function Raised(steps: seq<Step>, k: nat): Step
    requires k <= |steps|
    decreases |steps| - k
  {
    if k == |steps| then Fine else Then(steps[k], Raised(steps, k + 1))
  }

  lemma {:induction false} FirstRaised(steps: seq<Step>, k: nat)
    requires k <= |steps|
    ensures Raised(steps, k) == Raises(true) <==>
      exists i | k <= i < |steps| :: steps[i] == Raises(true) && forall j | k <= j < i :: steps[j] == Fine
    ensures Raised(steps, k) == Fine <==> forall j | k <= j < |steps| :: steps[j] == Fine
    decreases |steps| - k
  {
    if k < |steps| {
      FirstRaised(steps, k + 1);
    }
  }

  lemma RestartRecorded(file: StateFile)
    requires file.Pickled? && REASON in file.values && file.values[REASON] == "restart_cmd"
    ensures Recorded(file, "restart_cmd")
  {
  }

  /** A saved record with the status PENDING says so. */
  lemma SavedPending(r: Record)
    requires r.status == OTA_PENDING
    ensures Pending(RenderLog(r))
  {
    hide RenderLog;
    RenderLogPending(r);
    KnownPending(OTA_PENDING);
  }

  class Device {
    const logger: UpdateLogger
    const states: StateStore
    /** everything of note, oldest first */
    ghost var events: seq<Event>

    constructor (logger: UpdateLogger, states: StateStore)
      ensures this.logger == logger && this.states == states && events == []
    {
      this.logger, this.states, events := logger, states, [];
    }

    ghost function Stands(): Standing
      reads this, logger, states
    {
      Standing(logger.status, PendingFile(logger.file), states.file)
    }

    /** The steps before the log is touched; the flag is read just before the installer runs. */
    method FotaPrepare(run: FotaRun) returns (r: Step, holdReboot: bool)
      modifies states
      ensures r == run.Preparing(old(states.file))
      ensures r == Fine <==> run.Installs(old(states.file))
      ensures r == Fine ==> holdReboot == run.holdReboot && !states.file.Damaged?
      ensures states.file ==
        if Then(run.prepare, run.check) != Fine then old(states.file) else WriteFile(old(states.file), run.Running(), run.recording)
    {
      holdReboot := false;
      if run.prepare != Fine {
        return run.prepare, false;
      }
      if run.check != Fine {
        return run.check, false;
      }
      r := states.Write(run.Running(), run.recording);
      if r != Fine {
        return;
      }
      if run.fetch != Fine {
        return run.fetch, false;
      }
      holdReboot := run.holdReboot;
      r := run.install;
    }

    /** The steps after the firmware was handed over: log, state file, reboot; and whether the result was assigned. */
    method FotaConclude(run: FotaRun, holdReboot: bool) returns (r: Step, decided: bool)
      requires holdReboot == run.holdReboot && !states.file.Damaged?
      modifies this, logger`status, logger`error, logger`file, states
      ensures logger.status == OTA_PENDING && logger.error == "" && logger.file == Some(RenderLog(logger.Now()))
      ensures r == run.Concluding() && (decided <==> run.Assigning() == Fine)
      ensures decided ==> Recorded(states.file, if holdReboot then "pota" else "fota")
      ensures states.file == WriteFile(old(states.file), map[REASON := if holdReboot then "pota" else "fota"], run.saving)
      ensures decided ==>
        events == old(events) + [LogSaved(OTA_PENDING), StateWritten(if holdReboot then "pota" else "fota")]
                  + (if !holdReboot && run.deviceReboot then [RebootScheduled] else [])
      ensures !decided ==>
        events == old(events) + [LogSaved(OTA_PENDING)]
        || events == old(events) + [LogSaved(OTA_PENDING), StateWritten(if holdReboot then "pota" else "fota")]
    {
      hide RenderLog;
      decided := false;
      logger.status := OTA_PENDING;
      logger.error := "";
      logger.SaveLog(Written);
      events := events + [LogSaved(OTA_PENDING)];
      if !holdReboot {
        r := states.Write(map[REASON := "fota"], run.saving);
        if r != Fine {
          return;
        }
        events := events + [StateWritten("fota")];
        if run.deviceReboot {
          if run.timer != Fine {
            return run.timer, false;
          }
          events := events + [RebootScheduled];
        }
        decided := true;
      } else {
        r := states.Write(map[REASON := "pota"], run.saving);
        if r != Fine {
          return;
        }
        events := events + [StateWritten("pota")];
        decided := true;
        r := run.telemetry;
      }
    }

    /**
     * A firmware installation. Its result is success exactly when it leaves a state file that tells the
     * next boot to check the firmware; otherwise the file is removed, unless removing it raises. A reboot is scheduled
     * only without the hold flag, and only after both the pending log and the state file are written.
     * A listed exception gives the failure if reporting it completes; any other leaves the result as it was:
     * none before the assignment of success, success after it.
     */
    method FotaInstall(run: FotaRun) returns (ending: Ending, result: Result)
      modifies this, logger`status, logger`error, logger`file, states
      ensures result == run.Message(old(states.file)) && ending == run.Leaving(old(states.file))
      ensures result == COMMAND_SUCCESS || result == INSTALL_FAILURE || result == NO_RESULT
      ensures ending == run.finish || (ending == run.clearing && result != COMMAND_SUCCESS)
      ensures result == COMMAND_SUCCESS <==> run.Succeeds(old(states.file))
      ensures result == COMMAND_SUCCESS ==>
        && Recorded(states.file, if run.holdReboot then "pota" else "fota")
        && logger.status == OTA_PENDING && logger.file == Some(RenderLog(logger.Now()))
        && events == old(events) + [LogSaved(OTA_PENDING), StateWritten(if run.holdReboot then "pota" else "fota")]
                     + (if !run.holdReboot && run.deviceReboot then [RebootScheduled] else [])
      ensures logger.status == OTA_PENDING || logger.status == old(logger.status)
      ensures logger.error == "" || logger.error == old(logger.error)
      ensures run.Installs(old(states.file)) ==>
        logger.status == OTA_PENDING && logger.error == "" && logger.file == Some(RenderLog(logger.Now()))
      ensures !run.Installs(old(states.file)) ==> logger.status == old(logger.status) && logger.file == old(logger.file)
      ensures states.file == run.After(old(states.file))
      ensures result != COMMAND_SUCCESS && run.clearing == Completes ==> states.file == Absent
      ensures old(events) <= events
      ensures forall e <- events[|old(events)|..] :: !e.Checked? && !e.Started? && (result != COMMAND_SUCCESS ==> e != RebootScheduled)
    {
      hide RenderLog, FotaRun.Installs, Merged;
      result := NO_RESULT;
      var r, holdReboot := FotaPrepare(run);
      if r == Fine {
        var decided;
        r, decided := FotaConclude(run, holdReboot);
        if decided {
          result := COMMAND_SUCCESS;
        }
      }
      if r.Raises? && r.listed && run.abort == Fine {
        result := INSTALL_FAILURE;
      }
      if result != COMMAND_SUCCESS {
        if run.clearing != Completes {
          return run.clearing, result;
        }
        states.Clear();
      }
      return run.finish, result;
    }

    /** FotaThread: the try-lock decides whether the tool runs at all. */
    method FotaStart(attempt: FotaAttempt) returns (r: Attempted)
      modifies this, logger`status, logger`error, logger`file, states
      ensures old(events) <= events
      ensures forall e <- events[|old(events)|..] :: !e.Checked? && e != Started("sota")
      ensures if attempt.Reached() then old(events) + [Started("fota")] <= events else events == old(events)
      ensures logger.status == OTA_PENDING || logger.status == old(logger.status)
      ensures logger.error == "" || logger.error == old(logger.error)
      ensures attempt.Reached() && attempt.run.Installs(old(states.file)) ==>
        logger.file == Some(RenderLog(logger.Now())) && logger.error == ""
      ensures r == attempt.Outcome(old(states.file))
      ensures Stands() == FotaStanding(attempt, old(Stands()))
    {
      hide RenderLog, Pending, FotaRun.After, FotaRun.Installs, FotaRun.Succeeds, FotaRun.Message, FotaRun.Leaving, Recorded;
      if attempt.parse.Some? {
        return Throws(attempt.parse.value);
      }
      if attempt.preCheck.Some? {
        return Throws(attempt.preCheck.value);
      }
      var ending, result := Completes, OTA_FAILURE_IN_PROGRESS;
      if attempt.lockFree {
        ending := attempt.construct;
        if ending == Completes {
          events := events + [Started("fota")];
          ghost var started := events;
          ending, result := FotaInstall(attempt.run);
          if logger.status == OTA_PENDING {
            SavedPending(logger.Now());
          }
          assert events == started + events[|started|..];
        }
        if ending.RaisesOther? {
          return Throws(ending.handled);
        }
        if ending == Completes {
          return Gives(result);
        }
        result := OTA_FAILURE;
      }
      if attempt.report.Some? {
        return Throws(attempt.report.value);
      }
      return Gives(result);
    }

    /** A software or application update: whatever it does to the device. */
    method OtherStart(ota: string, run: OtherRun) returns (r: Attempted)
      modifies this, logger`status, logger`error, logger`file, states
      ensures r == run.attempted
      ensures events == old(events) + (if run.ran then [Started(ota)] else [])
      ensures run.ran ==>
        states.file == run.state && logger.status == run.status && logger.error == run.error && logger.file == run.log
      ensures !run.ran ==>
        states.file == old(states.file) && logger.status == old(logger.status)
        && logger.error == old(logger.error) && logger.file == old(logger.file)
      ensures Stands() == OtherStanding(run, old(Stands()))
    {
      if run.ran {
        events := events + [Started(ota)];
        states.file := run.state;
        logger.status, logger.error := run.status, run.error;
        logger.file := run.log;
      }
      return run.attempted;
    }

    /** The checks of all parts of a platform update; the firmware check records the running firmware. */
    method ValidatePotaManifest(parts: PotaParts) returns (ok: bool)
      modifies this, states
      ensures old(events) <= events && forall e <- events[|old(events)|..] :: e.Checked?
      ensures ok ==>
        events[|old(events)|..] ==
        (if parts.fota.Some? then [Checked("fota")] else []) + (if parts.sota.Some? then [Checked("sota")] else [])
      ensures ok == parts.Validates(old(states.file)) && states.file == parts.Validated(old(states.file))
    {
      if parts.fota.Some? {
        if parts.fotaCheck != Fine {
          return false;
        }
        var r := states.Write(parts.fota.value.run.Running(), parts.fotaRecording);
        if r != Fine {
          return false;
        }
        events := events + [Checked("fota")];
      }
      if parts.sota.Some? {
        if !parts.sotaCheck {
          return false;
        }
        events := events + [Checked("sota")];
      }
      return true;
    }

    /**
     * A platform update. Every part is checked before any part starts; firmware comes before
     * software; software is attempted exactly when there is no firmware part or the firmware attempt
     * ended with a result other than the two failures. The result assigned before stays when the
     * software attempt throws.
     */
    method Pota(parts: PotaParts)
      returns (last: Result, thrown: Option<Option<Result>>,
               ghost checks: seq<Event>, ghost firmware: seq<Event>, ghost fota: Attempted, ghost softwareTried: bool)
      modifies this, logger`status, logger`error, logger`file, states
      ensures softwareTried ==> parts.sota.Some?
      ensures events == old(events) + checks + firmware
                        + (if softwareTried && parts.sota.value.ran then [Started("sota")] else [])
      ensures forall e <- checks :: e.Checked?
      ensures forall e <- firmware :: !e.Checked? && e != Started("sota")
      ensures firmware != [] ==> parts.fota.Some?
      ensures firmware != [] || softwareTried ==>
        checks == (if parts.fota.Some? then [Checked("fota")] else []) + (if parts.sota.Some? then [Checked("sota")] else [])
      ensures Faithful(Manifest.Pota(parts)) && thrown.Some? ==> ListedError(thrown.value)
      ensures Faithful(Manifest.Pota(parts)) && KnownStatus(old(logger.status)) ==> KnownStatus(logger.status)
      ensures TameManifest(Manifest.Pota(parts)) ==> Tame(last.message) && (thrown.Some? ==> TameResult(thrown.value))
      ensures TameManifest(Manifest.Pota(parts)) && Tame(old(logger.error)) ==> Tame(logger.error)
      ensures softwareTried ==> (thrown.None? ==> parts.sota.value.attempted == Gives(last))
      ensures softwareTried && parts.sota.value.attempted.Throws? ==> thrown == Some(parts.sota.value.attempted.handled)
      ensures softwareTried && thrown.Some? && parts.fota.Some? ==> fota == Gives(last)
      ensures !softwareTried && parts.sota.Some? && thrown.None? ==> last == INSTALL_FAILURE || last == OTA_FAILURE
      ensures softwareTried == parts.TriesSoftware(old(states.file))
      ensures Stands() == PotaStanding(parts, old(Stands()))
      ensures Faithful(Manifest.Pota(parts)) ==>
        (last.status == CODE_OK && (thrown.None? || thrown.value.None?) <==> parts.Succeeds(old(states.file)))
      ensures parts.fota.Some? && softwareTried ==> fota.Gives? && fota.result != INSTALL_FAILURE && fota.result != OTA_FAILURE
      ensures parts.fota.Some? && fota.Gives? && fota.result != INSTALL_FAILURE && fota.result != OTA_FAILURE && parts.sota.Some?
              ==> softwareTried
    {
      checks, firmware, fota, softwareTried := [], [], Throws(None), false;
      last, thrown := NO_RESULT, None;
      hide RenderLog, Resolvable, Tame, FotaErrors, FotaRun.Installs, FotaRun.Succeeds, FotaRun.Message, FotaRun.Leaving,
        FotaStanding, OtherStanding, FotaAttempt.Outcome, PotaParts.Validated, PotaParts.Validates, PendingFile, TameFota;
      FixedTexts();
      var ok := ValidatePotaManifest(parts);
      checks := events[|old(events)|..];
      ghost var checked := events;
      if !ok {
        thrown := Some(parts.refused);
        return;
      }
      if parts.fota.Some? {
        OutcomeFacts(parts.fota.value, states.file);
        var result := FotaStart(parts.fota.value);
        fota, firmware := result, events[|checked|..];
        if result.Throws? {
          thrown := Some(result.handled);
          return;
        }
        last := result.result;
        if last == INSTALL_FAILURE || last == OTA_FAILURE {
          return;
        }
      }
      if parts.sota.Some? {
        var result := OtherStart("sota", parts.sota.value);
        softwareTried := true;
        if result.Throws? {
          thrown := Some(result.handled);
        } else {
          last := result.result;
        }
      }
    }

    /** A command: a restart that was begun is recorded in the state file. */
    method Command(restarts: bool, ends: Attempted, writing: Writing) returns (last: Result, thrown: Option<Option<Result>>)
      modifies states
      ensures ends.Throws? ==> last == NO_RESULT && thrown == Some(ends.handled)
      ensures ends.Gives? && !restarts ==> last == ends.result && thrown.None?
      ensures ends.Gives? && restarts ==>
        if WriteStep(old(states.file), writing) == Fine then last == ends.result && thrown.None?
        else last == NO_RESULT && (thrown == Some(Some(SAVING_FAILED)) || thrown == Some(None))
      ensures states.file == if restarts && ends.Gives? then WriteFile(old(states.file), RESTART_REASON, writing) else old(states.file)
    {
      last, thrown := NO_RESULT, None;
      if ends.Throws? {
        thrown := Some(ends.handled);
        return;
      }
      if restarts {
        var r := states.Write(RESTART_REASON, writing);
        if r != Fine {
          thrown := Some(if r.listed then Some(SAVING_FAILED) else None);
          return;
        }
      }
      last := ends.result;
    }

    /** The attempt a manifest asks for: the result assigned, and the exception, if any. */
    method Attempt(m: Manifest, metadata: string, now: ClockText) returns (last: Result, thrown: Option<Option<Result>>)
      modifies this, logger`status, logger`error, logger`file, logger`otaType, logger`time, logger`metadata, states
      ensures old(events) <= events
      ensures m.Unparsable? || m.Refused? ==>
        last == NO_RESULT && thrown == Some(m.error) && events == old(events) && logger.error == old(logger.error)
      ensures m.Plain? || m.Unparsable? || m.Refused? ==> logger.file == old(logger.file) && logger.status == old(logger.status)
      ensures m.Plain? && (m.restarts ==> WriteStep(old(states.file), m.writing) == Fine || m.ends.Throws?) ==>
        if m.ends.Throws? then last == NO_RESULT && thrown == Some(m.ends.handled) else last == m.ends.result && thrown.None?
      ensures m.Other? ==>
        if m.run.attempted.Throws? then last == NO_RESULT && thrown == Some(m.run.attempted.handled)
        else last == m.run.attempted.result && thrown.None?
      ensures m.Fota? ==>
        var outcome := m.attempt.Outcome(old(states.file));
        if outcome.Throws? then last == NO_RESULT && thrown == Some(outcome.handled) else last == outcome.result && thrown.None?
      ensures Stands() == StandingAfter(m, old(Stands()))
      ensures logger.otaType == TypeAfter(m, old(logger.otaType))
      ensures Faithful(m) && thrown.Some? ==> ListedError(thrown.value)
      ensures Faithful(m) ==> (last.status == CODE_OK && (thrown.None? || thrown.value.None?) <==> Succeeds(m, old(states.file)))
      ensures Faithful(m) && KnownStatus(old(logger.status)) ==> KnownStatus(logger.status)
      ensures TameManifest(m) ==> Tame(last.message) && (thrown.Some? ==> TameResult(thrown.value))
      ensures TameManifest(m) && Tame(old(logger.error)) ==> Tame(logger.error)
      ensures TameManifest(m) && Tame(old(logger.otaType)) ==> Tame(logger.otaType)
      ensures
        if m.Fota? || m.Pota? || m.Other? then logger.metadata == metadata && logger.time == now
        else logger.metadata == old(logger.metadata) && logger.time == old(logger.time)
      ensures m.Fota? && m.attempt.Reached() && m.attempt.run.Installs(old(states.file)) ==> logger.error == ""
    {
      hide RenderLog, Resolvable, Tame, FotaErrors, Recorded, FotaRun.Installs, FotaRun.Succeeds, FotaRun.Message,
        FotaRun.Leaving, FotaStanding, OtherStanding, PotaStanding, FotaAttempt.Outcome, PotaParts.Succeeds, PendingFile, TameFota;
      FixedTexts();
      last, thrown := NO_RESULT, None;
      match m {
        case Unparsable(error) =>
          thrown := Some(error);
        case Refused(error) =>
          thrown := Some(error);
        case Plain(restarts, ends, writing) =>
          last, thrown := Command(restarts, ends, writing);
        case Fota(attempt) =>
          logger.otaType, logger.time, logger.metadata := "fota", now, metadata;
          OutcomeFacts(attempt, states.file);
          var r := FotaStart(attempt);
          if r.Throws? {
            thrown := Some(r.handled);
          } else {
            last := r.result;
          }
        case Pota(parts) =>
          logger.otaType, logger.time, logger.metadata := "pota", now, metadata;
          ghost var a, b, c, d;
          last, thrown, a, b, c, d := Pota(parts);
        case Other(ota, run) =>
          logger.otaType, logger.time, logger.metadata := ota, now, metadata;
          var r := OtherStart(ota, run);
          if r.Throws? {
            thrown := Some(r.handled);
          } else {
            last := r.result;
          }
      }
    }

    /**
     * The exception handlers and the `finally` clause of `do_install`: the result, the status, the saved
     * log. An exception in the `finally` clause leaves without saving the log.
     */
    method Conclude(m: Manifest, last: Result, thrown: Option<Option<Result>>, finish: Finally) returns (result: Result, returned: bool)
      requires thrown.Some? ==> ListedError(thrown.value)
      modifies this, logger`status, logger`error, logger`file
      ensures result == if thrown.Some? then thrown.value.GetOr(last) else last
      ensures returned <==> finish.sends && (result.status != CODE_OK && !m.Unparsable? ==> finish.restores)
      ensures returned ==> logger.file == Some(RenderLog(logger.Now())) && events == old(events) + [LogSaved(logger.status)]
      ensures !returned ==> logger.file == old(logger.file) && events == old(events)
      ensures result.status != CODE_OK && finish.sends && !m.Unparsable? ==>
        logger.status == OTA_FAIL && logger.error == ErrorText(result)
      ensures (m.Unparsable? || !finish.sends) && thrown.Some? && thrown.value.Some? ==>
        logger.status == OTA_FAIL && logger.error == ExceptionText(result)
      ensures returned && result.status == CODE_OK && logger.otaType !in UPDATES ==>
        logger.status == OTA_SUCCESS && logger.error == ""
      ensures
        (if result.status == CODE_OK then !finish.sends || logger.otaType in UPDATES
         else (m.Unparsable? || !finish.sends) && (thrown.None? || thrown.value.None?))
        ==> logger.status == old(logger.status) && logger.error == old(logger.error)
    {
      hide RenderLog, ErrorText, ExceptionText;
      result := last;
      if thrown.Some? && thrown.value.Some? {
        result := thrown.value.value;
        logger.status, logger.error := OTA_FAIL, ExceptionText(result);
      }
      if !finish.sends {
        return result, false;
      }
      if result.status != CODE_OK && !m.Unparsable? {
        logger.status, logger.error := OTA_FAIL, ErrorText(result);
        if !finish.restores {
          return result, false;
        }
      }
      if result.status == CODE_OK && logger.otaType != "sota" && logger.otaType != "fota" && logger.otaType != "pota" {
        logger.status, logger.error := OTA_SUCCESS, "";
      }
      logger.SaveLog(Written);
      events := events + [LogSaved(logger.status)];
      return result, true;
    }

    /**
     * A manifest from the cloud. Unless the `finally` clause raises, a result is returned and the log is
     * saved, with what the attempt left of the status only for code 200 of an update with a reboot, or
     * when parsing raised an exception that is not listed; otherwise with SUCCESS for code 200 and FAIL
     * for every other code.
     */
    method DoInstall(m: Manifest, metadata: string, now: ClockText, finish: Finally)
      returns (result: Result, returned: bool)
      requires Faithful(m)
      modifies this, logger`status, logger`error, logger`file, logger`otaType, logger`time, logger`metadata, states
      ensures old(events) <= events
      ensures result.status == CODE_OK <==> Succeeds(m, old(states.file))
      ensures returned <==> finish.sends && (Succeeds(m, old(states.file)) || m.Unparsable? || finish.restores)
      ensures m.Unparsable? || m.Refused? ==>
        result == m.error.GetOr(NO_RESULT) && (returned ==> events == old(events) + [LogSaved(logger.status)])
      ensures m.Plain? && (m.restarts ==> WriteStep(old(states.file), m.writing) == Fine || m.ends.Throws?) ==>
        result == if m.ends.Gives? then m.ends.result else m.ends.handled.GetOr(NO_RESULT)
      ensures m.Other? ==>
        result == if m.run.attempted.Gives? then m.run.attempted.result else m.run.attempted.handled.GetOr(NO_RESULT)
      ensures m.Fota? ==>
        var outcome := m.attempt.Outcome(old(states.file));
        result == if outcome.Gives? then outcome.result else outcome.handled.GetOr(NO_RESULT)
      ensures states.file == StandingAfter(m, old(Stands())).state && logger.otaType == TypeAfter(m, old(logger.otaType))
      ensures logger.otaType == (if m.Fota? then "fota" else if m.Pota? then "pota" else if m.Other? then m.ota else old(logger.otaType))
      ensures
        if m.Fota? || m.Pota? || m.Other? then logger.metadata == metadata && logger.time == now
        else logger.metadata == old(logger.metadata) && logger.time == old(logger.time)
      ensures m.Fota? && m.attempt.Reached() && m.attempt.run.Installs(old(states.file)) && result.status == CODE_OK ==> logger.error == ""
      ensures returned ==>
        && logger.file == Some(RenderLog(logger.Now()))
        && |old(events)| < |events| && events[|events| - 1] == LogSaved(logger.status)
        && logger.status ==
           if Succeeds(m, old(states.file)) then
             if logger.otaType in UPDATES then StandingAfter(m, old(Stands())).status else OTA_SUCCESS
           else if m == Unparsable(None) then old(logger.status)
           else OTA_FAIL
      ensures !returned ==>
        && PendingFile(logger.file) == StandingAfter(m, old(Stands())).pending
        && (logger.status == OTA_FAIL || logger.status == StandingAfter(m, old(Stands())).status)
      ensures returned && result.status != CODE_OK && m != Unparsable(None) ==>
        logger.error == if m.Unparsable? then ExceptionText(result) else ErrorText(result)
      ensures m == Unparsable(None) ==> logger.error == old(logger.error)
      ensures KnownStatus(old(logger.status)) ==> KnownStatus(logger.status)
      ensures TameManifest(m) && Tame(metadata)
              && Tame(old(logger.metadata)) && Tame(old(logger.error)) && Tame(old(logger.otaType)) ==>
        Tame(logger.metadata) && Tame(logger.error) && Tame(logger.otaType)
    {
      hide RenderLog, ErrorText, ExceptionText, Faithful, Tame, TameManifest, KnownStatus, StandingAfter, Succeeds, TypeAfter,
        WriteStep, PendingFile, FotaAttempt.Outcome, FotaAttempt.Reached, FotaRun.Installs;
      FixedTypes();
      StatusesKnown();
      TypeExactly(m, logger.otaType);
      var last, thrown := Attempt(m, metadata, now);
      if Tame(last.message) && (thrown.Some? ==> TameResult(thrown.value)) {
        TextsTame(if thrown.Some? then thrown.value.GetOr(last) else last);
      }
      result, returned := Conclude(m, last, thrown, finish);
    }

    /** The code outside the model that looks after a software update at boot. */
    method InvokeSota(action: SotaAction) returns (r: Step)
      modifies logger`file
      ensures r == action.ends
      ensures logger.file == if action.settles then Resolved(old(logger.file), OTA_FAIL) else old(logger.file)
    {
      if action.settles {
        logger.UpdateLog(OTA_FAIL, true, Written);
      }
      return action.ends;
    }

    /**
     * The check after a software update. A DispatcherException from the health checks or from the
     * healthy branch leads to the unhealthy branch. SUCCESS is the verdict only of a healthy system
     * whose update code has not written FAIL itself.
     */
    method CheckSotaState(boot: BootRun) returns (r: Step)
      modifies logger`file
      ensures r == if boot.diagnosed && boot.healthy.ends != Raises(true) then boot.healthy.ends else boot.unhealthy.ends
      ensures logger.file == if boot.Settles() then Resolved(old(logger.file), boot.Verdict()) else old(logger.file)
      ensures PendingFile(old(logger.file)) ==> SoftwareSettled(old(logger.file), logger.file, boot)
      ensures r == Fine ==> !PendingFile(logger.file)
    {
      if PendingFile(logger.file) {
        SettledExactly(logger.file, boot);
      }
      ResolvedIsSettled(logger.file, OTA_FAIL, OTA_FAIL);
      ResolvedIsSettled(logger.file, OTA_FAIL, OTA_SUCCESS);
      ResolvedIsSettled(logger.file, OTA_SUCCESS, "");
      if boot.diagnosed {
        r := InvokeSota(boot.healthy);
        if r == Fine {
          logger.UpdateLog(OTA_SUCCESS, true, Written);
          return;
        }
        if !r.listed {
          return;
        }
      }
      r := InvokeSota(boot.unhealthy);
      if r == Fine {
        logger.UpdateLog(OTA_FAIL, true, Written);
      }
    }

    /**
     * The check after a firmware update. FAIL is written first, and since that leaves nothing pending,
     * the SUCCESS at the end changes nothing: the log says FAIL whatever the verdict sent is.
     */
    method CheckFotaState(values: map<string, string>, firmware: Firmware) returns (verdict: Verdict)
      modifies logger`file
      ensures logger.file == Resolved(old(logger.file), OTA_FAIL) && !PendingFile(logger.file)
      ensures verdict == FirmwareVerdict(values, firmware)
    {
      ResolvedIsSettled(logger.file, OTA_FAIL, OTA_SUCCESS);
      logger.UpdateLog(OTA_FAIL, true, Written);
      if BIOS_VERSION !in values || RELEASE_DATE !in values || firmware.Unknown? {
        return Undecided;
      }
      if Moment(firmware.date) != Text(values[RELEASE_DATE]) && firmware.version != values[BIOS_VERSION] {
        logger.UpdateLog(OTA_SUCCESS, true, Written);
        return Successful;
      }
      return Failed;
    }

    /** The check at every start of the dispatcher, and the verdict on the firmware that it sends, if there is one. */
    method CheckDispatcherStateInfo(boot: BootRun) returns (r: Step, verdict: Option<Verdict>)
      modifies logger`file, states
      ensures r == BootEnds(old(states.file), boot)
      ensures states.file == if r == Fine then Absent else old(states.file)
      ensures logger.file ==
        if BootSettles(old(states.file), boot) then Resolved(old(logger.file), BootVerdict(old(states.file), boot)) else old(logger.file)
      ensures
        if UpdatesFirmware(old(states.file)) || UpdatesPlatform(old(states.file)) then
          logger.file == Resolved(old(logger.file), "FAIL")
          && verdict == Some(FirmwareVerdict(old(states.file).values, boot.firmware))
        else
          verdict == None
          && if ChecksSota(old(states.file)) then PendingFile(old(logger.file)) ==> SoftwareSettled(old(logger.file), logger.file, boot)
             else logger.file == old(logger.file)
    {
      verdict := None;
      if states.file == Absent {
        return Fine, None;
      }
      var state := states.Consume();
      if state.None? {
        return Raises(true), None;
      }
      var values := state.value;
      if REASON !in values && MENDER !in values {
        return Raises(true), None;
      }
      var reason := if REASON in values then values[REASON] else "sota";
      SotaReason();
      if Mentions(reason, "fota") {
        var sent := CheckFotaState(values, boot.firmware);
        verdict := Some(sent);
      } else if Mentions(reason, "pota") {
        var sent := CheckFotaState(values, boot.firmware);
        verdict := Some(sent);
        ResolvedIsSettled(old(logger.file), OTA_FAIL, boot.Verdict());
        r := CheckSotaState(boot);
        if r != Fine {
          return;
        }
      } else if Mentions(reason, "restart") {
      } else {
        r := CheckSotaState(boot);
        if r != Fine {
          return;
        }
      }
      states.Clear();
      r := Fine;
    }

    /**
     * A reboot: the logger starts afresh, the state file is checked, and it is cleared even when it
     * cannot be made sense of or the check ends in a DispatcherException. Any other exception stops the
     * dispatcher before that.
     */
    method Reboot(boot: BootRun) returns (completed: bool, verdict: Option<Verdict>)
      modifies logger`status, logger`error, logger`file, logger`otaType, logger`metadata, states
      ensures completed <==> BootEnds(old(states.file), boot) != Raises(false)
      ensures !completed <==>
        ChecksSota(old(states.file))
        && (if boot.diagnosed && boot.healthy.ends != Raises(true) then boot.healthy.ends else boot.unhealthy.ends) == Raises(false)
      ensures states.file == if completed then Absent else old(states.file)
      ensures logger.file ==
        if BootSettles(old(states.file), boot) then Resolved(old(logger.file), BootVerdict(old(states.file), boot)) else old(logger.file)
      ensures
        if UpdatesFirmware(old(states.file)) || UpdatesPlatform(old(states.file)) then
          logger.file == Resolved(old(logger.file), "FAIL")
          && verdict == Some(FirmwareVerdict(old(states.file).values, boot.firmware))
        else
          verdict == None
          && if ChecksSota(old(states.file)) then PendingFile(old(logger.file)) ==> SoftwareSettled(old(logger.file), logger.file, boot)
             else logger.file == old(logger.file)
      ensures logger.status == "" && logger.error == "" && logger.metadata == "" && logger.otaType == ""
    {
      logger.status, logger.otaType, logger.metadata, logger.error := "", "", "", "";
      var r;
      r, verdict := CheckDispatcherStateInfo(boot);
      if r == Raises(true) {
        states.Clear();
      }
      completed := r == Fine || r == Raises(true);
    }
  }
}
