/** Switching a device to maintenance mode before an update, and waiting for its workloads to leave. */
module WorkloadOrchestration {
  import opened Options

  const CSL_CMD_STATUS_CODE := 202
  const CSL_POLL_CMD_STATUS_CODE := 200

  /** An answer of the orchestrator: the call raises, or gives a status and perhaps a list of workloads. */
  datatype Answer = CallRaises | Status(code: int, workloads: Option<seq<string>>)

  /** How the switch ends. Any finite number of answers may be too few: then it is still polling. */
  datatype Exit = Returns | RaisesDispatcherException | RaisesKeyError | StillPolling

  datatype Outcome = Outcome(exit: Exit, used: nat, failed: nat)

  /** The polling loop, from its guard on; `failed` polls have failed already. */
  function Poll(mustSwitch: bool, workloads: Option<seq<string>>, polls: seq<Answer>, failed: nat): (r: Outcome)
    ensures r.used <= |polls|
    decreases |polls|
  {
    if workloads.None? then Outcome(RaisesKeyError, 0, failed)
    else if workloads.value == [] then Outcome(Returns, 0, failed)
    else if polls == [] then Outcome(StillPolling, 0, failed)
    else if polls[0].CallRaises? then Outcome(RaisesDispatcherException, 1, failed)
    else if polls[0].code != CSL_POLL_CMD_STATUS_CODE && failed + 1 == 3 then
      Outcome(if mustSwitch then RaisesDispatcherException else Returns, 1, 3)
    else
      var failed' := if polls[0].code != CSL_POLL_CMD_STATUS_CODE then failed + 1 else failed;
      var r := Poll(mustSwitch, polls[0].workloads, polls[1..], failed');
      Outcome(r.exit, r.used + 1, r.failed)
  }

  /** The whole switch; `mustSwitch` says that orchestratorResponse is 'true'. */
  function Switch(mustSwitch: bool, switched: Answer, polls: seq<Answer>): Outcome {
    var raised := Outcome(if mustSwitch then RaisesDispatcherException else Returns, 0, 0);
    if switched.CallRaises? || switched.code != CSL_CMD_STATUS_CODE then raised
    else
      var r := Poll(mustSwitch, switched.workloads, polls, 0);
      if r.exit == RaisesDispatcherException && !mustSwitch then r.(exit := Returns) else r
  }

  /** The loop that waits for the workloads to leave. */
  method ProcessMaintenanceModeOk(mustSwitch: bool, reported: Option<seq<string>>, polls: seq<Answer>) returns (r: Outcome)
    ensures r == Poll(mustSwitch, reported, polls, 0)
  {
    var pollingFlag, pollingCounter := true, 0;
    var workloads := reported;
    var used := 0;
    while pollingFlag && workloads.Some? && workloads.value != []
      invariant used <= |polls|
      invariant !pollingFlag ==> Poll(mustSwitch, reported, polls, 0) == Outcome(Returns, used, pollingCounter)
      invariant pollingFlag ==>
        var rest := Poll(mustSwitch, workloads, polls[used..], pollingCounter);
        Poll(mustSwitch, reported, polls, 0) == Outcome(rest.exit, used + rest.used, rest.failed)
      decreases |polls| - used, pollingFlag
    {
      if used == |polls| {
        return Outcome(StillPolling, used, pollingCounter);
      }
      var answer := polls[used];
      assert polls[used..][1..] == polls[used + 1..];
      used := used + 1;
      if answer.CallRaises? {
        return Outcome(RaisesDispatcherException, used, pollingCounter);
      }
      workloads := answer.workloads;
      if answer.code != CSL_POLL_CMD_STATUS_CODE {
        pollingCounter := pollingCounter + 1;
        if pollingCounter == 3 {
          pollingFlag := false;
          if mustSwitch {
            return Outcome(RaisesDispatcherException, used, pollingCounter);
          }
        }
      }
    }
    if pollingFlag && workloads.None? {
      return Outcome(RaisesKeyError, used, pollingCounter);
    }
    return Outcome(Returns, used, pollingCounter);
  }

  method SwitchToMaintenanceMode(mustSwitch: bool, switched: Answer, polls: seq<Answer>) returns (r: Outcome)
    ensures r == Switch(mustSwitch, switched, polls)
  {
    if switched.CallRaises? || switched.code != CSL_CMD_STATUS_CODE {
      return Outcome(if mustSwitch then RaisesDispatcherException else Returns, 0, 0);
    }
    r := ProcessMaintenanceModeOk(mustSwitch, switched.workloads, polls);
    if r.exit == RaisesDispatcherException && !mustSwitch {
      r := r.(exit := Returns);
    }
  }

  function Failures(polls: seq<Answer>): nat {
    if polls == [] then 0
    else (if polls[0].Status? && polls[0].code != CSL_POLL_CMD_STATUS_CODE then 1 else 0) + Failures(polls[1..])
  }

  /** The workloads reported before the first poll and by each poll in turn. */
  function Report(first: Option<seq<string>>, polls: seq<Answer>, k: nat): Option<seq<string>>
    requires k <= |polls|
  {
    if k == 0 then first
    else if polls[k - 1].CallRaises? then None
    else polls[k - 1].workloads
  }

  /** After `k` polls, none of which raised and before each of which workloads were reported, `last` is reported with fewer than three failures. */
  predicate ReportedAfter(last: Option<seq<string>>, first: Option<seq<string>>, polls: seq<Answer>, failed: nat, k: nat)
    requires k <= |polls|
  {
    && Report(first, polls, k) == last
    && (forall i | 0 <= i < k :: polls[i].Status? && Report(first, polls, i).Some? && Report(first, polls, i).value != [])
    && failed + Failures(polls[..k]) < 3
  }

  /** At most three failed polls are made, and the count is of failures only. */
  lemma {:induction false} AtMostThreeFailures(mustSwitch: bool, workloads: Option<seq<string>>, polls: seq<Answer>, failed: nat)
    requires failed < 3
    ensures
      var r := Poll(mustSwitch, workloads, polls, failed);
      && r.used <= |polls| && r.failed <= 3
      && r.failed == failed + Failures(polls[..r.used])
    decreases |polls|
  {
    var r := Poll(mustSwitch, workloads, polls, failed);
    if r.used > 0 {
      assert polls[..r.used][1..] == polls[1..][..r.used - 1];
      assert polls[..r.used][0] == polls[0];
      if !(polls[0].CallRaises? || (polls[0].code != CSL_POLL_CMD_STATUS_CODE && failed + 1 == 3)) {
        var failed' := if polls[0].code != CSL_POLL_CMD_STATUS_CODE then failed + 1 else failed;
        AtMostThreeFailures(mustSwitch, polls[0].workloads, polls[1..], failed');
      }
    }
  }

  /**
   * When switching is required, the loop returns exactly when the workloads are reported gone in time.
   * Whether it is required or not, the loop raises a KeyError exactly when an answer read in time has
   * no `Workloads`.
   */
  lemma {:induction false} PollEnds(mustSwitch: bool, workloads: Option<seq<string>>, polls: seq<Answer>, failed: nat)
    requires failed < 3
    ensures
      var r := Poll(mustSwitch, workloads, polls, failed);
      && r.used <= |polls|
      && (mustSwitch ==> (r.exit == Returns <==> ReportedAfter(Some([]), workloads, polls, failed, r.used)))
      && (r.exit == RaisesKeyError <==> ReportedAfter(None, workloads, polls, failed, r.used))
      && (forall k | 0 <= k <= |polls| && ReportedAfter(Some([]), workloads, polls, failed, k) :: r.exit == Returns && r.used == k)
      && (forall k | 0 <= k <= |polls| && ReportedAfter(None, workloads, polls, failed, k) :: r.exit == RaisesKeyError && r.used == k)
    decreases |polls|
  {
    var r := Poll(mustSwitch, workloads, polls, failed);
    if workloads.Some? && workloads.value != [] && polls != [] && polls[0].Status? {
      var failed' := if polls[0].code != CSL_POLL_CMD_STATUS_CODE then failed + 1 else failed;
      forall k, last: Option<seq<string>> | 1 <= k <= |polls|
        ensures ReportedAfter(last, workloads, polls, failed, k)
           <==> failed' < 3 && ReportedAfter(last, polls[0].workloads, polls[1..], failed', k - 1)
      {
        hide *;
        ReportedAfterStep(last, workloads, polls, failed, k);
      }
      if failed' < 3 {
        PollEnds(mustSwitch, polls[0].workloads, polls[1..], failed');
      }
    } else if polls != [] && polls[0].CallRaises? {
      assert Report(workloads, polls, 1) == None;
    }
  }

  lemma ReportedAfterStep(last: Option<seq<string>>, workloads: Option<seq<string>>, polls: seq<Answer>, failed: nat, k: nat)
    requires workloads.Some? && workloads.value != [] && 1 <= k <= |polls| && polls[0].Status?
    ensures
      var failed' := if polls[0].code != CSL_POLL_CMD_STATUS_CODE then failed + 1 else failed;
      ReportedAfter(last, workloads, polls, failed, k)
      <==> failed' < 3 && ReportedAfter(last, polls[0].workloads, polls[1..], failed', k - 1)
  {
    var rest := polls[1..];
    assert polls[..k][1..] == rest[..k - 1];
    assert polls[..k][0] == polls[0];
    assert forall i | 0 <= i < k :: Report(workloads, polls, i + 1) == Report(polls[0].workloads, rest, i);
    assert forall i | 1 <= i < k :: polls[i] == rest[i - 1];
    assert forall i | 0 <= i < k - 1 :: rest[i] == polls[i + 1];
    assert Report(workloads, polls, k) == Report(polls[0].workloads, rest, k - 1);
    assert forall i | 1 <= i < k :: Report(workloads, polls, i) == Report(polls[0].workloads, rest, i - 1);
  }

  /**
   * An update that must not run beside workloads goes ahead exactly when the switch was accepted and
   * an empty workload list was then reported, with fewer than three failed polls before it.
   */
  lemma ProceedsWhenEmpty(switched: Answer, polls: seq<Answer>)
    ensures
      var r := Switch(true, switched, polls);
      && r.used <= |polls| && r.failed <= 3
      && (r.exit == Returns <==>
            && switched.Status? && switched.code == CSL_CMD_STATUS_CODE
            && ReportedAfter(Some([]), switched.workloads, polls, 0, r.used))
  {
    if switched.Status? {
      PollEnds(true, switched.workloads, polls, 0);
      AtMostThreeFailures(true, switched.workloads, polls, 0);
    }
  }

  /**
   * An answer without `Workloads` that is read in time raises a KeyError out of the switch, exactly
   * then, and whether the switch is required or not: only a DispatcherException is caught.
   */
  lemma KeyErrorEscapes(mustSwitch: bool, switched: Answer, polls: seq<Answer>)
    ensures
      var r := Switch(mustSwitch, switched, polls);
      && r.used <= |polls|
      && (r.exit == RaisesKeyError <==>
            && switched.Status? && switched.code == CSL_CMD_STATUS_CODE
            && ReportedAfter(None, switched.workloads, polls, 0, r.used))
    ensures Switch(true, switched, polls).exit == RaisesKeyError <==> Switch(false, switched, polls).exit == RaisesKeyError
  {
    if switched.Status? {
      PollEnds(true, switched.workloads, polls, 0);
      PollEnds(false, switched.workloads, polls, 0);
    }
  }

  /**
   * Where switching is only wanted, no DispatcherException stops the update: it goes ahead, unless the
   * polling has not ended or an answer read in time has no `Workloads`.
   */
  lemma NeverStopsUpdate(switched: Answer, polls: seq<Answer>)
    ensures
      var r := Switch(false, switched, polls);
      && r.used <= |polls|
      && (r.exit == Returns <==>
            !(r.exit == StillPolling && r.used == |polls|)
            && !(switched.Status? && switched.code == CSL_CMD_STATUS_CODE && ReportedAfter(None, switched.workloads, polls, 0, r.used)))
    ensures (switched.CallRaises? || switched.code != CSL_CMD_STATUS_CODE) ==> Switch(false, switched, polls).exit == Returns
  {
    KeyErrorEscapes(false, switched, polls);
    if switched.Status? {
      StillPollingAtEnd(switched.workloads, polls, 0);
    }
  }

  lemma {:induction false} StillPollingAtEnd(workloads: Option<seq<string>>, polls: seq<Answer>, failed: nat)
    ensures
      var r := Poll(false, workloads, polls, failed);
      r.exit == StillPolling ==> r.used == |polls|
    decreases |polls|
  {
    if polls != [] && polls[0].Status? {
      StillPollingAtEnd(polls[0].workloads, polls[1..], if polls[0].code != CSL_POLL_CMD_STATUS_CODE then failed + 1 else failed);
    }
  }

  /**
   * The empty list need not come from a successful poll: a failed one that carries an empty list lets
   * the update go ahead.
   */
  lemma FailedPollLetsProceed(workloads: seq<string>, code: int)
    requires workloads != [] && code != CSL_POLL_CMD_STATUS_CODE
    ensures Switch(true, Status(CSL_CMD_STATUS_CODE, Some(workloads)), [Status(code, Some([]))]).exit == Returns
  {
    var polls := [Status(code, Some([]))];
    assert polls[1..] == [];
    assert Poll(true, Some([]), [], 1) == Outcome(Returns, 0, 1);
  }
}
