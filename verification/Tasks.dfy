/** A task fans out to one result row per device. The rows are written by the
    dispatcher, by the agents' reports, by cancelling and by the upgrade timeout;
    the status of the task follows from them.

    Here each of these operations is one atomic step. TaskProtocol takes the
    reports apart into their separate commits. */
module Tasks {
  import opened Wrappers

  /** What a result row can hold: an agent may report any text at all. */
  datatype RowStatus = Pending | Sent | Succeeded | Failed | Cancelled | Timeout | Other(text: string)

  datatype TaskStatus = TaskPending | TaskRunning | TaskCompleted | TaskFailed | TaskCancelled

  datatype Row = Row(status: RowStatus, startedAt: Option<int>, finishedAt: Option<int>)

  datatype Task = Task(status: TaskStatus, isUpgrade: bool, rows: seq<Row>)

  datatype CancelError = CannotBeCancelled

  const UPGRADE_TIMEOUT_SECONDS := 300

  const TERMINAL: set<RowStatus> := {Succeeded, Failed, Cancelled, Timeout}

  // ---------------------------------------------------------------------
  // The aggregate
  // ---------------------------------------------------------------------

  function Statuses(rows: seq<Row>): (s: seq<RowStatus>)
    ensures |s| == |rows| && forall i :: 0 <= i < |rows| ==> s[i] == rows[i].status
  {
    seq(|rows|, i requires 0 <= i < |rows| => rows[i].status)
  }

  /** The status a task gets from its rows, or None while it must be left alone. */
  function Aggregate(statuses: seq<RowStatus>): Option<TaskStatus> {
    if statuses == [] then None else AggregateOfSet(set s | s in statuses)
  }

  function AggregateOfSet(found: set<RowStatus>): Option<TaskStatus> {
    if !(found <= TERMINAL) then None
    else if found == {Succeeded} then Some(TaskCompleted)
    else if Cancelled in found && found <= {Cancelled, Succeeded} then Some(TaskCancelled)
    else Some(TaskFailed)
  }

  predicate Settled(status: RowStatus) {
    status in TERMINAL
  }

  predicate AllSettled(statuses: seq<RowStatus>) {
    forall i :: 0 <= i < |statuses| ==> Settled(statuses[i])
  }

  /** Row by row: completed when every row succeeded, cancelled when the rest was
      cancelled, failed when some row failed or timed out. */
  lemma AggregateRule(statuses: seq<RowStatus>)
    requires statuses != []
    ensures Aggregate(statuses).Some? <==> AllSettled(statuses)
    ensures AllSettled(statuses) <==>
            forall i :: 0 <= i < |statuses| ==> statuses[i] in {Succeeded, Failed, Cancelled, Timeout}
    ensures Aggregate(statuses) == Some(TaskCompleted) <==>
            forall i :: 0 <= i < |statuses| ==> statuses[i] == Succeeded
    ensures Aggregate(statuses) == Some(TaskCancelled) <==>
            && Cancelled in statuses
            && forall i :: 0 <= i < |statuses| ==> statuses[i] in {Succeeded, Cancelled}
    ensures Aggregate(statuses) == Some(TaskFailed) <==>
            && AllSettled(statuses)
            && (Failed in statuses || Timeout in statuses)
    ensures Aggregate(statuses) in {None, Some(TaskCompleted), Some(TaskCancelled), Some(TaskFailed)}
  {
    var found := set s | s in statuses;
    assert statuses[0] in found;
    assert forall i :: 0 <= i < |statuses| ==> statuses[i] in found;
    assert found <= TERMINAL <==> AllSettled(statuses);
    if forall i :: 0 <= i < |statuses| ==> statuses[i] == Succeeded {
      assert found == {Succeeded};
    }
    if found == {Succeeded} {
      assert forall i :: 0 <= i < |statuses| ==> statuses[i] == Succeeded;
    }
  }

  // ---------------------------------------------------------------------
  // The operations on values
  // ---------------------------------------------------------------------

  /** A new task after its dispatch: outcomes[i] tells whether the i-th command went
      out, and times[i] when that was known. */
  function Created(isUpgrade: bool, outcomes: seq<bool>, times: seq<int>): Task
    requires |times| == |outcomes|
  {
    Task(if true in outcomes then TaskRunning else TaskFailed, isUpgrade,
         seq(|outcomes|, i requires 0 <= i < |outcomes| =>
             if outcomes[i] then Row(Sent, Some(times[i]), None) else Row(Failed, None, Some(times[i]))))
  }

  function Synced(t: Task): Task {
    match Aggregate(Statuses(t.rows))
    case None => t
    case Some(final) => t.(status := final)
  }

  function Reported(t: Task, i: nat, status: RowStatus, now: int): Task
    requires i < |t.rows|
  {
    Synced(t.(rows := t.rows[i := t.rows[i].(status := status, finishedAt := Some(now))]))
  }

  predicate Overdue(r: Row, cutoff: int) {
    r.status in {Sent, Pending} && r.startedAt.Some? && r.startedAt.value < cutoff
  }

  function ExpiredRow(r: Row, cutoff: int, now: int): Row {
    if Overdue(r, cutoff) then r.(status := Timeout, finishedAt := Some(now)) else r
  }

  /** What reading a running upgrade does to it. */
  function Expired(t: Task, now: int): Task {
    var cutoff := now - UPGRADE_TIMEOUT_SECONDS;
    if t.isUpgrade && t.status == TaskRunning && exists i :: 0 <= i < |t.rows| && Overdue(t.rows[i], cutoff) then
      Task(TaskFailed, true, seq(|t.rows|, i requires 0 <= i < |t.rows| => ExpiredRow(t.rows[i], cutoff, now)))
    else t
  }

  /** The same when the task was read earlier than it is written: the rows that were
      overdue when read are overwritten, whatever they hold by now. */
  function ExpiredLate(read: Task, t: Task, now: int): Task
    requires |read.rows| == |t.rows|
  {
    var cutoff := now - UPGRADE_TIMEOUT_SECONDS;
    if read.isUpgrade && read.status == TaskRunning && exists i :: 0 <= i < |read.rows| && Overdue(read.rows[i], cutoff) then
      Task(TaskFailed, t.isUpgrade, seq(|t.rows|, i requires 0 <= i < |t.rows| =>
           if Overdue(read.rows[i], cutoff) then t.rows[i].(status := Timeout, finishedAt := Some(now)) else t.rows[i]))
    else t
  }

  function CancelledRow(r: Row, now: int): Row {
    if r.status in {Pending, Sent} then r.(status := RowStatus.Cancelled, finishedAt := Some(now)) else r
  }

  function CancelledTask(t: Task, now: int): Result<Task, CancelError> {
    if t.status !in {TaskPending, TaskRunning} then Failure(CannotBeCancelled)
    else Success(Task(TaskCancelled, t.isUpgrade, seq(|t.rows|, i requires 0 <= i < |t.rows| => CancelledRow(t.rows[i], now))))
  }

  // ---------------------------------------------------------------------
  // The operations on the stored rows
  // ---------------------------------------------------------------------

  class TaskStore {
    var status: TaskStatus
    const isUpgrade: bool
    var rows: seq<Row>

    function Value(): Task
      reads this
    {
      Task(status, isUpgrade, rows)
    }

    /** Creating: pending rows first, then the dispatch outcomes are written and counted. */
    constructor (isUpgrade: bool, outcomes: seq<bool>, times: seq<int>)
      requires |times| == |outcomes|
      ensures Value() == Created(isUpgrade, outcomes, times)
    {
      this.isUpgrade := isUpgrade;
      status := TaskPending;
      rows := seq(|outcomes|, _ => Row(Pending, None, None));
      new;
      status := TaskRunning;
      var sentCount := 0;
      for i := 0 to |outcomes|
        invariant |rows| == |outcomes| && status == TaskRunning
        invariant forall k :: 0 <= k < i ==> rows[k] == Created(isUpgrade, outcomes, times).rows[k]
        invariant sentCount > 0 <==> true in outcomes[..i]
        invariant sentCount >= 0
      {
        if outcomes[i] {
          rows := rows[i := Row(Sent, Some(times[i]), None)];
          sentCount := sentCount + 1;
        } else {
          rows := rows[i := Row(Failed, None, Some(times[i]))];
        }
        assert outcomes[..i + 1] == outcomes[..i] + [outcomes[i]];
      }
      assert outcomes[..|outcomes|] == outcomes;
      if sentCount == 0 {
        status := TaskFailed;
      }
    }

    method SyncParentTask()
      modifies this
      ensures Value() == Synced(old(Value()))
    {
      if rows == [] {
        return;
      }
      var statuses: set<RowStatus> := {};
      for i := 0 to |rows|
        invariant statuses == set s | s in Statuses(rows)[..i]
      {
        statuses := statuses + {rows[i].status};
        assert Statuses(rows)[..i + 1] == Statuses(rows)[..i] + [rows[i].status];
      }
      assert Statuses(rows)[..|rows|] == Statuses(rows);
      if !(statuses <= TERMINAL) {
        return;
      }
      var final;
      if statuses == {Succeeded} {
        final := TaskCompleted;
      } else if Cancelled in statuses && statuses <= {Cancelled, Succeeded} {
        final := TaskCancelled;
      } else {
        final := TaskFailed;
      }
      status := final;
    }

    /** An agent's report: the row is written first, and the task is brought in line with all rows. */
    method Report(i: nat, reported: RowStatus, now: int)
      requires i < |rows|
      modifies this
      ensures Value() == Reported(old(Value()), i, reported, now)
    {
      rows := rows[i := rows[i].(status := reported, finishedAt := Some(now))];
      SyncParentTask();
    }

    /** The fallback for upgrades that never answered, run when the task is looked at:
        it decides on what it has read and writes to the task as it is by then. */
    method ExpireUpgrade(read: Task, now: int)
      requires |read.rows| == |rows|
      modifies this
      ensures Value() == ExpiredLate(read, old(Value()), now)
    {
      if read.isUpgrade && read.status == TaskRunning {
        var cutoff := now - UPGRADE_TIMEOUT_SECONDS;
        var timedOut := false;
        for i := 0 to |read.rows|
          invariant |rows| == |old(rows)| && status == old(status)
          invariant forall k :: 0 <= k < i ==>
                      rows[k] == if Overdue(read.rows[k], cutoff) then old(rows)[k].(status := Timeout, finishedAt := Some(now)) else old(rows)[k]
          invariant forall k :: i <= k < |rows| ==> rows[k] == old(rows)[k]
          invariant timedOut <==> exists k :: 0 <= k < i && Overdue(read.rows[k], cutoff)
        {
          if Overdue(read.rows[i], cutoff) {
            rows := rows[i := rows[i].(status := Timeout, finishedAt := Some(now))];
            timedOut := true;
          }
        }
        if timedOut {
          status := TaskFailed;
        } else {
          assert rows == old(rows);
        }
      }
    }

    method Cancel(now: int) returns (done: bool)
      modifies this
      ensures done <==> CancelledTask(old(Value()), now).Success?
      ensures Value() == if done then CancelledTask(old(Value()), now).value else old(Value())
    {
      if status !in {TaskPending, TaskRunning} {
        return false;
      }
      status := TaskCancelled;
      for i := 0 to |rows|
        invariant |rows| == |old(rows)| && status == TaskCancelled
        invariant forall k :: 0 <= k < i ==> rows[k] == CancelledRow(old(rows)[k], now)
        invariant forall k :: i <= k < |rows| ==> rows[k] == old(rows)[k]
      {
        if rows[i].status in {Pending, Sent} {
          rows := rows[i := rows[i].(status := RowStatus.Cancelled, finishedAt := Some(now))];
        }
      }
      return true;
    }
  }

  // ---------------------------------------------------------------------
  // Every run of atomic steps
  // ---------------------------------------------------------------------

  datatype Step = ReportStep(i: nat, status: RowStatus, now: int) | CancelStep(now: int) | ExpireStep(now: int)

  /** A report names a row of the task or is ignored. */
  function Do(t: Task, step: Step): Task {
    match step
    case ReportStep(i, s, now) => if i < |t.rows| then Reported(t, i, s, now) else t
    case CancelStep(now) => (match CancelledTask(t, now) case Success(t') => t' case Failure(_) => t)
    case ExpireStep(now) => Expired(t, now)
  }

  function DoAll(t: Task, steps: seq<Step>): Task {
    if steps == [] then t else Do(DoAll(t, steps[..|steps| - 1]), steps[|steps| - 1])
  }

  /** A task that is still open waits for some row. A task whose rows are all
      settled has the status they add up to, unless it was cancelled together
      with one of them. */
  predicate Consistent(t: Task) {
    var statuses := Statuses(t.rows);
    && (t.status in {TaskPending, TaskRunning} ==> !AllSettled(statuses))
    && (t.rows != [] && AllSettled(statuses) ==>
          || Aggregate(statuses) == Some(t.status)
          || (t.status == TaskCancelled && Cancelled in statuses))
  }

  lemma CreatedConsistent(isUpgrade: bool, outcomes: seq<bool>, times: seq<int>)
    requires |times| == |outcomes|
    ensures Consistent(Created(isUpgrade, outcomes, times))
  {
    var t := Created(isUpgrade, outcomes, times);
    var statuses := Statuses(t.rows);
    if true in outcomes {
      var i :| 0 <= i < |outcomes| && outcomes[i];
      assert statuses[i] == Sent;
    } else if outcomes != [] {
      AggregateRule(statuses);
      assert statuses[0] == Failed;
    }
  }

  lemma StepConsistent(t: Task, step: Step)
    requires Consistent(t)
    ensures Consistent(Do(t, step))
  {
    var t' := Do(t, step);
    var statuses, statuses' := Statuses(t.rows), Statuses(t'.rows);
    if statuses' != [] {
      AggregateRule(statuses');
    }
    match step
    case ReportStep(i, s, now) =>
    case CancelStep(now) =>
      if t' != t {
        var i :| 0 <= i < |statuses| && !Settled(statuses[i]);
        assert t'.rows[i] == CancelledRow(t.rows[i], now);
        if AllSettled(statuses') {
          assert statuses'[i] == RowStatus.Cancelled;
        }
      }
    case ExpireStep(now) =>
      if t' != t {
        var i :| 0 <= i < |t.rows| && Overdue(t.rows[i], now - UPGRADE_TIMEOUT_SECONDS);
        assert t'.rows[i] == ExpiredRow(t.rows[i], now - UPGRADE_TIMEOUT_SECONDS, now);
        assert statuses'[i] == Timeout;
      }
  }

  /** The task invariant, for every run of reports (of any text), cancels and timeouts from creation on. */
  lemma {:induction false} RunConsistent(isUpgrade: bool, outcomes: seq<bool>, times: seq<int>, steps: seq<Step>)
    requires |times| == |outcomes|
    ensures Consistent(DoAll(Created(isUpgrade, outcomes, times), steps))
  {
    var t := Created(isUpgrade, outcomes, times);
    if steps == [] {
      CreatedConsistent(isUpgrade, outcomes, times);
    } else {
      RunConsistent(isUpgrade, outcomes, times, steps[..|steps| - 1]);
      StepConsistent(DoAll(t, steps[..|steps| - 1]), steps[|steps| - 1]);
    }
  }

  // ---------------------------------------------------------------------
  // How final a final status is
  // ---------------------------------------------------------------------

  predicate Final(status: TaskStatus) {
    status in {TaskCompleted, TaskFailed, TaskCancelled}
  }

  /** What settled rows add up to, row by row. */
  function Verdict(rows: seq<Row>): TaskStatus {
    if forall k :: 0 <= k < |rows| ==> rows[k].status == Succeeded then TaskCompleted
    else if exists k :: 0 <= k < |rows| && rows[k].status in {Failed, Timeout} then TaskFailed
    else TaskCancelled
  }

  function AfterReport(rows: seq<Row>, step: Step): seq<Row>
    requires step.ReportStep? && step.i < |rows|
  {
    rows[step.i := rows[step.i].(status := step.status, finishedAt := Some(step.now))]
  }

  /** A report that settles its row, while all others are settled, to another end than the task had. */
  predicate Overturns(t: Task, step: Step) {
    && step.ReportStep? && step.i < |t.rows|
    && Settled(step.status)
    && (forall k :: 0 <= k < |t.rows| && k != step.i ==> Settled(t.rows[k].status))
    && Verdict(AfterReport(t.rows, step)) != t.status
  }

  lemma AggregateIsVerdict(rows: seq<Row>)
    requires rows != []
    ensures Aggregate(Statuses(rows)) ==
            if forall k :: 0 <= k < |rows| ==> Settled(rows[k].status) then Some(Verdict(rows)) else None
  {
    var statuses := Statuses(rows);
    AggregateRule(statuses);
    if AllSettled(statuses) && !(forall k :: 0 <= k < |rows| ==> rows[k].status == Succeeded)
       && !(exists k :: 0 <= k < |rows| && rows[k].status in {Failed, Timeout}) {
      var k :| 0 <= k < |rows| && rows[k].status != Succeeded;
      assert statuses[k] == RowStatus.Cancelled;
    }
  }

  /** No final status is absorbing. Of the steps taken as a whole, one changes the
      status of a finished task exactly when it is a report of a settled status on a
      row whose other rows are all settled, and the rows then add up to something
      else; the task then has that status. Whole cancels and timeouts never change it.
      CancelRace has the steps that are taken apart. */
  lemma FinalStatusChangesIff(t: Task, step: Step)
    requires Final(t.status)
    ensures Do(t, step).status != t.status <==> Overturns(t, step)
    ensures Overturns(t, step) ==> Do(t, step).status == Verdict(AfterReport(t.rows, step))
    ensures Final(Do(t, step).status)
  {
    if step.ReportStep? && step.i < |t.rows| {
      var rows' := AfterReport(t.rows, step);
      AggregateIsVerdict(rows');
      assert rows'[step.i].status == step.status;
      assert forall k :: 0 <= k < |t.rows| && k != step.i ==> rows'[k] == t.rows[k];
      assert Do(t, step) == Synced(t.(rows := rows'));
    }
  }

  /** The task has its status after every step of the run. */
  ghost predicate KeepsStatus(t: Task, steps: seq<Step>) {
    forall k :: 0 <= k <= |steps| ==> DoAll(t, steps[..k]).status == t.status
  }

  ghost predicate NeverOverturned(t: Task, steps: seq<Step>) {
    forall k :: 0 <= k < |steps| ==> !Overturns(DoAll(t, steps[..k]), steps[k])
  }

  lemma KeptLonger(t: Task, steps: seq<Step>)
    requires steps != []
    ensures KeepsStatus(t, steps) <==> KeepsStatus(t, steps[..|steps| - 1]) && DoAll(t, steps).status == t.status
  {
    hide DoAll;
    var n := |steps| - 1;
    var before := steps[..n];
    assert steps[..n + 1] == steps;
    if KeepsStatus(t, steps) {
      forall k | 0 <= k <= n ensures DoAll(t, before[..k]).status == t.status {
        assert before[..k] == steps[..k];
      }
    }
    if KeepsStatus(t, before) && DoAll(t, steps).status == t.status {
      forall k | 0 <= k <= n + 1 ensures DoAll(t, steps[..k]).status == t.status {
        if k <= n {
          assert before[..k] == steps[..k];
        }
      }
    }
  }

  lemma OverturnedLater(t: Task, steps: seq<Step>)
    requires steps != []
    ensures var n := |steps| - 1;
            NeverOverturned(t, steps) <==> NeverOverturned(t, steps[..n]) && !Overturns(DoAll(t, steps[..n]), steps[n])
  {
    hide DoAll, Overturns;
    var n := |steps| - 1;
    var before := steps[..n];
    if NeverOverturned(t, steps) {
      forall k | 0 <= k < n ensures !Overturns(DoAll(t, before[..k]), before[k]) {
        assert before[..k] == steps[..k] && before[k] == steps[k];
      }
    }
    if NeverOverturned(t, before) && !Overturns(DoAll(t, before), steps[n]) {
      forall k | 0 <= k < n + 1 ensures !Overturns(DoAll(t, steps[..k]), steps[k]) {
        if k < n {
          assert before[..k] == steps[..k] && before[k] == steps[k];
        }
      }
    }
  }

  /** A finished task keeps its status through a run if and only if no such report occurs in it. */
  lemma {:induction false} FinalStatusKeptIff(t: Task, steps: seq<Step>)
    requires Final(t.status)
    ensures KeepsStatus(t, steps) <==> NeverOverturned(t, steps)
  {
    if steps != [] {
      hide Do, Overturns, NeverOverturned;
      var before := steps[..|steps| - 1];
      KeptLonger(t, steps);
      OverturnedLater(t, steps);
      FinalStatusKeptIff(t, before);
      if KeepsStatus(t, before) {
        assert before[..|before|] == before;
        FinalStatusChangesIff(DoAll(t, before), steps[|steps| - 1]);
      }
    }
  }

  /** Cancelling a one-device task and then hearing from its agent completes the task, or fails it. */
  lemma CancelledIsNotFinal(status: RowStatus)
    requires status in {Succeeded, Failed}
    ensures var t := DoAll(Created(false, [true], [0]), [CancelStep(1)]);
            && t.status == TaskCancelled
            && Do(t, ReportStep(0, status, 2)).status == if status == Succeeded then TaskCompleted else TaskFailed
  {
    var t := DoAll(Created(false, [true], [0]), [CancelStep(1)]);
    assert [CancelStep(1)][..0] == [];
    FinalStatusChangesIff(t, ReportStep(0, status, 2));
    assert AfterReport(t.rows, ReportStep(0, status, 2))[0].status == status;
  }

  /** An upgrade that timed out completes when its agent does report back. */
  lemma TimedOutIsNotFinal()
    ensures var t := DoAll(Created(true, [true], [0]), [ExpireStep(301)]);
            t.status == TaskFailed && Do(t, ReportStep(0, Succeeded, 302)).status == TaskCompleted
  {
    var created := Created(true, [true], [0]);
    var t := DoAll(created, [ExpireStep(301)]);
    assert [ExpireStep(301)][..0] == [];
    assert Overdue(created.rows[0], 301 - UPGRADE_TIMEOUT_SECONDS);
    FinalStatusChangesIff(t, ReportStep(0, Succeeded, 302));
    assert AfterReport(t.rows, ReportStep(0, Succeeded, 302))[0].status == Succeeded;
  }

  // ---------------------------------------------------------------------
  // Rows left behind
  // ---------------------------------------------------------------------

  predicate OpenRow(r: Row) {
    r.status in {Sent, Pending}
  }

  /** The timeout of an upgrade fails the task over a row that is still open exactly
      when one open row is overdue and another one is not. */
  lemma TimeoutLeavesRowIff(t: Task, now: int)
    requires t.isUpgrade && t.status == TaskRunning
    ensures var t' := Expired(t, now);
            (t'.status == TaskFailed && exists i :: 0 <= i < |t'.rows| && OpenRow(t'.rows[i])) <==>
            && (exists j :: 0 <= j < |t.rows| && Overdue(t.rows[j], now - UPGRADE_TIMEOUT_SECONDS))
            && (exists i :: 0 <= i < |t.rows| && OpenRow(t.rows[i]) && !Overdue(t.rows[i], now - UPGRADE_TIMEOUT_SECONDS))
  {
    var t' := Expired(t, now);
    var cutoff := now - UPGRADE_TIMEOUT_SECONDS;
    if exists j :: 0 <= j < |t.rows| && Overdue(t.rows[j], cutoff) {
      assert forall i :: 0 <= i < |t.rows| ==> t'.rows[i] == ExpiredRow(t.rows[i], cutoff, now);
    }
  }

  lemma OpenRowStays(t: Task, step: Step, i: nat)
    requires Final(t.status) && i < |t.rows| && !Settled(t.rows[i].status)
    requires step.ReportStep? ==> step.i != i
    ensures var t' := Do(t, step);
            t'.status == t.status && |t'.rows| == |t.rows| && t'.rows[i] == t.rows[i]
  {
    FinalStatusChangesIff(t, step);
  }

  /** Such a row is left behind for good: in a finished task only a report on the row
      itself ever changes an unsettled row, and until then the task keeps its status. */
  lemma {:induction false} LeftBehind(t: Task, steps: seq<Step>, i: nat)
    requires Final(t.status) && i < |t.rows| && !Settled(t.rows[i].status)
    requires forall k :: 0 <= k < |steps| && steps[k].ReportStep? ==> steps[k].i != i
    ensures var t' := DoAll(t, steps);
            t'.status == t.status && |t'.rows| == |t.rows| && t'.rows[i] == t.rows[i]
  {
    hide Do;
    if steps != [] {
      var n := |steps| - 1;
      LeftBehind(t, steps[..n], i);
      OpenRowStays(DoAll(t, steps[..n]), steps[n], i);
    }
  }

  /** Two commands sent ten seconds apart: a timeout between their deadlines strands the second. */
  lemma YoungerRowIsStranded(steps: seq<Step>)
    requires forall k :: 0 <= k < |steps| && steps[k].ReportStep? ==> steps[k].i != 1
    ensures var t := Do(Created(true, [true, true], [0, 10]), ExpireStep(305));
            && t.status == TaskFailed
            && DoAll(t, steps).status == TaskFailed
            && |DoAll(t, steps).rows| == 2 && DoAll(t, steps).rows[1].status == Sent
  {
    var created := Created(true, [true, true], [0, 10]);
    assert Overdue(created.rows[0], 305 - UPGRADE_TIMEOUT_SECONDS);
    var t := Do(created, ExpireStep(305));
    assert t.rows[1] == created.rows[1];
    LeftBehind(t, steps, 1);
  }

  // ---------------------------------------------------------------------
  // The timeout decides on what it has read
  // ---------------------------------------------------------------------

  /** With nothing in between, the timeout is the atomic step of the runs above. */
  lemma LateIsExpired(t: Task, now: int)
    ensures ExpiredLate(t, t, now) == Expired(t, now)
  {
  }

  lemma {:induction false} RowCountStays(t: Task, steps: seq<Step>)
    ensures |DoAll(t, steps).rows| == |t.rows| && DoAll(t, steps).isUpgrade == t.isUpgrade
  {
    if steps != [] {
      RowCountStays(t, steps[..|steps| - 1]);
    }
  }

  /** A second lost completion: whatever happens between reading and writing, a row that
      succeeded in between reads "timeout" afterwards if and only if the timeout acts
      and the row was overdue when read; and a task that completed in between fails if
      and only if the timeout acts, that is, if some row was overdue when read. */
  lemma LateTimeoutLosesIff(t: Task, steps: seq<Step>, now: int)
    requires t.isUpgrade && t.status == TaskRunning
    ensures var t1 := DoAll(t, steps);
            var cutoff := now - UPGRADE_TIMEOUT_SECONDS;
            && |t1.rows| == |t.rows|
            && (forall i :: 0 <= i < |t.rows| && t1.rows[i].status == Succeeded ==>
                  (ExpiredLate(t, t1, now).rows[i].status == Timeout <==> Overdue(t.rows[i], cutoff)))
            && (t1.status == TaskCompleted ==>
                  (ExpiredLate(t, t1, now).status == TaskFailed <==> exists i :: 0 <= i < |t.rows| && Overdue(t.rows[i], cutoff)))
  {
    hide DoAll;
    RowCountStays(t, steps);
    var cutoff := now - UPGRADE_TIMEOUT_SECONDS;
    if exists i :: 0 <= i < |t.rows| && Overdue(t.rows[i], cutoff) {
      var i :| 0 <= i < |t.rows| && Overdue(t.rows[i], cutoff);
    }
  }

  /** An upgrade that reports success while its timeout is being decided. */
  lemma CompletionIsTimedOut()
    ensures var t := Created(true, [true], [0]);
            var t1 := Do(t, ReportStep(0, Succeeded, 301));
            && t1.status == TaskCompleted && |t1.rows| == |t.rows|
            && ExpiredLate(t, t1, 301).status == TaskFailed && ExpiredLate(t, t1, 301).rows[0].status == Timeout
  {
    var t := Created(true, [true], [0]);
    var step := ReportStep(0, Succeeded, 301);
    assert Overdue(t.rows[0], 301 - UPGRADE_TIMEOUT_SECONDS);
    AggregateIsVerdict(AfterReport(t.rows, step));
    assert AfterReport(t.rows, step)[0].status == Succeeded;
    assert Do(t, step) == Synced(t.(rows := AfterReport(t.rows, step)));
  }

  // ---------------------------------------------------------------------
  // Row by row
  // ---------------------------------------------------------------------

  /** Which rows a timeout marks: those of a running upgrade that are still open and were
      sent more than 300 seconds ago; it stamps them and leaves all else as it was, and
      the task fails if there are any. */
  lemma TimeoutRows(t: Task, now: int)
    ensures var t' := Expired(t, now);
            && |t'.rows| == |t.rows| && t'.isUpgrade == t.isUpgrade
            && (forall i :: 0 <= i < |t.rows| ==>
                  t'.rows[i] == if t.isUpgrade && t.status == TaskRunning && t.rows[i].status in {Sent, Pending}
                                   && t.rows[i].startedAt.Some? && now - t.rows[i].startedAt.value > 300
                                then Row(Timeout, t.rows[i].startedAt, Some(now)) else t.rows[i])
            && t'.status == if exists i :: 0 <= i < |t.rows| && t'.rows[i] != t.rows[i] then TaskFailed else t.status
  {
    var t' := Expired(t, now);
    var cutoff := now - UPGRADE_TIMEOUT_SECONDS;
    if t.isUpgrade && t.status == TaskRunning && exists i :: 0 <= i < |t.rows| && Overdue(t.rows[i], cutoff) {
      var i :| 0 <= i < |t.rows| && Overdue(t.rows[i], cutoff);
      assert t'.rows[i] != t.rows[i];
    }
  }

  /** Which rows a cancel marks: those of an open task that are still pending or sent; a
      finished task is refused. */
  lemma CancelRows(t: Task, now: int)
    ensures CancelledTask(t, now).Success? <==> t.status == TaskPending || t.status == TaskRunning
    ensures CancelledTask(t, now).Success? ==>
              var t' := CancelledTask(t, now).value;
              && t'.status == TaskCancelled && t'.isUpgrade == t.isUpgrade && |t'.rows| == |t.rows|
              && forall i :: 0 <= i < |t.rows| ==>
                   t'.rows[i] == if t.rows[i].status == Pending || t.rows[i].status == Sent
                                 then Row(RowStatus.Cancelled, t.rows[i].startedAt, Some(now)) else t.rows[i]
  {
  }

  /** A report writes and stamps its own row and no other; the task then has the verdict
      of its rows if all are settled, and its old status if not. */
  lemma ReportRows(t: Task, i: nat, status: RowStatus, now: int)
    requires i < |t.rows|
    ensures var t' := Reported(t, i, status, now);
            && t'.isUpgrade == t.isUpgrade && |t'.rows| == |t.rows|
            && t'.rows[i] == Row(status, t.rows[i].startedAt, Some(now))
            && (forall k :: 0 <= k < |t.rows| && k != i ==> t'.rows[k] == t.rows[k])
            && t'.status == if forall k :: 0 <= k < |t.rows| ==> Settled(t'.rows[k].status) then Verdict(t'.rows) else t.status
  {
    AggregateIsVerdict(t.rows[i := t.rows[i].(status := status, finishedAt := Some(now))]);
  }

  /** A created task: a command that went out is sent and stamped as started, another one
      failed and stamped as finished, and the task is running if any went out. */
  lemma CreatedRows(isUpgrade: bool, outcomes: seq<bool>, times: seq<int>)
    requires |times| == |outcomes|
    ensures var t := Created(isUpgrade, outcomes, times);
            && t.isUpgrade == isUpgrade && |t.rows| == |outcomes|
            && (forall i :: 0 <= i < |outcomes| ==>
                  t.rows[i] == if outcomes[i] then Row(Sent, Some(times[i]), None) else Row(Failed, None, Some(times[i])))
            && t.status == if exists i :: 0 <= i < |outcomes| && outcomes[i] then TaskRunning else TaskFailed
  {
  }
}
