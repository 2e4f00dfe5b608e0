/** The reports of one task as concurrent agent handlers really make them: each
    handler commits its own row, reads all rows, and writes the task status in
    three separate steps, and the dispatcher that created the task commits its
    own two writes somewhere in between.

    A handler's read returns its own row as the handler wrote it, since the row is
    still held by the handler's database session, and every other row as stored. */
module TaskProtocol {
  import opened Wrappers
  import opened Tasks

  /** One created task: what the dispatcher found for every row (Sent or Failed),
      and the reports that will come, each for a row that was sent. */
  datatype Plan = Plan(dispatched: seq<RowStatus>, reports: map<nat, RowStatus>)

  predicate ValidPlan(p: Plan) {
    && (forall i :: 0 <= i < |p.dispatched| ==> p.dispatched[i] in {Sent, Failed})
    && (forall i :: i in p.reports ==> i < |p.dispatched| && p.dispatched[i] == Sent)
  }

  datatype Phase = Sending | Dispatched | Closed

  datatype Handler = Idle | Committed | Saw(seen: seq<RowStatus>) | Finished

  /** early records which handlers committed before the dispatcher did, and decisive
      which ones read the rows when no other report was missing any more. */
  datatype State = State(rows: seq<RowStatus>, parent: TaskStatus, phase: Phase, handlers: map<nat, Handler>,
                         early: set<nat>, decisive: set<nat>)

  ghost predicate Init(p: Plan, s: State) {
    && s.rows == seq(|p.dispatched|, _ => Pending)
    && s.parent == TaskRunning
    && s.phase == Sending
    && s.handlers.Keys == p.reports.Keys
    && (forall i :: i in s.handlers ==> s.handlers[i] == Idle)
    && s.early == {}
    && s.decisive == {}
  }

  datatype Action = CommitRow(i: nat) | ReadRows(i: nat) | WriteParent(i: nat) | CommitDispatch | CloseDispatch

  predicate Enabled(p: Plan, s: State, a: Action) {
    match a
    case CommitRow(i) => i in s.handlers && i in p.reports && i < |s.rows| && s.handlers[i] == Idle
    case ReadRows(i) => i in s.handlers && i in p.reports && i < |s.rows| && s.handlers[i] == Committed
    case WriteParent(i) => i in s.handlers && s.handlers[i].Saw?
    case CommitDispatch => s.phase == Sending
    case CloseDispatch => s.phase == Dispatched
  }

  predicate HasCommitted(s: State, i: nat) {
    i in s.handlers && s.handlers[i] != Idle
  }

  /** What a reading handler i has to find: before the dispatch commit every row
      reported, after it every other sent row reported and not overwritten. */
  predicate ReadsAll(p: Plan, s: State, i: nat) {
    if s.phase == Sending then forall k :: 0 <= k < |p.dispatched| ==> HasCommitted(s, k)
    else forall k :: 0 <= k < |p.dispatched| && k != i && p.dispatched[k] == Sent ==> HasCommitted(s, k) && k !in s.early
  }

  function Execute(p: Plan, s: State, a: Action): State
    requires Enabled(p, s, a)
  {
    match a
    case CommitRow(i) =>
      s.(rows := s.rows[i := p.reports[i]], handlers := s.handlers[i := Committed],
      early := if s.phase == Sending then s.early + {i} else s.early)
    case ReadRows(i) =>
      s.(handlers := s.handlers[i := Saw(s.rows[i := p.reports[i]])],
      decisive := if ReadsAll(p, s, i) then s.decisive + {i} else s.decisive)
    case WriteParent(i) =>
      var final := Aggregate(s.handlers[i].seen);
      s.(parent := if final.Some? then final.value else s.parent, handlers := s.handlers[i := Finished])
    case CommitDispatch =>
      s.(rows := p.dispatched, phase := Dispatched)
    case CloseDispatch =>
      s.(parent := if Sent in p.dispatched then s.parent else TaskFailed, phase := Closed)
  }

  /** The state after a run of actions, or None when one of them was not enabled. */
  function Run(p: Plan, s: State, actions: seq<Action>): Option<State> {
    if actions == [] then Some(s)
    else
      var before := Run(p, s, actions[..|actions| - 1]);
      var a := actions[|actions| - 1];
      if before.Some? && Enabled(p, before.value, a) then Some(Execute(p, before.value, a)) else None
  }

  predicate Complete(s: State) {
    && s.phase == Closed
    && forall i :: i in s.handlers ==> s.handlers[i] == Finished
  }

  function FinalOf(p: Plan, i: nat): RowStatus
    requires i < |p.dispatched|
  {
    if i in p.reports then p.reports[i] else p.dispatched[i]
  }

  /** The rows once every report has arrived. */
  function Finals(p: Plan): seq<RowStatus> {
    seq(|p.dispatched|, i requires 0 <= i < |p.dispatched| => FinalOf(p, i))
  }

  /** The status those rows add up to. */
  function Outcome(p: Plan): TaskStatus {
    if Sent !in p.dispatched then TaskFailed
    else if Aggregate(Finals(p)).Some? then Aggregate(Finals(p)).value
    else TaskRunning
  }

  /** What row i can hold or be seen to hold at all. */
  predicate Possible(p: Plan, i: nat, status: RowStatus)
    requires i < |p.dispatched|
  {
    status == Pending || status == p.dispatched[i] || status == FinalOf(p, i)
  }

  ghost predicate Shape(p: Plan, s: State) {
    && |s.rows| == |p.dispatched|
    && s.handlers.Keys == p.reports.Keys
  }

  ghost predicate Safe(p: Plan, s: State)
    requires ValidPlan(p)
  {
    && Shape(p, s)
    && s.early <= p.reports.Keys
    && (forall i :: 0 <= i < |s.rows| ==> Possible(p, i, s.rows[i]))
    && (forall h :: h in s.handlers && s.handlers[h].Saw? ==>
          && |s.handlers[h].seen| == |p.dispatched|
          && forall i :: 0 <= i < |p.dispatched| ==> Possible(p, i, s.handlers[h].seen[i]))
  }

  ghost predicate ParentSafe(p: Plan, s: State)
    requires ValidPlan(p)
  {
    && (s.parent == TaskRunning || s.parent == Outcome(p))
    && (s.phase == Closed && Sent !in p.dispatched ==> s.parent == TaskFailed)
  }

  /** Rows seen to be all settled are the final rows. */
  lemma SettledIsFinal(p: Plan, seen: seq<RowStatus>)
    requires ValidPlan(p) && |seen| == |p.dispatched|
    requires forall i :: 0 <= i < |seen| ==> Possible(p, i, seen[i])
    requires AllSettled(seen)
    ensures seen == Finals(p)
  {
  }

  lemma SafeStep(p: Plan, s: State, a: Action)
    requires ValidPlan(p) && Safe(p, s) && Enabled(p, s, a)
    ensures Safe(p, Execute(p, s, a))
  {
  }

  lemma ParentSafeStep(p: Plan, s: State, a: Action)
    requires ValidPlan(p) && Safe(p, s) && ParentSafe(p, s) && Enabled(p, s, a)
    ensures ParentSafe(p, Execute(p, s, a))
  {
    if a.WriteParent? {
      var seen := s.handlers[a.i].seen;
      if Aggregate(seen).Some? {
        AggregateRule(seen);
        SettledIsFinal(p, seen);
        assert p.dispatched[a.i] == Sent;
      }
    }
  }

  lemma {:induction false} SafeRun(p: Plan, s: State, actions: seq<Action>)
    requires ValidPlan(p) && Init(p, s) && Run(p, s, actions).Some?
    ensures Safe(p, Run(p, s, actions).value) && ParentSafe(p, Run(p, s, actions).value)
  {
    if actions != [] {
      SafeRun(p, s, actions[..|actions| - 1]);
      SafeStep(p, Run(p, s, actions[..|actions| - 1]).value, actions[|actions| - 1]);
      ParentSafeStep(p, Run(p, s, actions[..|actions| - 1]).value, actions[|actions| - 1]);
    }
  }

  /** Even with the dispatcher racing the reports, the task status is only ever
      running or the status of the final rows. */
  lemma ParentIsRunningOrFinal(p: Plan, s: State, actions: seq<Action>)
    requires ValidPlan(p) && Init(p, s) && Run(p, s, actions).Some?
    ensures Run(p, s, actions).value.parent in {TaskRunning, Outcome(p)}
  {
    SafeRun(p, s, actions);
  }

  // ---------------------------------------------------------------------
  // Reports after the dispatch commit
  // ---------------------------------------------------------------------

  predicate Done(s: State, i: nat)
    requires i in s.handlers
  {
    s.handlers[i] != Idle
  }

  /** What was seen settled is still so. */
  predicate StillSo(seen: seq<RowStatus>, rows: seq<RowStatus>) {
    && |seen| == |rows|
    && forall i :: 0 <= i < |rows| && Settled(seen[i]) ==> rows[i] == seen[i]
  }

  /** The rows while no handler has committed before the dispatcher. */
  ghost predicate InOrder(p: Plan, s: State)
    requires Shape(p, s)
  {
    && (s.phase == Sending ==>
          && s.parent == TaskRunning
          && (forall h :: h in s.handlers ==> s.handlers[h] == Idle))
    && (s.phase != Sending ==>
          forall i :: 0 <= i < |s.rows| ==>
            s.rows[i] == if i in s.handlers && Done(s, i) then p.reports[i] else p.dispatched[i])
    && (forall h :: h in s.handlers && s.handlers[h].Saw? ==> StillSo(s.handlers[h].seen, s.rows))
    && (s.parent != TaskRunning ==> AllSettled(s.rows))
  }

  /** Some handler still has to read the final rows, or to act on them, or has done so. */
  ghost predicate Witness(p: Plan, s: State, w: int)
    requires ValidPlan(p)
  {
    && w in s.handlers
    && (|| s.handlers[w] == Committed
        || s.handlers[w] == Saw(Finals(p))
        || (s.handlers[w] == Finished && s.parent == Outcome(p)))
  }

  ghost predicate SomeoneWillFinish(p: Plan, s: State)
    requires ValidPlan(p)
  {
    AllCommitted(s) ==> exists w :: Witness(p, s, w)
  }

  lemma CommitRowInOrder(p: Plan, s: State, i: nat, s': State)
    requires ValidPlan(p) && Shape(p, s) && InOrder(p, s) && Shape(p, s')
    requires i in p.reports && i < |s.rows| && s.handlers[i] == Idle && s.phase != Sending
    requires s' == s.(rows := s.rows[i := p.reports[i]], handlers := s.handlers[i := Committed])
    ensures InOrder(p, s')
  {
    assert s.rows[i] == Sent;
    forall h | h in s'.handlers && s'.handlers[h].Saw?
      ensures StillSo(s'.handlers[h].seen, s'.rows)
    {
      assert s'.handlers[h] == s.handlers[h];
      assert !Settled(s.handlers[h].seen[i]);
    }
  }

  lemma ReadRowsInOrder(p: Plan, s: State, i: nat, s': State)
    requires ValidPlan(p) && Shape(p, s) && InOrder(p, s) && Shape(p, s')
    requires i in p.reports && i < |s.rows| && s.handlers[i] == Committed
    requires s' == s.(handlers := s.handlers[i := Saw(s.rows[i := p.reports[i]])], decisive := s'.decisive)
    ensures InOrder(p, s')
  {
    assert s.rows[i := p.reports[i]] == s.rows;
    assert forall h :: h in s.handlers && h != i ==> s'.handlers[h] == s.handlers[h];
  }

  lemma SeenSettled(p: Plan, s: State, i: nat)
    requires Shape(p, s) && InOrder(p, s) && i in s.handlers && s.handlers[i].Saw?
    ensures Aggregate(s.handlers[i].seen).Some? ==> AllSettled(s.rows)
  {
    var seen := s.handlers[i].seen;
    if Aggregate(seen).Some? {
      AggregateRule(seen);
      assert StillSo(seen, s.rows);
    }
  }

  lemma WriteParentInOrder(p: Plan, s: State, i: nat, parent: TaskStatus, s': State)
    requires Shape(p, s) && InOrder(p, s) && Shape(p, s')
    requires i in s.handlers && s.handlers[i].Saw?
    requires parent == s.parent || AllSettled(s.rows)
    requires s' == s.(parent := parent, handlers := s.handlers[i := Finished])
    ensures InOrder(p, s')
  {
    assert forall h :: h in s.handlers && h != i ==> s'.handlers[h] == s.handlers[h];
  }

  lemma DispatchInOrder(p: Plan, s: State, a: Action)
    requires ValidPlan(p) && Shape(p, s) && Enabled(p, s, a) && InOrder(p, s)
    requires a == CommitDispatch || a == CloseDispatch
    requires Shape(p, Execute(p, s, a))
    ensures InOrder(p, Execute(p, s, a))
  {
    if a == CloseDispatch && Sent !in p.dispatched {
      assert forall i :: 0 <= i < |p.dispatched| ==> p.dispatched[i] == Failed;
    }
  }

  lemma InOrderStep(p: Plan, s: State, a: Action)
    requires ValidPlan(p) && Safe(p, s) && Enabled(p, s, a)
    requires InOrder(p, s) && Execute(p, s, a).early == {}
    ensures Safe(p, Execute(p, s, a)) && InOrder(p, Execute(p, s, a))
  {
    SafeStep(p, s, a);
    var s' := Execute(p, s, a);
    match a
    case CommitRow(i) =>
      assert s.phase == Sending ==> i in s'.early;
      CommitRowInOrder(p, s, i, s');
    case ReadRows(i) => ReadRowsInOrder(p, s, i, s');
    case WriteParent(i) =>
      SeenSettled(p, s, i);
      WriteParentInOrder(p, s, i, s'.parent, s');
    case CommitDispatch => DispatchInOrder(p, s, a);
    case CloseDispatch => DispatchInOrder(p, s, a);
  }

  ghost predicate AllCommitted(s: State) {
    s.phase != Sending && s.handlers.Keys != {} && forall h :: h in s.handlers ==> s.handlers[h] != Idle
  }

  lemma WitnessStays(p: Plan, s: State, i: nat, w: int)
    requires ValidPlan(p) && Safe(p, s) && ParentSafe(p, s) && Enabled(p, s, WriteParent(i)) && Witness(p, s, w)
    ensures Witness(p, Execute(p, s, WriteParent(i)), w)
  {
    var seen := s.handlers[i].seen;
    assert p.dispatched[i] == Sent;
    if Aggregate(seen).Some? {
      AggregateRule(seen);
      SettledIsFinal(p, seen);
    }
  }

  lemma WitnessReads(p: Plan, s: State, i: nat, w: int)
    requires ValidPlan(p) && Enabled(p, s, ReadRows(i)) && Witness(p, s, w)
    requires s.rows == Finals(p)
    ensures Witness(p, Execute(p, s, ReadRows(i)), w)
  {
    hide Aggregate;
    assert s.rows[i := p.reports[i]] == s.rows;
  }

  lemma CommittedBefore(p: Plan, s: State, a: Action)
    requires Shape(p, s) && InOrder(p, s) && Enabled(p, s, a) && !a.CommitRow?
    requires AllCommitted(Execute(p, s, a))
    ensures AllCommitted(s)
  {
    var s' := Execute(p, s, a);
    assert s'.handlers.Keys == s.handlers.Keys;
    assert forall h :: h in s.handlers ==> s'.handlers[h] != Idle && s.handlers[h] != Idle;
    var h := Pick(s.handlers.Keys);
    assert s.handlers[h] != Idle;
  }

  lemma WitnessStep(p: Plan, s: State, a: Action)
    requires ValidPlan(p) && Safe(p, s) && Enabled(p, s, a)
    requires ParentSafe(p, s) && InOrder(p, s) && SomeoneWillFinish(p, s)
    requires AllCommitted(Execute(p, s, a))
    ensures exists w :: Witness(p, Execute(p, s, a), w)
  {
    if a.CommitRow? {
      assert Witness(p, Execute(p, s, a), a.i);
    } else {
      CommittedBefore(p, s, a);
      var w :| Witness(p, s, w);
      if a.ReadRows? {
        AllDoneIsFinal(p, s);
        WitnessReads(p, s, a.i, w);
      } else if a.WriteParent? {
        WitnessStays(p, s, a.i, w);
      } else {
        WitnessDispatch(p, s, a, w);
      }
    }
  }

  lemma WitnessDispatch(p: Plan, s: State, a: Action, w: int)
    requires ValidPlan(p) && Shape(p, s) && Enabled(p, s, a) && Witness(p, s, w)
    requires a == CommitDispatch || a == CloseDispatch
    ensures Witness(p, Execute(p, s, a), w)
  {
    assert w in p.reports && p.dispatched[w] == Sent;
  }

  lemma AllDoneIsFinal(p: Plan, s: State)
    requires Shape(p, s) && InOrder(p, s) && s.phase != Sending
    requires forall h :: h in s.handlers ==> s.handlers[h] != Idle
    ensures s.rows == Finals(p)
  {
  }

  lemma EarlyOnlyGrows(p: Plan, s: State, a: Action)
    requires Enabled(p, s, a)
    ensures s.early <= Execute(p, s, a).early
  {
  }

  ghost predicate Good(p: Plan, s: State)
    requires ValidPlan(p)
  {
    Safe(p, s) && ParentSafe(p, s) && InOrder(p, s) && SomeoneWillFinish(p, s)
  }

  lemma GoodStep(p: Plan, s: State, a: Action)
    requires ValidPlan(p) && Good(p, s) && Enabled(p, s, a) && Execute(p, s, a).early == {}
    ensures Good(p, Execute(p, s, a))
  {
    var s' := Execute(p, s, a);
    InOrderStep(p, s, a);
    ParentSafeStep(p, s, a);
    if AllCommitted(s') {
      WitnessStep(p, s, a);
    }
  }

  lemma GoodInit(p: Plan, s: State)
    requires ValidPlan(p) && Init(p, s)
    ensures Good(p, s)
  {
  }

  lemma {:induction false} GoodRun(p: Plan, s: State, actions: seq<Action>)
    requires ValidPlan(p) && Init(p, s) && Run(p, s, actions).Some?
    requires Run(p, s, actions).value.early == {}
    ensures Good(p, Run(p, s, actions).value)
  {
    if actions == [] {
      GoodInit(p, s);
    } else {
      var prefix, a := actions[..|actions| - 1], actions[|actions| - 1];
      EarlyOnlyGrows(p, Run(p, s, prefix).value, a);
      GoodRun(p, s, prefix);
      GoodStep(p, Run(p, s, prefix).value, a);
    }
  }

  /** No lost completion, safety: in every state of every interleaving in which no
      report overtook the dispatch commit, a task that left the running status has
      all its rows settled, and its status is what these rows add up to. */
  lemma NeverFinalTooEarly(p: Plan, s: State, actions: seq<Action>)
    requires ValidPlan(p) && Init(p, s) && Run(p, s, actions).Some?
    ensures var s' := Run(p, s, actions).value;
            s'.early == {} && s'.parent != TaskRunning ==>
              AllSettled(s'.rows) && s'.parent == (if s'.rows == [] then TaskFailed else Aggregate(s'.rows).value)
  {
    var s' := Run(p, s, actions).value;
    SafeRun(p, s, actions);
    if s'.early == {} && s'.parent != TaskRunning {
      GoodRun(p, s, actions);
      SettledIsFinal(p, s'.rows);
      if s'.rows != [] {
        AggregateRule(s'.rows);
        if Sent !in p.dispatched {
          assert Finals(p)[0] == Failed;
        }
      }
    }
  }

  /** No lost completion, at the end: whatever the order, once all handlers and the
      dispatcher have finished the rows are the final rows and the task has their
      status, provided no report overtook the dispatch commit. */
  lemma NoLostCompletion(p: Plan, s: State, actions: seq<Action>)
    requires ValidPlan(p) && Init(p, s) && Run(p, s, actions).Some?
    ensures var s' := Run(p, s, actions).value;
            Complete(s') && s'.early == {} ==> s'.rows == Finals(p) && s'.parent == Outcome(p)
  {
    var s' := Run(p, s, actions).value;
    SafeRun(p, s, actions);
    if Complete(s') && s'.early == {} {
      GoodRun(p, s, actions);
      AllDoneIsFinal(p, s');
      if Sent in p.dispatched {
        if p.reports.Keys != {} {
          var w :| Witness(p, s', w);
        } else {
          var i :| 0 <= i < |p.dispatched| && p.dispatched[i] == Sent;
          assert Finals(p)[i] == Sent;
          AggregateRule(Finals(p));
        }
      }
    }
  }

  /** When every sent command is answered with success or failed: completed if all rows succeeded, failed otherwise. */
  lemma OutcomeOfReports(p: Plan)
    requires ValidPlan(p) && p.dispatched != []
    requires forall i :: 0 <= i < |p.dispatched| && p.dispatched[i] == Sent ==> i in p.reports && p.reports[i] in {Succeeded, Failed}
    ensures Outcome(p) ==
            if forall i :: 0 <= i < |p.dispatched| ==> i in p.reports && p.reports[i] == Succeeded then TaskCompleted else TaskFailed
  {
    AggregateRule(Finals(p));
    if Sent !in p.dispatched {
      assert p.dispatched[0] == Failed;
    } else if exists i :: 0 <= i < |p.dispatched| && !(i in p.reports && p.reports[i] == Succeeded) {
      var i :| 0 <= i < |p.dispatched| && !(i in p.reports && p.reports[i] == Succeeded);
      assert Finals(p)[i] == Failed;
    }
  }

  // ---------------------------------------------------------------------
  // The race with the dispatch commit
  // ---------------------------------------------------------------------

  ghost predicate Overwritten(p: Plan, s: State)
    requires ValidPlan(p) && Shape(p, s) && s.early <= p.reports.Keys
  {
    && (s.phase == Sending ==> s.early == set h | h in s.handlers && Done(s, h))
    && (forall h :: h in s.early ==> s.handlers[h] != Idle)
    && (s.phase != Sending ==> forall i :: i in s.early ==> s.rows[i] == p.dispatched[i])
    && (s.phase != Sending ==> forall i :: i in s.handlers && Done(s, i) && i !in s.early ==> s.rows[i] == p.reports[i])
    && (s.phase != Sending ==> forall i :: 0 <= i < |s.rows| && !(i in s.handlers && Done(s, i)) ==> s.rows[i] == p.dispatched[i])
  }

  lemma OverwrittenCommit(p: Plan, s: State, i: nat)
    requires ValidPlan(p) && Safe(p, s) && Enabled(p, s, CommitRow(i)) && Overwritten(p, s)
    requires Safe(p, Execute(p, s, CommitRow(i)))
    ensures Overwritten(p, Execute(p, s, CommitRow(i)))
  {
    assert i !in s.early;
  }

  lemma OverwrittenDispatch(p: Plan, s: State)
    requires ValidPlan(p) && Safe(p, s) && Enabled(p, s, CommitDispatch) && Overwritten(p, s)
    requires Safe(p, Execute(p, s, CommitDispatch))
    ensures Overwritten(p, Execute(p, s, CommitDispatch))
  {
  }

  lemma OverwrittenStep(p: Plan, s: State, a: Action)
    requires ValidPlan(p) && Safe(p, s) && Enabled(p, s, a) && Overwritten(p, s)
    ensures Safe(p, Execute(p, s, a)) && Overwritten(p, Execute(p, s, a))
  {
    hide Aggregate;
    SafeStep(p, s, a);
    var s' := Execute(p, s, a);
    match a
    case CommitRow(i) => OverwrittenCommit(p, s, i);
    case CommitDispatch => OverwrittenDispatch(p, s);
    case ReadRows(i) =>
      assert forall h :: h in s.handlers ==> h in s'.handlers && (Done(s', h) <==> Done(s, h));
    case WriteParent(i) =>
      assert forall h :: h in s.handlers ==> h in s'.handlers && (Done(s', h) <==> Done(s, h));
    case CloseDispatch =>
  }

  lemma {:induction false} OverwrittenRun(p: Plan, s: State, actions: seq<Action>)
    requires ValidPlan(p) && Init(p, s) && Run(p, s, actions).Some?
    ensures Safe(p, Run(p, s, actions).value) && Overwritten(p, Run(p, s, actions).value)
  {
    SafeRun(p, s, actions);
    if actions != [] {
      OverwrittenRun(p, s, actions[..|actions| - 1]);
      OverwrittenStep(p, Run(p, s, actions[..|actions| - 1]).value, actions[|actions| - 1]);
    }
  }

  /** The exact condition: at the end every report is still in its row if and only
      if no handler committed before the dispatcher did. An early report is
      overwritten with "sent", and nobody will settle that row again. */
  lemma ReportsSurviveIff(p: Plan, s: State, actions: seq<Action>)
    requires ValidPlan(p) && Init(p, s) && Run(p, s, actions).Some?
    requires forall i :: i in p.reports ==> Settled(p.reports[i])
    ensures var s' := Run(p, s, actions).value;
            Complete(s') ==>
              && (s'.rows == Finals(p) <==> s'.early == {})
              && (forall i :: i in s'.early ==> i < |s'.rows| && s'.rows[i] == Sent)
  {
    var s' := Run(p, s, actions).value;
    OverwrittenRun(p, s, actions);
    if Complete(s') && s'.early == {} {
      NoLostCompletion(p, s, actions);
    }
    if Complete(s') && s'.early != {} {
      var i := Pick(s'.early);
      assert s'.rows[i] == Sent && Finals(p)[i] == p.reports[i];
    }
  }

  // ---- when the task gets its status ----

  /** Every command that goes out is answered, with a settled status. */
  ghost predicate AllAnswered(p: Plan) {
    forall i :: 0 <= i < |p.dispatched| && p.dispatched[i] == Sent ==> i in p.reports && Settled(p.reports[i])
  }

  /** The rows before the dispatch commit. */
  ghost predicate Unsent(p: Plan, s: State)
    requires Shape(p, s)
  {
    s.phase == Sending ==>
      forall i :: 0 <= i < |s.rows| ==> s.rows[i] == if HasCommitted(s, i) then p.reports[i] else Pending
  }

  /** The decisive handlers that have written. */
  ghost function Acted(s: State): set<nat> {
    set h | h in s.decisive && h in s.handlers && s.handlers[h] == Finished
  }

  ghost predicate Everyone(p: Plan, s: State) {
    forall i :: 0 <= i < |p.dispatched| && (s.phase == Sending || p.dispatched[i] == Sent) ==> HasCommitted(s, i)
  }

  ghost predicate Decided(p: Plan, s: State)
    requires ValidPlan(p) && Shape(p, s)
  {
    && (forall h :: h in s.decisive ==> h in s.handlers && (s.handlers[h].Saw? || s.handlers[h] == Finished))
    && (forall h :: h in s.handlers && s.handlers[h].Saw? ==> (h in s.decisive <==> AllSettled(s.handlers[h].seen)))
    && (s.decisive != {} ==> Everyone(p, s))
    && (Acted(s) != {} ==> s.parent == Outcome(p))
    && (s.parent != TaskRunning ==> Acted(s) != {} || (s.phase == Closed && Sent !in p.dispatched))
  }

  ghost predicate Tracked(p: Plan, s: State)
    requires ValidPlan(p)
  {
    Safe(p, s) && ParentSafe(p, s) && Overwritten(p, s) && Unsent(p, s) && Decided(p, s)
  }

  lemma UnsentStep(p: Plan, s: State, a: Action)
    requires ValidPlan(p) && Shape(p, s) && Unsent(p, s) && Enabled(p, s, a) && Shape(p, Execute(p, s, a))
    ensures Unsent(p, Execute(p, s, a))
  {
    hide Aggregate;
  }

  /** A handler sees everything settled exactly when it reads at such a time. */
  lemma SeesSettledIff(p: Plan, s: State, i: nat)
    requires ValidPlan(p) && AllAnswered(p) && Safe(p, s) && Overwritten(p, s) && Unsent(p, s)
    requires Enabled(p, s, ReadRows(i))
    ensures AllSettled(s.rows[i := p.reports[i]]) <==> ReadsAll(p, s, i)
  {
    var seen := s.rows[i := p.reports[i]];
    if AllSettled(seen) {
      forall k | 0 <= k < |p.dispatched| && k != i && p.dispatched[k] == Sent ensures HasCommitted(s, k) && (s.phase != Sending ==> k !in s.early) {
        assert Settled(seen[k]) && seen[k] == s.rows[k];
      }
      forall k | 0 <= k < |p.dispatched| && s.phase == Sending ensures HasCommitted(s, k) {
        assert Settled(seen[k]) && (k != i ==> seen[k] == s.rows[k]);
      }
    }
  }

  lemma ReadDecides(p: Plan, s: State, i: nat, seen: seq<RowStatus>, s': State)
    requires ValidPlan(p) && Shape(p, s) && Decided(p, s) && i in s.handlers && s.handlers[i] == Committed
    requires (AllSettled(seen) <==> ReadsAll(p, s, i)) && (ReadsAll(p, s, i) ==> Everyone(p, s))
    requires s' == s.(handlers := s.handlers[i := Saw(seen)], decisive := if ReadsAll(p, s, i) then s.decisive + {i} else s.decisive)
    requires Shape(p, s')
    ensures Decided(p, s')
  {
    hide AllSettled, Outcome, ReadsAll, Everyone, Acted;
    assert forall h :: h in s.handlers && h != i ==> s'.handlers[h] == s.handlers[h];
    assert i !in s.decisive;
    ActedStays(s, s', i);
    EveryoneStays(p, s, s', i);
  }

  lemma ActedStays(s: State, s': State, i: nat)
    requires i in s.handlers && s.handlers[i] == Committed && i in s'.handlers && s'.handlers[i].Saw?
    requires s'.handlers == s.handlers[i := s'.handlers[i]] && s'.decisive - {i} == s.decisive - {i}
    ensures Acted(s') == Acted(s)
  {
    assert forall h :: h in s.handlers && h != i ==> s'.handlers[h] == s.handlers[h];
    assert forall h :: h != i ==> (h in s.decisive - {i} <==> h in s.decisive) && (h in s'.decisive - {i} <==> h in s'.decisive);
  }

  lemma EveryoneStays(p: Plan, s: State, s': State, i: nat)
    requires i in s.handlers && s'.phase == s.phase && i in s'.handlers
    requires s'.handlers == s.handlers[i := s'.handlers[i]] && s'.handlers[i] != Idle
    ensures Everyone(p, s) ==> Everyone(p, s')
  {
    assert forall k :: HasCommitted(s, k) ==> HasCommitted(s', k);
  }

  lemma WrittenStatus(p: Plan, s: State, i: nat)
    requires ValidPlan(p) && Tracked(p, s) && Enabled(p, s, WriteParent(i))
    ensures Execute(p, s, WriteParent(i)).parent == if i in s.decisive then Outcome(p) else s.parent
  {
    var seen := s.handlers[i].seen;
    assert p.dispatched[i] == Sent;
    AggregateRule(seen);
    if AllSettled(seen) {
      SettledIsFinal(p, seen);
    }
  }

  lemma WriteDecides(p: Plan, s: State, i: nat, s': State)
    requires ValidPlan(p) && Shape(p, s) && Decided(p, s) && i in s.handlers && s.handlers[i].Saw?
    requires s' == s.(parent := if i in s.decisive then Outcome(p) else s.parent, handlers := s.handlers[i := Finished])
    requires Shape(p, s')
    ensures Decided(p, s')
  {
    hide AllSettled, Outcome, Everyone, Acted;
    assert forall h :: h in s.handlers && h != i ==> s'.handlers[h] == s.handlers[h];
    ActedGrows(s, s', i);
    EveryoneStays(p, s, s', i);
  }

  lemma ActedGrows(s: State, s': State, i: nat)
    requires i in s.handlers && s.handlers[i].Saw? && s'.handlers == s.handlers[i := Finished] && s'.decisive == s.decisive
    ensures Acted(s') == Acted(s) + if i in s.decisive then {i} else {}
    ensures i in s.decisive ==> i in Acted(s')
  {
    assert forall h :: h in s.handlers && h != i ==> s'.handlers[h] == s.handlers[h];
  }

  lemma OtherDecides(p: Plan, s: State, a: Action)
    requires ValidPlan(p) && AllAnswered(p) && Tracked(p, s) && Enabled(p, s, a) && !a.ReadRows? && !a.WriteParent?
    requires Shape(p, Execute(p, s, a))
    ensures Decided(p, Execute(p, s, a))
  {
    hide Aggregate, AllSettled;
    var s' := Execute(p, s, a);
    if a.CommitRow? {
      assert forall h :: h in s.handlers && h != a.i ==> s'.handlers[h] == s.handlers[h];
    }
    assert Acted(s') == Acted(s);
    assert forall k :: HasCommitted(s, k) ==> HasCommitted(s', k);
  }

  lemma TrackedRead(p: Plan, s: State, i: nat)
    requires ValidPlan(p) && AllAnswered(p) && Tracked(p, s) && Enabled(p, s, ReadRows(i))
    requires Shape(p, Execute(p, s, ReadRows(i)))
    ensures Decided(p, Execute(p, s, ReadRows(i)))
  {
    hide Aggregate, Decided, Outcome;
    SeesSettledIff(p, s, i);
    ReadDecides(p, s, i, s.rows[i := p.reports[i]], Execute(p, s, ReadRows(i)));
  }

  lemma TrackedWrite(p: Plan, s: State, i: nat)
    requires ValidPlan(p) && Tracked(p, s) && Enabled(p, s, WriteParent(i))
    requires Execute(p, s, WriteParent(i)).parent == if i in s.decisive then Outcome(p) else s.parent
    requires Shape(p, Execute(p, s, WriteParent(i)))
    ensures Decided(p, Execute(p, s, WriteParent(i)))
  {
    hide Aggregate, Decided, Outcome;
    WriteDecides(p, s, i, Execute(p, s, WriteParent(i)));
  }

  lemma TrackedStep(p: Plan, s: State, a: Action)
    requires ValidPlan(p) && AllAnswered(p) && Tracked(p, s) && Enabled(p, s, a)
    ensures Tracked(p, Execute(p, s, a))
  {
    hide Execute, Enabled, ParentSafe, Unsent, Decided, Overwritten;
    OverwrittenStep(p, s, a);
    ParentSafeStep(p, s, a);
    UnsentStep(p, s, a);
    match a
    case ReadRows(i) => TrackedRead(p, s, i);
    case WriteParent(i) =>
      WrittenStatus(p, s, i);
      TrackedWrite(p, s, i);
    case _ => OtherDecides(p, s, a);
  }

  lemma {:induction false} TrackedRun(p: Plan, s: State, actions: seq<Action>)
    requires ValidPlan(p) && AllAnswered(p) && Init(p, s) && Run(p, s, actions).Some?
    ensures Tracked(p, Run(p, s, actions).value)
  {
    if actions != [] {
      TrackedRun(p, s, actions[..|actions| - 1]);
      TrackedStep(p, Run(p, s, actions[..|actions| - 1]).value, actions[|actions| - 1]);
    }
  }

  lemma OutcomeIsFinal(p: Plan)
    requires ValidPlan(p) && AllAnswered(p)
    ensures Outcome(p) != TaskRunning
  {
    if Sent in p.dispatched {
      AggregateRule(Finals(p));
      assert AllSettled(Finals(p));
    }
  }

  /** The exact condition for the task status, in every state of every interleaving
      in which all commands are answered: the task has left the running status if and
      only if some decisive handler has written, or nothing was sent and the
      dispatcher is done; and then it has the final status. At the end the task has
      its status if and only if nothing was sent or some handler read the rows when no
      other report was missing: before the dispatch commit every row reported, after
      it every other sent row reported and none overwritten. */
  lemma TaskStatusIff(p: Plan, s: State, actions: seq<Action>)
    requires ValidPlan(p) && AllAnswered(p) && Init(p, s) && Run(p, s, actions).Some?
    ensures var s' := Run(p, s, actions).value;
            && s'.parent in {TaskRunning, Outcome(p)} && Outcome(p) != TaskRunning
            && (s'.parent == Outcome(p) <==> Acted(s') != {} || (s'.phase == Closed && Sent !in p.dispatched))
            && (Complete(s') ==> (s'.parent == Outcome(p) <==> s'.decisive != {} || Sent !in p.dispatched))
  {
    hide Aggregate, Outcome;
    var s' := Run(p, s, actions).value;
    TrackedRun(p, s, actions);
    OutcomeIsFinal(p);
    if Complete(s') {
      assert Acted(s') == s'.decisive;
    }
  }

  /** The other failure of the race, in every state of every such interleaving: the
      task is final over a row that is not settled if and only if the dispatcher has
      overwritten an early report and a decisive handler has written. */
  lemma FinalOverOpenRowIff(p: Plan, s: State, actions: seq<Action>)
    requires ValidPlan(p) && AllAnswered(p) && Init(p, s) && Run(p, s, actions).Some?
    ensures var s' := Run(p, s, actions).value;
            && (s'.parent != TaskRunning && !AllSettled(s'.rows) <==>
                  s'.phase != Sending && s'.early != {} && Acted(s') != {})
            && (Complete(s') ==>
                  (s'.parent != TaskRunning && !AllSettled(s'.rows) <==> s'.early != {} && s'.decisive != {}))
  {
    hide Aggregate, Outcome;
    var s' := Run(p, s, actions).value;
    TrackedRun(p, s, actions);
    OutcomeIsFinal(p);
    if s'.phase != Sending && s'.early != {} {
      var i := Pick(s'.early);
      assert s'.rows[i] == Sent;
    }
    if Acted(s') != {} {
      var h := Pick(Acted(s'));
      assert Everyone(p, s');
    }
    if Complete(s') {
      assert Acted(s') == s'.decisive;
    }
  }

  /** A completion that is lost: of two devices the first answers before the
      dispatch commit, and the task runs forever although both succeeded. */
  lemma EarlyReportIsLost() returns (p: Plan, s: State, actions: seq<Action>)
    ensures ValidPlan(p) && Init(p, s) && Run(p, s, actions).Some?
    ensures var s' := Run(p, s, actions).value;
            && Complete(s')
            && Outcome(p) == TaskCompleted
            && s'.parent == TaskRunning
            && s'.rows == [Sent, Succeeded]
  {
    hide Aggregate, Run;
    p := Plan([Sent, Sent], map[0 := Succeeded, 1 := Succeeded]);
    s := State([Pending, Pending], TaskRunning, Sending, map[0 := Idle, 1 := Idle], {}, {});
    var s1 := s.(rows := [Succeeded, Pending], handlers := map[0 := Finished, 1 := Idle], early := {0});
    actions := FirstReport(p, s, s1);
    var s2 := s1.(rows := [Sent, Sent], phase := Dispatched);
    actions := Extend(p, s, actions, s1, CommitDispatch, s2);
    var s3 := s2.(rows := [Sent, Succeeded], handlers := map[0 := Finished, 1 := Finished]);
    actions := SecondReport(p, s, actions, s2, s3);
    actions := Extend(p, s, actions, s3, CloseDispatch, s3.(phase := Closed));
    AggregateRule([Succeeded, Succeeded]);
    assert Finals(p) == [Succeeded, Succeeded] && p.dispatched[0] == Sent;
  }

  lemma FirstReport(p: Plan, s: State, s1: State) returns (actions: seq<Action>)
    requires p == Plan([Sent, Sent], map[0 := Succeeded, 1 := Succeeded])
    requires s == State([Pending, Pending], TaskRunning, Sending, map[0 := Idle, 1 := Idle], {}, {})
    requires s1 == s.(rows := [Succeeded, Pending], handlers := map[0 := Finished, 1 := Idle], early := {0})
    ensures Run(p, s, actions) == Some(s1)
  {
    var seen := [Succeeded, Pending];
    AggregateRule(seen);
    assert !Settled(seen[1]) && s.rows[0 := Succeeded] == seen;
    assert Run(p, s, []) == Some(s);
    hide Aggregate, Run;
    actions := WholeReport(p, s, [], s, 0);
    assert !HasCommitted(Execute(p, s, CommitRow(0)), 1);
    assert !ReadsAll(p, Execute(p, s, CommitRow(0)), 0);
    assert s.handlers[0 := Finished] == s1.handlers && s.early + {0} == s1.early;
  }

  lemma SecondReport(p: Plan, s: State, before: seq<Action>, s2: State, s3: State) returns (actions: seq<Action>)
    requires p == Plan([Sent, Sent], map[0 := Succeeded, 1 := Succeeded])
    requires s2 == State([Sent, Sent], TaskRunning, Dispatched, map[0 := Finished, 1 := Idle], {0}, {})
    requires s3 == s2.(rows := [Sent, Succeeded], handlers := map[0 := Finished, 1 := Finished])
    requires Run(p, s, before) == Some(s2)
    ensures Run(p, s, actions) == Some(s3)
  {
    var seen := [Sent, Succeeded];
    AggregateRule(seen);
    assert !Settled(seen[0]) && s2.rows[1 := Succeeded] == seen;
    hide Aggregate, Run;
    actions := WholeReport(p, s, before, s2, 1);
    assert p.dispatched[0] == Sent && 0 in s2.early;
    assert !ReadsAll(p, Execute(p, s2, CommitRow(1)), 1);
    assert s2.handlers[1 := Finished] == s3.handlers;
  }

  /** An early report that completes its task, which stays completed over a row that
      reads "sent": the only device answers, and its handler finishes, before the
      dispatch commit. */
  lemma EarlyReportCompletes() returns (p: Plan, s: State, actions: seq<Action>)
    ensures ValidPlan(p) && Init(p, s) && Run(p, s, actions).Some?
    ensures var s' := Run(p, s, actions).value;
            Complete(s') && Outcome(p) == TaskCompleted && s'.parent == TaskCompleted && s'.rows == [Sent]
  {
    p := Plan([Sent], map[0 := Succeeded]);
    s := State([Pending], TaskRunning, Sending, map[0 := Idle], {}, {});
    var s1 := State([Succeeded], TaskCompleted, Sending, map[0 := Finished], {0}, {0});
    actions := OnlyReport(p, s, s1);
    hide Aggregate, Run;
    var s2 := s1.(rows := [Sent], phase := Dispatched);
    actions := Extend(p, s, actions, s1, CommitDispatch, s2);
    actions := Extend(p, s, actions, s2, CloseDispatch, s2.(phase := Closed));
    AggregateRule([Succeeded]);
    assert Finals(p) == [Succeeded] && p.dispatched[0] == Sent;
  }

  lemma OnlyReport(p: Plan, s: State, s1: State) returns (actions: seq<Action>)
    requires p == Plan([Sent], map[0 := Succeeded])
    requires s == State([Pending], TaskRunning, Sending, map[0 := Idle], {}, {})
    requires s1 == State([Succeeded], TaskCompleted, Sending, map[0 := Finished], {0}, {0})
    ensures Run(p, s, actions) == Some(s1)
  {
    AggregateRule([Succeeded]);
    assert s.rows[0 := Succeeded] == [Succeeded];
    assert Run(p, s, []) == Some(s);
    hide Aggregate, Run;
    actions := WholeReport(p, s, [], s, 0);
    assert s.handlers[0 := Finished] == s1.handlers && s.early + {0} == s1.early && s.decisive + {0} == s1.decisive;
  }

  /** The three steps of handler i in one go. */
  lemma WholeReport(p: Plan, init: State, before: seq<Action>, s: State, i: nat) returns (actions: seq<Action>)
    requires Run(p, init, before) == Some(s) && Enabled(p, s, CommitRow(i))
    ensures var seen := s.rows[i := p.reports[i]];
            var committed := Execute(p, s, CommitRow(i));
            Run(p, init, actions) == Some(s.(rows := seen,
                parent := if Aggregate(seen).Some? then Aggregate(seen).value else s.parent,
                handlers := s.handlers[i := Finished],
                early := committed.early,
                decisive := if ReadsAll(p, committed, i) then s.decisive + {i} else s.decisive))
  {
    hide Aggregate, Run, ReadsAll;
    var a := Execute(p, s, CommitRow(i));
    actions := Extend(p, init, before, s, CommitRow(i), a);
    var b := Execute(p, a, ReadRows(i));
    assert a.rows[i := p.reports[i]] == a.rows;
    actions := Extend(p, init, actions, a, ReadRows(i), b);
    actions := Extend(p, init, actions, b, WriteParent(i), Execute(p, b, WriteParent(i)));
    assert b.handlers[i := Finished] == s.handlers[i := Finished];
  }

  lemma Extend(p: Plan, s: State, actions: seq<Action>, current: State, a: Action, next: State) returns (longer: seq<Action>)
    requires Run(p, s, actions) == Some(current) && Enabled(p, current, a) && next == Execute(p, current, a)
    ensures longer == actions + [a] && Run(p, s, longer) == Some(next)
  {
    longer := actions + [a];
    assert longer[..|actions|] == actions;
  }

  // ---------------------------------------------------------------------
  // Every run ends
  // ---------------------------------------------------------------------

  ghost function ToCommit(s: State): set<nat> {
    set h | h in s.handlers && s.handlers[h] == Idle
  }

  ghost function ToRead(s: State): set<nat> {
    set h | h in s.handlers && (s.handlers[h] == Idle || s.handlers[h] == Committed)
  }

  ghost function ToFinish(s: State): set<nat> {
    set h | h in s.handlers && s.handlers[h] != Finished
  }

  /** The number of steps still to come. */
  ghost function Remaining(s: State): nat {
    |ToCommit(s)| + |ToRead(s)| + |ToFinish(s)|
    + match s.phase case Sending => 2 case Dispatched => 1 case Closed => 0
  }

  lemma EveryStepCounts(p: Plan, s: State, a: Action)
    requires Enabled(p, s, a)
    ensures Remaining(Execute(p, s, a)) == Remaining(s) - 1
  {
    var s' := Execute(p, s, a);
    if a.CommitRow? {
      CountCommit(s, s', a.i);
    } else if a.ReadRows? {
      CountRead(s, s', a.i, s.rows[a.i := p.reports[a.i]]);
    } else if a.WriteParent? {
      CountFinish(s, s', a.i);
    } else {
      assert s'.handlers == s.handlers;
    }
  }

  lemma CountCommit(s: State, s': State, i: nat)
    requires i in s.handlers && s.handlers[i] == Idle && s'.handlers == s.handlers[i := Committed]
    ensures |ToCommit(s')| == |ToCommit(s)| - 1 && ToRead(s') == ToRead(s) && ToFinish(s') == ToFinish(s)
  {
    assert i in ToCommit(s) && ToCommit(s') == ToCommit(s) - {i};
  }

  lemma CountRead(s: State, s': State, i: nat, seen: seq<RowStatus>)
    requires i in s.handlers && s.handlers[i] == Committed && s'.handlers == s.handlers[i := Saw(seen)]
    ensures ToCommit(s') == ToCommit(s) && |ToRead(s')| == |ToRead(s)| - 1 && ToFinish(s') == ToFinish(s)
  {
    assert i in ToRead(s) && ToRead(s') == ToRead(s) - {i};
  }

  lemma CountFinish(s: State, s': State, i: nat)
    requires i in s.handlers && s.handlers[i].Saw? && s'.handlers == s.handlers[i := Finished]
    ensures ToCommit(s') == ToCommit(s) && ToRead(s') == ToRead(s) && |ToFinish(s')| == |ToFinish(s)| - 1
  {
    assert i in ToFinish(s) && ToFinish(s') == ToFinish(s) - {i};
  }

  /** Every interleaving takes exactly three steps for each handler and two for the
      dispatcher; before that some step is always possible. */
  lemma {:induction false} EveryRunCompletes(p: Plan, s: State, actions: seq<Action>)
    requires ValidPlan(p) && Init(p, s) && Run(p, s, actions).Some?
    ensures var s' := Run(p, s, actions).value;
            && |actions| <= 3 * |p.reports| + 2
            && (|actions| == 3 * |p.reports| + 2 <==> Complete(s'))
            && (!Complete(s') ==> exists a :: Enabled(p, s', a))
  {
    var s' := Run(p, s, actions).value;
    SafeRun(p, s, actions);
    StepsTaken(p, s, actions);
    if Complete(s') {
      assert ToCommit(s') == {} && ToRead(s') == {} && ToFinish(s') == {};
    } else if s'.phase == Sending {
      assert Enabled(p, s', CommitDispatch);
    } else if s'.phase == Dispatched {
      assert Enabled(p, s', CloseDispatch);
    } else {
      var h :| h in s'.handlers && s'.handlers[h] != Finished;
      assert h in ToFinish(s');
      assert Enabled(p, s', CommitRow(h)) || Enabled(p, s', ReadRows(h)) || Enabled(p, s', WriteParent(h));
    }
  }

  lemma {:induction false} StepsTaken(p: Plan, s: State, actions: seq<Action>)
    requires ValidPlan(p) && Init(p, s) && Run(p, s, actions).Some?
    ensures Remaining(Run(p, s, actions).value) + |actions| == 3 * |p.reports| + 2
  {
    if actions == [] {
      assert ToCommit(s) == p.reports.Keys && ToRead(s) == p.reports.Keys && ToFinish(s) == p.reports.Keys;
    } else {
      StepsTaken(p, s, actions[..|actions| - 1]);
      EveryStepCounts(p, Run(p, s, actions[..|actions| - 1]).value, actions[|actions| - 1]);
    }
  }
}
