/** Cancelling a task while its dispatcher and its handlers are still at work: the
    steps of TaskProtocol, before them the commit that makes the task running, and
    any number of cancels. A cancel reads the task status and is refused or not; if
    it is not, it writes later, in a step of its own. */
module CancelRace {
  import opened Wrappers
  import opened Tasks
  import opened TaskProtocol

  /** When a cancel was written: whether the task had been made running, how far the
      dispatcher was, which handlers had committed and how many had written the task. */
  datatype Cancelling = Cancelling(started: bool, phase: Phase, reported: set<nat>, writes: nat)

  /** What the rows depend on: how far the dispatcher is, which handlers have committed,
      which of them before it, and the cancels so far. */
  datatype Schedule = Schedule(phase: Phase, committed: set<nat>, early: set<nat>, cancels: seq<Cancelling>)

  /** admitted counts the cancels that were not refused and have not written yet; views
      records the schedule at the time each handler read the rows, and written the
      handlers that have written the task, in that order. */
  datatype Situation = Situation(state: State, started: bool, admitted: nat, cancels: seq<Cancelling>,
                                 views: map<nat, Schedule>, written: seq<nat>)

  datatype Move = Begin | Take(a: Action) | Ask | Cancel

  ghost predicate Start(p: Plan, t: Situation) {
    && Init(p, t.state.(parent := TaskRunning)) && t.state.parent == TaskPending
    && t == Situation(t.state, false, 0, [], map[], [])
  }

  predicate MayMake(p: Plan, t: Situation, m: Move) {
    match m
    case Begin => !t.started
    case Take(a) => t.started && Enabled(p, t.state, a)
    case Ask => t.state.parent in {TaskPending, TaskRunning}
    case Cancel => t.admitted > 0
  }

  function Mark(status: RowStatus): RowStatus {
    if status in {Pending, Sent} then RowStatus.Cancelled else status
  }

  function Marked(rows: seq<RowStatus>): seq<RowStatus> {
    seq(|rows|, i requires 0 <= i < |rows| => Mark(rows[i]))
  }

  function Heard(s: State): set<nat> {
    set h | h in s.handlers && s.handlers[h] != Idle
  }

  function Now(t: Situation): Schedule {
    Schedule(t.state.phase, Heard(t.state), t.state.early, t.cancels)
  }

  function Make(p: Plan, t: Situation, m: Move): Situation
    requires MayMake(p, t, m)
  {
    match m
    case Begin => t.(started := true, state := t.state.(parent := TaskRunning))
    case Take(a) =>
      t.(state := Execute(p, t.state, a),
      views := if a.ReadRows? then t.views[a.i := Now(t)] else t.views,
      written := if a.WriteParent? then t.written + [a.i] else t.written)
    case Ask => t.(admitted := t.admitted + 1)
    case Cancel =>
      t.(state := t.state.(rows := Marked(t.state.rows), parent := TaskCancelled),
      admitted := t.admitted - 1,
      cancels := t.cancels + [Cancelling(t.started, t.state.phase, Heard(t.state), |t.written|)])
  }

  function Play(p: Plan, t: Situation, moves: seq<Move>): Option<Situation> {
    if moves == [] then Some(t)
    else
      var before := Play(p, t, moves[..|moves| - 1]);
      var m := moves[|moves| - 1];
      if before.Some? && MayMake(p, before.value, m) then Some(Make(p, before.value, m)) else None
  }

  /** Asked and written without a step in between, the cancel is that of the stored
      task, row by row, and it is refused exactly when that is. */
  lemma CancelIsTasksCancel(p: Plan, s: Situation, t: Task, now: int)
    ensures CancelledTask(t, now).Success? <==> t.status in {TaskPending, TaskRunning}
    ensures s.state.parent == t.status ==>
              && (CancelledTask(t, now).Success? <==> MayMake(p, s, Ask))
              && (MayMake(p, s, Ask) ==> Make(p, s, Ask).state == s.state && MayMake(p, Make(p, s, Ask), Cancel))
    ensures s.state.parent == t.status && s.state.rows == Statuses(t.rows) && MayMake(p, s, Ask) ==>
              var s' := Make(p, Make(p, s, Ask), Cancel).state;
              && s'.parent == CancelledTask(t, now).value.status
              && s'.rows == Statuses(CancelledTask(t, now).value.rows)
    ensures CancelledTask(t, now).Success? ==>
              && CancelledTask(t, now).value.status == TaskCancelled
              && Statuses(CancelledTask(t, now).value.rows) == Marked(Statuses(t.rows))
  {
  }

  /** Without a cancel, once the task is running, this is TaskProtocol. */
  lemma {:induction false} WithoutCancel(p: Plan, t: Situation, actions: seq<Action>)
    requires t.started
    ensures var moves := seq(|actions|, k requires 0 <= k < |actions| => Take(actions[k]));
            && Play(p, t, moves).Some? == Run(p, t.state, actions).Some?
            && (Run(p, t.state, actions).Some? ==>
                  Play(p, t, moves).value.started && Play(p, t, moves).value.state == Run(p, t.state, actions).value)
  {
    if actions != [] {
      var n := |actions| - 1;
      WithoutCancel(p, t, actions[..n]);
      var moves := seq(|actions|, k requires 0 <= k < |actions| => Take(actions[k]));
      assert moves[..n] == seq(n, k requires 0 <= k < n => Take(actions[..n][k]));
    }
  }

  // ---------------------------------------------------------------------
  // What a row holds
  // ---------------------------------------------------------------------

  ghost predicate Sensible(p: Plan, sc: Schedule) {
    sc.committed <= p.reports.Keys
  }

  /** The report of row i is there and has not been overwritten by the dispatcher. */
  predicate Stands(sc: Schedule, i: nat) {
    i in sc.committed && (sc.phase == Sending || i !in sc.early)
  }

  /** Row i as creation, dispatcher and report alone leave it. */
  function Undisturbed(p: Plan, sc: Schedule, i: nat): RowStatus
    requires Sensible(p, sc) && i < |p.dispatched|
  {
    if Stands(sc, i) then p.reports[i] else if sc.phase == Sending then Pending else p.dispatched[i]
  }

  /** The cancel came after the last of these writers of row i. */
  predicate CameAfter(c: Cancelling, sc: Schedule, i: nat) {
    if Stands(sc, i) then i in c.reported else sc.phase == Sending || c.phase != Sending
  }

  function RowOf(p: Plan, sc: Schedule, i: nat): RowStatus
    requires Sensible(p, sc) && i < |p.dispatched|
  {
    if exists k :: 0 <= k < |sc.cancels| && CameAfter(sc.cancels[k], sc, i) then Mark(Undisturbed(p, sc, i))
    else Undisturbed(p, sc, i)
  }

  /** What handler h sees when it reads at this time: its own report, and the other rows as they are. */
  function SeenBy(p: Plan, sc: Schedule, h: nat): seq<RowStatus>
    requires Sensible(p, sc) && h in p.reports
  {
    seq(|p.dispatched|, i requires 0 <= i < |p.dispatched| => if i == h then p.reports[h] else RowOf(p, sc, i))
  }

  ghost predicate CancelKept(t: Situation, c: Cancelling) {
    && c.reported <= Heard(t.state)
    && c.writes <= |t.written|
    && (t.state.phase == Sending ==> c.phase == Sending)
    && (c.phase == Closed ==> t.state.phase == Closed)
    && (if c.phase == Sending then c.reported <= t.state.early else t.state.early <= c.reported && c.started)
    && (!c.started ==> c.reported == {} && c.writes == 0)
    && (!t.started ==> !c.started)
  }

  ghost predicate Kept(p: Plan, t: Situation) {
    var s := t.state;
    && Shape(p, s)
    && s.early <= Heard(s)
    && (s.phase == Sending ==> Heard(s) <= s.early)
    && (!t.started ==> s.phase == Sending && Heard(s) == {} && t.written == [])
    && (forall k :: 0 <= k < |t.cancels| ==> CancelKept(t, t.cancels[k]))
  }

  ghost predicate RowsKept(p: Plan, t: Situation)
    requires Kept(p, t)
  {
    forall i :: 0 <= i < |p.dispatched| ==> t.state.rows[i] == RowOf(p, Now(t), i)
  }

  lemma TakeKept(p: Plan, t: Situation, a: Action)
    requires ValidPlan(p) && Kept(p, t) && MayMake(p, t, Take(a))
    ensures Kept(p, Make(p, t, Take(a)))
  {
    hide Aggregate, ReadsAll;
    var s, s' := t.state, Execute(p, t.state, a);
    assert Heard(s') == if a.CommitRow? then Heard(s) + {a.i} else Heard(s);
    var t' := Make(p, t, Take(a));
    forall k | 0 <= k < |t.cancels| ensures CancelKept(t', t.cancels[k]) {
      assert CancelKept(t, t.cancels[k]);
    }
  }

  lemma OtherKept(p: Plan, t: Situation, m: Move)
    requires ValidPlan(p) && Kept(p, t) && MayMake(p, t, m) && !m.Take?
    ensures Kept(p, Make(p, t, m))
  {
    var t' := Make(p, t, m);
    assert Heard(t'.state) == Heard(t.state);
    forall k | 0 <= k < |t.cancels| ensures CancelKept(t', t.cancels[k]) {
      assert CancelKept(t, t.cancels[k]);
    }
  }

  /** With the same cancels, a row whose report stands or not as before keeps its value. */
  lemma SameRow(p: Plan, sc: Schedule, sc': Schedule, i: nat)
    requires Sensible(p, sc) && Sensible(p, sc') && i < |p.dispatched|
    requires sc.cancels == sc'.cancels && (sc.phase == Sending <==> sc'.phase == Sending)
    requires Stands(sc, i) == Stands(sc', i)
    ensures RowOf(p, sc, i) == RowOf(p, sc', i)
  {
    assert forall c :: CameAfter(c, sc, i) <==> CameAfter(c, sc', i);
  }

  lemma CommitKeepsRows(p: Plan, t: Situation, h: nat)
    requires ValidPlan(p) && Kept(p, t) && RowsKept(p, t) && MayMake(p, t, Take(CommitRow(h)))
    requires Kept(p, Make(p, t, Take(CommitRow(h))))
    ensures RowsKept(p, Make(p, t, Take(CommitRow(h))))
  {
    var t' := Make(p, t, Take(CommitRow(h)));
    assert Heard(t'.state) == Heard(t.state) + {h};
    forall i | 0 <= i < |p.dispatched| ensures t'.state.rows[i] == RowOf(p, Now(t'), i) {
      if i != h {
        SameRow(p, Now(t), Now(t'), i);
      } else {
        assert h !in Heard(t.state);
        assert forall k :: 0 <= k < |t.cancels| ==> CancelKept(t, t.cancels[k]) && h !in t.cancels[k].reported;
      }
    }
  }

  lemma DispatchKeepsRows(p: Plan, t: Situation)
    requires ValidPlan(p) && Kept(p, t) && MayMake(p, t, Take(CommitDispatch))
    requires Kept(p, Make(p, t, Take(CommitDispatch)))
    ensures RowsKept(p, Make(p, t, Take(CommitDispatch)))
  {
    var t' := Make(p, t, Take(CommitDispatch));
    assert Heard(t'.state) == Heard(t.state);
    forall i | 0 <= i < |p.dispatched| ensures t'.state.rows[i] == RowOf(p, Now(t'), i) {
      assert !Stands(Now(t'), i);
      assert forall k :: 0 <= k < |t.cancels| ==> CancelKept(t, t.cancels[k]) && t.cancels[k].phase == Sending;
    }
  }

  lemma OtherKeepsRows(p: Plan, t: Situation, m: Move)
    requires ValidPlan(p) && Kept(p, t) && RowsKept(p, t) && MayMake(p, t, m)
    requires m != Cancel && !(m.Take? && (m.a.CommitRow? || m.a.CommitDispatch?))
    requires Kept(p, Make(p, t, m))
    ensures RowsKept(p, Make(p, t, m))
  {
    hide Aggregate, ReadsAll;
    var t' := Make(p, t, m);
    assert Heard(t'.state) == Heard(t.state);
    forall i | 0 <= i < |p.dispatched| ensures t'.state.rows[i] == RowOf(p, Now(t'), i) {
      SameRow(p, Now(t), Now(t'), i);
    }
  }

  lemma CancelKeepsRows(p: Plan, t: Situation)
    requires ValidPlan(p) && Kept(p, t) && RowsKept(p, t) && MayMake(p, t, Cancel)
    requires Kept(p, Make(p, t, Cancel))
    ensures RowsKept(p, Make(p, t, Cancel))
  {
    var t' := Make(p, t, Cancel);
    assert Heard(t'.state) == Heard(t.state);
    forall i | 0 <= i < |p.dispatched| ensures t'.state.rows[i] == RowOf(p, Now(t'), i) {
      assert CameAfter(t'.cancels[|t.cancels|], Now(t'), i);
      assert Undisturbed(p, Now(t'), i) == Undisturbed(p, Now(t), i);
    }
  }

  lemma StartKept(p: Plan, t: Situation)
    requires ValidPlan(p) && Start(p, t)
    ensures Kept(p, t) && RowsKept(p, t)
  {
    assert Heard(t.state) == {};
  }

  lemma RowsStep(p: Plan, t: Situation, m: Move)
    requires ValidPlan(p) && Kept(p, t) && RowsKept(p, t) && MayMake(p, t, m)
    ensures Kept(p, Make(p, t, m)) && RowsKept(p, Make(p, t, m))
  {
    hide Execute, Enabled, Kept, RowsKept;
    if m.Take? {
      TakeKept(p, t, m.a);
      if m.a.CommitRow? {
        CommitKeepsRows(p, t, m.a.i);
      } else if m.a.CommitDispatch? {
        DispatchKeepsRows(p, t);
      } else {
        OtherKeepsRows(p, t, m);
      }
    } else {
      OtherKept(p, t, m);
      if m.Cancel? {
        CancelKeepsRows(p, t);
      } else {
        OtherKeepsRows(p, t, m);
      }
    }
  }

  // ---------------------------------------------------------------------
  // What a handler sees
  // ---------------------------------------------------------------------

  ghost predicate ViewKept(p: Plan, t: Situation, h: nat)
    requires h in t.views
  {
    && h in p.reports && h in t.state.handlers
    && (t.state.handlers[h].Saw? || t.state.handlers[h] == Finished)
    && Sensible(p, t.views[h])
    && h in t.views[h].committed
    && t.views[h].committed <= Heard(t.state)
  }

  ghost predicate ViewsKept(p: Plan, t: Situation) {
    && (forall h :: h in t.views ==> ViewKept(p, t, h))
    && (forall h :: h in t.state.handlers && t.state.handlers[h].Saw? ==>
          h in t.views && t.state.handlers[h].seen == SeenBy(p, t.views[h], h))
    && (forall k :: 0 <= k < |t.written| ==>
          && t.written[k] in t.views && t.written[k] in t.state.handlers
          && t.state.handlers[t.written[k]] == Finished)
  }

  lemma ReadViews(p: Plan, t: Situation, h: nat)
    requires ValidPlan(p) && Kept(p, t) && RowsKept(p, t) && ViewsKept(p, t) && MayMake(p, t, Take(ReadRows(h)))
    ensures ViewsKept(p, Make(p, t, Take(ReadRows(h))))
  {
    hide Aggregate, ReadsAll, RowOf;
    var t' := Make(p, t, Take(ReadRows(h)));
    assert Heard(t'.state) == Heard(t.state);
    assert forall g :: g in t.state.handlers && g != h ==> t'.state.handlers[g] == t.state.handlers[g];
    assert h !in t.views;
    assert t'.views[h] == Now(t) && h in Heard(t.state);
    assert t'.state.handlers[h].seen == SeenBy(p, Now(t), h);
    forall g | g in t'.views ensures ViewKept(p, t', g) {
      assert g != h ==> ViewKept(p, t, g);
    }
  }

  lemma TakeViews(p: Plan, t: Situation, a: Action)
    requires ValidPlan(p) && Kept(p, t) && ViewsKept(p, t) && MayMake(p, t, Take(a)) && !a.ReadRows?
    ensures ViewsKept(p, Make(p, t, Take(a)))
  {
    hide Aggregate, ReadsAll, SeenBy;
    var t' := Make(p, t, Take(a));
    assert Heard(t.state) <= Heard(t'.state);
    if a.CommitRow? || a.WriteParent? {
      assert forall g :: g in t.state.handlers && g != a.i ==> t'.state.handlers[g] == t.state.handlers[g];
    }
    assert forall g :: g in t.views ==> ViewKept(p, t, g);
  }

  lemma OtherViews(p: Plan, t: Situation, m: Move)
    requires ValidPlan(p) && ViewsKept(p, t) && MayMake(p, t, m) && !m.Take?
    ensures ViewsKept(p, Make(p, t, m))
  {
    hide SeenBy;
    assert Heard(Make(p, t, m).state) == Heard(t.state);
    assert forall g :: g in t.views ==> ViewKept(p, t, g);
  }

  // ---------------------------------------------------------------------
  // What the task holds
  // ---------------------------------------------------------------------

  /** Handler h saw all rows settled, so that it set the task status. */
  ghost predicate SawAll(p: Plan, views: map<nat, Schedule>, h: nat) {
    h in views && h in p.reports && Sensible(p, views[h]) && AllSettled(SeenBy(p, views[h], h))
  }

  /** The k-th handler to write the task is the last one since then that set its status. */
  ghost predicate LastDecider(p: Plan, t: Situation, from: int, k: int) {
    && 0 <= from <= k < |t.written|
    && SawAll(p, t.views, t.written[k])
    && forall m :: k < m < |t.written| ==> !SawAll(p, t.views, t.written[m])
  }

  ghost predicate Undecided(p: Plan, t: Situation, from: int) {
    forall k :: 0 <= from <= k < |t.written| ==> !SawAll(p, t.views, t.written[k])
  }

  lemma {:induction false} DecidedOrNot(p: Plan, t: Situation, from: int, n: int) returns (k: int)
    requires 0 <= from <= n <= |t.written|
    requires forall m :: n <= m < |t.written| ==> !SawAll(p, t.views, t.written[m])
    ensures Undecided(p, t, from) || LastDecider(p, t, from, k)
    decreases n
  {
    k := n - 1;
    if from < n && !SawAll(p, t.views, t.written[k]) {
      k := DecidedOrNot(p, t, from, n - 1);
    }
  }

  /** How many handlers had written the task when the last cancel was written. */
  function Since(t: Situation): int {
    if t.cancels == [] then 0 else t.cancels[|t.cancels| - 1].writes
  }

  /** The dispatcher closed with nothing sent, and no cancel was written after that. */
  ghost predicate FailedUnsent(p: Plan, t: Situation) {
    && t.state.phase == Closed && Sent !in p.dispatched
    && (t.cancels == [] || t.cancels[|t.cancels| - 1].phase != Closed)
  }

  /** The status as long as no handler sets it. */
  ghost function Base(p: Plan, t: Situation): TaskStatus {
    if !t.started then if t.cancels == [] then TaskPending else TaskCancelled
    else if FailedUnsent(p, t) then TaskFailed
    else if t.cancels != [] && t.cancels[|t.cancels| - 1].started then TaskCancelled
    else TaskRunning
  }

  /** What the k-th handler to write the task had seen. */
  ghost function SeenAt(p: Plan, t: Situation, k: int): seq<RowStatus> {
    if 0 <= k < |t.written| && t.written[k] in t.views && t.written[k] in p.reports && Sensible(p, t.views[t.written[k]])
    then SeenBy(p, t.views[t.written[k]], t.written[k]) else []
  }

  ghost predicate StatusKept(p: Plan, t: Situation) {
    && (forall k :: LastDecider(p, t, Since(t), k) ==> Aggregate(SeenAt(p, t, k)) == Some(t.state.parent))
    && (Undecided(p, t, Since(t)) ==> t.state.parent == Base(p, t))
  }

  /** The same writers with the same views. */
  ghost predicate SameWriters(t: Situation, t': Situation) {
    && t'.written == t.written
    && forall k :: 0 <= k < |t.written| ==>
         t.written[k] in t.views && t.written[k] in t'.views && t'.views[t.written[k]] == t.views[t.written[k]]
  }

  lemma SameWriter(p: Plan, t: Situation, t': Situation, k: int)
    requires SameWriters(t, t')
    ensures SeenAt(p, t', k) == SeenAt(p, t, k)
    ensures 0 <= k < |t.written| ==> (SawAll(p, t'.views, t.written[k]) <==> SawAll(p, t.views, t.written[k]))
  {
  }

  lemma SameDeciders(p: Plan, t: Situation, t': Situation, from: int)
    requires SameWriters(t, t')
    ensures forall k :: LastDecider(p, t, from, k) <==> LastDecider(p, t', from, k)
    ensures Undecided(p, t, from) <==> Undecided(p, t', from)
  {
    forall k | 0 <= k < |t.written| ensures SawAll(p, t'.views, t'.written[k]) <==> SawAll(p, t.views, t.written[k]) {
      SameWriter(p, t, t', k);
    }
    hide SawAll;
  }

  lemma NewWriter(p: Plan, t: Situation, t': Situation, h: nat, from: int)
    requires t'.written == t.written + [h] && t'.views == t.views && 0 <= from <= |t.written|
    ensures if SawAll(p, t.views, h) then
              (forall k :: LastDecider(p, t', from, k) <==> k == |t.written|) && !Undecided(p, t', from)
            else
              (forall k :: LastDecider(p, t', from, k) <==> LastDecider(p, t, from, k))
              && (Undecided(p, t', from) <==> Undecided(p, t, from))
  {
    hide SawAll;
    var n := |t.written|;
    assert t'.written[n] == h && forall k :: 0 <= k < n ==> t'.written[k] == t.written[k];
  }

  lemma WrittenVerdict(p: Plan, t: Situation, h: nat)
    requires ValidPlan(p) && ViewsKept(p, t) && MayMake(p, t, Take(WriteParent(h)))
    ensures var t' := Make(p, t, Take(WriteParent(h)));
            if SawAll(p, t.views, h) then Aggregate(SeenAt(p, t', |t.written|)) == Some(t'.state.parent)
            else t'.state.parent == t.state.parent
  {
    var seen := t.state.handlers[h].seen;
    assert ViewKept(p, t, h);
    AggregateRule(seen);
  }

  lemma OldWriter(p: Plan, t: Situation, t': Situation, k: int)
    requires |t'.written| == |t.written| + 1 && t'.written[..|t.written|] == t.written && t'.views == t.views
    requires 0 <= k < |t.written|
    ensures SeenAt(p, t', k) == SeenAt(p, t, k)
  {
    assert t'.written[k] == t'.written[..|t.written|][k];
  }

  lemma WriteStatus(p: Plan, t: Situation, h: nat)
    requires ValidPlan(p) && Kept(p, t) && ViewsKept(p, t) && StatusKept(p, t) && MayMake(p, t, Take(WriteParent(h)))
    ensures StatusKept(p, Make(p, t, Take(WriteParent(h))))
  {
    var t' := Make(p, t, Take(WriteParent(h)));
    assert t.cancels != [] ==> CancelKept(t, t.cancels[|t.cancels| - 1]);
    WrittenVerdict(p, t, h);
    NewWriter(p, t, t', h, Since(t));
    assert FailedUnsent(p, t') == FailedUnsent(p, t);
    hide SawAll, LastDecider, Undecided, Execute, ReadsAll, SeenAt, Aggregate;
    assert Since(t') == Since(t) && t'.written[..|t.written|] == t.written;
    forall k | LastDecider(p, t', Since(t'), k)
      ensures Aggregate(SeenAt(p, t', k)) == Some(t'.state.parent)
    {
      if !SawAll(p, t.views, h) {
        DeciderInRange(p, t, Since(t), k);
        OldWriter(p, t, t', k);
      }
    }
  }

  lemma DeciderInRange(p: Plan, t: Situation, from: int, k: int)
    requires LastDecider(p, t, from, k)
    ensures 0 <= k < |t.written|
  {
  }

  /** A move by which nobody writes the task. */
  lemma StatusStays(p: Plan, t: Situation, t': Situation)
    requires StatusKept(p, t) && SameWriters(t, t') && Since(t') == Since(t)
    requires t.written != [] ==> t'.state.parent == t.state.parent
    requires t.state.parent == Base(p, t) ==> t'.state.parent == Base(p, t')
    ensures StatusKept(p, t')
  {
    SameDeciders(p, t, t', Since(t));
    hide SawAll, LastDecider, Undecided, SeenAt, Aggregate, Base, SameWriters;
    forall k | LastDecider(p, t', Since(t'), k)
      ensures Aggregate(SeenAt(p, t', k)) == Some(t'.state.parent)
    {
      DeciderInRange(p, t, Since(t), k);
      SameWriter(p, t, t', k);
    }
  }

  lemma CloseStatus(p: Plan, t: Situation)
    requires ValidPlan(p) && Kept(p, t) && ViewsKept(p, t) && StatusKept(p, t) && MayMake(p, t, Take(CloseDispatch))
    ensures StatusKept(p, Make(p, t, Take(CloseDispatch)))
  {
    var t' := Make(p, t, Take(CloseDispatch));
    assert SameWriters(t, t');
    assert t.cancels != [] ==> CancelKept(t, t.cancels[|t.cancels| - 1]);
    if t.written != [] {
      assert ViewKept(p, t, t.written[0]) && p.dispatched[t.written[0]] == Sent;
    }
    hide StatusKept, SameWriters, ViewsKept;
    StatusStays(p, t, t');
  }

  lemma CancelStatus(p: Plan, t: Situation)
    requires Kept(p, t) && MayMake(p, t, Cancel)
    ensures StatusKept(p, Make(p, t, Cancel))
  {
  }

  lemma BeginStatus(p: Plan, t: Situation)
    requires Kept(p, t) && MayMake(p, t, Begin)
    ensures StatusKept(p, Make(p, t, Begin))
  {
    assert t.cancels != [] ==> CancelKept(t, t.cancels[|t.cancels| - 1]);
  }

  lemma OtherStatus(p: Plan, t: Situation, m: Move)
    requires ValidPlan(p) && Kept(p, t) && ViewsKept(p, t) && StatusKept(p, t) && MayMake(p, t, m)
    requires m == Ask || (m.Take? && !m.a.WriteParent? && !m.a.CloseDispatch?)
    ensures StatusKept(p, Make(p, t, m))
  {
    hide ReadsAll, StatusKept;
    var t' := Make(p, t, m);
    if m.Take? && m.a.ReadRows? {
      assert forall k :: 0 <= k < |t.written| ==> t.written[k] != m.a.i;
    }
    assert SameWriters(t, t');
    hide SameWriters, ViewsKept;
    assert FailedUnsent(p, t') == FailedUnsent(p, t);
    StatusStays(p, t, t');
  }

  ghost predicate AllKept(p: Plan, t: Situation) {
    Kept(p, t) && RowsKept(p, t) && ViewsKept(p, t) && StatusKept(p, t)
  }

  lemma AllStep(p: Plan, t: Situation, m: Move)
    requires ValidPlan(p) && AllKept(p, t) && MayMake(p, t, m)
    ensures AllKept(p, Make(p, t, m))
  {
    hide Execute, Enabled, Kept, RowsKept, ViewsKept, StatusKept;
    RowsStep(p, t, m);
    match m
    case Begin => OtherViews(p, t, m); BeginStatus(p, t);
    case Ask => OtherViews(p, t, m); OtherStatus(p, t, m);
    case Cancel => OtherViews(p, t, m); CancelStatus(p, t);
    case Take(a) =>
      if a.ReadRows? {
        ReadViews(p, t, a.i);
      } else {
        TakeViews(p, t, a);
      }
      if a.WriteParent? {
        WriteStatus(p, t, a.i);
      } else if a.CloseDispatch? {
        CloseStatus(p, t);
      } else {
        OtherStatus(p, t, m);
      }
  }

  /** In every interleaving each row holds what its last writer among the dispatcher,
      the report and the cancels put there, each handler sees what the rows held when
      it read, and the task has the status that its last writer gave it. */
  lemma {:induction false} PlayKept(p: Plan, t: Situation, moves: seq<Move>)
    requires ValidPlan(p) && Start(p, t) && Play(p, t, moves).Some?
    ensures AllKept(p, Play(p, t, moves).value)
  {
    if moves == [] {
      StartKept(p, t);
      assert Undecided(p, t, 0);
    } else {
      var n := |moves| - 1;
      PlayKept(p, t, moves[..n]);
      hide AllKept, MayMake, Make;
      AllStep(p, Play(p, t, moves[..n]).value, moves[n]);
    }
  }

  // ---------------------------------------------------------------------
  // What a cancel achieves: the rows
  // ---------------------------------------------------------------------

  /** Agents report settled words, and none that only the server puts into a row. */
  ghost predicate AgentsReport(p: Plan) {
    forall h :: h in p.reports ==> Settled(p.reports[h]) && p.reports[h] != RowStatus.Cancelled
  }

  predicate CancelledAfterDispatch(cancels: seq<Cancelling>) {
    exists k :: 0 <= k < |cancels| && cancels[k].phase != Sending
  }

  /** Cancels from before the dispatch commit leave no trace in the rows: once the
      dispatcher has committed, they are what they would be without them. */
  lemma EarlyCancelLeavesNoTrace(p: Plan, t: Situation, moves: seq<Move>, i: nat)
    requires ValidPlan(p) && Start(p, t) && Play(p, t, moves).Some? && i < |p.dispatched|
    requires var t' := Play(p, t, moves).value;
             t'.state.phase != Sending && !CancelledAfterDispatch(t'.cancels)
    ensures var s' := Play(p, t, moves).value.state;
            && |s'.rows| == |p.dispatched|
            && (i in p.reports && HasCommitted(s', i) && i !in s'.early ==> s'.rows[i] == p.reports[i])
            && (!(i in p.reports && HasCommitted(s', i) && i !in s'.early) ==> s'.rows[i] == p.dispatched[i])
  {
    PlayKept(p, t, moves);
    var t' := Play(p, t, moves).value;
    forall k | 0 <= k < |t'.cancels|
      ensures t'.cancels[k].phase == Sending && t'.cancels[k].reported <= t'.state.early
    {
      assert CancelKept(t', t'.cancels[k]);
    }
    Unmarked(p, Now(t'), i);
    assert i in Heard(t'.state) <==> HasCommitted(t'.state, i);
  }

  lemma Unmarked(p: Plan, sc: Schedule, i: nat)
    requires Sensible(p, sc) && i < |p.dispatched| && sc.phase != Sending
    requires forall k :: 0 <= k < |sc.cancels| ==> sc.cancels[k].phase == Sending && sc.cancels[k].reported <= sc.early
    ensures RowOf(p, sc, i) == if i in sc.committed && i !in sc.early then p.reports[i] else p.dispatched[i]
  {
  }

  /** When a cancel holds, in every state after the dispatch commit: a row reads
      "cancelled" if and only if a cancel came after that commit, the row had been sent,
      and its report has not come or had been overwritten. */
  lemma RowIsCancelledIff(p: Plan, t: Situation, moves: seq<Move>, i: nat)
    requires ValidPlan(p) && AgentsReport(p) && Start(p, t) && Play(p, t, moves).Some? && i < |p.dispatched|
    requires Play(p, t, moves).value.state.phase != Sending
    ensures var t' := Play(p, t, moves).value;
            && |t'.state.rows| == |p.dispatched|
            && (t'.state.rows[i] == RowStatus.Cancelled <==>
                  && CancelledAfterDispatch(t'.cancels)
                  && p.dispatched[i] == Sent
                  && !(HasCommitted(t'.state, i) && i !in t'.state.early))
  {
    PlayKept(p, t, moves);
    var t' := Play(p, t, moves).value;
    assert HasCommitted(t'.state, i) <==> i in Heard(t'.state);
    RowSeen(p, Now(t'), i);
    assert t'.state.rows[i] == RowOf(p, Now(t'), i);
  }

  // ---------------------------------------------------------------------
  // What a handler sees, from the schedule
  // ---------------------------------------------------------------------

  /** Some cancel so far came after what the dispatcher has written. */
  predicate CancelCounts(sc: Schedule) {
    if sc.phase == Sending then sc.cancels != [] else CancelledAfterDispatch(sc.cancels)
  }

  /** Row k has neither a report that stands nor failed in the dispatch. */
  predicate Missing(p: Plan, sc: Schedule, k: nat)
    requires k < |p.dispatched|
  {
    !Stands(sc, k) && (sc.phase == Sending || p.dispatched[k] == Sent)
  }

  lemma RowSeen(p: Plan, sc: Schedule, k: nat)
    requires ValidPlan(p) && AgentsReport(p) && Sensible(p, sc) && k < |p.dispatched|
    ensures Settled(RowOf(p, sc, k)) <==> !Missing(p, sc, k) || CancelCounts(sc)
    ensures RowOf(p, sc, k) == RowStatus.Cancelled <==> Missing(p, sc, k) && CancelCounts(sc)
    ensures RowOf(p, sc, k) == Succeeded <==> Stands(sc, k) && p.reports[k] == Succeeded
  {
    if !Stands(sc, k) && CancelCounts(sc) {
      var c :| 0 <= c < |sc.cancels| && (sc.phase == Sending || sc.cancels[c].phase != Sending);
      assert CameAfter(sc.cancels[c], sc, k);
    }
  }

  /** A handler sets the task status exactly when it reads with no other report
      missing, or after a cancel that counts; it sees a cancelled row exactly when both
      a report is missing and such a cancel has come, and only successes exactly when
      all other reports stand and they and its own say success. Without a cancel this is
      what TaskProtocol says of a decisive handler. */
  lemma SawAllIff(p: Plan, sc: Schedule, h: nat)
    requires ValidPlan(p) && AgentsReport(p) && Sensible(p, sc) && h in p.reports
    ensures var seen := SeenBy(p, sc, h);
            && (AllSettled(seen) <==>
                  CancelCounts(sc) || forall k :: 0 <= k < |p.dispatched| && k != h ==> !Missing(p, sc, k))
            && (RowStatus.Cancelled in seen <==>
                  CancelCounts(sc) && exists k :: 0 <= k < |p.dispatched| && k != h && Missing(p, sc, k))
            && ((forall k :: 0 <= k < |seen| ==> seen[k] == Succeeded) <==>
                  && p.reports[h] == Succeeded
                  && forall k :: 0 <= k < |p.dispatched| && k != h ==> Stands(sc, k) && p.reports[k] == Succeeded)
  {
    var seen := SeenBy(p, sc, h);
    hide RowOf, Missing;
    forall k | 0 <= k < |p.dispatched|
      ensures Settled(RowOf(p, sc, k)) <==> !Missing(p, sc, k) || CancelCounts(sc)
      ensures RowOf(p, sc, k) == RowStatus.Cancelled <==> Missing(p, sc, k) && CancelCounts(sc)
      ensures RowOf(p, sc, k) == Succeeded <==> Stands(sc, k) && p.reports[k] == Succeeded
    {
      RowSeen(p, sc, k);
    }
    assert seen[h] == p.reports[h] && forall k :: 0 <= k < |seen| && k != h ==> seen[k] == RowOf(p, sc, k);
    forall k | 0 <= k < |p.dispatched| && k != h && Missing(p, sc, k) && CancelCounts(sc)
      ensures RowStatus.Cancelled in seen
    {
      assert seen[k] == RowStatus.Cancelled;
    }
  }

  // ---------------------------------------------------------------------
  // What a cancel achieves: the task
  // ---------------------------------------------------------------------

  ghost predicate OnlySuccesses(seen: seq<RowStatus>) {
    forall i :: 0 <= i < |seen| ==> seen[i] == Succeeded
  }

  ghost predicate CancelledAndNoFailed(seen: seq<RowStatus>) {
    RowStatus.Cancelled in seen && forall i :: 0 <= i < |seen| ==> seen[i] in {Succeeded, RowStatus.Cancelled}
  }

  lemma DeciderVerdict(p: Plan, t: Situation, from: int, k: int)
    requires ValidPlan(p) && LastDecider(p, t, from, k)
    ensures var seen := SeenAt(p, t, k);
            && Aggregate(seen) in {Some(TaskCompleted), Some(TaskCancelled), Some(TaskFailed)}
            && (Aggregate(seen) == Some(TaskCompleted) <==> OnlySuccesses(seen))
            && (Aggregate(seen) == Some(TaskCancelled) <==> CancelledAndNoFailed(seen))
  {
    var seen := SeenAt(p, t, k);
    assert t.written[k] < |p.dispatched|;
    AggregateRule(seen);
  }

  lemma OneDecider(p: Plan, t: Situation, from: int, j: int, k: int)
    requires LastDecider(p, t, from, j) && LastDecider(p, t, from, k)
    ensures j == k
  {
    hide SawAll;
  }

  /** The exact status of a cancelled task, in every state after a cancel was written.
      It is cancelled if and only if, of the handlers that have written since, either
      none had seen all rows settled (and the cancel was not undone by the running
      commit, nor by the dispatcher closing with nothing sent), or the last that had
      also saw a cancelled row and no failed one. It is completed if and only if the
      last that had saw only successes; and it is running again if and only if the
      cancel came before the running commit, none of them had, and the dispatcher has
      not closed with nothing sent. */
  lemma StatusAfterCancelIff(p: Plan, t: Situation, moves: seq<Move>)
    requires ValidPlan(p) && Start(p, t) && Play(p, t, moves).Some? && Play(p, t, moves).value.cancels != []
    ensures var t' := Play(p, t, moves).value;
            var last := t'.cancels[|t'.cancels| - 1];
            var from := last.writes;
            && (t'.state.parent == TaskCancelled <==>
                  if Undecided(p, t', from) then (!t'.started || last.started) && !FailedUnsent(p, t')
                  else exists k :: LastDecider(p, t', from, k) && CancelledAndNoFailed(SeenAt(p, t', k)))
            && (t'.state.parent == TaskCompleted <==>
                  exists k :: LastDecider(p, t', from, k) && OnlySuccesses(SeenAt(p, t', k)))
            && (t'.state.parent == TaskRunning <==>
                  t'.started && !last.started && Undecided(p, t', from) && !FailedUnsent(p, t'))
            && t'.state.parent != TaskPending
  {
    PlayKept(p, t, moves);
    StatusIff(p, Play(p, t, moves).value);
  }

  lemma StatusIff(p: Plan, t: Situation)
    requires ValidPlan(p) && AllKept(p, t) && t.cancels != []
    ensures var last := t.cancels[|t.cancels| - 1];
            var from := last.writes;
            && (t.state.parent == TaskCancelled <==>
                  if Undecided(p, t, from) then (!t.started || last.started) && !FailedUnsent(p, t)
                  else exists k :: LastDecider(p, t, from, k) && CancelledAndNoFailed(SeenAt(p, t, k)))
            && (t.state.parent == TaskCompleted <==> CompletedBy(p, t))
            && (t.state.parent == TaskRunning <==>
                  t.started && !last.started && Undecided(p, t, from) && !FailedUnsent(p, t))
            && t.state.parent != TaskPending
  {
    assert CancelKept(t, t.cancels[|t.cancels| - 1]);
    var from := Since(t);
    var k := DecidedOrNot(p, t, from, |t.written|);
    if LastDecider(p, t, from, k) {
      DeciderVerdict(p, t, from, k);
      assert !Undecided(p, t, from);
      forall j | LastDecider(p, t, from, j) ensures j == k {
        OneDecider(p, t, from, j, k);
      }
    } else {
      assert forall j :: !LastDecider(p, t, from, j);
    }
  }

  /** The last handler to set the status since the last cancel had seen only successes. */
  ghost predicate CompletedBy(p: Plan, t: Situation) {
    exists k :: LastDecider(p, t, Since(t), k) && OnlySuccesses(SeenAt(p, t, k))
  }

  /** The task is completed over a row that reads "cancelled" if and only if a cancel
      came after the dispatch commit, that commit had overwritten an early report, and
      the last handler to set the status since the last cancel had seen only successes. */
  lemma CompletedOverCancelledIff(p: Plan, t: Situation, moves: seq<Move>)
    requires ValidPlan(p) && AgentsReport(p) && Start(p, t) && Play(p, t, moves).Some?
    ensures var t' := Play(p, t, moves).value;
            t'.state.parent == TaskCompleted && RowStatus.Cancelled in t'.state.rows <==>
              && CancelledAfterDispatch(t'.cancels)
              && t'.state.early != {}
              && CompletedBy(p, t')
  {
    PlayKept(p, t, moves);
    var t' := Play(p, t, moves).value;
    hide Play, AllKept, CompletedBy;
    if t'.cancels != [] {
      StatusIff(p, t');
      OpenRowWasEarly(p, t');
      if CancelledAfterDispatch(t'.cancels) && t'.state.early != {} {
        EarlyRowIsCancelled(p, t');
      }
    } else {
      NoCancelledRow(p, t');
    }
  }

  lemma NoCancelledRow(p: Plan, t: Situation)
    requires ValidPlan(p) && AgentsReport(p) && AllKept(p, t) && t.cancels == []
    ensures RowStatus.Cancelled !in t.state.rows
  {
    if RowStatus.Cancelled in t.state.rows {
      var i :| 0 <= i < |t.state.rows| && t.state.rows[i] == RowStatus.Cancelled;
      CancelledRowHasCancel(p, t, i);
      assert false;
    }
  }

  lemma OpenRowWasEarly(p: Plan, t: Situation)
    requires ValidPlan(p) && AgentsReport(p) && AllKept(p, t)
    ensures CompletedBy(p, t) && RowStatus.Cancelled in t.state.rows ==>
              CancelledAfterDispatch(t.cancels) && t.state.early != {}
  {
    hide OnlySuccesses, SeenAt, SawAll;
    if CompletedBy(p, t) && RowStatus.Cancelled in t.state.rows {
      var k :| LastDecider(p, t, Since(t), k) && OnlySuccesses(SeenAt(p, t, k));
      var i :| 0 <= i < |t.state.rows| && t.state.rows[i] == RowStatus.Cancelled;
      CancelledRowHasCancel(p, t, i);
      SuccessNeedsReports(p, t, k, i);
      assert i in t.state.early;
    }
  }

  lemma EarlyRowIsCancelled(p: Plan, t: Situation)
    requires ValidPlan(p) && AgentsReport(p) && AllKept(p, t) && CancelledAfterDispatch(t.cancels) && t.state.early != {}
    ensures RowStatus.Cancelled in t.state.rows
  {
    var i := Pick(t.state.early);
    assert i in p.reports && p.dispatched[i] == Sent;
    var c :| 0 <= c < |t.cancels| && t.cancels[c].phase != Sending;
    assert CancelKept(t, t.cancels[c]);
    RowSeen(p, Now(t), i);
    assert t.state.rows[i] == RowStatus.Cancelled;
  }

  lemma CancelledRowHasCancel(p: Plan, t: Situation, i: nat)
    requires ValidPlan(p) && AgentsReport(p) && AllKept(p, t) && i < |p.dispatched| && i < |t.state.rows|
    requires t.state.rows[i] == RowStatus.Cancelled
    ensures t.cancels != [] && Missing(p, Now(t), i) && CancelCounts(Now(t))
  {
    RowSeen(p, Now(t), i);
  }

  /** Who saw only successes saw every row reported, so every row has been. */
  lemma SuccessNeedsReports(p: Plan, t: Situation, k: int, i: nat)
    requires ValidPlan(p) && AgentsReport(p) && AllKept(p, t) && i < |p.dispatched|
    requires 0 <= k < |t.written| && OnlySuccesses(SeenAt(p, t, k))
    ensures i in Heard(t.state)
  {
    var h := t.written[k];
    assert ViewKept(p, t, h);
    SawAllIff(p, t.views[h], h);
    assert SeenAt(p, t, k) == SeenBy(p, t.views[h], h);
    assert i != h ==> Stands(t.views[h], i);
  }

  // ---------------------------------------------------------------------
  // Five runs
  // ---------------------------------------------------------------------

  lemma NextMove(p: Plan, t: Situation, moves: seq<Move>, u: Situation, m: Move) returns (longer: seq<Move>, v: Situation)
    requires Play(p, t, moves) == Some(u) && MayMake(p, u, m)
    ensures longer == moves + [m] && v == Make(p, u, m) && Play(p, t, longer) == Some(v)
  {
    longer, v := moves + [m], Make(p, u, m);
    assert longer[..|moves|] == moves;
  }

  /** A task for one device, to be reported or not, and nothing done yet. */
  ghost function OneDevice(p: Plan): Situation {
    Situation(State([Pending], TaskPending, Sending, map h | h in p.reports :: Idle, {}, {}), false, 0, [], map[], [])
  }

  /** A cancel before the running commit is undone: the task runs, and its command is on the way. */
  lemma CancelIsUndone() returns (p: Plan, t: Situation, moves: seq<Move>)
    ensures ValidPlan(p) && Start(p, t) && Play(p, t, moves).Some?
    ensures var t' := Play(p, t, moves).value;
            && Complete(t'.state) && |t'.cancels| == 1
            && t'.state.parent == TaskRunning && t'.state.rows == [Sent]
  {
    p := Plan([Sent], map[]);
    t := OneDevice(p);
    assert p.dispatched[0] == Sent && Play(p, t, []) == Some(t);
    var u;
    moves, u := NextMove(p, t, [], t, Ask);
    moves, u := NextMove(p, t, moves, u, Cancel);
    moves, u := NextMove(p, t, moves, u, Begin);
    moves, u := NextMove(p, t, moves, u, Take(CommitDispatch));
    moves, u := NextMove(p, t, moves, u, Take(CloseDispatch));
  }

  /** A cancel between the running commit and the dispatch commit: everything is done,
      the task is cancelled, and its command is on the way. */
  lemma CancelIsOverwritten() returns (p: Plan, t: Situation, moves: seq<Move>)
    ensures ValidPlan(p) && Start(p, t) && Play(p, t, moves).Some?
    ensures var t' := Play(p, t, moves).value;
            Complete(t'.state) && t'.state.parent == TaskCancelled && t'.state.rows == [Sent]
  {
    p := Plan([Sent], map[]);
    t := OneDevice(p);
    assert p.dispatched[0] == Sent && Play(p, t, []) == Some(t);
    var u;
    moves, u := NextMove(p, t, [], t, Begin);
    moves, u := NextMove(p, t, moves, u, Ask);
    moves, u := NextMove(p, t, moves, u, Cancel);
    moves, u := NextMove(p, t, moves, u, Take(CommitDispatch));
    moves, u := NextMove(p, t, moves, u, Take(CloseDispatch));
  }

  /** The plan of the other runs: the one device reports success. */
  ghost predicate OneSuccess(p: Plan) {
    p == Plan([Sent], map[0 := Succeeded])
  }

  lemma OneSuccessStart(p: Plan)
    requires OneSuccess(p)
    ensures ValidPlan(p) && Start(p, OneDevice(p)) && 0 in OneDevice(p).state.handlers
    ensures Play(p, OneDevice(p), []) == Some(OneDevice(p))
    ensures Aggregate([Succeeded]) == Some(TaskCompleted)
  {
    assert p.dispatched[0] == Sent;
    AggregateRule([Succeeded]);
  }

  /** A handler that read before a cancel writes after it: the cancelled task is
      completed, although no report came after the cancel. */
  lemma LateWriteCompletes(p: Plan) returns (moves: seq<Move>)
    requires OneSuccess(p)
    ensures ValidPlan(p) && Start(p, OneDevice(p)) && Play(p, OneDevice(p), moves).Some?
    ensures var t' := Play(p, OneDevice(p), moves).value;
            && Complete(t'.state) && |t'.cancels| == 1 && t'.cancels[0].reported == {0}
            && t'.state.early == {} && t'.state.parent == TaskCompleted
  {
    hide Aggregate, ReadsAll, Play;
    OneSuccessStart(p);
    var t := OneDevice(p);
    var u;
    moves, u := NextMove(p, t, [], t, Begin);
    moves, u := NextMove(p, t, moves, u, Take(CommitDispatch));
    moves, u := NextMove(p, t, moves, u, Take(CloseDispatch));
    moves, u := NextMove(p, t, moves, u, Take(CommitRow(0)));
    assert u.state.rows == [Succeeded];
    moves, u := NextMove(p, t, moves, u, Take(ReadRows(0)));
    assert u.state.handlers[0] == Saw([Succeeded]);
    moves, u := NextMove(p, t, moves, u, Ask);
    moves, u := NextMove(p, t, moves, u, Cancel);
    assert u.cancels[0].reported == {0};
    moves, u := NextMove(p, t, moves, u, Take(WriteParent(0)));
  }

  /** An early report, overwritten and then cancelled, completes the task over its cancelled row. */
  lemma CompletesOverCancelledRow(p: Plan) returns (moves: seq<Move>)
    requires OneSuccess(p)
    ensures ValidPlan(p) && Start(p, OneDevice(p)) && Play(p, OneDevice(p), moves).Some?
    ensures var t' := Play(p, OneDevice(p), moves).value;
            Complete(t'.state) && t'.state.parent == TaskCompleted && t'.state.rows == [RowStatus.Cancelled]
  {
    hide Aggregate, ReadsAll, Play;
    OneSuccessStart(p);
    var t := OneDevice(p);
    var u;
    moves, u := NextMove(p, t, [], t, Begin);
    moves, u := NextMove(p, t, moves, u, Take(CommitRow(0)));
    moves, u := NextMove(p, t, moves, u, Take(CommitDispatch));
    moves, u := NextMove(p, t, moves, u, Ask);
    moves, u := NextMove(p, t, moves, u, Cancel);
    assert u.state.rows == [RowStatus.Cancelled];
    moves, u := NextMove(p, t, moves, u, Take(ReadRows(0)));
    assert u.state.handlers[0] == Saw([Succeeded]);
    moves, u := NextMove(p, t, moves, u, Take(WriteParent(0)));
    moves, u := NextMove(p, t, moves, u, Take(CloseDispatch));
  }

  /** A cancel that is admitted before a completion and written after it: the task ends
      cancelled although its only row succeeded. */
  lemma CancelOverCompletion(p: Plan) returns (moves: seq<Move>)
    requires OneSuccess(p)
    ensures ValidPlan(p) && Start(p, OneDevice(p)) && Play(p, OneDevice(p), moves).Some?
    ensures var t' := Play(p, OneDevice(p), moves).value;
            Complete(t'.state) && t'.state.parent == TaskCancelled && t'.state.rows == [Succeeded]
  {
    hide Aggregate, ReadsAll, Play;
    OneSuccessStart(p);
    var t := OneDevice(p);
    var u;
    moves, u := NextMove(p, t, [], t, Begin);
    moves, u := NextMove(p, t, moves, u, Take(CommitDispatch));
    moves, u := NextMove(p, t, moves, u, Take(CloseDispatch));
    moves, u := NextMove(p, t, moves, u, Ask);
    moves, u := NextMove(p, t, moves, u, Take(CommitRow(0)));
    assert u.state.rows == [Succeeded];
    moves, u := NextMove(p, t, moves, u, Take(ReadRows(0)));
    assert u.state.handlers[0] == Saw([Succeeded]);
    moves, u := NextMove(p, t, moves, u, Take(WriteParent(0)));
    moves, u := NextMove(p, t, moves, u, Cancel);
  }
}
