/** Sending out commands: any number of task creations at once, each with one job per
    device. All jobs share ten permits; a job holds one while its command is written. */
module Dispatch {
  import opened Wrappers
  import opened Tasks
  import C = Connections

  const MAX_CONCURRENT_TASKS := 10

  datatype Job = Waiting | InFlight | Done(sent: bool)

  datatype Closing = Closing(sentCount: int, status: TaskStatus)

  /** One call of create_task; closing is what it stores when all its jobs are done. */
  datatype Call = Call(devices: seq<string>, jobs: seq<Job>, closing: Option<Closing>)

  /** attempts and written count, for every job, how often it was started and how often
      its command was written to a socket. */
  datatype State = State(calls: seq<Call>, permits: int, online: set<string>, attempts: multiset<(int, int)>, written: multiset<(int, int)>)

  datatype Action =
    | Create(requested: seq<string>, known: set<string>)
    | Start(c: int, j: int)
    | Finish(c: int, j: int, delivered: bool)
    | Close(c: int)
    | Connect(device: string)
    | Disconnect(device: string)

  ghost predicate Init(s: State) {
    s == State([], MAX_CONCURRENT_TASKS, s.online, multiset{}, multiset{})
  }

  function Filtered(requested: seq<string>, known: set<string>): seq<string> {
    if requested == [] then []
    else (if requested[0] in known then [requested[0]] else []) + Filtered(requested[1..], known)
  }

  lemma {:induction false} FilteredCounts(requested: seq<string>, known: set<string>, d: string)
    ensures multiset(Filtered(requested, known))[d] == if d in known then multiset(requested)[d] else 0
  {
    if requested != [] {
      FilteredCounts(requested[1..], known, d);
      assert requested == [requested[0]] + requested[1..];
    }
  }

  /** The requested devices that exist, in order and as often as they are asked for. */
  function Existing(requested: seq<string>, known: set<string>): (r: seq<string>)
    ensures forall d :: multiset(r)[d] == if d in known then multiset(requested)[d] else 0
  {
    assert forall d :: multiset(Filtered(requested, known))[d] == (if d in known then multiset(requested)[d] else 0) by {
      forall d ensures multiset(Filtered(requested, known))[d] == if d in known then multiset(requested)[d] else 0 {
        FilteredCounts(requested, known, d);
      }
    }
    Filtered(requested, known)
  }

  predicate IsJob(s: State, c: int, j: int) {
    0 <= c < |s.calls| && 0 <= j < |s.calls[c].jobs|
  }

  predicate AllDone(jobs: seq<Job>) {
    forall j :: 0 <= j < |jobs| ==> jobs[j].Done?
  }

  predicate Enabled(s: State, a: Action) {
    match a
    case Create(_, _) => true
    case Start(c, j) => IsJob(s, c, j) && j < |s.calls[c].devices| && s.calls[c].jobs[j] == Waiting && s.permits > 0
    case Finish(c, j, _) => IsJob(s, c, j) && s.calls[c].jobs[j] == InFlight
    case Close(c) => 0 <= c < |s.calls| && AllDone(s.calls[c].jobs) && s.calls[c].closing == None
    case Connect(_) => true
    case Disconnect(_) => true
  }

  function WithJob(s: State, c: int, j: int, job: Job): State
    requires IsJob(s, c, j)
  {
    s.(calls := s.calls[c := s.calls[c].(jobs := s.calls[c].jobs[j := job])])
  }

  function CountSent(jobs: seq<Job>): int {
    if jobs == [] then 0
    else CountSent(jobs[..|jobs| - 1]) + if jobs[|jobs| - 1] == Done(true) then 1 else 0
  }

  function Closed(jobs: seq<Job>): Closing {
    var sentCount := CountSent(jobs);
    Closing(sentCount, if sentCount == 0 then TaskFailed else TaskRunning)
  }

  /** A device without a connection fails at once and gives its permit straight back. */
  function Execute(s: State, a: Action): State
    requires Enabled(s, a)
  {
    match a
    case Create(requested, known) =>
      var devices := Existing(requested, known);
      s.(calls := s.calls + [Call(devices, seq(|devices|, _ => Waiting), None)])
    case Start(c, j) =>
      var started := s.(attempts := s.attempts + multiset{(c, j)});
      if s.calls[c].devices[j] !in s.online then WithJob(started, c, j, Done(false))
      else WithJob(started, c, j, InFlight).(permits := s.permits - 1, written := s.written + multiset{(c, j)})
    case Finish(c, j, delivered) => WithJob(s, c, j, Done(delivered)).(permits := s.permits + 1)
    case Close(c) => s.(calls := s.calls[c := s.calls[c].(closing := Some(Closed(s.calls[c].jobs)))])
    case Connect(d) => s.(online := s.online + {d})
    case Disconnect(d) => s.(online := s.online - {d})
  }

  function Run(s: State, actions: seq<Action>): Option<State> {
    if actions == [] then Some(s)
    else
      var before := Run(s, actions[..|actions| - 1]);
      var a := actions[|actions| - 1];
      if before.Some? && Enabled(before.value, a) then Some(Execute(before.value, a)) else None
  }

  ghost function JobsThat(s: State, job: Job): set<(int, int)> {
    set c, j | 0 <= c < |s.calls| && 0 <= j < |s.calls[c].jobs| && s.calls[c].jobs[j] == job :: (c, j)
  }

  // ---------------------------------------------------------------------
  // What every step keeps
  // ---------------------------------------------------------------------

  ghost predicate PermitsKept(s: State) {
    s.permits >= 0 && s.permits + |JobsThat(s, InFlight)| == MAX_CONCURRENT_TASKS
  }

  ghost predicate SentOnce(s: State) {
    && (forall c, j :: (c, j) in s.attempts ==> IsJob(s, c, j))
    && (forall c, j :: IsJob(s, c, j) ==>
          && s.attempts[(c, j)] == (if s.calls[c].jobs[j] == Waiting then 0 else 1)
          && s.written[(c, j)] <= s.attempts[(c, j)]
          && (s.calls[c].jobs[j] in {InFlight, Done(true)} ==> s.written[(c, j)] == 1))
    && s.written <= s.attempts
  }

  ghost predicate Rows(s: State) {
    forall c :: 0 <= c < |s.calls| ==>
      && |s.calls[c].jobs| == |s.calls[c].devices|
      && (s.calls[c].closing.Some? ==>
            AllDone(s.calls[c].jobs) && s.calls[c].closing.value == Closed(s.calls[c].jobs))
  }

  ghost predicate Safe(s: State) {
    PermitsKept(s) && SentOnce(s) && Rows(s)
  }

  /** Replacing one job moves it from one phase to another and leaves all others. */
  lemma JobMoves(s: State, c: int, j: int, job: Job, phase: Job)
    requires IsJob(s, c, j)
    ensures var s' := WithJob(s, c, j, job);
            && |s'.calls| == |s.calls|
            && JobsThat(s', phase) == (if job == phase then JobsThat(s, phase) + {(c, j)} else JobsThat(s, phase) - {(c, j)})
            && ((c, j) in JobsThat(s, phase) <==> s.calls[c].jobs[j] == phase)
  {
    var s' := WithJob(s, c, j, job);
    assert forall d :: 0 <= d < |s.calls| ==> |s'.calls[d].jobs| == |s.calls[d].jobs|;
    assert forall d, i :: IsJob(s, d, i) ==>
      s'.calls[d].jobs[i] == if d == c && i == j then job else s.calls[d].jobs[i];
  }

  lemma JobRows(s: State, c: int, j: int, job: Job)
    requires Rows(s) && IsJob(s, c, j) && !s.calls[c].jobs[j].Done?
    ensures Rows(WithJob(s, c, j, job))
  {
    var s' := WithJob(s, c, j, job);
    assert s.calls[c].closing == None;
    assert forall d :: 0 <= d < |s.calls| && d != c ==> s'.calls[d] == s.calls[d];
  }

  /** A step that takes one job on, and notes it when it starts. */
  lemma JobSentOnce(s: State, c: int, j: int, job: Job, noted: multiset<(int, int)>, s': State)
    requires SentOnce(s) && IsJob(s, c, j) && s'.calls == WithJob(s, c, j, job).calls && job != Waiting
    requires s'.attempts == s.attempts + noted
    requires (s.calls[c].jobs[j] == Waiting && noted == multiset{(c, j)}) || (s.calls[c].jobs[j] == InFlight && noted == multiset{})
    requires s'.written == s.written || (s'.written == s.written + noted && job == InFlight)
    requires job == InFlight ==> s'.written == s.written + multiset{(c, j)}
    requires job == Done(true) ==> s.calls[c].jobs[j] == InFlight
    ensures SentOnce(s')
  {
    assert forall d, i :: IsJob(s, d, i) <==> IsJob(s', d, i);
    assert forall d, i :: IsJob(s, d, i) && !(d == c && i == j) ==>
      s'.calls[d].jobs[i] == s.calls[d].jobs[i] && noted[(d, i)] == 0;
    assert s'.calls[c].jobs[j] == job;
  }

  lemma StartSafe(s: State, c: int, j: int)
    requires Safe(s) && Enabled(s, Start(c, j))
    ensures Safe(Execute(s, Start(c, j)))
  {
    hide SentOnce, Rows;
    var s' := Execute(s, Start(c, j));
    var job := if s.calls[c].devices[j] in s.online then InFlight else Done(false);
    JobRows(s, c, j, job);
    assert Rows(s') by { SameRows(s', WithJob(s, c, j, job)); }
    JobSentOnce(s, c, j, job, multiset{(c, j)}, s');
    JobMoves(s, c, j, job, InFlight);
    SameJobs(s', WithJob(s, c, j, job), InFlight);
    assert JobsThat(s, InFlight) - {(c, j)} == JobsThat(s, InFlight);
  }

  lemma FinishSafe(s: State, c: int, j: int, delivered: bool)
    requires Safe(s) && Enabled(s, Finish(c, j, delivered))
    ensures Safe(Execute(s, Finish(c, j, delivered)))
  {
    hide SentOnce, Rows;
    var s' := Execute(s, Finish(c, j, delivered));
    JobRows(s, c, j, Done(delivered));
    assert Rows(s') by { SameRows(s', WithJob(s, c, j, Done(delivered))); }
    JobSentOnce(s, c, j, Done(delivered), multiset{}, s');
    JobMoves(s, c, j, Done(delivered), InFlight);
    SameJobs(s', WithJob(s, c, j, Done(delivered)), InFlight);
  }

  lemma SameRows(s: State, t: State)
    requires s.calls == t.calls && Rows(t)
    ensures Rows(s)
  {
  }

  lemma SameJobs(s: State, t: State, phase: Job)
    requires s.calls == t.calls
    ensures JobsThat(s, phase) == JobsThat(t, phase)
  {
  }

  /** A step that takes no job on: it may bring new jobs, which wait. */
  lemma OtherSafe(s: State, s': State)
    requires Safe(s) && Rows(s') && s'.permits == s.permits && s'.attempts == s.attempts && s'.written == s.written
    requires forall c, j :: IsJob(s, c, j) ==> IsJob(s', c, j) && s'.calls[c].jobs[j] == s.calls[c].jobs[j]
    requires forall c, j :: IsJob(s', c, j) && !IsJob(s, c, j) ==> s'.calls[c].jobs[j] == Waiting
    ensures Safe(s')
  {
    assert JobsThat(s', InFlight) == JobsThat(s, InFlight);
  }

  lemma CreateSafe(s: State, requested: seq<string>, known: set<string>)
    requires Safe(s)
    ensures Safe(Execute(s, Create(requested, known)))
  {
    var s' := Execute(s, Create(requested, known));
    assert forall c :: 0 <= c < |s.calls| ==> s'.calls[c] == s.calls[c];
    OtherSafe(s, s');
  }

  lemma CloseSafe(s: State, c: int)
    requires Safe(s) && Enabled(s, Close(c))
    ensures Safe(Execute(s, Close(c)))
  {
    var s' := Execute(s, Close(c));
    assert forall d :: 0 <= d < |s.calls| && d != c ==> s'.calls[d] == s.calls[d];
    OtherSafe(s, s');
  }

  lemma StepSafe(s: State, a: Action)
    requires Safe(s) && Enabled(s, a)
    ensures Safe(Execute(s, a))
  {
    match a
    case Create(requested, known) => CreateSafe(s, requested, known);
    case Start(c, j) => StartSafe(s, c, j);
    case Finish(c, j, delivered) => FinishSafe(s, c, j, delivered);
    case Close(c) => CloseSafe(s, c);
    case _ => OtherSafe(s, Execute(s, a));
  }

  lemma {:induction false} RunSafe(s: State, actions: seq<Action>)
    requires Init(s) && Run(s, actions).Some?
    ensures Safe(Run(s, actions).value)
  {
    hide Execute, Enabled;
    if actions == [] {
      assert JobsThat(s, InFlight) == {};
    } else {
      hide Safe;
      RunSafe(s, actions[..|actions| - 1]);
      StepSafe(Run(s, actions[..|actions| - 1]).value, actions[|actions| - 1]);
    }
  }

  // ---------------------------------------------------------------------
  // The results
  // ---------------------------------------------------------------------

  /** However many tasks are created and however their jobs interleave, at most ten
      commands are being written at any time, and no command is written twice. */
  lemma AtMostTenInFlight(s: State, actions: seq<Action>)
    requires Init(s) && Run(s, actions).Some?
    ensures |JobsThat(Run(s, actions).value, InFlight)| <= 10
    ensures forall c, j :: Run(s, actions).value.written[(c, j)] <= 1
  {
    RunSafe(s, actions);
    var t := Run(s, actions).value;
    forall c, j ensures t.written[(c, j)] <= 1 {
      if (c, j) in t.attempts {
        assert IsJob(t, c, j);
      } else {
        assert (c, j) !in t.written;
      }
    }
  }

  ghost function SentJobs(jobs: seq<Job>): set<int> {
    set j | 0 <= j < |jobs| && jobs[j] == Done(true)
  }

  lemma {:induction false} CountIsNumberSent(jobs: seq<Job>)
    ensures CountSent(jobs) == |SentJobs(jobs)|
  {
    if jobs == [] {
      assert SentJobs(jobs) == {};
    } else {
      var n := |jobs| - 1;
      CountIsNumberSent(jobs[..n]);
      assert SentJobs(jobs) == SentJobs(jobs[..n]) + if jobs[n] == Done(true) then {n} else {};
    }
  }

  /** Whether the command went out, job by job. */
  function Outcomes(jobs: seq<Job>): seq<bool> {
    seq(|jobs|, j requires 0 <= j < |jobs| => jobs[j] == Done(true))
  }

  /** A call that has returned attempted every job exactly once and wrote the command of
      every job that counts as sent exactly once; it counted exactly these jobs, and
      stored the status of a task created with these outcomes: failed exactly when
      nothing went out. */
  lemma ClosedCall(s: State, actions: seq<Action>, c: int, isUpgrade: bool, times: seq<int>)
    requires Init(s) && Run(s, actions).Some?
    requires 0 <= c < |Run(s, actions).value.calls| && Run(s, actions).value.calls[c].closing.Some?
    requires |times| == |Run(s, actions).value.calls[c].jobs|
    ensures var t := Run(s, actions).value;
            var call := t.calls[c];
            && |call.jobs| == |call.devices|
            && (forall j :: 0 <= j < |call.jobs| ==>
                  && call.jobs[j].Done?
                  && t.attempts[(c, j)] == 1
                  && t.written[(c, j)] <= 1
                  && (call.jobs[j].sent ==> t.written[(c, j)] == 1))
            && call.closing.value.sentCount == |SentJobs(call.jobs)|
            && call.closing.value.status == Created(isUpgrade, Outcomes(call.jobs), times).status
            && (call.closing.value.status == TaskFailed <==> forall j :: 0 <= j < |call.jobs| ==> call.jobs[j] == Done(false))
  {
    RunSafe(s, actions);
    var t := Run(s, actions).value;
    var jobs := t.calls[c].jobs;
    CountIsNumberSent(jobs);
    forall j | 0 <= j < |jobs|
      ensures t.attempts[(c, j)] == 1 && t.written[(c, j)] <= 1 && (jobs[j] == Done(true) ==> t.written[(c, j)] == 1)
    {
      assert IsJob(t, c, j);
    }
    if true in Outcomes(jobs) {
      var j :| 0 <= j < |jobs| && Outcomes(jobs)[j];
      assert j in SentJobs(jobs);
    } else {
      forall j | 0 <= j < |jobs| ensures jobs[j] == Done(false) {
        assert !Outcomes(jobs)[j];
      }
      assert SentJobs(jobs) == {};
    }
  }

  // ---------------------------------------------------------------------
  // No call waits for ever
  // ---------------------------------------------------------------------

  ghost function OpenCalls(s: State): set<int> {
    set c | 0 <= c < |s.calls| && s.calls[c].closing == None
  }

  /** A step of the dispatchers themselves, as opposed to the outside world. */
  predicate Own(a: Action) {
    a.Start? || a.Finish? || a.Close?
  }

  ghost function Remaining(s: State): int {
    2 * |JobsThat(s, Waiting)| + |JobsThat(s, InFlight)| + |OpenCalls(s)|
  }

  /** While some call is open some dispatcher can go on. */
  lemma Progress(s: State, actions: seq<Action>)
    requires Init(s) && Run(s, actions).Some?
    requires OpenCalls(Run(s, actions).value) != {}
    ensures exists a :: Own(a) && Enabled(Run(s, actions).value, a)
  {
    RunSafe(s, actions);
    var t := Run(s, actions).value;
    if JobsThat(t, InFlight) != {} {
      var p := Pick(JobsThat(t, InFlight));
      assert Enabled(t, Finish(p.0, p.1, true)) && Own(Finish(p.0, p.1, true));
    } else {
      assert t.permits == MAX_CONCURRENT_TASKS;
      var c := PickOpen(t);
      if AllDone(t.calls[c].jobs) {
        assert Enabled(t, Close(c)) && Own(Close(c));
      } else {
        var j :| 0 <= j < |t.calls[c].jobs| && !t.calls[c].jobs[j].Done?;
        assert t.calls[c].jobs[j] == InFlight ==> (c, j) in JobsThat(t, InFlight);
        assert Enabled(t, Start(c, j)) && Own(Start(c, j));
      }
    }
  }

  lemma PickOpen(s: State) returns (c: int)
    requires OpenCalls(s) != {}
    ensures 0 <= c < |s.calls| && s.calls[c].closing == None
  {
    c := Pick(OpenCalls(s));
  }

  /** Each of their steps brings the end nearer; connections coming and going do not put it off. */
  lemma StepsCount(s: State, a: Action)
    requires Enabled(s, a) && !a.Create?
    ensures 0 <= Remaining(Execute(s, a)) <= Remaining(s) - if Own(a) then 1 else 0
  {
    var s' := Execute(s, a);
    match a
    case Start(c, j) =>
      var job := s'.calls[c].jobs[j];
      MoveCount(s, c, j, job);
      SameCounts(s', WithJob(s, c, j, job));
    case Finish(c, j, delivered) =>
      MoveCount(s, c, j, Done(delivered));
      SameCounts(s', WithJob(s, c, j, Done(delivered)));
    case Close(c) => CloseCount(s, c);
    case _ => SameCounts(s', s);
  }

  lemma CloseCount(s: State, c: int)
    requires Enabled(s, Close(c))
    ensures Remaining(Execute(s, Close(c))) == Remaining(s) - 1
  {
    var s' := Execute(s, Close(c));
    assert OpenCalls(s') == OpenCalls(s) - {c};
    assert c in OpenCalls(s);
    assert forall d :: 0 <= d < |s.calls| ==> s'.calls[d].jobs == s.calls[d].jobs;
    assert JobsThat(s', Waiting) == JobsThat(s, Waiting);
    assert JobsThat(s', InFlight) == JobsThat(s, InFlight);
  }

  lemma SameCounts(s: State, t: State)
    requires s.calls == t.calls
    ensures JobsThat(s, Waiting) == JobsThat(t, Waiting) && JobsThat(s, InFlight) == JobsThat(t, InFlight)
    ensures OpenCalls(s) == OpenCalls(t)
  {
  }

  lemma MoveCount(s: State, c: int, j: int, job: Job)
    requires IsJob(s, c, j)
    ensures var s' := WithJob(s, c, j, job);
            && (s.calls[c].jobs[j] == Waiting && job != Waiting ==> |JobsThat(s', Waiting)| == |JobsThat(s, Waiting)| - 1)
            && (s.calls[c].jobs[j] == InFlight && job.Done? ==>
                  |JobsThat(s', InFlight)| == |JobsThat(s, InFlight)| - 1 && JobsThat(s', Waiting) == JobsThat(s, Waiting))
            && |JobsThat(s', InFlight)| <= |JobsThat(s, InFlight)| + (if job == InFlight then 1 else 0)
            && OpenCalls(s') == OpenCalls(s)
  {
    hide JobsThat, WithJob, OpenCalls;
    JobMoves(s, c, j, job, Waiting);
    JobMoves(s, c, j, job, InFlight);
    SameOpen(s, c, j, job);
  }

  lemma SameOpen(s: State, c: int, j: int, job: Job)
    requires IsJob(s, c, j)
    ensures OpenCalls(WithJob(s, c, j, job)) == OpenCalls(s)
  {
    var s' := WithJob(s, c, j, job);
    assert forall d :: 0 <= d < |s.calls| ==> s'.calls[d].closing == s.calls[d].closing;
  }

  /** The number of own steps among these. */
  function OwnSteps(actions: seq<Action>): int {
    if actions == [] then 0
    else OwnSteps(actions[..|actions| - 1]) + if Own(actions[|actions| - 1]) then 1 else 0
  }

  /** Without new tasks no schedule is longer than what remains to be done: after that
      many steps every call has returned. */
  lemma {:induction false} EveryScheduleEnds(s: State, actions: seq<Action>)
    requires Run(s, actions).Some?
    requires forall i :: 0 <= i < |actions| ==> !actions[i].Create?
    ensures 0 <= OwnSteps(actions) <= Remaining(s)
    ensures Remaining(Run(s, actions).value) <= Remaining(s) - OwnSteps(actions)
    ensures OwnSteps(actions) == Remaining(s) ==> OpenCalls(Run(s, actions).value) == {}
  {
    hide Execute, Enabled;
    if actions != [] {
      var n := |actions| - 1;
      EveryScheduleEnds(s, actions[..n]);
      StepsCount(Run(s, actions[..n]).value, actions[n]);
    }
  }

  // ---------------------------------------------------------------------
  // What becomes of a job
  // ---------------------------------------------------------------------

  lemma {:induction false} FilteredInOrder(a: seq<string>, b: seq<string>, known: set<string>)
    ensures Filtered(a + b, known) == Filtered(a, known) + Filtered(b, known)
  {
    if a == [] {
      assert a + b == b;
    } else {
      assert (a + b)[1..] == a[1..] + b;
      FilteredInOrder(a[1..], b, known);
    }
  }

  /** The order of the requested devices is kept: one list after the other gives one
      result after the other, and one device gives itself if it exists. */
  lemma ExistingInOrder(a: seq<string>, b: seq<string>, d: string, known: set<string>)
    ensures Existing(a + b, known) == Existing(a, known) + Existing(b, known)
    ensures Existing([d], known) == if d in known then [d] else []
  {
    FilteredInOrder(a, b, known);
    OneFiltered(d, known);
  }

  lemma OneFiltered(d: string, known: set<string>)
    ensures Filtered([d], known) == if d in known then [d] else []
  {
    assert [d][1..] == [];
  }

  /** A waiting job can start exactly while fewer than ten commands are being written. */
  lemma StartsIff(s: State, actions: seq<Action>, c: int, j: int)
    requires Init(s) && Run(s, actions).Some? && IsJob(Run(s, actions).value, c, j)
    ensures var t := Run(s, actions).value;
            Enabled(t, Start(c, j)) <==> t.calls[c].jobs[j] == Waiting && |JobsThat(t, InFlight)| < 10
  {
    RunSafe(s, actions);
  }

  /** Whether the last thing that happened to the device is a connection; if nothing did, whether it was at the start. */
  predicate ConnectedAfter(online: set<string>, actions: seq<Action>, d: string) {
    if actions == [] then d in online
    else if actions[|actions| - 1] == Connect(d) then true
    else if actions[|actions| - 1] == Disconnect(d) then false
    else ConnectedAfter(online, actions[..|actions| - 1], d)
  }

  lemma {:induction false} OnlineIff(s: State, actions: seq<Action>, d: string)
    requires Run(s, actions).Some?
    ensures d in Run(s, actions).value.online <==> ConnectedAfter(s.online, actions, d)
  {
    if actions != [] {
      OnlineIff(s, actions[..|actions| - 1], d);
    }
  }

  /** The device of job (c, j) is connected in this state. */
  predicate Reachable(s: State, c: int, j: int) {
    IsJob(s, c, j) && j < |s.calls[c].devices| && s.calls[c].devices[j] in s.online
  }

  /** The job was started at some point of the run, with its device connected or not. */
  ghost predicate Started(s: State, actions: seq<Action>, c: int, j: int, connected: bool)
    requires Run(s, actions).Some?
  {
    actions != [] &&
    var before := actions[..|actions| - 1];
    || Started(s, before, c, j, connected)
    || (actions[|actions| - 1] == Start(c, j) && Reachable(Run(s, before).value, c, j) == connected)
  }

  /** The writing of its command ended at some point, and was delivered or not. */
  predicate Ended(actions: seq<Action>, c: int, j: int, delivered: bool) {
    actions != [] &&
    (Ended(actions[..|actions| - 1], c, j, delivered) || actions[|actions| - 1] == Finish(c, j, delivered))
  }

  /** What the history of a job says about its state. */
  ghost predicate JobIs(s: State, actions: seq<Action>, c: int, j: int)
    requires Run(s, actions).Some?
  {
    var t := Run(s, actions).value;
    && t.written[(c, j)] == (if Started(s, actions, c, j, true) then 1 else 0)
    && (if IsJob(t, c, j) then
          var job := t.calls[c].jobs[j];
          && (job == Waiting <==> !Started(s, actions, c, j, true) && !Started(s, actions, c, j, false))
          && (job == Done(true) <==> Ended(actions, c, j, true))
          && (job == Done(false) <==> Ended(actions, c, j, false) || Started(s, actions, c, j, false))
        else
          forall b :: !Started(s, actions, c, j, b) && !Ended(actions, c, j, b))
  }

  predicate ActsOn(a: Action, c: int, j: int) {
    (a.Start? || a.Finish?) && a.c == c && a.j == j
  }

  /** What one action does to a job. */
  lemma JobStep(s: State, a: Action, c: int, j: int)
    requires Enabled(s, a)
    ensures var s' := Execute(s, a);
            && (IsJob(s, c, j) ==> IsJob(s', c, j))
            && (IsJob(s, c, j) && !ActsOn(a, c, j) ==> s'.calls[c].jobs[j] == s.calls[c].jobs[j])
            && (!IsJob(s, c, j) && IsJob(s', c, j) ==> s'.calls[c].jobs[j] == Waiting)
            && (ActsOn(a, c, j) ==> IsJob(s, c, j))
            && (!ActsOn(a, c, j) || a.Finish? ==> s'.written[(c, j)] == s.written[(c, j)])
            && (a == Start(c, j) ==>
                  && s.calls[c].jobs[j] == Waiting
                  && s'.calls[c].jobs[j] == (if Reachable(s, c, j) then InFlight else Done(false))
                  && s'.written[(c, j)] == s.written[(c, j)] + if Reachable(s, c, j) then 1 else 0)
            && (a.Finish? && ActsOn(a, c, j) ==>
                  s.calls[c].jobs[j] == InFlight && s'.calls[c].jobs[j] == Done(a.delivered))
  {
  }

  /** The fate of every job, in every interleaving: its command is written, once, if and
      only if its device was connected when it started; it counts as sent if and only if
      the writing ended with the command delivered, and as failed if and only if it ended
      without, or the device was not connected at the start. */
  lemma {:induction false} FateOfJob(s: State, actions: seq<Action>, c: int, j: int)
    requires Init(s) && Run(s, actions).Some?
    ensures JobIs(s, actions, c, j)
  {
    if actions != [] {
      var m := |actions| - 1;
      var before, t := Run(s, actions[..m]).value, Run(s, actions).value;
      FateOfJob(s, actions[..m], c, j);
      JobStep(before, actions[m], c, j);
      hide Enabled, Execute;
      NextStart(s, actions, c, j);
      assert t == Execute(before, actions[m]);
      hide Run, Started, Ended;
      if IsJob(before, c, j) {
        assert IsJob(t, c, j);
      }
    }
  }

  lemma NextStart(s: State, actions: seq<Action>, c: int, j: int)
    requires actions != [] && Run(s, actions).Some?
    ensures var m := |actions| - 1;
            && Run(s, actions[..m]).Some?
            && (forall b :: Started(s, actions, c, j, b) <==>
                  Started(s, actions[..m], c, j, b)
                  || (actions[m] == Start(c, j) && Reachable(Run(s, actions[..m]).value, c, j) == b))
            && (forall b :: Ended(actions, c, j, b) <==> Ended(actions[..m], c, j, b) || actions[m] == Finish(c, j, b))
  {
  }

  /** No job of the call was started with its device in this condition. */
  ghost predicate NoneStarted(s: State, actions: seq<Action>, c: int, connected: bool)
    requires Run(s, actions).Some?
  {
    forall j :: !Started(s, actions, c, j, connected)
  }

  /** No writing of a command of the call failed. */
  predicate NoneLost(actions: seq<Action>, c: int) {
    forall a :: a in actions ==> !(a.Finish? && a.c == c && !a.delivered)
  }

  lemma {:induction false} NotLost(actions: seq<Action>, c: int, j: int)
    requires NoneLost(actions, c)
    ensures !Ended(actions, c, j, false)
  {
    if actions != [] {
      assert actions[|actions| - 1] in actions;
      NotLost(actions[..|actions| - 1], c, j);
    }
  }

  lemma JobFate(s: State, actions: seq<Action>, c: int, j: int)
    requires Init(s) && Run(s, actions).Some? && IsJob(Run(s, actions).value, c, j)
    requires Run(s, actions).value.calls[c].jobs[j].Done?
    ensures var job := Run(s, actions).value.calls[c].jobs[j];
            && (job.sent ==> Started(s, actions, c, j, true) && !Ended(actions, c, j, false))
            && (!job.sent ==> Ended(actions, c, j, false) || Started(s, actions, c, j, false))
  {
    FateOfJob(s, actions, c, j);
    RunSafe(s, actions);
  }

  /** Task creation: a call that has returned, whose devices were connected when their
      jobs started and whose writes were all delivered, has sent every command, and left
      the task running unless there is no device at all. */
  lemma AllGoOut(s: State, actions: seq<Action>, c: int)
    requires Init(s) && Run(s, actions).Some?
    requires 0 <= c < |Run(s, actions).value.calls| && Run(s, actions).value.calls[c].closing.Some?
    requires NoneStarted(s, actions, c, false) && NoneLost(actions, c)
    ensures var call := Run(s, actions).value.calls[c];
            && (forall j :: 0 <= j < |call.jobs| ==> call.jobs[j] == Done(true))
            && call.closing.value.sentCount == |call.devices|
            && call.closing.value.status == if call.devices == [] then TaskFailed else TaskRunning
  {
    var jobs := Run(s, actions).value.calls[c].jobs;
    RunSafe(s, actions);
    forall j | 0 <= j < |jobs| ensures jobs[j] == Done(true) {
      JobFate(s, actions, c, j);
      NotLost(actions, c, j);
      assert !Started(s, actions, c, j, false);
    }
    CountAll(jobs);
  }

  /** If no device was connected when its job started, every row failed, and so did the task. */
  lemma NoneGoesOut(s: State, actions: seq<Action>, c: int)
    requires Init(s) && Run(s, actions).Some?
    requires 0 <= c < |Run(s, actions).value.calls| && Run(s, actions).value.calls[c].closing.Some?
    requires NoneStarted(s, actions, c, true)
    ensures var call := Run(s, actions).value.calls[c];
            && (forall j :: 0 <= j < |call.jobs| ==> call.jobs[j] == Done(false))
            && call.closing.value.sentCount == 0 && call.closing.value.status == TaskFailed
  {
    var jobs := Run(s, actions).value.calls[c].jobs;
    RunSafe(s, actions);
    forall j | 0 <= j < |jobs| ensures jobs[j] == Done(false) {
      JobFate(s, actions, c, j);
      assert !Started(s, actions, c, j, true);
    }
    CountAll(jobs);
  }

  lemma {:induction false} CountAll(jobs: seq<Job>)
    ensures (forall j :: 0 <= j < |jobs| ==> jobs[j] == Done(true)) ==> CountSent(jobs) == |jobs|
    ensures (forall j :: 0 <= j < |jobs| ==> jobs[j] == Done(false)) ==> CountSent(jobs) == 0
  {
    if jobs != [] {
      CountAll(jobs[..|jobs| - 1]);
    }
  }

  /** One job from start to end is one call of the connection manager's SendCommand. */
  lemma JobIsSendCommand(s: State, c: int, j: int, active: map<string, C.Socket>, accepted: C.Socket -> bool)
    requires Enabled(s, Start(c, j)) && s.online == active.Keys
    ensures var d := s.calls[c].devices[j];
            var started := Execute(s, Start(c, j));
            if d in active then
              && Enabled(started, Finish(c, j, accepted(active[d])))
              && Execute(started, Finish(c, j, accepted(active[d]))).calls[c].jobs[j] == Done(C.Sends(active, d, accepted))
            else started.calls[c].jobs[j] == Done(C.Sends(active, d, accepted))
  {
  }

  /** The devices that are connected here are those that the manager has registered. */
  lemma ConnectionsAgree(s: State, active: map<string, C.Socket>, d: string, socket: C.Socket)
    requires s.online == active.Keys
    ensures Execute(s, Connect(d)).online == C.Next(active, C.Connected(d, socket)).Keys
    ensures Execute(s, Disconnect(d)).online == C.Next(active, C.Ended(d, socket)).Keys
  {
  }
}
