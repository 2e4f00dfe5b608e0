/** Concurrent heartbeats. Every handler waits for the registration lock, looks its
    row up by id and then by IP, commits, and releases the lock; each of these is a
    step of its own, and the steps of different handlers interleave. */
module RegistrationLock {
  import opened Wrappers
  import opened Clock
  import opened Devices
  import opened Registry

  /** One heartbeat in flight, with the clock reading and the fresh identifiers it will use. */
  datatype Job = Job(req: Request, now: Stamp, newId: string, newToken: string)

  datatype Stage =
    | Waiting
    | Inside
    | AskedId(byId: Option<nat>)
    | AskedIp(found: Option<nat>)
    | Answered(answer: Answer)
    | Left(answer: Answer)

  datatype Entry = Entry(h: nat, answer: Answer)

  /** log lists the commits that have happened, in their order. */
  datatype State = State(rows: seq<Device>, holder: Option<nat>, stages: map<nat, Stage>, log: seq<Entry>)

  datatype Action = Acquire(h: nat) | QueryId(h: nat) | QueryIp(h: nat) | Commit(h: nat) | Release(h: nat)

  ghost predicate Init(jobs: map<nat, Job>, rows: seq<Device>, s: State) {
    && s.rows == rows
    && s.holder == None
    && s.stages.Keys == jobs.Keys
    && (forall h :: h in s.stages ==> s.stages[h] == Waiting)
    && s.log == []
  }

  predicate Enabled(jobs: map<nat, Job>, s: State, a: Action) {
    && a.h in s.stages && a.h in jobs
    && match a
       case Acquire(h) => s.holder == None && s.stages[h] == Waiting
       case QueryId(h) => s.stages[h] == Inside
       case QueryIp(h) => s.stages[h].AskedId?
       case Commit(h) => s.stages[h].AskedIp? && (s.stages[h].found.Some? ==> s.stages[h].found.value < |s.rows|)
       case Release(h) => s.stages[h].Answered?
  }

  function ById(rows: seq<Device>, req: Request): Option<nat> {
    if req.deviceId != "" then IndexOfId(rows, req.deviceId) else None
  }

  function ByIp(rows: seq<Device>, byId: Option<nat>, req: Request): Option<nat> {
    if byId.None? && req.ip != "" then NewestOfIp(rows, req.ip) else byId
  }

  function Execute(jobs: map<nat, Job>, s: State, a: Action): State
    requires Enabled(jobs, s, a)
  {
    var job := jobs[a.h];
    match a
    case Acquire(h) => s.(holder := Some(h), stages := s.stages[h := Inside])
    case QueryId(h) => s.(stages := s.stages[h := AskedId(ById(s.rows, job.req))])
    case QueryIp(h) => s.(stages := s.stages[h := AskedIp(ByIp(s.rows, s.stages[h].byId, job.req))])
    case Commit(h) =>
      var (rows, answer) := Handled(s.rows, s.stages[h].found, job.req, job.now, job.newId, job.newToken);
      s.(rows := rows, stages := s.stages[h := Answered(answer)], log := s.log + [Entry(h, answer)])
    case Release(h) => s.(holder := None, stages := s.stages[h := Left(s.stages[h].answer)])
  }

  function Play(jobs: map<nat, Job>, s: State, actions: seq<Action>): Option<State> {
    if actions == [] then Some(s)
    else
      var before := Play(jobs, s, actions[..|actions| - 1]);
      var a := actions[|actions| - 1];
      if before.Some? && Enabled(jobs, before.value, a) then Some(Execute(jobs, before.value, a)) else None
  }

  // ---------------------------------------------------------------------
  // One after the other
  // ---------------------------------------------------------------------

  function AfterJob(rows: seq<Device>, job: Job): (seq<Device>, Answer) {
    OnHeartbeat(rows, job.req, job.now, job.newId, job.newToken)
  }

  predicate KnownJobs(jobs: map<nat, Job>, log: seq<Entry>) {
    forall k :: 0 <= k < |log| ==> log[k].h in jobs
  }

  /** The table after the logged heartbeats, handled one at a time. */
  function TableAfter(rows: seq<Device>, jobs: map<nat, Job>, log: seq<Entry>): seq<Device>
    requires KnownJobs(jobs, log)
  {
    if log == [] then rows
    else AfterJob(TableAfter(rows, jobs, log[..|log| - 1]), jobs[log[|log| - 1].h]).0
  }

  /** The logged answers are those given when handling one at a time. */
  predicate AnswersFit(rows: seq<Device>, jobs: map<nat, Job>, log: seq<Entry>)
    requires KnownJobs(jobs, log)
  {
    log != [] ==>
      && AnswersFit(rows, jobs, log[..|log| - 1])
      && log[|log| - 1].answer == AfterJob(TableAfter(rows, jobs, log[..|log| - 1]), jobs[log[|log| - 1].h]).1
  }

  predicate InCriticalSection(stage: Stage) {
    stage.Inside? || stage.AskedId? || stage.AskedIp? || stage.Answered?
  }

  predicate HasAnswer(stage: Stage) {
    stage.Answered? || stage.Left?
  }

  ghost predicate Exclusive(jobs: map<nat, Job>, s: State) {
    && s.stages.Keys == jobs.Keys
    && (forall h :: h in s.stages ==> (InCriticalSection(s.stages[h]) <==> s.holder == Some(h)))
    && (s.holder.Some? ==> s.holder.value in s.stages)
    && (forall h :: h in s.stages && s.stages[h].AskedId? ==> s.stages[h].byId == ById(s.rows, jobs[h].req))
    && (forall h :: h in s.stages && s.stages[h].AskedIp? ==> s.stages[h].found == Find(s.rows, jobs[h].req))
  }

  /** Every handler that has an answer is in the log with it, once. */
  ghost predicate Logged(s: State) {
    && (forall k :: 0 <= k < |s.log| ==>
          s.log[k].h in s.stages && HasAnswer(s.stages[s.log[k].h]) && s.stages[s.log[k].h].answer == s.log[k].answer)
    && (forall j, k :: 0 <= j < k < |s.log| ==> s.log[j].h != s.log[k].h)
    && (forall h :: h in s.stages && HasAnswer(s.stages[h]) ==> Entry(h, s.stages[h].answer) in s.log)
  }

  ghost predicate OneAtATime(jobs: map<nat, Job>, rows: seq<Device>, s: State) {
    KnownJobs(jobs, s.log) && s.rows == TableAfter(rows, jobs, s.log) && AnswersFit(rows, jobs, s.log)
  }

  lemma ExclusiveStep(jobs: map<nat, Job>, s: State, a: Action)
    requires Exclusive(jobs, s) && Enabled(jobs, s, a)
    ensures Exclusive(jobs, Execute(jobs, s, a))
  {
    var s' := Execute(jobs, s, a);
    assert forall h :: h in s.stages && h != a.h ==> s'.stages[h] == s.stages[h];
    if !a.Acquire? {
      assert s.holder == Some(a.h);
    }
  }

  lemma LoggedAfter(s: State, s': State, h: nat, stage: Stage)
    requires Logged(s) && h in s.stages && s'.stages == s.stages[h := stage]
    requires if !HasAnswer(s.stages[h]) && HasAnswer(stage) then s'.log == s.log + [Entry(h, stage.answer)]
             else s'.log == s.log && HasAnswer(s.stages[h]) == HasAnswer(stage)
                  && (HasAnswer(stage) ==> stage.answer == s.stages[h].answer)
    ensures Logged(s')
  {
    assert forall g :: g in s.stages && g != h ==> s'.stages[g] == s.stages[g];
    assert forall k :: 0 <= k < |s.log| ==> s'.log[k] == s.log[k];
    forall g | g in s'.stages && HasAnswer(s'.stages[g])
      ensures Entry(g, s'.stages[g].answer) in s'.log
    {
      if g == h && s'.log != s.log {
        assert s'.log[|s.log|] == Entry(g, s'.stages[g].answer);
      } else {
        assert Entry(g, s.stages[g].answer) in s.log;
      }
    }
  }

  lemma LoggedStep(jobs: map<nat, Job>, s: State, a: Action)
    requires Logged(s) && Enabled(jobs, s, a)
    ensures Logged(Execute(jobs, s, a))
  {
    var s' := Execute(jobs, s, a);
    LoggedAfter(s, s', a.h, s'.stages[a.h]);
  }

  lemma CommitOneAtATime(jobs: map<nat, Job>, rows: seq<Device>, s: State, h: nat)
    requires Exclusive(jobs, s) && OneAtATime(jobs, rows, s) && Enabled(jobs, s, Commit(h))
    ensures OneAtATime(jobs, rows, Execute(jobs, s, Commit(h)))
  {
    var s' := Execute(jobs, s, Commit(h));
    assert s'.log[..|s.log|] == s.log;
    assert (s'.rows, s'.log[|s.log|].answer) == AfterJob(s.rows, jobs[h]);
  }

  /** The lock makes heartbeats atomic: in every state of every interleaving at most
      one handler is past the lock, the table is what the committed heartbeats give
      when they are handled one at a time in commit order, and every answer is the
      one given in that order. */
  lemma {:induction false} Serializable(jobs: map<nat, Job>, rows: seq<Device>, s: State, actions: seq<Action>)
    requires Init(jobs, rows, s) && Play(jobs, s, actions).Some?
    ensures var s' := Play(jobs, s, actions).value;
            Exclusive(jobs, s') && Logged(s') && OneAtATime(jobs, rows, s')
  {
    if actions != [] {
      var before, a := Play(jobs, s, actions[..|actions| - 1]).value, actions[|actions| - 1];
      Serializable(jobs, rows, s, actions[..|actions| - 1]);
      ExclusiveStep(jobs, before, a);
      LoggedStep(jobs, before, a);
      if a.Commit? {
        CommitOneAtATime(jobs, rows, before, a.h);
      }
    }
  }

  /** Nobody waits forever: as long as some handler has not left, some step is possible. */
  lemma NoDeadlock(jobs: map<nat, Job>, rows: seq<Device>, s: State, actions: seq<Action>)
    requires Init(jobs, rows, s) && Play(jobs, s, actions).Some?
    ensures var s' := Play(jobs, s, actions).value;
            (exists h :: h in s'.stages && !s'.stages[h].Left?) ==> exists a :: Enabled(jobs, s', a)
  {
    var s' := Play(jobs, s, actions).value;
    Serializable(jobs, rows, s, actions);
    if h :| h in s'.stages && !s'.stages[h].Left? {
      if s'.holder == None {
        assert Enabled(jobs, s', Acquire(h));
      } else {
        HolderCanGoOn(jobs, s', s'.holder.value);
      }
    }
  }

  lemma HolderCanGoOn(jobs: map<nat, Job>, s: State, h: nat)
    requires Exclusive(jobs, s) && s.holder == Some(h)
    ensures exists a :: Enabled(jobs, s, a)
  {
    assert InCriticalSection(s.stages[h]);
    assert Enabled(jobs, s, QueryId(h)) || Enabled(jobs, s, QueryIp(h)) || Enabled(jobs, s, Commit(h)) || Enabled(jobs, s, Release(h));
  }

  // ---------------------------------------------------------------------
  // Unique IPs
  // ---------------------------------------------------------------------

  /** A request that names a device by id reports no IP or that device's own. */
  ghost predicate OwnIp(jobs: map<nat, Job>, rows: seq<Device>, req: Request) {
    req.ip == ""
    || (&& (forall i :: 0 <= i < |rows| && rows[i].id == req.deviceId ==> HasIp(rows[i], req.ip))
        && (forall j :: j in jobs && jobs[j].newId == req.deviceId ==> jobs[j].req.ip == req.ip))
  }

  /** The IPs of the rows, old and new, never change. */
  ghost predicate IpsStay(jobs: map<nat, Job>, rows: seq<Device>, now: seq<Device>) {
    && |rows| <= |now|
    && (forall i :: 0 <= i < |rows| ==> now[i].id == rows[i].id && now[i].ip == rows[i].ip)
    && (forall i :: |rows| <= i < |now| ==> FromJob(jobs, now[i]))
  }

  ghost predicate FromJob(jobs: map<nat, Job>, d: Device) {
    exists j :: j in jobs && d.id == jobs[j].newId && d.ip == Some(jobs[j].req.ip)
  }

  /** Such a request only ever finds a row that has the IP it reports. */
  lemma FoundHasOwnIp(jobs: map<nat, Job>, rows: seq<Device>, now: seq<Device>, h: nat)
    requires h in jobs && OwnIp(jobs, rows, jobs[h].req) && IpsStay(jobs, rows, now)
    ensures var found := Find(now, jobs[h].req);
            found.Some? && jobs[h].req.ip != "" ==> HasIp(now[found.value], jobs[h].req.ip)
  {
    var req := jobs[h].req;
    var found := Find(now, req);
    if found.Some? && req.ip != "" && |rows| <= found.value && now[found.value].id == req.deviceId {
      var j: int :| j in jobs && now[found.value].id == jobs[j].newId && now[found.value].ip == Some(jobs[j].req.ip);
    }
  }

  lemma OwnIpJob(jobs: map<nat, Job>, rows: seq<Device>, now: seq<Device>, h: nat)
    requires h in jobs && OwnIp(jobs, rows, jobs[h].req)
    requires IpsStay(jobs, rows, now) && UniqueIps(now)
    ensures var now' := AfterJob(now, jobs[h]).0;
            IpsStay(jobs, rows, now') && UniqueIps(now')
  {
    hide Find;
    var job := jobs[h];
    var now' := AfterJob(now, job).0;
    var found := Find(now, job.req);
    FoundHasOwnIp(jobs, rows, now, h);
    if found.Some? {
      var i := found.value;
      assert forall k :: 0 <= k < |now| && k != i ==> now'[k] == now[k];
      assert now'[i].id == now[i].id && now'[i].ip == now[i].ip;
      assert |rows| <= i ==> FromJob(jobs, now'[i]);
      assert job.req.ip != "" ==> forall k :: 0 <= k < |now| && k != i ==> !HasIp(now[k], job.req.ip);
    } else if now' != now {
      assert now' == now + [Registered(job.req, job.now, job.newId, job.newToken)];
      assert FromJob(jobs, now'[|now|]);
      assert forall k :: 0 <= k < |now| ==> now'[k] == now[k];
    }
    HeartbeatKeepsUniqueIps(now, job.req, job.now, job.newId, job.newToken);
  }

  lemma {:induction false} SequentialUnique(jobs: map<nat, Job>, rows: seq<Device>, log: seq<Entry>)
    requires UniqueIps(rows) && forall h :: h in jobs ==> OwnIp(jobs, rows, jobs[h].req)
    requires KnownJobs(jobs, log)
    ensures IpsStay(jobs, rows, TableAfter(rows, jobs, log)) && UniqueIps(TableAfter(rows, jobs, log))
  {
    if log != [] {
      SequentialUnique(jobs, rows, log[..|log| - 1]);
      OwnIpJob(jobs, rows, TableAfter(rows, jobs, log[..|log| - 1]), log[|log| - 1].h);
    }
  }

  /** Registration under the lock: with at most one row per IP at the start, every
      reachable state of every interleaving has at most one row per IP, as long as
      requests that name a device report that device's own IP. */
  lemma AlwaysUnique(jobs: map<nat, Job>, rows: seq<Device>, s: State, actions: seq<Action>)
    requires Init(jobs, rows, s) && Play(jobs, s, actions).Some?
    requires UniqueIps(rows) && forall h :: h in jobs ==> OwnIp(jobs, rows, jobs[h].req)
    ensures UniqueIps(Play(jobs, s, actions).value.rows)
  {
    Serializable(jobs, rows, s, actions);
    SequentialUnique(jobs, rows, Play(jobs, s, actions).value.log);
  }

  // ---------------------------------------------------------------------
  // First registrations of one IP
  // ---------------------------------------------------------------------

  /** A heartbeat of a machine at the given IP that the server does not know yet, with the secret. */
  ghost predicate FirstRegistration(jobs: map<nat, Job>, rows: seq<Device>, req: Request, ip: string) {
    && req.secretOk && req.ip == ip
    && (req.deviceId != "" ==>
          && (forall i :: 0 <= i < |rows| ==> rows[i].id != req.deviceId)
          && (forall j :: j in jobs ==> jobs[j].newId != req.deviceId))
  }

  function AnswerId(a: Answer): Option<string> {
    match a
    case Created(id) => Some(id)
    case ReEnrolled(id) => Some(id)
    case Updated(id) => Some(id)
    case StillDeleted(_) => None
    case Rejected => None
  }

  /** The one row that the first committed registration added. */
  ghost predicate OneNewRow(rows: seq<Device>, now: seq<Device>, ip: string) {
    |now| == |rows| + 1 && now[..|rows|] == rows && HasIp(now[|rows|], ip)
  }

  lemma FirstAdds(jobs: map<nat, Job>, rows: seq<Device>, ip: string, h: nat)
    requires ip != "" && (forall i :: 0 <= i < |rows| ==> !HasIp(rows[i], ip))
    requires h in jobs && FirstRegistration(jobs, rows, jobs[h].req, ip)
    ensures var (now, answer) := AfterJob(rows, jobs[h]);
            OneNewRow(rows, now, ip) && now[|rows|].id == jobs[h].newId && AnswerId(answer) == Some(now[|rows|].id)
  {
    assert Find(rows, jobs[h].req) == None;
    assert (rows + [Registered(jobs[h].req, jobs[h].now, jobs[h].newId, jobs[h].newToken)])[..|rows|] == rows;
  }

  lemma LaterFinds(jobs: map<nat, Job>, rows: seq<Device>, now: seq<Device>, ip: string, h: nat, id: string)
    requires ip != "" && (forall i :: 0 <= i < |rows| ==> !HasIp(rows[i], ip))
    requires h in jobs && FirstRegistration(jobs, rows, jobs[h].req, ip)
    requires OneNewRow(rows, now, ip) && now[|rows|].id == id && exists j :: j in jobs && jobs[j].newId == id
    ensures var (now', answer) := AfterJob(now, jobs[h]);
            OneNewRow(rows, now', ip) && now'[|rows|].id == id && AnswerId(answer) == Some(id)
  {
    assert forall i :: 0 <= i < |rows| ==> now[i] == now[..|rows|][i];
    assert Find(now, jobs[h].req) == Some(|rows|);
    var now' := AfterJob(now, jobs[h]).0;
    assert forall i :: 0 <= i < |rows| ==> now'[i] == now[i];
    assert now'[..|rows|] == rows;
  }

  /** The table between two registrations: untouched, or with the one new row under the given id. */
  ghost predicate Progress(jobs: map<nat, Job>, rows: seq<Device>, now: seq<Device>, ip: string, id: Option<string>) {
    match id
    case None => now == rows
    case Some(i) => OneNewRow(rows, now, ip) && now[|rows|].id == i && exists j :: j in jobs && jobs[j].newId == i
  }

  lemma NextRegistration(jobs: map<nat, Job>, rows: seq<Device>, now: seq<Device>, ip: string, h: nat, id: Option<string>)
    returns (id': Option<string>)
    requires ip != "" && (forall i :: 0 <= i < |rows| ==> !HasIp(rows[i], ip))
    requires h in jobs && FirstRegistration(jobs, rows, jobs[h].req, ip)
    requires Progress(jobs, rows, now, ip, id)
    ensures id'.Some? && (id.Some? ==> id' == id)
    ensures Progress(jobs, rows, AfterJob(now, jobs[h]).0, ip, id') && AnswerId(AfterJob(now, jobs[h]).1) == id'
  {
    if id.None? {
      FirstAdds(jobs, rows, ip, h);
      id' := Some(jobs[h].newId);
    } else {
      LaterFinds(jobs, rows, now, ip, h, id.value);
      id' := id;
    }
  }

  /** Every answer so far names the one new row, which is there as soon as there is an answer. */
  ghost predicate AllNamed(s: State, id: Option<string>) {
    forall h :: h in s.stages && HasAnswer(s.stages[h]) ==> id.Some? && AnswerId(s.stages[h].answer) == id
  }

  lemma FoundIsCurrent(jobs: map<nat, Job>, s: State, h: nat)
    requires Exclusive(jobs, s) && h in jobs && h in s.stages && s.stages[h].AskedIp?
    ensures s.stages[h].found == Find(s.rows, jobs[h].req)
  {
  }

  lemma RegistrationStep(jobs: map<nat, Job>, rows: seq<Device>, s: State, a: Action, ip: string, id: Option<string>)
    returns (id': Option<string>)
    requires ip != "" && (forall i :: 0 <= i < |rows| ==> !HasIp(rows[i], ip))
    requires forall h :: h in jobs ==> FirstRegistration(jobs, rows, jobs[h].req, ip)
    requires Exclusive(jobs, s) && Enabled(jobs, s, a)
    requires Progress(jobs, rows, s.rows, ip, id) && AllNamed(s, id)
    ensures Progress(jobs, rows, Execute(jobs, s, a).rows, ip, id') && AllNamed(Execute(jobs, s, a), id')
  {
    hide FirstRegistration, Progress, Exclusive, Registered, Refreshed, Adopted;
    var s' := Execute(jobs, s, a);
    id' := id;
    if a.Commit? {
      FoundIsCurrent(jobs, s, a.h);
      id' := NextRegistration(jobs, rows, s.rows, ip, a.h, id);
      assert (s'.rows, s'.stages[a.h].answer) == AfterJob(s.rows, jobs[a.h]);
    }
    assert forall h :: h in s.stages && h != a.h ==> s'.stages[h] == s.stages[h];
  }

  lemma {:induction false} Registrations(jobs: map<nat, Job>, rows: seq<Device>, s: State, actions: seq<Action>, ip: string)
    returns (id: Option<string>)
    requires Init(jobs, rows, s) && Play(jobs, s, actions).Some?
    requires ip != "" && (forall i :: 0 <= i < |rows| ==> !HasIp(rows[i], ip))
    requires forall h :: h in jobs ==> FirstRegistration(jobs, rows, jobs[h].req, ip)
    ensures var s' := Play(jobs, s, actions).value;
            Progress(jobs, rows, s'.rows, ip, id) && AllNamed(s', id)
  {
    if actions == [] {
      id := None;
    } else {
      var before := actions[..|actions| - 1];
      var id0 := Registrations(jobs, rows, s, before, ip);
      Serializable(jobs, rows, s, before);
      id := RegistrationStep(jobs, rows, Play(jobs, s, before).value, actions[|actions| - 1], ip, id0);
    }
  }

  /** Any number of machines that register one unknown IP at the same time, in any
      interleaving, get one row, and all that were answered got the id of that row. */
  lemma OneRowForOneIp(jobs: map<nat, Job>, rows: seq<Device>, s: State, actions: seq<Action>, ip: string)
    requires Init(jobs, rows, s) && Play(jobs, s, actions).Some?
    requires ip != "" && (forall i :: 0 <= i < |rows| ==> !HasIp(rows[i], ip))
    requires forall h :: h in jobs ==> FirstRegistration(jobs, rows, jobs[h].req, ip)
    ensures var s' := Play(jobs, s, actions).value;
            forall h :: h in s'.stages && HasAnswer(s'.stages[h]) ==>
              && OneNewRow(rows, s'.rows, ip)
              && AnswerId(s'.stages[h].answer) == Some(s'.rows[|rows|].id)
  {
    var id := Registrations(jobs, rows, s, actions, ip);
  }
}
