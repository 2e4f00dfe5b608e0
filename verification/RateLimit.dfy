/** Login throttling: failures are counted per key, five of them within the
    window lock the key, and every further lock lasts twice as long as the one
    before.

    Times are real numbers of seconds, as the clock returns them; only the wait
    that CheckAllowed reports is cut down to whole seconds. */
module RateLimit {
  import opened Wrappers

  const MAX_FAILURES: nat := 5
  const BASE_LOCK_SECONDS: nat := 300
  const MAX_LOCK_SECONDS: nat := 3600
  const FAILURE_WINDOW_SECONDS: nat := 900

  datatype Entry = Entry(count: nat, firstAt: real, lastAt: real, lockedUntil: real, lockLevel: nat)

  function Key(ip: string, username: string): string {
    ip + "|" + username
  }

  function Pow2(n: nat): nat {
    if n == 0 then 1 else 2 * Pow2(n - 1)
  }

  function LockSeconds(level: nat): nat
    requires level > 0
  {
    var doubled := BASE_LOCK_SECONDS * Pow2(level - 1);
    if doubled < MAX_LOCK_SECONDS then doubled else MAX_LOCK_SECONDS
  }

  function Lookup(state: map<string, Entry>, key: string): Option<Entry> {
    if key in state then Some(state[key]) else None
  }

  /** The whole seconds a caller is told to wait. */
  function Wait(entry: Option<Entry>, now: real): int {
    if entry.Some? && entry.value.lockedUntil > now then (entry.value.lockedUntil - now).Floor else 0
  }

  /** The entry after one more failure: a stale or missing entry starts afresh. */
  function Fail(entry: Option<Entry>, now: real): Entry {
    var start :=
      if entry.None? || now - entry.value.lastAt > FAILURE_WINDOW_SECONDS as real
      then Entry(0, now, now, 0.0, 0)
      else entry.value;
    if start.count + 1 >= MAX_FAILURES then
      start.(count := 0, lastAt := now, lockLevel := start.lockLevel + 1,
      lockedUntil := now + LockSeconds(start.lockLevel + 1) as real)
    else
      start.(count := start.count + 1, lastAt := now)
  }

  /** A failure that locks is the one that leaves the count at zero. */
  predicate Locks(after: Entry) {
    after.count == 0 && after.lockLevel > 0
  }

  function LockReported(after: Entry): nat {
    if Locks(after) then LockSeconds(after.lockLevel) else 0
  }

  datatype LoginOutcome = Refused(wait: int) | LockedNow(seconds: nat) | BadPassword | LoggedIn

  /** The process-wide table of failures. */
  class Limiter {
    var state: map<string, Entry>

    constructor ()
      ensures state == map[]
    {
      state := map[];
    }

    method CheckAllowed(ip: string, username: string, now: real) returns (wait: int)
      ensures wait == Wait(Lookup(state, Key(ip, username)), now)
    {
      var k := Key(ip, username);
      if k !in state {
        return 0;
      }
      var st := state[k];
      if st.lockedUntil > now {
        return (st.lockedUntil - now).Floor;
      }
      return 0;
    }

    method RecordFailure(ip: string, username: string, now: real) returns (locked: nat)
      modifies this
      ensures state == old(state)[Key(ip, username) := Fail(Lookup(old(state), Key(ip, username)), now)]
      ensures locked == LockReported(state[Key(ip, username)])
    {
      var k := Key(ip, username);
      if k !in state || now - state[k].lastAt > FAILURE_WINDOW_SECONDS as real {
        state := state[k := Entry(0, now, now, 0.0, 0)];
      }
      var st := state[k];
      st := st.(count := st.count + 1);
      st := st.(lastAt := now);
      if st.count >= MAX_FAILURES {
        st := st.(lockLevel := st.lockLevel + 1);
        var lockSeconds := LockSeconds(st.lockLevel);
        st := st.(lockedUntil := now + lockSeconds as real);
        st := st.(count := 0);
        state := state[k := st];
        return lockSeconds;
      }
      state := state[k := st];
      return 0;
    }

    method RecordSuccess(ip: string, username: string)
      modifies this
      ensures state == old(state) - {Key(ip, username)}
    {
      state := state - {Key(ip, username)};
    }

    /** Check first, verify the password next, record last. Checking and recording read the clock separately. */
    method Login(ip: string, username: string, passwordOk: bool, checkedAt: real, recordedAt: real)
      returns (outcome: LoginOutcome)
      modifies this
      ensures var k := Key(ip, username);
              var before := Lookup(old(state), k);
              if Wait(before, checkedAt) > 0 then
                state == old(state) && outcome == Refused(Wait(before, checkedAt))
              else if passwordOk then
                state == old(state) - {k} && outcome == LoggedIn
              else
                && k in state
                && Some(state[k]) == AfterAttempt(before, Attempt(checkedAt, recordedAt))
                && state == old(state)[k := state[k]]
                && outcome == (if Locks(state[k]) then LockedNow(LockSeconds(state[k].lockLevel)) else BadPassword)
    {
      var wait := CheckAllowed(ip, username, checkedAt);
      if wait > 0 {
        return Refused(wait);
      }
      if !passwordOk {
        var locked := RecordFailure(ip, username, recordedAt);
        LockIsPositive(state[Key(ip, username)]);
        if locked > 0 {
          return LockedNow(locked);
        }
        return BadPassword;
      }
      RecordSuccess(ip, username);
      return LoggedIn;
    }
  }

  /** The table locks for 300, 600, 1200 and 2400 seconds, and then for an hour each time. */
  lemma LockTable(level: nat)
    requires level > 0
    ensures LockSeconds(level) ==
            (if level == 1 then 300 else if level == 2 then 600 else if level == 3 then 1200
             else if level == 4 then 2400 else 3600)
  {
    if level > 5 {
      Pow2AtLeast(level - 1);
    } else {
      assert Pow2(0) == 1 && Pow2(1) == 2 && Pow2(2) == 4 && Pow2(3) == 8 && Pow2(4) == 16;
    }
  }

  lemma {:induction false} Pow2AtLeast(n: nat)
    requires n >= 4
    ensures Pow2(n) >= 16
  {
    if n > 4 {
      Pow2AtLeast(n - 1);
    } else {
      assert Pow2(0) == 1 && Pow2(1) == 2 && Pow2(2) == 4 && Pow2(3) == 8;
    }
  }

  lemma LockIsPositive(after: Entry)
    ensures Locks(after) <==> LockReported(after) > 0
  {
    if Locks(after) {
      LockTable(after.lockLevel);
    }
  }

  /** Rounding the wait down lets an attempt through during the last second of a
      lock: a caller is refused exactly when a full second or more is left. */
  lemma RefusedIffFullSecondLeft(entry: Entry, now: real)
    ensures Wait(Some(entry), now) > 0 <==> entry.lockedUntil - now >= 1.0
  {
  }

  /** The wait that is told is the time left in whole seconds, and none without a lock. */
  lemma WaitIsWholeSeconds(entry: Option<Entry>, now: real)
    ensures var wait := Wait(entry, now) as real;
            if entry.Some? && entry.value.lockedUntil > now
            then 0.0 <= wait <= entry.value.lockedUntil - now < wait + 1.0
            else wait == 0.0
  {
  }

  /** When two clients share a key: exactly when they are the same, or the longer
      address goes on after the shorter one with a bar and the beginning of the
      other's user name. An address is whatever a forwarding header says, so it can
      contain a bar. */
  lemma SharedKeyIff(ip: string, username: string, ip': string, username': string)
    requires |ip| <= |ip'|
    ensures Key(ip, username) == Key(ip', username') <==>
            || (ip == ip' && username == username')
            || exists w :: ip' == ip + "|" + w && username == w + "|" + username'
  {
    var k, k' := Key(ip, username), Key(ip', username');
    if k == k' {
      assert k[..|ip|] == ip && k'[..|ip|] == ip'[..|ip|];
      if |ip| == |ip'| {
        assert k[|ip| + 1..] == username && k'[|ip| + 1..] == username';
      } else {
        assert k[|ip|] == '|' && k'[|ip|] == ip'[|ip|];
        var w := ip'[|ip| + 1..];
        assert ip' == ip + "|" + w;
        assert k[|ip| + 1..] == username && k'[|ip| + 1..] == w + "|" + username';
      }
    }
  }

  /** Two different clients with one key: the success of the first forgets the failures of the second. */
  lemma KeyCollision(state: map<string, Entry>)
    ensures var first, second := Key("1.2.3.4|x", "bob"), Key("1.2.3.4", "x|bob");
            first == second && Lookup(Apply(state, SuccessCall(first)), second) == None
  {
    var w := "x";
    assert "1.2.3.4|x" == "1.2.3.4" + "|" + w && "x|bob" == w + "|" + "bob";
    SharedKeyIff("1.2.3.4", "x|bob", "1.2.3.4|x", "bob");
  }

  // ---------------------------------------------------------------------
  // Arbitrary calls
  // ---------------------------------------------------------------------

  datatype Call = FailureCall(key: string, at: real) | SuccessCall(key: string)

  function Apply(state: map<string, Entry>, call: Call): map<string, Entry> {
    match call
    case FailureCall(k, at) => state[k := Fail(Lookup(state, k), at)]
    case SuccessCall(k) => state - {k}
  }

  function After(calls: seq<Call>): map<string, Entry> {
    if calls == [] then map[] else Apply(After(calls[..|calls| - 1]), calls[|calls| - 1])
  }

  function OfKey(calls: seq<Call>, key: string): seq<Call> {
    if calls == [] then []
    else
      var rest := OfKey(calls[..|calls| - 1], key);
      if calls[|calls| - 1].key == key then rest + [calls[|calls| - 1]] else rest
  }

  /** Whatever is called in whatever order, on whatever clock: every stored count
      is below the threshold, and every lock ends the doubled and capped time
      after the failure that set it, or was never set at all. */
  lemma {:induction false} StoredEntries(calls: seq<Call>, key: string)
    requires key in After(calls)
    ensures var e := After(calls)[key];
            && e.count < MAX_FAILURES
            && (e.lockLevel == 0 ==> e.lockedUntil == 0.0 && e.count > 0)
            && (e.lockLevel > 0 ==>
                  exists i :: 0 <= i < |calls| && calls[i].FailureCall? && calls[i].key == key
                              && e.lockedUntil == calls[i].at + LockSeconds(e.lockLevel) as real)
  {
    var n := |calls| - 1;
    var before := After(calls[..n]);
    var e := After(calls)[key];
    if key in before {
      StoredEntries(calls[..n], key);
    }
    if calls[n].key == key && Locks(e) {
      assert calls[n].FailureCall? && e.lockedUntil == calls[n].at + LockSeconds(e.lockLevel) as real;
    } else if e.lockLevel > 0 {
      var i :| 0 <= i < n && calls[..n][i].FailureCall? && calls[..n][i].key == key
               && before[key].lockedUntil == calls[..n][i].at + LockSeconds(before[key].lockLevel) as real;
      assert calls[i] == calls[..n][i];
    }
  }

  /** What is stored for a key depends on the calls for that key alone. */
  lemma {:induction false} KeysAreIndependent(calls: seq<Call>, key: string)
    ensures Lookup(After(calls), key) == Lookup(After(OfKey(calls, key)), key)
  {
    if calls != [] {
      var n := |calls| - 1;
      KeysAreIndependent(calls[..n], key);
      var rest := OfKey(calls[..n], key);
      assert (rest + [calls[n]])[..|rest|] == rest;
    }
  }

  // ---- the window and the five failures ----

  /** The window, in seconds: after more than 900 quiet ones a failure starts afresh;
      within them the fifth failure locks, for 300 seconds times two to the number of
      locks before it and an hour at most, and any other is only counted. */
  lemma WindowOf900(before: Entry, now: real)
    requires before.count < 5
    ensures var e := Fail(Some(before), now);
            && e.lastAt == now
            && (now - before.lastAt > 900.0 ==> e == Entry(1, now, now, 0.0, 0))
            && (now - before.lastAt <= 900.0 && before.count < 4 ==>
                  e == before.(count := before.count + 1, lastAt := now))
            && (now - before.lastAt <= 900.0 && before.count == 4 ==>
                  && e.count == 0 && e.lockLevel == before.lockLevel + 1 && e.firstAt == before.firstAt
                  && e.lockedUntil == now + LockReported(e) as real
                  && LockReported(e) == (if before.lockLevel == 0 then 300 else if before.lockLevel == 1 then 600
                                         else if before.lockLevel == 2 then 1200 else if before.lockLevel == 3 then 2400
                                         else 3600))
    ensures Fail(None, now) == Entry(1, now, now, 0.0, 0)
  {
    LockTable(before.lockLevel + 1);
  }

  /** Failures of one key and nothing else, at these times. */
  function Failures(key: string, times: seq<real>): seq<Call> {
    seq(|times|, i requires 0 <= i < |times| => FailureCall(key, times[i]))
  }

  lemma FailuresNext(key: string, times: seq<real>)
    requires times != []
    ensures var n := |times| - 1;
            && key in After(Failures(key, times))
            && After(Failures(key, times))[key] == Fail(Lookup(After(Failures(key, times[..n])), key), times[n])
  {
    var n := |times| - 1;
    assert Failures(key, times)[..n] == Failures(key, times[..n]);
  }

  /** No two consecutive failures since number i are more than 900 seconds apart. */
  predicate NoGap(times: seq<real>, i: nat) {
    forall k :: i < k < |times| ==> times[k] - times[k - 1] <= 900.0
  }

  lemma {:induction false} FewFailures(key: string, times: seq<real>)
    requires 0 < |times| < 5
    ensures key in After(Failures(key, times))
    ensures var e := After(Failures(key, times))[key];
            && 1 <= e.count <= |times| && e.lockLevel == 0 && e.lockedUntil == 0.0 && e.lastAt == times[|times| - 1]
            && (e.count == |times| <==> NoGap(times, 0))
  {
    FailuresNext(key, times);
    var n := |times| - 1;
    if n > 0 {
      FewFailures(key, times[..n]);
      WindowOf900(After(Failures(key, times[..n]))[key], times[n]);
      assert NoGap(times, 0) <==> NoGap(times[..n], 0) && times[n] - times[n - 1] <= 900.0;
    }
  }

  /** From an unknown key, five failures lock it, for 300 seconds, if and only if no two
      consecutive ones are more than 900 seconds apart; fewer never do. */
  lemma FifthFailureLocksIff(key: string, times: seq<real>)
    requires 0 < |times| <= 5
    ensures key in After(Failures(key, times))
    ensures var e := After(Failures(key, times))[key];
            && (Locks(e) <==> |times| == 5 && forall k :: 0 < k < 5 ==> times[k] - times[k - 1] <= 900.0)
            && e.lockedUntil == (if Locks(e) then times[4] + 300.0 else 0.0)
            && (!Locks(e) ==> e.count > 0 && e.lockLevel == 0)
  {
    if |times| < 5 {
      FewFailures(key, times);
    } else {
      FailuresNext(key, times);
      FewFailures(key, times[..4]);
      WindowOf900(After(Failures(key, times[..4]))[key], times[4]);
      assert NoGap(times, 0) <==> NoGap(times[..4], 0) && times[4] - times[3] <= 900.0;
    }
  }

  // ---------------------------------------------------------------------
  // Sequential failing logins on one key
  // ---------------------------------------------------------------------

  datatype Attempt = Attempt(checkedAt: real, recordedAt: real)

  function AfterAttempt(entry: Option<Entry>, a: Attempt): Option<Entry> {
    if Wait(entry, a.checkedAt) > 0 then entry else Some(Fail(entry, a.recordedAt))
  }

  /** One login finishes before the next begins, and the clock never goes back. */
  predicate Sequential(attempts: seq<Attempt>) {
    && (forall i :: 0 <= i < |attempts| ==> 0.0 <= attempts[i].checkedAt <= attempts[i].recordedAt)
    && (forall i :: 0 < i < |attempts| ==> attempts[i - 1].recordedAt <= attempts[i].checkedAt)
  }

  function Latest(log: seq<Entry>): Option<Entry> {
    if log == [] then None else Some(log[|log| - 1])
  }

  /** The entries left behind by the recorded failures, oldest first. Refused attempts record nothing. */
  function Play(attempts: seq<Attempt>): seq<Entry> {
    if attempts == [] then []
    else
      var log := Play(attempts[..|attempts| - 1]);
      var a := attempts[|attempts| - 1];
      if Wait(Latest(log), a.checkedAt) > 0 then log else log + [Fail(Latest(log), a.recordedAt)]
  }

  /** Playing one more attempt is what a failing Login does to the stored entry. */
  lemma PlayIsLogin(attempts: seq<Attempt>, a: Attempt)
    ensures Latest(Play(attempts + [a])) == AfterAttempt(Latest(Play(attempts)), a)
  {
    assert (attempts + [a])[..|attempts|] == attempts;
  }

  /** f was recorded right after e: the check in between saw less than a second of lock left. */
  predicate Follows(e: Entry, f: Entry) {
    && e.lastAt <= f.lastAt
    && e.lockedUntil - f.lastAt < 1.0
    && f == Fail(Some(e), f.lastAt)
  }

  predicate Chain(log: seq<Entry>) {
    && (log != [] ==> log[0] == Fail(None, log[0].lastAt))
    && (forall i :: 0 < i < |log| ==> Follows(log[i - 1], log[i]))
  }

  lemma {:induction false} PlayIsChain(attempts: seq<Attempt>)
    requires Sequential(attempts)
    ensures Chain(Play(attempts))
    ensures forall i :: 0 <= i < |Play(attempts)| ==> Play(attempts)[i].lastAt <= attempts[|attempts| - 1].recordedAt
  {
    if attempts != [] {
      var n := |attempts| - 1;
      PlayIsChain(attempts[..n]);
      var log := Play(attempts[..n]);
      var a := attempts[n];
      assert forall i :: 0 <= i < n ==> attempts[..n][i] == attempts[i];
      if log != [] {
        assert log[|log| - 1].lastAt <= attempts[n - 1].recordedAt <= a.checkedAt;
        if Wait(Latest(log), a.checkedAt) <= 0 {
          var e := log[|log| - 1];
          RefusedIffFullSecondLeft(e, a.checkedAt);
          assert Follows(e, Fail(Some(e), a.recordedAt));
        }
      }
    }
  }

  /** When the current lock was set; for an entry without one, its last failure. */
  function Base(e: Entry): real {
    if e.lockLevel == 0 then e.lastAt else e.lockedUntil - LockSeconds(e.lockLevel) as real
  }

  predicate Sound(e: Entry) {
    && e.count < MAX_FAILURES
    && e.lockLevel <= 3
    && (e.lockLevel == 0 ==> e.count > 0)
    && (e.lockLevel == 3 ==> e.count == 0)
    && (e.lockLevel > 0 ==> if e.count == 0 then e.lastAt == Base(e) else e.lastAt > e.lockedUntil - 1.0)
  }

  lemma SoundStep(e: Entry, f: Entry)
    requires Sound(e) && Follows(e, f)
    ensures Sound(f)
  {
    LockTable(1);
    LockTable(2);
    LockTable(3);
  }

  lemma {:induction false} SoundChain(log: seq<Entry>, i: nat)
    requires Chain(log) && i < |log|
    ensures Sound(log[i])
  {
    if i > 0 {
      SoundChain(log, i - 1);
      SoundStep(log[i - 1], log[i]);
    }
  }

  /** In sequential logins the level stays at three or below, because the third
      lock outlasts the window that would have kept the level; so a lock is 300,
      600 or 1200 seconds long. */
  lemma LevelAtMostThree(attempts: seq<Attempt>, i: nat)
    requires Sequential(attempts) && i < |Play(attempts)|
    ensures var e := Play(attempts)[i];
            e.lockLevel <= 3 && (Locks(e) ==> LockReported(e) in {300, 600, 1200})
  {
    PlayIsChain(attempts);
    SoundChain(Play(attempts), i);
    LockTable(1);
    LockTable(2);
    LockTable(3);
  }

  // ---- how often a key can be locked ----

  function LockCount(log: seq<Entry>): nat {
    if log == [] then 0
    else LockCount(log[..|log| - 1]) + if Locks(log[|log| - 1]) then 1 else 0
  }

  /** Twice the time credit, in seconds, that a level still owes. */
  function Potential(level: nat): int
    requires level <= 3
  {
    match level
    case 0 => 1199
    case 1 => 0
    case 2 => -601
    case 3 => -602
  }

  /** What the failure f after e has to pay for, twice in seconds. */
  function Cost(e: Entry, f: Entry): int
    requires e.lockLevel <= 3 && f.lockLevel <= 3
  {
    1199 * (if Locks(f) then 1 else 0) + Potential(f.lockLevel) - Potential(e.lockLevel)
  }

  /** One recorded failure pays for its lock, if it sets one, out of time and potential. */
  lemma PotentialStep(e: Entry, f: Entry)
    requires Sound(e) && Follows(e, f)
    ensures Sound(f)
    ensures 2.0 * (Base(f) - Base(e)) >= Cost(e, f) as real
  {
    SoundStep(e, f);
    LockTable(1);
    LockTable(2);
    LockTable(3);
  }

  lemma LockCountNext(log: seq<Entry>, i: nat, j: nat)
    requires i < j < |log|
    ensures LockCount(log[i + 1..j + 1]) == LockCount(log[i + 1..j]) + if Locks(log[j]) then 1 else 0
  {
    assert log[i + 1..j + 1][..j - i - 1] == log[i + 1..j];
  }

  ghost predicate Levels(log: seq<Entry>) {
    forall k :: 0 <= k < |log| ==> log[k].lockLevel <= 3
  }

  lemma {:induction false} SumOfCosts(log: seq<Entry>, i: nat, j: nat)
    requires i <= j < |log| && Levels(log)
    requires forall k :: i < k <= j ==> 2.0 * (Base(log[k]) - Base(log[k - 1])) >= Cost(log[k - 1], log[k]) as real
    ensures 2.0 * (Base(log[j]) - Base(log[i])) >=
            (1199 * LockCount(log[i + 1..j + 1]) + Potential(log[j].lockLevel) - Potential(log[i].lockLevel)) as real
  {
    if i == j {
      assert log[i + 1..j + 1] == [];
    } else {
      SumOfCosts(log, i, j - 1);
      LockCountNext(log, i, j);
    }
  }

  lemma PotentialSum(log: seq<Entry>, i: nat, j: nat)
    requires Chain(log) && i <= j < |log|
    ensures Levels(log)
    ensures 2.0 * (Base(log[j]) - Base(log[i])) >=
            (1199 * LockCount(log[i + 1..j + 1]) + Potential(log[j].lockLevel) - Potential(log[i].lockLevel)) as real
  {
    forall k | 0 <= k < |log| ensures log[k].lockLevel <= 3 {
      SoundChain(log, k);
    }
    forall k | i < k <= j
      ensures 2.0 * (Base(log[k]) - Base(log[k - 1])) >= Cost(log[k - 1], log[k]) as real
    {
      SoundChain(log, k - 1);
      PotentialStep(log[k - 1], log[k]);
    }
    SumOfCosts(log, i, j);
  }

  /** The amortised lock bound: L consecutive locks of one key span a time D with
      2 D >= 1199 (L - 1) - 602 seconds, however the attempts are timed. */
  lemma LocksAreSpreadOut(attempts: seq<Attempt>, i: nat, j: nat)
    requires Sequential(attempts) && i <= j < |Play(attempts)|
    requires Locks(Play(attempts)[i]) && Locks(Play(attempts)[j])
    ensures var log := Play(attempts);
            var locks := LockCount(log[i..j + 1]);
            2.0 * (log[j].lastAt - log[i].lastAt) >= (1199 * (locks - 1) - 602) as real
  {
    var log := Play(attempts);
    PlayIsChain(attempts);
    PotentialSum(log, i, j);
    SoundChain(log, i);
    SoundChain(log, j);
    LockCountFirst(log[i..j + 1]);
    assert log[i..j + 1][1..] == log[i + 1..j + 1];
  }

  lemma {:induction false} LockCountFirst(log: seq<Entry>)
    requires log != []
    ensures LockCount(log) == (if Locks(log[0]) then 1 else 0) + LockCount(log[1..])
  {
    var n := |log| - 1;
    if n == 0 {
      assert log[..0] == [] && log[1..] == [];
    } else {
      LockCountFirst(log[..n]);
      assert log[..n][1..] == log[1..][..n - 1];
    }
  }

  // ---- how many guesses a time window allows ----

  lemma QuickStep(e: Entry, f: Entry)
    requires Sound(e) && Follows(e, f)
    ensures f.lastAt - e.lastAt > 299.0 || (e.count > 0 && f.count == if e.count == 4 then 0 else e.count + 1)
  {
    LockTable(1);
    LockTable(2);
    LockTable(3);
  }

  /** Six recorded failures in a row take longer than 299 seconds. */
  lemma SixFailuresSpan(log: seq<Entry>, i: nat)
    requires Chain(log) && i + 5 < |log|
    ensures log[i + 5].lastAt - log[i].lastAt > 299.0
  {
    forall k | i <= k < i + 5
      ensures Sound(log[k]) && log[k].lastAt <= log[k + 1].lastAt
      ensures log[k + 1].lastAt - log[k].lastAt > 299.0
              || (log[k].count > 0 && log[k + 1].count == if log[k].count == 4 then 0 else log[k].count + 1)
    {
      SoundChain(log, k);
      assert Follows(log[(k + 1) - 1], log[k + 1]);
      QuickStep(log[k], log[k + 1]);
    }
    assert log[i].lastAt <= log[i + 1].lastAt <= log[i + 2].lastAt <= log[i + 3].lastAt <= log[i + 4].lastAt <= log[i + 5].lastAt;
    SoundChain(log, i);
  }

  lemma {:induction false} FailuresSpan(log: seq<Entry>, i: nat, rounds: nat)
    requires Chain(log) && i + 5 * rounds < |log|
    ensures log[i + 5 * rounds].lastAt - log[i].lastAt >= 299.0 * rounds as real
    ensures rounds > 0 ==> log[i + 5 * rounds].lastAt - log[i].lastAt > 299.0 * rounds as real
  {
    if rounds > 0 {
      FailuresSpan(log, i, rounds - 1);
      SixFailuresSpan(log, i + 5 * (rounds - 1));
    }
  }

  lemma {:induction false} Ordered(log: seq<Entry>, i: nat, j: nat)
    requires Chain(log) && i <= j < |log|
    ensures log[i].lastAt <= log[j].lastAt
  {
    if i < j {
      Ordered(log, i, j - 1);
      assert Follows(log[j - 1], log[j]);
    }
  }

  function Ceil(x: real): int {
    -((-x).Floor)
  }

  /** How many groups of five failures fit into an interval of this length. */
  function Rounds(length: real): int {
    if length == 0.0 then 1 else Ceil(length / 299.0)
  }

  /** The sliding window bound: however the attempts are timed, an interval of length
      T > 0, both ends included, holds at most 5 ceil(T / 299) recorded failures; so
      299 seconds hold at most five. */
  lemma GuessesPerInterval(attempts: seq<Attempt>, from: real, length: real)
    requires Sequential(attempts) && length >= 0.0
    ensures var log := Play(attempts);
            |set i | 0 <= i < |log| && from <= log[i].lastAt <= from + length| <= 5 * Rounds(length)
  {
    var log := Play(attempts);
    PlayIsChain(attempts);
    var inside := set i | 0 <= i < |log| && from <= log[i].lastAt <= from + length;
    var rounds := Rounds(length);
    RoundsCover(length);
    if inside != {} {
      var first := Smallest(inside);
      forall i | i in inside
        ensures first <= i < first + 5 * rounds
      {
        CloseFailures(log, first, i, length);
      }
      RangeBound(inside, first, 5 * rounds);
    }
  }

  lemma RoundsCover(length: real)
    requires length >= 0.0
    ensures Rounds(length) >= 1 && length <= 299.0 * Rounds(length) as real
  {
    var q := length / 299.0;
    assert q == 0.0 <==> length == 0.0;
    assert -q >= (-q).Floor as real;
    assert length == 299.0 * q;
  }

  lemma CloseFailures(log: seq<Entry>, i: nat, j: nat, length: real)
    requires Chain(log) && i <= j < |log| && 0.0 <= length && log[j].lastAt - log[i].lastAt <= length
    ensures j < i + 5 * Rounds(length)
  {
    hide Rounds;
    RoundsCover(length);
    var rounds := Rounds(length);
    if j >= i + 5 * rounds {
      FailuresSpan(log, i, rounds);
      Ordered(log, i + 5 * rounds, j);
      assert false;
    }
  }

  lemma {:induction false} Smallest(s: set<int>) returns (m: int)
    requires s != {}
    ensures m in s && forall i :: i in s ==> m <= i
  {
    m := Pick(s);
    assert forall i :: i in s ==> i == m || i in s - {m};
    if s - {m} != {} {
      var rest := Smallest(s - {m});
      m := if rest < m then rest else m;
    }
  }

  lemma {:induction false} RangeBound(s: set<int>, lo: int, size: nat)
    requires forall i :: i in s ==> lo <= i < lo + size
    ensures |s| <= size
  {
    if size == 0 {
      if s != {} {
        var _ := Pick(s);
      }
    } else {
      RangeBound(s - {lo + size - 1}, lo, size - 1);
    }
  }
}
