/** Keeping stored data bounded: the daily purge of the audit log and the clean-up of uploaded files. */
module Retention {
  import opened Sorting

  // ---------------------------------------------------------------------
  // The audit log
  // ---------------------------------------------------------------------

  datatype Entry = Entry(id: string, createdAt: int)

  const MAX_ROWS: nat := 200_000
  const RETENTION_SECONDS := 180 * 24 * 3600

  ghost predicate UniqueIds(log: seq<Entry>) {
    forall i, j :: 0 <= i < j < |log| ==> log[i].id != log[j].id
  }

  function OldestFirst(): (Entry, Entry) -> bool {
    (d: Entry, e: Entry) => d.createdAt <= e.createdAt
  }

  /** The log without the entries from before the cutoff. */
  function Since(log: seq<Entry>, cutoff: int): (r: seq<Entry>)
    ensures forall e :: e in r <==> e in log && e.createdAt >= cutoff
    ensures |r| <= |log|
  {
    if log == [] then []
    else if log[0].createdAt < cutoff then Since(log[1..], cutoff)
    else [log[0]] + Since(log[1..], cutoff)
  }

  /** The log without the entries of some ids. */
  function WithoutIds(log: seq<Entry>, ids: set<string>): (r: seq<Entry>)
    ensures forall e :: e in r <==> e in log && e.id !in ids
    ensures |r| <= |log|
  {
    if log == [] then []
    else if log[0].id in ids then WithoutIds(log[1..], ids)
    else [log[0]] + WithoutIds(log[1..], ids)
  }

  function Ids(log: seq<Entry>): set<string> {
    set e | e in log :: e.id
  }

  /** The ids of the oldest entries. */
  function OldestIds(log: seq<Entry>, excess: nat): set<string>
    requires excess <= |log|
  {
    SortPermutes(OldestFirst(), log);
    Ids(Sort(OldestFirst(), log)[..excess])
  }

  /** Entries expire after half a year: 180 days. */
  lemma HalfYear(log: seq<Entry>, now: int, e: Entry)
    ensures e in Since(log, now - RETENTION_SECONDS) <==> e in log && now - e.createdAt <= 15_552_000
    ensures 15_552_000 == 180 * 24 * 60 * 60
  {
  }

  class AuditLog {
    var entries: seq<Entry>

    constructor ()
      ensures entries == []
    {
      entries := [];
    }

    /** Two stages: first the expired entries go, then the oldest of what is still too many. */
    method Purge(now: int) returns (deleted: int)
      requires UniqueIds(entries)
      modifies this
      ensures UniqueIds(entries)
      ensures entries == Purged(old(entries), now - RETENTION_SECONDS)
      ensures deleted == |old(entries)| - |entries|
    {
      var cutoff := now - RETENTION_SECONDS;
      var before := |entries|;
      SinceUnique(entries, cutoff);
      entries := Since(entries, cutoff);
      deleted := before - |entries|;
      if |entries| > MAX_ROWS {
        var excess := |entries| - MAX_ROWS;
        SortPermutes(OldestFirst(), entries);
        var oldest := OldestIds(entries, excess);
        ExcessCount(entries, excess);
        WithoutIdsUnique(entries, oldest);
        entries := WithoutIds(entries, oldest);
        deleted := deleted + |oldest|;
      }
    }
  }

  function Purged(log: seq<Entry>, cutoff: int): seq<Entry> {
    var recent := Since(log, cutoff);
    if |recent| > MAX_ROWS then
      SortPermutes(OldestFirst(), recent);
      WithoutIds(recent, OldestIds(recent, |recent| - MAX_ROWS))
    else recent
  }

  lemma {:induction false} SinceUnique(log: seq<Entry>, cutoff: int)
    requires UniqueIds(log)
    ensures UniqueIds(Since(log, cutoff))
  {
    if log != [] {
      SinceUnique(log[1..], cutoff);
      var rest := Since(log[1..], cutoff);
      forall k | 0 <= k < |rest| ensures rest[k].id != log[0].id {
        assert rest[k] in rest && rest[k] in log[1..];
      }
    }
  }

  lemma {:induction false} WithoutIdsUnique(log: seq<Entry>, ids: set<string>)
    requires UniqueIds(log)
    ensures UniqueIds(WithoutIds(log, ids))
  {
    if log != [] {
      WithoutIdsUnique(log[1..], ids);
      var rest := WithoutIds(log[1..], ids);
      forall k | 0 <= k < |rest| ensures rest[k].id != log[0].id {
        assert rest[k] in rest && rest[k] in log[1..];
      }
    }
  }

  lemma {:induction false} IdsCount(log: seq<Entry>)
    requires UniqueIds(log)
    ensures |Ids(log)| == |log|
  {
    if log == [] {
      assert Ids(log) == {};
    } else {
      IdsCount(log[1..]);
      assert log == [log[0]] + log[1..];
      assert Ids(log) == {log[0].id} + Ids(log[1..]);
      assert log[0].id !in Ids(log[1..]);
    }
  }

  lemma {:induction false} MultisetUnique(log: seq<Entry>, other: seq<Entry>)
    requires UniqueIds(log) && multiset(log) == multiset(other)
    ensures UniqueIds(other)
  {
    forall i, j | 0 <= i < j < |other| ensures other[i].id != other[j].id {
      SameElements(log, other);
      assert other[i] in log && other[j] in log;
      if other[i].id == other[j].id {
        SameEntry(log, other[i], other[j]);
        TwoPlaces(other, i, j);
        OnePlace(log, other[i]);
      }
    }
  }

  lemma SameEntry(log: seq<Entry>, d: Entry, e: Entry)
    requires UniqueIds(log) && d in log && e in log && d.id == e.id
    ensures d == e
  {
    var i :| 0 <= i < |log| && log[i] == d;
    var j :| 0 <= j < |log| && log[j] == e;
  }

  lemma TwoPlaces(s: seq<Entry>, i: nat, j: nat)
    requires i < j < |s| && s[i] == s[j]
    ensures multiset(s)[s[i]] >= 2
  {
    assert s == s[..j] + s[j..];
    assert s[i] in multiset(s[..j]) && s[j] in multiset(s[j..]) by {
      assert s[..j][i] == s[i] && s[j..][0] == s[j];
    }
  }

  lemma {:induction false} OnePlace(log: seq<Entry>, d: Entry)
    requires UniqueIds(log)
    ensures multiset(log)[d] <= 1
  {
    if log != [] {
      OnePlace(log[1..], d);
      assert log == [log[0]] + log[1..];
      if d == log[0] {
        assert d !in log[1..];
        assert d !in multiset(log[1..]);
      }
    }
  }

  lemma OneMore(a: set<string>, x: string, ids: set<string>)
    requires x !in a
    ensures |({x} + a) * ids| == |a * ids| + if x in ids then 1 else 0
  {
    if x in ids {
      assert ({x} + a) * ids == (a * ids) + {x};
    } else {
      assert ({x} + a) * ids == a * ids;
    }
  }

  lemma {:induction false} RemovedCount(log: seq<Entry>, ids: set<string>)
    requires UniqueIds(log)
    ensures |log| == |WithoutIds(log, ids)| + |Ids(log) * ids|
  {
    if log == [] {
      assert Ids(log) * ids == {};
    } else {
      RemovedCount(log[1..], ids);
      FirstId(log);
      OneMore(Ids(log[1..]), log[0].id, ids);
    }
  }

  lemma FirstId(log: seq<Entry>)
    requires log != [] && UniqueIds(log)
    ensures Ids(log) == {log[0].id} + Ids(log[1..]) && log[0].id !in Ids(log[1..])
  {
    assert log == [log[0]] + log[1..];
  }

  lemma SortedLog(log: seq<Entry>)
    requires UniqueIds(log)
    ensures var s := Sort(OldestFirst(), log);
            && |s| == |log| && UniqueIds(s) && (forall e :: e in s <==> e in log)
            && forall i, j :: 0 <= i < j < |s| ==> s[i].createdAt <= s[j].createdAt
  {
    var s := Sort(OldestFirst(), log);
    SortPermutes(OldestFirst(), log);
    SortSorts(OldestFirst(), log);
    SameElements(s, log);
    MultisetUnique(log, s);
    forall i, j | 0 <= i < j < |s| ensures s[i].createdAt <= s[j].createdAt {
      assert OldestFirst()(s[i], s[j]);
    }
  }

  lemma ExcessCount(log: seq<Entry>, excess: nat)
    requires UniqueIds(log) && excess <= |log|
    ensures |OldestIds(log, excess)| == excess
    ensures |WithoutIds(log, OldestIds(log, excess))| == |log| - excess
  {
    hide Sort, WithoutIds;
    SortedLog(log);
    var s := Sort(OldestFirst(), log);
    IdsCount(s[..excess]);
    RemovedCount(log, OldestIds(log, excess));
    assert Ids(log) * Ids(s[..excess]) == Ids(s[..excess]);
  }

  /** What is removed for being too much is the oldest. */
  lemma ExcessIsOldest(log: seq<Entry>, excess: nat, d: Entry, e: Entry)
    requires UniqueIds(log) && excess <= |log|
    requires d in log && e in log && d.id in OldestIds(log, excess) && e.id !in OldestIds(log, excess)
    ensures d.createdAt <= e.createdAt
  {
    hide Sort;
    SortedLog(log);
    var s := Sort(OldestFirst(), log);
    var i :| 0 <= i < excess && s[..excess][i].id == d.id;
    SameEntry(log, s[i], d);
    var j :| 0 <= j < |s| && s[j] == e;
    assert forall k :: 0 <= k < excess ==> s[..excess][k] == s[k] && s[k].id in Ids(s[..excess]);
    assert excess <= j;
  }

  /** After a purge no entry is older than the cutoff and at most 200000 remain; a
      removed entry had expired or is not newer than any survivor; and entries are
      removed for being too many only down to the limit. */
  lemma PurgeEffect(log: seq<Entry>, cutoff: int)
    requires UniqueIds(log)
    ensures var kept := Purged(log, cutoff);
            && (forall e :: e in kept ==> e in log && e.createdAt >= cutoff)
            && |kept| == (if |Since(log, cutoff)| > 200_000 then 200_000 else |Since(log, cutoff)|)
            && (|Since(log, cutoff)| <= 200_000 ==> forall e :: e in kept <==> e in log && e.createdAt >= cutoff)
            && (forall d, e :: d in log && d !in kept && e in kept ==> d.createdAt <= e.createdAt)
  {
    hide Sort, Since, WithoutIds, OldestIds;
    var recent := Since(log, cutoff);
    var kept := Purged(log, cutoff);
    SinceUnique(log, cutoff);
    if |recent| > MAX_ROWS {
      var excess := |recent| - MAX_ROWS;
      ExcessCount(recent, excess);
      forall d, e | d in recent && d !in kept && e in kept ensures d.createdAt <= e.createdAt {
        ExcessIsOldest(recent, excess, d, e);
      }
    }
  }

  // ---------------------------------------------------------------------
  // Uploaded files
  // ---------------------------------------------------------------------

  datatype File = File(path: string, mtime: int)

  function NewestFirst(): (File, File) -> bool {
    (f: File, g: File) => f.mtime >= g.mtime
  }

  /** Remove all but the newest files; a removal may fail, and then the file stays. */
  method CleanupUploads(files: seq<File>, keep: nat, removable: File -> bool) returns (left: multiset<File>)
    ensures left == Left(files, keep, removable)
  {
    hide Sort, Removed;
    var entries := Sort(NewestFirst(), files);
    left := multiset(entries);
    var surplus := if keep <= |entries| then entries[keep..] else [];
    RemoveNone(entries, surplus, removable);
    for i := 0 to |surplus|
      invariant left == multiset(entries) - Removed(surplus[..i], removable)
    {
      RemoveNext(entries, keep, i, removable);
      if removable(surplus[i]) {
        left := left - multiset{surplus[i]};
      }
    }
    assert surplus[..|surplus|] == surplus;
  }

  lemma RemoveNone(entries: seq<File>, surplus: seq<File>, removable: File -> bool)
    ensures multiset(entries) == multiset(entries) - Removed(surplus[..0], removable)
  {
    assert surplus[..0] == [];
  }

  lemma RemoveNext(entries: seq<File>, keep: nat, i: nat, removable: File -> bool)
    requires keep <= |entries| && i < |entries| - keep
    ensures var surplus := entries[keep..];
            var left := multiset(entries) - Removed(surplus[..i], removable);
            multiset(entries) - Removed(surplus[..i + 1], removable)
            == if removable(surplus[i]) then left - multiset{surplus[i]} else left
  {
    var surplus := entries[keep..];
    var before := Removed(surplus[..i], removable);
    assert surplus[..i + 1][..i] == surplus[..i];
    assert Removed(surplus[..i + 1], removable)
        == before + if removable(surplus[i]) then multiset{surplus[i]} else multiset{};
    SurplusInside(entries, keep, i, removable);
    SurplusInside(entries, keep, i + 1, removable);
    TakeAway(multiset(entries), before, surplus[i]);
  }

  function Removed(surplus: seq<File>, removable: File -> bool): multiset<File> {
    if surplus == [] then multiset{}
    else
      Removed(surplus[..|surplus| - 1], removable)
      + if removable(surplus[|surplus| - 1]) then multiset{surplus[|surplus| - 1]} else multiset{}
  }

  function Left(files: seq<File>, keep: nat, removable: File -> bool): multiset<File> {
    var entries := Sort(NewestFirst(), files);
    multiset(entries) - Removed(if keep <= |entries| then entries[keep..] else [], removable)
  }

  lemma {:induction false} RemovedInside(surplus: seq<File>, removable: File -> bool)
    ensures Removed(surplus, removable) <= multiset(surplus)
    ensures (forall f :: f in surplus ==> removable(f)) ==> Removed(surplus, removable) == multiset(surplus)
  {
    if surplus != [] {
      RemovedInside(surplus[..|surplus| - 1], removable);
      assert surplus == surplus[..|surplus| - 1] + [surplus[|surplus| - 1]];
    }
  }

  lemma {:induction false} RemovedTimes(surplus: seq<File>, removable: File -> bool, f: File)
    ensures Removed(surplus, removable)[f] == if removable(f) then multiset(surplus)[f] else 0
  {
    if surplus != [] {
      RemovedTimes(surplus[..|surplus| - 1], removable, f);
      assert surplus == surplus[..|surplus| - 1] + [surplus[|surplus| - 1]];
    }
  }

  lemma TakeAway(all: multiset<File>, gone: multiset<File>, f: File)
    requires gone <= all
    ensures gone + multiset{f} <= all ==> all - gone - multiset{f} == all - (gone + multiset{f})
    ensures gone + multiset{} == gone
  {
  }

  lemma SurplusInside(entries: seq<File>, keep: nat, n: nat, removable: File -> bool)
    requires keep <= |entries| && n <= |entries| - keep
    ensures Removed(entries[keep..][..n], removable) <= multiset(entries)
  {
    hide Removed;
    RemovedInside(entries[keep..][..n], removable);
    assert entries == entries[..keep] + entries[keep..];
    assert entries[keep..] == entries[keep..][..n] + entries[keep..][n..];
  }

  /** The newest files and the others. */
  ghost predicate Division(files: seq<File>, keep: nat, newest: seq<File>, surplus: seq<File>) {
    && multiset(newest) + multiset(surplus) == multiset(files)
    && |newest| == (if keep < |files| then keep else |files|)
    && forall f, g :: f in newest && g in surplus ==> f.mtime >= g.mtime
  }

  lemma SortedFiles(files: seq<File>, keep: nat) returns (newest: seq<File>, surplus: seq<File>)
    ensures Division(files, keep, newest, surplus)
    ensures newest + surplus == Sort(NewestFirst(), files)
    ensures surplus == if keep <= |files| then Sort(NewestFirst(), files)[keep..] else []
  {
    var entries := Sort(NewestFirst(), files);
    SortPermutes(NewestFirst(), files);
    SortSorts(NewestFirst(), files);
    var k := if keep < |entries| then keep else |entries|;
    newest, surplus := entries[..k], entries[k..];
    assert entries == newest + surplus;
    forall f, g | f in newest && g in surplus ensures f.mtime >= g.mtime {
      var i :| 0 <= i < k && entries[i] == f;
      var j :| k <= j < |entries| && entries[j] == g;
      assert NewestFirst()(entries[i], entries[j]);
    }
  }

  /** When every removal succeeds exactly the newest min(n, keep) files are left:
      that many, all of them present before, and none older than a removed one.
      Whatever fails, these files are never removed. */
  lemma CleanupEffect(files: seq<File>, keep: nat, removable: File -> bool) returns (newest: seq<File>, surplus: seq<File>)
    ensures Division(files, keep, newest, surplus)
    ensures multiset(newest) <= Left(files, keep, removable)
    ensures (forall f :: f in files ==> removable(f)) ==> Left(files, keep, removable) == multiset(newest)
    ensures forall f :: Left(files, keep, removable)[f] == multiset(newest)[f] + if removable(f) then 0 else multiset(surplus)[f]
  {
    hide Sort;
    newest, surplus := SortedFiles(files, keep);
    SortPermutes(NewestFirst(), files);
    RemovedInside(surplus, removable);
    forall f ensures Removed(surplus, removable)[f] == if removable(f) then multiset(surplus)[f] else 0 {
      RemovedTimes(surplus, removable, f);
    }
    if forall f :: f in files ==> removable(f) {
      forall f | f in surplus ensures removable(f) {
        assert f in multiset(surplus) && f in multiset(files);
      }
    }
  }
}
