/** The clean-up at start-up: of the live rows that share an IP only the one with
    the latest heartbeat is kept. */
module Dedupe {
  import opened Wrappers
  import opened Clock
  import opened Devices
  import opened Sorting

  predicate LiveAt(d: Device, ip: string) {
    HasIp(d, ip) && d.deletedAt.None?
  }

  /** The rows of an IP that are not deleted. */
  function LiveOf(rows: seq<Device>, ip: string): (r: seq<Device>)
    ensures forall d :: d in r <==> d in rows && LiveAt(d, ip)
  {
    if rows == [] then []
    else
      var rest := LiveOf(rows[1..], ip);
      if LiveAt(rows[0], ip) then [rows[0]] + rest else rest
  }

  function LaterFirst(): (Device, Device) -> bool {
    (d: Device, e: Device) => Instant(d.lastHeartbeat) >= Instant(e.lastHeartbeat)
  }

  /** The table without the row of an id. */
  function WithoutId(rows: seq<Device>, id: string): (r: seq<Device>)
    ensures forall d :: d in r <==> d in rows && d.id != id
  {
    if rows == [] then []
    else if rows[0].id == id then WithoutId(rows[1..], id)
    else [rows[0]] + WithoutId(rows[1..], id)
  }

  function WithoutAll(rows: seq<Device>, gone: seq<Device>): (r: seq<Device>)
    ensures forall d :: d in r <==> d in rows && forall e :: e in gone ==> e.id != d.id
    decreases |gone|
  {
    if gone == [] then rows else WithoutAll(WithoutId(rows, gone[0].id), gone[1..])
  }

  /** Keep the newest live row of one IP. */
  function DedupeIp(rows: seq<Device>, ip: string): seq<Device> {
    var newestFirst := Sort(LaterFirst(), LiveOf(rows, ip));
    if newestFirst == [] then rows else WithoutAll(rows, newestFirst[1..])
  }

  function DedupeIps(rows: seq<Device>, ips: seq<string>): seq<Device>
    decreases |ips|
  {
    if ips == [] then rows else DedupeIps(DedupeIp(rows, ips[0]), ips[1..])
  }

  /** The IPs that more than one live row has, looking at the first n rows. */
  function SharedIps(rows: seq<Device>, n: nat): (ips: seq<string>)
    requires n <= |rows|
    ensures forall ip :: ip in ips ==> |LiveOf(rows, ip)| > 1
    ensures forall i :: 0 <= i < n && rows[i].deletedAt.None? && rows[i].ip.Some? && |LiveOf(rows, rows[i].ip.value)| > 1 ==>
                          rows[i].ip.value in ips
  {
    if n == 0 then []
    else
      var ips := SharedIps(rows, n - 1);
      var d := rows[n - 1];
      if d.deletedAt.None? && d.ip.Some? && d.ip.value !in ips && |LiveOf(rows, d.ip.value)| > 1 then ips + [d.ip.value] else ips
  }

  function Deduped(rows: seq<Device>): seq<Device> {
    DedupeIps(rows, SharedIps(rows, |rows|))
  }

  /** The nested loop over the shared IPs and the older rows of each. */
  method DedupeDevices(rows: seq<Device>) returns (kept: seq<Device>)
    ensures kept == Deduped(rows)
  {
    kept := rows;
    var ips := SharedIps(rows, |rows|);
    for i := 0 to |ips|
      invariant DedupeIps(kept, ips[i..]) == Deduped(rows)
    {
      var newestFirst := Sort(LaterFirst(), LiveOf(kept, ips[i]));
      ghost var before := kept;
      if newestFirst != [] {
        var duplicates := newestFirst[1..];
        for j := 0 to |duplicates|
          invariant WithoutAll(kept, duplicates[j..]) == WithoutAll(before, duplicates)
        {
          kept := WithoutId(kept, duplicates[j].id);
        }
      }
      assert kept == DedupeIp(before, ips[i]);
      assert ips[i..][1..] == ips[i + 1..];
    }
  }

  // ---------------------------------------------------------------------
  // What is kept
  // ---------------------------------------------------------------------

  ghost predicate UniqueIds(rows: seq<Device>) {
    forall i, j :: 0 <= i < j < |rows| ==> rows[i].id != rows[j].id
  }

  /** The rows that are kept stay in their order. */
  ghost predicate Subsequence(kept: seq<Device>, rows: seq<Device>) {
    if kept == [] then true
    else if rows == [] then false
    else if kept[0] == rows[0] then Subsequence(kept[1..], rows[1..])
    else Subsequence(kept, rows[1..])
  }

  lemma {:induction false} SubsequenceRefl(rows: seq<Device>)
    ensures Subsequence(rows, rows)
  {
    if rows != [] {
      SubsequenceRefl(rows[1..]);
    }
  }

  lemma {:induction false} SubsequenceDrop(a: seq<Device>, b: seq<Device>)
    requires Subsequence(a, b) && a != []
    ensures Subsequence(a[1..], b)
    decreases |b|, 0
  {
    if a[0] == b[0] {
      SubsequenceSkip(a[1..], b[1..], b[0]);
      assert [b[0]] + b[1..] == b;
    } else {
      SubsequenceDrop(a, b[1..]);
      SubsequenceSkip(a[1..], b[1..], b[0]);
      assert [b[0]] + b[1..] == b;
    }
  }

  lemma {:induction false} SubsequenceSkip(a: seq<Device>, b: seq<Device>, d: Device)
    requires Subsequence(a, b)
    ensures Subsequence(a, [d] + b)
    decreases |b|, 1
  {
    var longer := [d] + b;
    assert longer[1..] == b;
    if a != [] && a[0] == d {
      SubsequenceDrop(a, b);
    }
  }

  lemma {:induction false} SubsequenceTrans(a: seq<Device>, b: seq<Device>, c: seq<Device>)
    requires Subsequence(a, b) && Subsequence(b, c)
    ensures Subsequence(a, c)
    decreases |b| + |c|
  {
    if a != [] {
      if b[0] != c[0] {
        SubsequenceTrans(a, b, c[1..]);
        SubsequenceSkip(a, c[1..], c[0]);
        assert [c[0]] + c[1..] == c;
      } else if a[0] == b[0] {
        SubsequenceTrans(a[1..], b[1..], c[1..]);
      } else {
        SubsequenceTrans(a, b[1..], c[1..]);
        SubsequenceSkip(a, c[1..], c[0]);
        assert [c[0]] + c[1..] == c;
      }
    }
  }

  lemma {:induction false} WithoutIdKeepsOrder(rows: seq<Device>, id: string)
    ensures Subsequence(WithoutId(rows, id), rows)
  {
    if rows != [] {
      WithoutIdKeepsOrder(rows[1..], id);
      var rest := WithoutId(rows[1..], id);
      if rows[0].id == id {
        SubsequenceSkip(rest, rows[1..], rows[0]);
        assert [rows[0]] + rows[1..] == rows;
      } else {
        assert ([rows[0]] + rest)[1..] == rest;
      }
    }
  }

  lemma {:induction false} WithoutIdKeepsUnique(rows: seq<Device>, id: string)
    requires UniqueIds(rows)
    ensures UniqueIds(WithoutId(rows, id))
  {
    if rows != [] {
      WithoutIdKeepsUnique(rows[1..], id);
      var rest := WithoutId(rows[1..], id);
      forall k | 0 <= k < |rest| ensures rest[k].id != rows[0].id {
        assert rest[k] in rest && rest[k] in rows[1..];
      }
    }
  }

  lemma {:induction false} WithoutAllKeepsOrder(rows: seq<Device>, gone: seq<Device>)
    ensures Subsequence(WithoutAll(rows, gone), rows)
    ensures UniqueIds(rows) ==> UniqueIds(WithoutAll(rows, gone))
    decreases |gone|
  {
    if gone == [] {
      SubsequenceRefl(rows);
    } else {
      var fewer := WithoutId(rows, gone[0].id);
      WithoutIdKeepsOrder(rows, gone[0].id);
      if UniqueIds(rows) {
        WithoutIdKeepsUnique(rows, gone[0].id);
      }
      WithoutAllKeepsOrder(fewer, gone[1..]);
      SubsequenceTrans(WithoutAll(rows, gone), fewer, rows);
    }
  }

  lemma SameIdSameRow(rows: seq<Device>, d: Device, e: Device)
    requires UniqueIds(rows) && d in rows && e in rows && d.id == e.id
    ensures d == e
  {
    var i :| 0 <= i < |rows| && rows[i] == d;
    var j :| 0 <= j < |rows| && rows[j] == e;
  }

  /** d is the one live row of its IP, and no live row of that IP in the given rows was heard of later. */
  ghost predicate Champion(d: Device, kept: seq<Device>, rows: seq<Device>, ip: string) {
    && d in kept && LiveAt(d, ip)
    && (forall e :: e in kept && LiveAt(e, ip) ==> e == d)
    && (forall e :: e in rows && LiveAt(e, ip) ==> Instant(e.lastHeartbeat) <= Instant(d.lastHeartbeat))
  }

  lemma {:induction false} LiveOfUnique(rows: seq<Device>, ip: string)
    requires UniqueIds(rows)
    ensures UniqueIds(LiveOf(rows, ip))
  {
    if rows != [] {
      LiveOfUnique(rows[1..], ip);
      var rest := LiveOf(rows[1..], ip);
      assert forall k :: 0 <= k < |rest| ==> rest[k] in rest && rest[k] in rows[1..];
    }
  }

  lemma NewestFirst(rows: seq<Device>, ip: string)
    ensures var s := Sort(LaterFirst(), LiveOf(rows, ip));
            && (forall d :: d in s <==> d in rows && LiveAt(d, ip))
            && |s| == |LiveOf(rows, ip)|
            && Sorted(LaterFirst(), s)
  {
    var live := LiveOf(rows, ip);
    SortPermutes(LaterFirst(), live);
    SortSorts(LaterFirst(), live);
    SameElements(Sort(LaterFirst(), live), live);
  }

  lemma InTwice(s: seq<Device>, d: Device)
    requires s != [] && d == s[0] && d in s[1..]
    ensures multiset(s)[d] >= 2
  {
    assert s == [s[0]] + s[1..];
    assert d in multiset(s[1..]);
  }

  lemma DistinctAfterSort(rows: seq<Device>, ip: string)
    requires UniqueIds(rows)
    ensures var s := Sort(LaterFirst(), LiveOf(rows, ip));
            s != [] ==> forall d :: d in s[1..] ==> d.id != s[0].id
  {
    var live := LiveOf(rows, ip);
    var s := Sort(LaterFirst(), live);
    LiveOfUnique(rows, ip);
    SortPermutes(LaterFirst(), live);
    if s != [] {
      forall d | d in s[1..] ensures d.id != s[0].id {
        NewestFirst(rows, ip);
        if d.id == s[0].id {
          assert d in s && s[0] in s;
          SameIdSameRow(rows, d, s[0]);
          InTwice(s, d);
          Multiplicity(live, d);
        }
      }
    }
  }

  lemma {:induction false} Multiplicity(rows: seq<Device>, d: Device)
    requires UniqueIds(rows)
    ensures multiset(rows)[d] <= 1
  {
    if rows != [] {
      Multiplicity(rows[1..], d);
      assert rows == [rows[0]] + rows[1..];
      if d == rows[0] {
        assert d !in rows[1..];
        assert d !in multiset(rows[1..]);
      }
    }
  }

  lemma OthersStay(rows: seq<Device>, ip: string, gone: seq<Device>)
    requires UniqueIds(rows) && forall e :: e in gone ==> e in rows && LiveAt(e, ip)
    ensures forall d :: d in rows && !LiveAt(d, ip) ==> d in WithoutAll(rows, gone)
  {
    forall d | d in rows && !LiveAt(d, ip) ensures d in WithoutAll(rows, gone) {
      forall e | e in gone ensures e.id != d.id {
        if e.id == d.id {
          SameIdSameRow(rows, d, e);
        }
      }
    }
  }

  lemma NewestWins(rows: seq<Device>, ip: string, s: seq<Device>)
    requires UniqueIds(rows) && s == Sort(LaterFirst(), LiveOf(rows, ip)) && s != []
    ensures Champion(s[0], WithoutAll(rows, s[1..]), rows, ip)
  {
    hide Sort, WithoutAll, LiveOf, UniqueIds;
    NewestFirst(rows, ip);
    DistinctAfterSort(rows, ip);
    var top, gone := s[0], s[1..];
    var kept := WithoutAll(rows, gone);
    assert s == [top] + gone;
    assert top in s && top in kept;
    assert forall e :: e in kept && LiveAt(e, ip) ==> e in s;
    forall e | e in rows && LiveAt(e, ip) ensures Instant(e.lastHeartbeat) <= Instant(top.lastHeartbeat) {
      assert e in s;
      var k :| 0 <= k < |s| && s[k] == e;
      assert k > 0 ==> LaterFirst()(s[0], s[k]);
    }
  }

  /** One round: the newest live row of the IP is what remains of its live rows, and nothing else changes. */
  lemma DedupeIpEffect(rows: seq<Device>, ip: string)
    requires UniqueIds(rows)
    ensures var kept := DedupeIp(rows, ip);
            && Subsequence(kept, rows) && UniqueIds(kept)
            && (forall d :: d in kept ==> d in rows)
            && (forall d :: d in rows && !LiveAt(d, ip) ==> d in kept)
            && Settled(kept, rows, ip)
  {
    var s := Sort(LaterFirst(), LiveOf(rows, ip));
    NewestFirst(rows, ip);
    if s == [] {
      SubsequenceRefl(rows);
    } else {
      WithoutAllKeepsOrder(rows, s[1..]);
      OthersStay(rows, ip, s[1..]);
      NewestWins(rows, ip, s);
    }
  }

  /** What a champion of the rows so far says about the original rows. */
  ghost predicate Settled(kept: seq<Device>, rows: seq<Device>, ip: string) {
    HasLive(rows, ip) ==> exists d :: Champion(d, kept, rows, ip)
  }

  ghost predicate HasLive(rows: seq<Device>, ip: string) {
    exists d :: d in rows && LiveAt(d, ip)
  }

  ghost predicate Untouched(kept: seq<Device>, rows: seq<Device>, ips: seq<string>) {
    forall d :: d in rows && (forall ip :: ip in ips ==> !LiveAt(d, ip)) ==> d in kept
  }

  lemma {:induction false} DedupeIpsEffect(rows: seq<Device>, ips: seq<string>)
    requires UniqueIds(rows)
    ensures var kept := DedupeIps(rows, ips);
            && Subsequence(kept, rows) && UniqueIds(kept)
            && (forall d :: d in kept ==> d in rows)
            && Untouched(kept, rows, ips)
            && (forall ip :: ip in ips ==> Settled(kept, rows, ip))
    decreases |ips|
  {
    if ips == [] {
      SubsequenceRefl(rows);
    } else {
      var first := ips[0];
      var fewer := DedupeIp(rows, first);
      var kept := DedupeIps(rows, ips);
      DedupeIpEffect(rows, first);
      DedupeIpsEffect(fewer, ips[1..]);
      SubsequenceTrans(kept, fewer, rows);
      forall ip | ip in ips ensures Settled(kept, rows, ip) {
        SettledLater(rows, fewer, kept, first, ips[1..], ip);
      }
      forall d | d in rows && (forall ip :: ip in ips ==> !LiveAt(d, ip)) ensures d in kept {
        assert d in fewer;
      }
    }
  }

  lemma SettledLater(rows: seq<Device>, fewer: seq<Device>, kept: seq<Device>, first: string, others: seq<string>, ip: string)
    requires (forall d :: d in kept ==> d in fewer) && (forall d :: d in fewer ==> d in rows)
    requires forall d :: d in rows && !LiveAt(d, first) ==> d in fewer
    requires Settled(fewer, rows, first)
    requires Untouched(kept, fewer, others)
    requires forall i :: i in others ==> Settled(kept, fewer, i)
    requires ip == first || ip in others
    ensures Settled(kept, rows, ip)
  {
    if HasLive(rows, ip) {
      var d :| d in rows && LiveAt(d, ip);
      if ip == first {
        var c :| Champion(c, fewer, rows, ip);
        if ip in others {
          var c' :| Champion(c', kept, fewer, ip);
          assert Champion(c', kept, rows, ip);
        } else {
          assert forall i :: i in others ==> !LiveAt(c, i);
          assert Champion(c, kept, rows, ip);
        }
      } else {
        assert !LiveAt(d, first);
        var c' :| Champion(c', kept, fewer, ip);
        assert forall e :: e in rows && LiveAt(e, ip) ==> !LiveAt(e, first) && e in fewer;
        assert Champion(c', kept, rows, ip);
      }
    }
  }

  lemma {:induction false} FewLive(rows: seq<Device>, ip: string, d: Device, e: Device)
    requires |LiveOf(rows, ip)| <= 1 && d in rows && e in rows && LiveAt(d, ip) && LiveAt(e, ip)
    ensures d == e
  {
    var live := LiveOf(rows, ip);
    assert d in live && e in live;
    var i :| 0 <= i < |live| && live[i] == d;
    var j :| 0 <= j < |live| && live[j] == e;
  }

  /** The clean-up: every IP that had a live row has exactly one, the one heard of
      last; rows that are deleted or have no IP are untouched; nothing is added or
      reordered. An empty text is an IP like any other here. */
  lemma DedupeEffect(rows: seq<Device>)
    requires UniqueIds(rows)
    ensures var kept := Deduped(rows);
            && Subsequence(kept, rows)
            && (forall d :: d in rows && (d.deletedAt.Some? || d.ip.None?) ==> d in kept)
            && (forall ip :: Settled(kept, rows, ip))
  {
    var ips := SharedIps(rows, |rows|);
    var kept := Deduped(rows);
    DedupeIpsEffect(rows, ips);
    forall ip ensures Settled(kept, rows, ip) {
      if ip !in ips && HasLive(rows, ip) {
        var d :| d in rows && LiveAt(d, ip);
        var i :| 0 <= i < |rows| && rows[i] == d;
        assert |LiveOf(rows, ip)| <= 1;
        forall e | e in rows && LiveAt(e, ip) ensures e == d {
          FewLive(rows, ip, d, e);
        }
        assert d in kept;
        assert Champion(d, kept, rows, ip);
      }
    }
  }

  lemma AtMostOneLive(kept: seq<Device>, rows: seq<Device>, ip: string)
    requires UniqueIds(kept) && (forall d :: d in kept ==> d in rows) && Settled(kept, rows, ip)
    ensures |LiveOf(kept, ip)| <= 1
  {
    var live := LiveOf(kept, ip);
    LiveOfUnique(kept, ip);
    if live != [] {
      assert live[0] in live && live[0] in rows;
      var c :| Champion(c, kept, rows, ip);
      forall k | 0 <= k < |live| ensures live[k] == c {
        assert live[k] in live;
      }
      assert |live| > 1 ==> live[0].id == live[1].id;
    }
  }

  /** Running the clean-up again changes nothing. */
  lemma DedupeTwice(rows: seq<Device>)
    requires UniqueIds(rows)
    ensures Deduped(Deduped(rows)) == Deduped(rows)
  {
    var kept := Deduped(rows);
    var ips := SharedIps(kept, |kept|);
    DedupeEffect(rows);
    DedupeIpsEffect(rows, SharedIps(rows, |rows|));
    if ips != [] {
      assert ips[0] in ips;
      AtMostOneLive(kept, rows, ips[0]);
    }
  }
}
