/** Importing devices: a range of addresses, or the rows of a CSV file. A device is
    added for every address that no row has yet, and everything is committed at
    the end. */
module Import {
  import opened Wrappers
  import opened Clock
  import opened Devices
  import opened Registry
  import opened Ipv4

  datatype ImportError = InvalidAddress | Reversed | TooLarge | Ambiguous

  datatype Counts = Counts(added: nat, skipped: nat)

  const MAX_SPAN := 1024

  // ---------------------------------------------------------------------
  // One candidate after the other
  // ---------------------------------------------------------------------

  function Matches(rows: seq<Device>, ip: Option<string>): nat {
    if rows == [] then 0
    else Matches(rows[..|rows| - 1], ip) + if rows[|rows| - 1].ip == ip then 1 else 0
  }

  datatype Outcome = Outcome(rows: seq<Device>, counts: Counts)

  /** One candidate; the lookup fails when it finds several rows. */
  function AddOne(o: Outcome, d: Device): Option<Outcome> {
    if Matches(o.rows, d.ip) > 1 then None
    else if Matches(o.rows, d.ip) == 1 then Some(Outcome(o.rows, Counts(o.counts.added, o.counts.skipped + 1)))
    else Some(Outcome(o.rows + [d], Counts(o.counts.added + 1, o.counts.skipped)))
  }

  /** The table and the counters after the candidates. */
  function AddMissing(rows: seq<Device>, candidates: seq<Device>): Option<Outcome> {
    if candidates == [] then Some(Outcome(rows, Counts(0, 0)))
    else
      var before := AddMissing(rows, candidates[..|candidates| - 1]);
      if before.None? then None else AddOne(before.value, candidates[|candidates| - 1])
  }

  lemma AddMissingNext(rows: seq<Device>, candidates: seq<Device>, d: Device)
    ensures AddMissing(rows, []) == Some(Outcome(rows, Counts(0, 0)))
    ensures AddMissing(rows, candidates + [d]) ==
            if AddMissing(rows, candidates).None? then None else AddOne(AddMissing(rows, candidates).value, d)
  {
    assert (candidates + [d])[..|candidates|] == candidates;
  }

  /** Devices for the addresses from start on, the k-th with the k-th fresh identifiers. */
  function RangeCandidates(start: Address, count: nat, group: string,
                           ids: nat -> string, tokens: nat -> string, now: Stamp): (c: seq<Device>)
    requires start + count <= LIMIT
    ensures |c| == count
  {
    if count == 0 then []
    else
      RangeCandidates(start, count - 1, group, ids, tokens, now)
      + [Added(ids(count - 1), None, Some(AddressText(start + count - 1)), NonEmpty(group), tokens(count - 1), now)]
  }

  /** The outcome of importing a range, the table included. The group may be empty. */
  function RangeImport(rows: seq<Device>, start: Address, end: Address, group: string,
                       ids: nat -> string, tokens: nat -> string, now: Stamp): Result<Outcome, ImportError>
  {
    if end < start then Failure(Reversed)
    else if end - start > MAX_SPAN then Failure(TooLarge)
    else
      match AddMissing(rows, RangeCandidates(start, end - start + 1, group, ids, tokens, now))
      case None => Failure(Ambiguous)
      case Some(outcome) => Success(outcome)
  }

  /** An error leaves the table as it was. */
  method ImportIpRange(table: DeviceTable, startIp: string, endIp: string, groupName: Option<string>,
                       ids: nat -> string, tokens: nat -> string, now: Stamp)
    returns (r: Result<Counts, ImportError>)
    modifies table
    ensures var start, end := ParseAddress(startIp), ParseAddress(endIp);
            var group := if groupName.Some? then groupName.value else "";
            if start.None? || end.None? then r == Failure(InvalidAddress) && table.rows == old(table.rows)
            else
              match RangeImport(old(table.rows), start.value, end.value, group, ids, tokens, now)
              case Failure(e) => r == Failure(e) && table.rows == old(table.rows)
              case Success(o) => r == Success(o.counts) && table.rows == o.rows
  {
    var group := if groupName.Some? then groupName.value else "";
    var start, end := ParseAddress(startIp), ParseAddress(endIp);
    if start.None? || end.None? {
      return Failure(InvalidAddress);
    }
    r := ImportAddresses(table, start.value, end.value, group, ids, tokens, now);
  }

  /** The loop over the addresses, in the session: pending is what the session would commit. */
  method AddRange(rows: seq<Device>, start: Address, count: nat, group: string,
                  ids: nat -> string, tokens: nat -> string, now: Stamp)
    returns (r: Option<Outcome>)
    requires start + count <= LIMIT
    ensures r == AddMissing(rows, RangeCandidates(start, count, group, ids, tokens, now))
  {
    hide AddressText, Matches, Added;
    var added: nat, skipped: nat := 0, 0;
    var pending := rows;
    for k := 0 to count
      invariant AddMissing(rows, RangeCandidates(start, k, group, ids, tokens, now))
                == Some(Outcome(pending, Counts(added, skipped)))
    {
      hide AddMissing, RangeCandidates;
      var device := Added(ids(k), None, Some(AddressText(start + k)), NonEmpty(group), tokens(k), now);
      RangeNext(rows, start, k, group, ids, tokens, now, device);
      ghost var next := AddOne(Outcome(pending, Counts(added, skipped)), device);
      var existing := Matches(pending, device.ip);
      if existing > 1 {
        RangeAmbiguityStays(rows, start, k + 1, count, group, ids, tokens, now);
        return None;
      }
      if existing == 1 {
        skipped := skipped + 1;
        assert next == Some(Outcome(pending, Counts(added, skipped)));
        continue;
      }
      pending := pending + [device];
      added := added + 1;
      assert next == Some(Outcome(pending, Counts(added, skipped)));
    }
    return Some(Outcome(pending, Counts(added, skipped)));
  }

  method ImportAddresses(table: DeviceTable, start: Address, end: Address, group: string,
                         ids: nat -> string, tokens: nat -> string, now: Stamp)
    returns (r: Result<Counts, ImportError>)
    modifies table
    ensures match RangeImport(old(table.rows), start, end, group, ids, tokens, now)
            case Failure(e) => r == Failure(e) && table.rows == old(table.rows)
            case Success(o) => r == Success(o.counts) && table.rows == o.rows
  {
    hide AddMissing, RangeCandidates;
    if end < start {
      return Failure(Reversed);
    }
    if end - start > MAX_SPAN {
      return Failure(TooLarge);
    }
    var outcome := AddRange(table.rows, start, end - start + 1, group, ids, tokens, now);
    if outcome.None? {
      return Failure(Ambiguous);
    }
    table.rows := outcome.value.rows;
    return Success(outcome.value.counts);
  }

  lemma RangeNext(rows: seq<Device>, start: Address, k: nat, group: string,
                  ids: nat -> string, tokens: nat -> string, now: Stamp, device: Device)
    requires start + k < LIMIT
    requires device == Added(ids(k), None, Some(AddressText(start + k)), NonEmpty(group), tokens(k), now)
    ensures AddMissing(rows, RangeCandidates(start, k + 1, group, ids, tokens, now)) ==
            var before := AddMissing(rows, RangeCandidates(start, k, group, ids, tokens, now));
            if before.None? then None else AddOne(before.value, device)
  {
    hide AddressText, Matches;
    AddMissingNext(rows, RangeCandidates(start, k, group, ids, tokens, now), device);
  }

  lemma {:induction false} RangeAmbiguityStays(rows: seq<Device>, start: Address, k: nat, count: nat, group: string,
                                               ids: nat -> string, tokens: nat -> string, now: Stamp)
    requires k <= count && start + count <= LIMIT
    requires AddMissing(rows, RangeCandidates(start, k, group, ids, tokens, now)).None?
    ensures AddMissing(rows, RangeCandidates(start, count, group, ids, tokens, now)).None?
    decreases count
  {
    hide AddressText, AddOne;
    if k < count {
      var c := RangeCandidates(start, count, group, ids, tokens, now);
      RangeAmbiguityStays(rows, start, k, count - 1, group, ids, tokens, now);
      assert c[..count - 1] == RangeCandidates(start, count - 1, group, ids, tokens, now);
    }
  }

  // ---- CSV ----

  /** A row of the file with its fields stripped of outer white space. */
  datatype CsvRow = CsvRow(hostname: string, ip: string, group: string)

  function NonEmpty(s: string): Option<string> {
    if s == "" then None else Some(s)
  }

  /** The candidates of the rows that have an IP; row k uses the k-th fresh identifiers. */
  function CsvCandidates(csv: seq<CsvRow>, ids: nat -> string, tokens: nat -> string, now: Stamp): seq<Device> {
    if csv == [] then []
    else
      var k := |csv| - 1;
      var row := csv[k];
      CsvCandidates(csv[..k], ids, tokens, now) + CsvNext(k, row, ids, tokens, now)
  }

  /** The file's line numbers of the rows without an IP. */
  function CsvErrors(csv: seq<CsvRow>): seq<nat> {
    if csv == [] then []
    else CsvErrors(csv[..|csv| - 1]) + if csv[|csv| - 1].ip == "" then [|csv| + 1] else []
  }

  /** The candidates of one more row. */
  function CsvNext(k: nat, row: CsvRow, ids: nat -> string, tokens: nat -> string, now: Stamp): seq<Device> {
    if row.ip == "" then []
    else [Added(ids(k), NonEmpty(row.hostname), Some(row.ip), NonEmpty(row.group), tokens(k), now)]
  }

  /** The loop over the rows of the file, in the session. */
  method AddCsv(rows: seq<Device>, csv: seq<CsvRow>, ids: nat -> string, tokens: nat -> string, now: Stamp)
    returns (r: Option<Outcome>, errors: seq<nat>)
    ensures r == AddMissing(rows, CsvCandidates(csv, ids, tokens, now))
    ensures r.Some? ==> errors == CsvErrors(csv)
  {
    hide Matches, Added, AddMissing, CsvCandidates, CsvErrors;
    var added: nat, skipped: nat := 0, 0;
    errors := [];
    var pending := rows;
    CsvStart(rows, csv, ids, tokens, now);
    for i := 0 to |csv|
      invariant AddMissing(rows, CsvCandidates(csv[..i], ids, tokens, now)) == Some(Outcome(pending, Counts(added, skipped)))
      invariant errors == CsvErrors(csv[..i])
    {
      var row := csv[i];
      var device := Added(ids(i), NonEmpty(row.hostname), Some(row.ip), NonEmpty(row.group), tokens(i), now);
      CsvStep(rows, csv, i, ids, tokens, now, device);
      if row.ip == "" {
        errors := errors + [i + 2];
        continue;
      }
      ghost var next := AddOne(Outcome(pending, Counts(added, skipped)), device);
      var existing := Matches(pending, device.ip);
      if existing > 1 {
        CsvAmbiguityStays(rows, csv, i + 1, ids, tokens, now);
        return None, errors;
      }
      if existing == 1 {
        skipped := skipped + 1;
        assert next == Some(Outcome(pending, Counts(added, skipped)));
        continue;
      }
      pending := pending + [device];
      added := added + 1;
      assert next == Some(Outcome(pending, Counts(added, skipped)));
    }
    assert csv[..|csv|] == csv;
    return Some(Outcome(pending, Counts(added, skipped))), errors;
  }

  method ImportCsv(table: DeviceTable, csv: seq<CsvRow>, ids: nat -> string, tokens: nat -> string, now: Stamp)
    returns (r: Result<Counts, ImportError>, errors: seq<nat>)
    modifies table
    ensures match AddMissing(old(table.rows), CsvCandidates(csv, ids, tokens, now))
            case None => r == Failure(Ambiguous) && table.rows == old(table.rows)
            case Some(outcome) => r == Success(outcome.counts) && table.rows == outcome.rows && errors == CsvErrors(csv)
  {
    hide AddMissing, CsvCandidates, CsvErrors;
    var outcome;
    outcome, errors := AddCsv(table.rows, csv, ids, tokens, now);
    if outcome.None? {
      return Failure(Ambiguous), errors;
    }
    table.rows := outcome.value.rows;
    r := Success(outcome.value.counts);
  }

  lemma CsvStart(rows: seq<Device>, csv: seq<CsvRow>, ids: nat -> string, tokens: nat -> string, now: Stamp)
    ensures AddMissing(rows, CsvCandidates(csv[..0], ids, tokens, now)) == Some(Outcome(rows, Counts(0, 0)))
    ensures CsvErrors(csv[..0]) == []
  {
  }

  lemma CsvStep(rows: seq<Device>, csv: seq<CsvRow>, i: nat, ids: nat -> string, tokens: nat -> string, now: Stamp, device: Device)
    requires i < |csv|
    requires var row := csv[i];
             device == Added(ids(i), NonEmpty(row.hostname), Some(row.ip), NonEmpty(row.group), tokens(i), now)
    ensures CsvErrors(csv[..i + 1]) == if csv[i].ip == "" then CsvErrors(csv[..i]) + [i + 2] else CsvErrors(csv[..i])
    ensures AddMissing(rows, CsvCandidates(csv[..i + 1], ids, tokens, now)) ==
            var before := AddMissing(rows, CsvCandidates(csv[..i], ids, tokens, now));
            if csv[i].ip == "" then before
            else if before.None? then None
            else AddOne(before.value, device)
  {
    hide Matches, AddMissing;
    assert csv[..i + 1][..i] == csv[..i];
    var before := CsvCandidates(csv[..i], ids, tokens, now);
    if csv[i].ip == "" {
      assert before + [] == before;
    } else {
      AddMissingNext(rows, before, device);
      assert CsvErrors(csv[..i]) + [] == CsvErrors(csv[..i]);
    }
  }

  lemma {:induction false} CsvAmbiguityStays(rows: seq<Device>, csv: seq<CsvRow>, k: nat,
                                             ids: nat -> string, tokens: nat -> string, now: Stamp)
    requires k <= |csv| && AddMissing(rows, CsvCandidates(csv[..k], ids, tokens, now)).None?
    ensures AddMissing(rows, CsvCandidates(csv, ids, tokens, now)).None?
    decreases |csv|
  {
    hide AddMissing, Matches;
    if k < |csv| {
      var n := |csv| - 1;
      assert csv[..n][..k] == csv[..k];
      CsvAmbiguityStays(rows, csv[..n], k, ids, tokens, now);
      var before := CsvCandidates(csv[..n], ids, tokens, now);
      if csv[n].ip == "" {
        assert before + [] == before;
      } else {
        AddMissingNext(rows, before, CsvNext(n, csv[n], ids, tokens, now)[0]);
      }
    } else {
      assert csv[..k] == csv;
    }
  }

  // ---------------------------------------------------------------------
  // What an import achieves
  // ---------------------------------------------------------------------

  lemma {:induction false} MatchesCount(rows: seq<Device>, ip: Option<string>)
    ensures Matches(rows, ip) == 0 <==> forall i :: 0 <= i < |rows| ==> rows[i].ip != ip
    ensures Matches(rows, ip) >= 2 ==> exists i, j :: 0 <= i < j < |rows| && rows[i].ip == ip && rows[j].ip == ip
  {
    if rows != [] {
      var n := |rows| - 1;
      MatchesCount(rows[..n], ip);
      if Matches(rows[..n], ip) >= 2 {
        var i, j :| 0 <= i < j < n && rows[..n][i].ip == ip && rows[..n][j].ip == ip;
        assert rows[i].ip == ip && rows[j].ip == ip;
      } else if Matches(rows, ip) >= 2 {
        var i :| 0 <= i < n && rows[..n][i].ip == ip;
        assert rows[i].ip == ip && rows[n].ip == ip;
      }
    }
  }

  ghost predicate Present(rows: seq<Device>, ip: Option<string>) {
    exists i :: 0 <= i < |rows| && rows[i].ip == ip
  }

  ghost predicate RealIps(candidates: seq<Device>) {
    forall k :: 0 <= k < |candidates| ==> candidates[k].ip.Some? && candidates[k].ip.value != ""
  }

  lemma UniqueMatches(rows: seq<Device>, ip: Option<string>)
    requires UniqueIps(rows) && ip.Some? && ip.value != ""
    ensures Matches(rows, ip) == if Present(rows, ip) then 1 else 0
  {
    MatchesCount(rows, ip);
  }

  lemma KeepsPresent(rows: seq<Device>, d: Device, ip: Option<string>)
    ensures Present(rows + [d], ip) <==> Present(rows, ip) || d.ip == ip
  {
    var longer := rows + [d];
    if Present(rows, ip) {
      var i :| 0 <= i < |rows| && rows[i].ip == ip;
      assert longer[i].ip == ip;
    }
    if d.ip == ip {
      assert longer[|rows|].ip == ip;
    }
  }

  /** With at most one row per IP beforehand an import cannot fail; it keeps the old
      rows and their order, keeps the IPs unique, leaves every candidate's address
      present and no other new one, and counts every candidate once. */
  lemma {:induction false} ImportEffect(rows: seq<Device>, candidates: seq<Device>)
    requires UniqueIps(rows) && RealIps(candidates)
    ensures AddMissing(rows, candidates).Some?
    ensures var Outcome(now, Counts(added, skipped)) := AddMissing(rows, candidates).value;
            && rows <= now && UniqueIps(now)
            && (forall k :: |rows| <= k < |now| ==> now[k] in candidates)
            && (forall ip :: Present(now, ip) <==> Present(rows, ip) || Present(candidates, ip))
            && added + skipped == |candidates| && |now| == |rows| + added
  {
    hide Matches;
    if candidates != [] {
      var n := |candidates| - 1;
      var d := candidates[n];
      ImportEffect(rows, candidates[..n]);
      var now := AddMissing(rows, candidates[..n]).value.rows;
      UniqueMatches(now, d.ip);
      assert candidates == candidates[..n] + [d];
      forall ip ensures Present(now + [d], ip) <==> Present(now, ip) || d.ip == ip {
        KeepsPresent(now, d, ip);
      }
      forall ip ensures Present(candidates, ip) <==> Present(candidates[..n], ip) || d.ip == ip {
        KeepsPresent(candidates[..n], d, ip);
      }
    }
  }

  /** An import of addresses that are all present changes nothing and adds none. */
  lemma {:induction false} SecondImport(rows: seq<Device>, candidates: seq<Device>)
    requires UniqueIps(rows) && RealIps(candidates)
    requires forall k :: 0 <= k < |candidates| ==> Present(rows, candidates[k].ip)
    ensures AddMissing(rows, candidates) == Some(Outcome(rows, Counts(0, |candidates|)))
  {
    if candidates != [] {
      SecondImport(rows, candidates[..|candidates| - 1]);
      UniqueMatches(rows, candidates[|candidates| - 1].ip);
    }
  }

  /** Lookup and commit are not one step in the source. An import whose lookups saw an
      earlier table than the one it commits to gives an IP to two rows if and only if
      one of its addresses was missing then and has a row by now. */
  lemma RacingImportIff(seen: seq<Device>, now: seq<Device>, candidates: seq<Device>)
    requires UniqueIps(seen) && UniqueIps(now) && RealIps(candidates)
    ensures AddMissing(seen, candidates).Some? && seen <= AddMissing(seen, candidates).value.rows
    ensures var added := AddMissing(seen, candidates).value.rows[|seen|..];
            UniqueIps(now + added) <==>
            !exists ip :: Present(candidates, ip) && !Present(seen, ip) && Present(now, ip)
  {
    hide AddMissing;
    ImportEffect(seen, candidates);
    var rows' := AddMissing(seen, candidates).value.rows;
    var added := rows'[|seen|..];
    assert UniqueIps(added);
    forall ip ensures Present(added, ip) <==> Present(candidates, ip) && !Present(seen, ip) {
      AddedPresent(seen, rows', candidates, ip);
    }
    forall k | 0 <= k < |added| ensures Present(added, added[k].ip) && added[k].ip.Some? && added[k].ip.value != "" {
      assert rows'[|seen| + k] in candidates;
    }
    AddKeepsUniqueIps(now, added);
    TakenIsPresent(now, added);
  }

  lemma AddedPresent(seen: seq<Device>, rows': seq<Device>, candidates: seq<Device>, ip: Option<string>)
    requires seen <= rows' && UniqueIps(rows') && RealIps(candidates)
    requires forall k :: |seen| <= k < |rows'| ==> rows'[k] in candidates
    requires Present(rows', ip) <==> Present(seen, ip) || Present(candidates, ip)
    ensures Present(rows'[|seen|..], ip) <==> Present(candidates, ip) && !Present(seen, ip)
  {
    var added := rows'[|seen|..];
    assert forall k :: 0 <= k < |added| ==> added[k] == rows'[|seen| + k];
    if Present(added, ip) {
      var k :| 0 <= k < |added| && added[k].ip == ip;
      assert rows'[|seen| + k] in candidates;
      assert forall j :: 0 <= j < |seen| ==> rows'[j] == seen[j] && rows'[j].ip != rows'[|seen| + k].ip;
    }
    if Present(rows', ip) && !Present(seen, ip) {
      var k :| 0 <= k < |rows'| && rows'[k].ip == ip;
      assert k >= |seen| && added[k - |seen|].ip == ip;
    }
  }

  lemma TakenIsPresent(now: seq<Device>, added: seq<Device>)
    requires UniqueIps(added)
    requires forall k :: 0 <= k < |added| ==> added[k].ip.Some? && added[k].ip.value != ""
    ensures UsesTakenIp(now, AddOp(added)) <==> exists ip :: Present(added, ip) && Present(now, ip)
  {
    if ip :| Present(added, ip) && Present(now, ip) {
      var k :| 0 <= k < |added| && added[k].ip == ip;
      var j :| 0 <= j < |now| && now[j].ip == ip;
      assert HasIp(now[j], added[k].ip.value);
    }
    if UsesTakenIp(now, AddOp(added)) {
      var k :| 0 <= k < |added| && exists j :: 0 <= j < |now| && HasIp(now[j], added[k].ip.value);
      assert Present(added, added[k].ip) && Present(now, added[k].ip);
    }
  }

  lemma MatchesNext(rows: seq<Device>, d: Device, ip: Option<string>)
    ensures Matches(rows + [d], ip) == Matches(rows, ip) + if d.ip == ip then 1 else 0
  {
    assert (rows + [d])[..|rows|] == rows;
  }

  /** For any table, even one with several rows for an IP: an import fails exactly
      when one of its addresses already had several rows. It never makes an address
      ambiguous itself. */
  lemma {:induction false} ImportFailsIff(rows: seq<Device>, candidates: seq<Device>)
    ensures AddMissing(rows, candidates).None? <==> exists k :: 0 <= k < |candidates| && Matches(rows, candidates[k].ip) > 1
    ensures AddMissing(rows, candidates).Some? ==>
              forall ip :: Matches(AddMissing(rows, candidates).value.rows, ip) > 1 <==> Matches(rows, ip) > 1
  {
    hide Matches;
    if candidates != [] {
      var n := |candidates| - 1;
      var d := candidates[n];
      ImportFailsIff(rows, candidates[..n]);
      assert forall k :: 0 <= k < n ==> candidates[..n][k] == candidates[k];
      if AddMissing(rows, candidates[..n]).Some? {
        var now := AddMissing(rows, candidates[..n]).value.rows;
        assert Matches(now, d.ip) > 1 <==> Matches(rows, d.ip) > 1;
        forall ip ensures Matches(now + [d], ip) == Matches(now, ip) + if d.ip == ip then 1 else 0 {
          MatchesNext(now, d, ip);
        }
      }
    }
  }

  /** A device that was just added, field by field. */
  predicate NewDevice(d: Device, id: string, hostname: Option<string>, ip: Option<string>, groupName: Option<string>,
                      token: string, now: Stamp) {
    && d.id == id && d.token == token && d.hostname == hostname && d.ip == ip && d.groupName == groupName
    && d.status == Offline && !d.hostnameLocked && d.deletedAt == None && d.lastHeartbeat == now
    && d.osInfo == None && d.rearmCount == -1 && d.agentVersion == None && d.sysinfoAt == None
    && d.sysinfo == SysInfo(None, None, None, None, None, None, None, None, None, None)
  }

  /** The device that row i of the file describes. */
  predicate FromRow(d: Device, csv: seq<CsvRow>, i: int, ids: nat -> string, tokens: nat -> string, now: Stamp) {
    && 0 <= i < |csv| && csv[i].ip != ""
    && NewDevice(d, ids(i), if csv[i].hostname == "" then None else Some(csv[i].hostname), Some(csv[i].ip),
                 if csv[i].group == "" then None else Some(csv[i].group), tokens(i), now)
  }

  /** The candidates of a file are the devices of its rows with an IP, with the row's host
      name and group where these are not empty. */
  lemma {:induction false} CsvDevices(csv: seq<CsvRow>, ids: nat -> string, tokens: nat -> string, now: Stamp, d: Device)
    ensures d in CsvCandidates(csv, ids, tokens, now) <==> exists i :: FromRow(d, csv, i, ids, tokens, now)
  {
    if csv != [] {
      var n := |csv| - 1;
      CsvDevices(csv[..n], ids, tokens, now, d);
      assert forall i :: 0 <= i < n ==> (FromRow(d, csv, i, ids, tokens, now) <==> FromRow(d, csv[..n], i, ids, tokens, now));
      assert d in CsvNext(n, csv[n], ids, tokens, now) <==> FromRow(d, csv, n, ids, tokens, now);
    }
  }

  /** The reported lines are those of the rows without an IP, in order; the first row is line 2. */
  lemma {:induction false} CsvErrorLines(csv: seq<CsvRow>)
    ensures forall n :: n in CsvErrors(csv) <==> 2 <= n < |csv| + 2 && csv[n - 2].ip == ""
    ensures forall a, b :: 0 <= a < b < |CsvErrors(csv)| ==> CsvErrors(csv)[a] < CsvErrors(csv)[b]
  {
    if csv != [] {
      var m := |csv| - 1;
      CsvErrorLines(csv[..m]);
      var before := CsvErrors(csv[..m]);
      forall a | 0 <= a < |before| ensures before[a] < m + 2 {
        assert before[a] in before;
      }
    }
  }

  lemma {:induction false} CsvIps(csv: seq<CsvRow>, ids: nat -> string, tokens: nat -> string, now: Stamp)
    ensures var c := CsvCandidates(csv, ids, tokens, now);
            && RealIps(c)
            && |c| + |CsvErrors(csv)| == |csv|
            && (forall ip :: Present(c, Some(ip)) <==> ip != "" && exists i :: 0 <= i < |csv| && csv[i].ip == ip)
  {
    if csv != [] {
      var n := |csv| - 1;
      CsvIps(csv[..n], ids, tokens, now);
      var before, next := CsvCandidates(csv[..n], ids, tokens, now), CsvNext(n, csv[n], ids, tokens, now);
      forall ip ensures Present(before + next, Some(ip)) <==> Present(before, Some(ip)) || (ip != "" && csv[n].ip == ip) {
        if next == [] {
          assert before + next == before;
        } else {
          KeepsPresent(before, next[0], Some(ip));
        }
      }
    }
  }

  /** CSV import: every row of the file is added, skipped or reported; afterwards
      exactly the addresses that were there or are in the file have a row, the old
      rows are unchanged, and importing the file again adds nothing. */
  lemma CsvImportEffect(rows: seq<Device>, csv: seq<CsvRow>, ids: nat -> string, tokens: nat -> string, now: Stamp,
                        ids': nat -> string, tokens': nat -> string, now': Stamp)
    requires UniqueIps(rows)
    ensures var r := AddMissing(rows, CsvCandidates(csv, ids, tokens, now));
            && r.Some?
            && var Outcome(rows', Counts(added, skipped)) := r.value;
            && added + skipped + |CsvErrors(csv)| == |csv| && |rows'| == |rows| + added
            && rows <= rows' && UniqueIps(rows')
            && (forall ip :: Present(rows', Some(ip)) <==>
                  Present(rows, Some(ip)) || (ip != "" && exists i :: 0 <= i < |csv| && csv[i].ip == ip))
            && AddMissing(rows', CsvCandidates(csv, ids', tokens', now')) == Some(Outcome(rows', Counts(0, added + skipped)))
  {
    hide CsvCandidates, AddMissing;
    CsvIps(csv, ids, tokens, now);
    CsvIps(csv, ids', tokens', now');
    var c, c' := CsvCandidates(csv, ids, tokens, now), CsvCandidates(csv, ids', tokens', now');
    ImportEffect(rows, c);
    var rows' := AddMissing(rows, c).value.rows;
    forall k | 0 <= k < |c'| ensures Present(rows', c'[k].ip) {
      assert Present(c', c'[k].ip) && c'[k].ip.Some?;
      assert Present(c, Some(c'[k].ip.value));
    }
    SecondImport(rows', c');
  }

  lemma {:induction false} RangeIps(start: Address, count: nat, group: string,
                                    ids: nat -> string, tokens: nat -> string, now: Stamp)
    requires start + count <= LIMIT
    ensures var c := RangeCandidates(start, count, group, ids, tokens, now);
            && RealIps(c)
            && forall k :: 0 <= k < count ==>
                 && c[k].ip == Some(AddressText(start + k)) && c[k].groupName == NonEmpty(group) && c[k].status == Offline
                 && NewDevice(c[k], ids(k), None, Some(AddressText(start + k)), if group == "" then None else Some(group), tokens(k), now)
    decreases count
  {
    hide AddressText;
    if count > 0 {
      RangeIps(start, count - 1, group, ids, tokens, now);
      AddressTextNotEmpty(start + count - 1);
    }
  }

  lemma RangeCovered(rows: seq<Device>, start: Address, count: nat, group: string,
                     ids: nat -> string, tokens: nat -> string, now: Stamp)
    requires UniqueIps(rows) && start + count <= LIMIT
    requires AddMissing(rows, RangeCandidates(start, count, group, ids, tokens, now)).Some?
    ensures var rows' := AddMissing(rows, RangeCandidates(start, count, group, ids, tokens, now)).value.rows;
            forall n: Address :: start <= n < start + count ==> Present(rows', Some(AddressText(n)))
  {
    hide AddressText;
    var c := RangeCandidates(start, count, group, ids, tokens, now);
    RangeIps(start, count, group, ids, tokens, now);
    ImportEffect(rows, c);
    forall n: Address | start <= n < start + count
      ensures Present(AddMissing(rows, c).value.rows, Some(AddressText(n)))
    {
      assert c[n - start].ip == Some(AddressText(n));
      assert Present(c, Some(AddressText(n)));
    }
  }

  lemma RangeAgain(rows: seq<Device>, start: Address, count: nat, group: string,
                   ids: nat -> string, tokens: nat -> string, now: Stamp)
    requires UniqueIps(rows) && start + count <= LIMIT
    requires forall n: Address :: start <= n < start + count ==> Present(rows, Some(AddressText(n)))
    ensures AddMissing(rows, RangeCandidates(start, count, group, ids, tokens, now)) == Some(Outcome(rows, Counts(0, count)))
  {
    hide AddressText;
    var c := RangeCandidates(start, count, group, ids, tokens, now);
    RangeIps(start, count, group, ids, tokens, now);
    forall k | 0 <= k < count ensures Present(rows, c[k].ip) {
      assert Present(rows, Some(AddressText(start + k)));
    }
    SecondImport(rows, c);
  }

  /** Range import: with at most one row per IP beforehand, every range of up to 1025
      addresses is imported. Added and skipped sum up to its size, every address
      of it is present afterwards, the old rows are unchanged, and the IPs stay unique. */
  lemma RangeImportEffect(rows: seq<Device>, start: Address, end: Address, group: string,
                          ids: nat -> string, tokens: nat -> string, now: Stamp)
    requires UniqueIps(rows)
    ensures var r := RangeImport(rows, start, end, group, ids, tokens, now);
            && (r.Success? <==> start <= end <= start + 1024)
            && (r == Failure(Reversed) <==> end < start)
            && (r == Failure(TooLarge) <==> end > start + 1024)
            && (r.Success? ==>
                  var Outcome(rows', Counts(added, skipped)) := r.value;
                  && added + skipped == end - start + 1 && |rows'| == |rows| + added
                  && rows <= rows' && UniqueIps(rows')
                  && (forall k :: |rows| <= k < |rows'| ==>
                        rows'[k].status == Offline && rows'[k].groupName == if group == "" then None else Some(group))
                  && (forall n: Address :: start <= n <= end ==> Present(rows', Some(AddressText(n)))))
  {
    hide AddressText, RangeCandidates, AddMissing, NewDevice;
    if start <= end <= start + MAX_SPAN {
      var count := end - start + 1;
      RangeIps(start, count, group, ids, tokens, now);
      ImportEffect(rows, RangeCandidates(start, count, group, ids, tokens, now));
      RangeCovered(rows, start, count, group, ids, tokens, now);
    }
  }

  /** Importing a range again, in whatever group and with whatever fresh identifiers, adds nothing and changes nothing. */
  lemma RangeImportTwice(rows: seq<Device>, start: Address, end: Address,
                         group: string, ids: nat -> string, tokens: nat -> string, now: Stamp,
                         group': string, ids': nat -> string, tokens': nat -> string, now': Stamp)
    requires UniqueIps(rows) && RangeImport(rows, start, end, group, ids, tokens, now).Success?
    ensures var rows' := RangeImport(rows, start, end, group, ids, tokens, now).value.rows;
            RangeImport(rows', start, end, group', ids', tokens', now') == Success(Outcome(rows', Counts(0, end - start + 1)))
  {
    hide AddressText;
    RangeImportEffect(rows, start, end, group, ids, tokens, now);
    RangeAgain(RangeImport(rows, start, end, group, ids, tokens, now).value.rows, start, end - start + 1,
               group', ids', tokens', now');
  }

  // ---- how many are added ----

  /** The candidates whose address no row has yet. */
  ghost function Missing(rows: seq<Device>, candidates: seq<Device>): set<nat> {
    set k: nat | k < |candidates| && !Present(rows, candidates[k].ip)
  }

  ghost predicate DistinctIps(candidates: seq<Device>) {
    forall j, k :: 0 <= j < k < |candidates| ==> candidates[j].ip != candidates[k].ip
  }

  lemma {:induction false} AddedAreMissing(rows: seq<Device>, candidates: seq<Device>)
    requires UniqueIps(rows) && RealIps(candidates) && DistinctIps(candidates)
    ensures AddMissing(rows, candidates).Some?
    ensures AddMissing(rows, candidates).value.counts.added == |Missing(rows, candidates)|
  {
    hide Matches;
    if candidates == [] {
      assert Missing(rows, candidates) == {};
    } else {
      var n := |candidates| - 1;
      var before, d := candidates[..n], candidates[n];
      AddedAreMissing(rows, before);
      ImportEffect(rows, before);
      var o := AddMissing(rows, before).value;
      UniqueMatches(o.rows, d.ip);
      assert !Present(before, d.ip);
      MissingNext(rows, candidates);
      assert AddMissing(rows, candidates) == AddOne(o, d);
    }
  }

  lemma MissingNext(rows: seq<Device>, candidates: seq<Device>)
    requires candidates != []
    ensures var n := |candidates| - 1;
            |Missing(rows, candidates)| == |Missing(rows, candidates[..n])| + if Present(rows, candidates[n].ip) then 0 else 1
  {
    var n := |candidates| - 1;
    if Present(rows, candidates[n].ip) {
      assert Missing(rows, candidates) == Missing(rows, candidates[..n]);
    } else {
      assert Missing(rows, candidates) == Missing(rows, candidates[..n]) + {n};
    }
  }

  /** Since different numbers have different texts, a range import adds exactly the addresses that were missing. */
  lemma RangeAddsMissing(rows: seq<Device>, start: Address, count: nat, group: string,
                         ids: nat -> string, tokens: nat -> string, now: Stamp)
    requires UniqueIps(rows) && start + count <= LIMIT
    ensures var c := RangeCandidates(start, count, group, ids, tokens, now);
            AddMissing(rows, c).Some? && AddMissing(rows, c).value.counts.added == |Missing(rows, c)|
  {
    hide AddressText;
    var c := RangeCandidates(start, count, group, ids, tokens, now);
    RangeIps(start, count, group, ids, tokens, now);
    forall j, k | 0 <= j < k < count ensures c[j].ip != c[k].ip {
      AddressTextInjective(start + j, start + k);
    }
    AddedAreMissing(rows, c);
  }
}
