/** What happens to the device table: heartbeats that register, refresh and take
    over devices, recovery, editing, soft deletion, agent connections, and the
    sweep that marks silent devices as offline. */
module Registry {
  import opened Wrappers
  import opened Text
  import opened Clock
  import opened Devices

  /** A heartbeat: the payload, the bearer token ("" without one), and whether the
      enrolment secret in the header was right. */
  datatype Request = Request(deviceId: string, hostname: string, os: string, ip: string, rearmCount: int,
                             online: bool, agentVersion: string, sysinfo: Option<SysInfo>,
                             token: string, secretOk: bool)

  datatype Answer = Created(id: string) | ReEnrolled(id: string) | Updated(id: string)
                  | StillDeleted(id: string) | Rejected

  datatype RecoverAnswer = Recovered | WrongToken | Unknown

  // ---------------------------------------------------------------------
  // Single rows
  // ---------------------------------------------------------------------

  function WithSysinfo(d: Device, info: Option<SysInfo>, now: Stamp): Device {
    if info.None? then d else d.(sysinfo := info.value, sysinfoAt := Some(now))
  }

  function Adopted(d: Device, req: Request, now: Stamp): Device {
    WithSysinfo(d.(hostname := Some(req.hostname), osInfo := Some(req.os),
                ip := if req.ip != "" then Some(req.ip) else d.ip,
                rearmCount := req.rearmCount, agentVersion := Some(req.agentVersion),
                lastHeartbeat := now, token := req.token, deletedAt := None,
                status := if req.online then Online else Offline), req.sysinfo, now)
  }

  function Refreshed(d: Device, req: Request, now: Stamp): Device {
    WithSysinfo(d.(hostname := if d.hostnameLocked then d.hostname else Some(req.hostname),
                osInfo := Some(req.os), rearmCount := req.rearmCount, agentVersion := Some(req.agentVersion),
                lastHeartbeat := now, status := if req.online then Online else d.status), req.sysinfo, now)
  }

  function Registered(req: Request, now: Stamp, newId: string, newToken: string): Device {
    WithSysinfo(Device(newId, Some(req.hostname), false, Some(req.ip), Some(req.os),
                       if req.online then Online else Offline, None, req.rearmCount, Some(req.agentVersion),
                       NO_SYSINFO, None, if req.token != "" then req.token else newToken, now, None),
                req.sysinfo, now)
  }

  predicate TokenFits(d: Device, token: string) {
    d.token == "" || token == d.token
  }

  predicate MayTakeOver(d: Device, req: Request) {
    !TokenFits(d, req.token) && (d.deletedAt.Some? || req.secretOk)
  }

  // ---------------------------------------------------------------------
  // Operations on the table
  // ---------------------------------------------------------------------

  /** The row a heartbeat is about: by device id first, else by IP. */
  function Find(rows: seq<Device>, req: Request): (r: Option<nat>)
    ensures r.Some? ==> r.value < |rows|
  {
    var byId := if req.deviceId != "" then IndexOfId(rows, req.deviceId) else None;
    if byId.Some? || req.ip == "" then byId else NewestOfIp(rows, req.ip)
  }

  /** The decision about a heartbeat once its row was looked up. */
  function Handled(rows: seq<Device>, found: Option<nat>, req: Request, now: Stamp, newId: string, newToken: string)
    : (seq<Device>, Answer)
    requires found.Some? ==> found.value < |rows|
  {
    if found.None? then
      if req.secretOk then (rows + [Registered(req, now, newId, newToken)], Created(newId)) else (rows, Rejected)
    else
      var d := rows[found.value];
      if TokenFits(d, req.token) then (rows[found.value := Refreshed(d, req, now)], Updated(d.id))
      else if d.deletedAt.Some? || req.secretOk then (rows[found.value := Adopted(d, req, now)], ReEnrolled(d.id))
      else if d.deletedAt.Some? then (rows, StillDeleted(d.id))
      else (rows, Rejected)
  }

  function OnHeartbeat(rows: seq<Device>, req: Request, now: Stamp, newId: string, newToken: string)
    : (seq<Device>, Answer)
  {
    Handled(rows, Find(rows, req), req, now, newId, newToken)
  }

  function OnRecover(rows: seq<Device>, deviceId: string, hostname: string, token: string, now: Stamp)
    : (seq<Device>, RecoverAnswer)
  {
    match IndexOfId(rows, deviceId)
    case None => (rows, Unknown)
    case Some(i) =>
      var d := rows[i];
      if !TokenFits(d, token) then (rows, WrongToken)
      else (rows[i := d.(hostname := if d.hostnameLocked then d.hostname else Some(hostname),
                         status := Online, lastHeartbeat := now)], Recovered)
  }

  function OnUpdate(rows: seq<Device>, deviceId: string, hostname: Option<string>, ip: Option<string>, groupName: Option<string>)
    : seq<Device>
  {
    match IndexOfId(rows, deviceId)
    case None => rows
    case Some(i) =>
      var d := rows[i];
      var d := if hostname.Some? then d.(hostname := hostname, hostnameLocked := true) else d;
      var d := if ip.Some? then d.(ip := ip) else d;
      rows[i := if groupName.Some? then d.(groupName := groupName) else d]
  }

  function DeletedRow(d: Device, now: Stamp): Device {
    d.(deletedAt := Some(now), status := Offline)
  }

  function OnDelete(rows: seq<Device>, ids: set<string>, now: Stamp): seq<Device> {
    seq(|rows|, i requires 0 <= i < |rows| => if rows[i].id in ids then DeletedRow(rows[i], now) else rows[i])
  }

  /** An agent's socket opens; its token must be present and equal. */
  function OnConnect(rows: seq<Device>, deviceId: string, token: string, now: Stamp): seq<Device> {
    match IndexOfId(rows, deviceId)
    case None => rows
    case Some(i) =>
      if token == "" || rows[i].token != token then rows
      else rows[i := rows[i].(status := Online, lastHeartbeat := now)]
  }

  /** The handler of an agent's socket has ended. */
  function OnDisconnect(rows: seq<Device>, deviceId: string, now: Stamp): seq<Device> {
    match IndexOfId(rows, deviceId)
    case None => rows
    case Some(i) => rows[i := rows[i].(status := Offline, lastHeartbeat := now)]
  }

  predicate Silent(d: Device, cutoff: Stamp) {
    d.status == Online && Less(StoredText(d.lastHeartbeat), CutoffText(cutoff))
  }

  function SweptRow(d: Device, cutoff: Stamp): Device {
    if Silent(d, cutoff) then d.(status := Offline) else d
  }

  function OnSweep(rows: seq<Device>, cutoff: Stamp): seq<Device> {
    seq(|rows|, i requires 0 <= i < |rows| => SweptRow(rows[i], cutoff))
  }

  // ---------------------------------------------------------------------
  // The stored table
  // ---------------------------------------------------------------------

  class DeviceTable {
    var rows: seq<Device>

    constructor ()
      ensures rows == []
    {
      rows := [];
    }

    method ApplySysinfo(i: nat, info: Option<SysInfo>, now: Stamp)
      requires i < |rows|
      modifies this
      ensures rows == old(rows)[i := WithSysinfo(old(rows)[i], info, now)]
    {
      if info.None? {
        return;
      }
      rows := rows[i := rows[i].(sysinfo := info.value)];
      rows := rows[i := rows[i].(sysinfoAt := Some(now))];
    }

    method AdoptDevice(i: nat, req: Request, now: Stamp)
      requires i < |rows|
      modifies this
      ensures rows == old(rows)[i := Adopted(old(rows)[i], req, now)]
    {
      var device := rows[i];
      device := device.(hostname := Some(req.hostname));
      device := device.(osInfo := Some(req.os));
      if req.ip != "" {
        device := device.(ip := Some(req.ip));
      }
      device := device.(rearmCount := req.rearmCount);
      device := device.(agentVersion := Some(req.agentVersion));
      device := device.(lastHeartbeat := now);
      device := device.(token := req.token);
      device := device.(deletedAt := None);
      device := device.(status := if req.online then Online else Offline);
      rows := rows[i := device];
      ApplySysinfo(i, req.sysinfo, now);
    }

    method Heartbeat(req: Request, now: Stamp, newId: string, newToken: string) returns (answer: Answer)
      modifies this
      ensures (rows, answer) == OnHeartbeat(old(rows), req, now, newId, newToken)
    {
      var found: Option<nat> := None;
      if req.deviceId != "" {
        found := IndexOfId(rows, req.deviceId);
      }
      if found.None? && req.ip != "" {
        found := NewestOfIp(rows, req.ip);
      }
      if found.Some? {
        var i := found.value;
        var device := rows[i];
        if TokenFits(device, req.token) {
          // An ordinary heartbeat.
        } else if device.deletedAt.Some? || req.secretOk {
          AdoptDevice(i, req, now);
          return ReEnrolled(device.id);
        } else if device.deletedAt.Some? {
          return StillDeleted(device.id);
        } else {
          return Rejected;
        }
        if !device.hostnameLocked {
          device := device.(hostname := Some(req.hostname));
        }
        device := device.(osInfo := Some(req.os));
        device := device.(rearmCount := req.rearmCount);
        device := device.(agentVersion := Some(req.agentVersion));
        device := device.(lastHeartbeat := now);
        if req.online {
          device := device.(status := Online);
        }
        rows := rows[i := device];
        ApplySysinfo(i, req.sysinfo, now);
        assert rows == old(rows)[i := Refreshed(old(rows)[i], req, now)];
        return Updated(device.id);
      }
      if !req.secretOk {
        return Rejected;
      }
      var device := Device(newId, Some(req.hostname), false, Some(req.ip), Some(req.os),
                           if req.online then Online else Offline, None, req.rearmCount, Some(req.agentVersion),
                           NO_SYSINFO, None, if req.token != "" then req.token else newToken, now, None);
      rows := rows + [device];
      ApplySysinfo(|rows| - 1, req.sysinfo, now);
      assert rows == old(rows) + [Registered(req, now, newId, newToken)];
      return Created(newId);
    }

    method Recover(deviceId: string, hostname: string, token: string, now: Stamp) returns (answer: RecoverAnswer)
      modifies this
      ensures (rows, answer) == OnRecover(old(rows), deviceId, hostname, token, now)
    {
      var found := IndexOfId(rows, deviceId);
      if found.None? {
        return Unknown;
      }
      var device := rows[found.value];
      if device.token != "" && token != device.token {
        return WrongToken;
      }
      if !device.hostnameLocked {
        device := device.(hostname := Some(hostname));
      }
      device := device.(status := Online);
      device := device.(lastHeartbeat := now);
      rows := rows[found.value := device];
      return Recovered;
    }

    method Update(deviceId: string, hostname: Option<string>, ip: Option<string>, groupName: Option<string>)
      returns (found: bool)
      modifies this
      ensures rows == OnUpdate(old(rows), deviceId, hostname, ip, groupName)
      ensures found <==> exists i :: 0 <= i < |old(rows)| && old(rows)[i].id == deviceId
    {
      var index := IndexOfId(rows, deviceId);
      if index.None? {
        return false;
      }
      var device := rows[index.value];
      if hostname.Some? {
        device := device.(hostname := hostname);
        device := device.(hostnameLocked := true);
      }
      if ip.Some? {
        device := device.(ip := ip);
      }
      if groupName.Some? {
        device := device.(groupName := groupName);
      }
      rows := rows[index.value := device];
      return true;
    }

    method Delete(ids: set<string>, now: Stamp) returns (deleted: nat)
      modifies this
      ensures rows == OnDelete(old(rows), ids, now)
      ensures deleted == |set i | 0 <= i < |rows| && old(rows)[i].id in ids|
    {
      deleted := 0;
      ghost var done: set<int> := {};
      for i := 0 to |rows|
        invariant |rows| == |old(rows)|
        invariant forall k :: 0 <= k < i ==> rows[k] == OnDelete(old(rows), ids, now)[k]
        invariant forall k :: i <= k < |rows| ==> rows[k] == old(rows)[k]
        invariant done == set k | 0 <= k < i && old(rows)[k].id in ids
        invariant deleted == |done|
      {
        if rows[i].id in ids {
          rows := rows[i := DeletedRow(rows[i], now)];
          done := done + {i};
          deleted := deleted + 1;
        }
      }
    }

    method Sweep(cutoff: Stamp) returns (count: nat)
      modifies this
      ensures rows == OnSweep(old(rows), cutoff)
      ensures count > 0 <==> rows != old(rows)
    {
      hide Less, StoredText, CutoffText;
      count := 0;
      for i := 0 to |rows|
        invariant |rows| == |old(rows)|
        invariant forall k :: 0 <= k < i ==> rows[k] == SweptRow(old(rows)[k], cutoff)
        invariant forall k :: i <= k < |rows| ==> rows[k] == old(rows)[k]
        invariant count > 0 <==> exists k :: 0 <= k < i && Silent(old(rows)[k], cutoff)
      {
        if Silent(rows[i], cutoff) {
          rows := rows[i := rows[i].(status := Offline)];
          count := count + 1;
        }
      }
      if count > 0 {
        ghost var k :| 0 <= k < |rows| && Silent(old(rows)[k], cutoff);
        assert rows[k].status == Offline && old(rows)[k].status == Online;
      } else {
        assert rows == old(rows);
      }
    }
  }

  // ---------------------------------------------------------------------
  // One heartbeat
  // ---------------------------------------------------------------------

  /** A heartbeat is rejected exactly when it brings neither the secret nor the
      token of the row it is about, and that row was not deleted; it then changes
      nothing. The answer that a device is still deleted is never given. */
  lemma RejectedHeartbeat(rows: seq<Device>, req: Request, now: Stamp, newId: string, newToken: string)
    ensures var (rows', answer) := OnHeartbeat(rows, req, now, newId, newToken);
            var found := Find(rows, req);
            && (answer == Rejected <==>
                  && !req.secretOk
                  && (found.Some? ==> !TokenFits(rows[found.value], req.token) && rows[found.value].deletedAt.None?))
            && (answer == Rejected ==> rows' == rows)
            && !answer.StillDeleted?
  {
  }

  /** The row a heartbeat is about: a row of its device id if there is one, else a row of
      its IP, the one with the latest heartbeat; an empty id or IP finds nothing. */
  lemma FoundRow(rows: seq<Device>, req: Request)
    ensures var byId := req.deviceId != "" && exists i :: 0 <= i < |rows| && rows[i].id == req.deviceId;
            var byIp := req.ip != "" && exists i :: 0 <= i < |rows| && rows[i].ip == Some(req.ip);
            && (Find(rows, req).Some? <==> byId || byIp)
            && (byId ==> rows[Find(rows, req).value].id == req.deviceId)
            && (!byId && byIp ==>
                  var d := rows[Find(rows, req).value];
                  && d.ip == Some(req.ip)
                  && forall i :: 0 <= i < |rows| && rows[i].ip == Some(req.ip) ==>
                       Instant(rows[i].lastHeartbeat) <= Instant(d.lastHeartbeat))
  {
    if exists i :: 0 <= i < |rows| && rows[i].ip == Some(req.ip) {
      var i :| 0 <= i < |rows| && rows[i].ip == Some(req.ip);
      assert HasIp(rows[i], req.ip);
    }
  }

  /** Only the row it is about is changed by a heartbeat, and a new one is put last. */
  lemma OnlyThatRow(rows: seq<Device>, req: Request, now: Stamp, newId: string, newToken: string)
    ensures var rows' := OnHeartbeat(rows, req, now, newId, newToken).0;
            var found := Find(rows, req);
            && |rows'| == |rows| + (if found.None? && req.secretOk then 1 else 0)
            && forall k :: 0 <= k < |rows| && found != Some(k) ==> rows'[k] == rows[k]
  {
  }

  /** An ordinary heartbeat, one whose token is that of its row or whose row has none,
      field by field. */
  lemma OrdinaryHeartbeat(rows: seq<Device>, req: Request, now: Stamp, newId: string, newToken: string, i: nat)
    requires Find(rows, req) == Some(i) && i < |rows| && (rows[i].token == "" || req.token == rows[i].token)
    ensures var (rows', answer) := OnHeartbeat(rows, req, now, newId, newToken);
            && answer == Updated(rows[i].id) && |rows'| == |rows|
            && var d, d' := rows[i], rows'[i];
            && d'.lastHeartbeat == now
            && d'.status == (if req.online then Online else d.status)
            && d'.osInfo == Some(req.os) && d'.rearmCount == req.rearmCount && d'.agentVersion == Some(req.agentVersion)
            && d'.hostname == (if d.hostnameLocked then d.hostname else Some(req.hostname))
            && d'.hostnameLocked == d.hostnameLocked
            && (if req.sysinfo.Some? then d'.sysinfo == req.sysinfo.value && d'.sysinfoAt == Some(now)
                else d'.sysinfo == d.sysinfo && d'.sysinfoAt == d.sysinfoAt)
            && d'.id == d.id && d'.token == d.token && d'.ip == d.ip && d'.groupName == d.groupName && d'.deletedAt == d.deletedAt
  {
  }

  /** A take-over, of a row that was deleted or by a request with the secret whose token
      is another one, field by field. */
  lemma TakeOver(rows: seq<Device>, req: Request, now: Stamp, newId: string, newToken: string, i: nat)
    requires Find(rows, req) == Some(i) && i < |rows| && rows[i].token != "" && req.token != rows[i].token
    requires rows[i].deletedAt.Some? || req.secretOk
    ensures var (rows', answer) := OnHeartbeat(rows, req, now, newId, newToken);
            && answer == ReEnrolled(rows[i].id) && |rows'| == |rows|
            && var d, d' := rows[i], rows'[i];
            && d'.token == req.token && d'.deletedAt == None
            && d'.lastHeartbeat == now && d'.status == (if req.online then Online else Offline)
            && d'.hostname == Some(req.hostname) && d'.osInfo == Some(req.os)
            && d'.rearmCount == req.rearmCount && d'.agentVersion == Some(req.agentVersion)
            && d'.ip == (if req.ip == "" then d.ip else Some(req.ip))
            && (if req.sysinfo.Some? then d'.sysinfo == req.sysinfo.value && d'.sysinfoAt == Some(now)
                else d'.sysinfo == d.sysinfo && d'.sysinfoAt == d.sysinfoAt)
            && d'.id == d.id && d'.groupName == d.groupName && d'.hostnameLocked == d.hostnameLocked
  {
  }

  /** A first registration, by a request with the secret that finds no row, field by field. */
  lemma NewRegistration(rows: seq<Device>, req: Request, now: Stamp, newId: string, newToken: string)
    requires Find(rows, req) == None && req.secretOk
    ensures var (rows', answer) := OnHeartbeat(rows, req, now, newId, newToken);
            && answer == Created(newId) && |rows'| == |rows| + 1
            && var d' := rows'[|rows|];
            && d'.id == newId && d'.token == (if req.token == "" then newToken else req.token)
            && d'.hostname == Some(req.hostname) && !d'.hostnameLocked && d'.ip == Some(req.ip) && d'.osInfo == Some(req.os)
            && d'.rearmCount == req.rearmCount && d'.agentVersion == Some(req.agentVersion)
            && d'.lastHeartbeat == now && d'.status == (if req.online then Online else Offline)
            && d'.groupName == None && d'.deletedAt == None
            && (if req.sysinfo.Some? then d'.sysinfo == req.sysinfo.value && d'.sysinfoAt == Some(now)
                else d'.sysinfo == SysInfo(None, None, None, None, None, None, None, None, None, None) && d'.sysinfoAt == None)
  {
  }

  /** Which rows deleting marks, and what else it leaves as it was. */
  lemma DeletedRows(rows: seq<Device>, ids: set<string>, now: Stamp)
    ensures var rows' := OnDelete(rows, ids, now);
            && |rows'| == |rows|
            && forall i :: 0 <= i < |rows| ==>
                 if rows[i].id in ids then
                   && rows'[i].deletedAt == Some(now) && rows'[i].status == Offline
                   && rows'[i] == rows[i].(deletedAt := rows'[i].deletedAt, status := rows'[i].status)
                 else rows'[i] == rows[i]
  {
  }

  /** Editing changes the given fields of the one device and no other. */
  lemma EditedRow(rows: seq<Device>, id: string, hostname: Option<string>, ip: Option<string>, groupName: Option<string>)
    ensures var rows' := OnUpdate(rows, id, hostname, ip, groupName);
            var found := IndexOfId(rows, id);
            && |rows'| == |rows|
            && (forall k :: 0 <= k < |rows| && found != Some(k) ==> rows'[k] == rows[k])
            && (found.Some? ==>
                  var d, d' := rows[found.value], rows'[found.value];
                  && d'.hostname == (if hostname.Some? then hostname else d.hostname)
                  && d'.hostnameLocked == (hostname.Some? || d.hostnameLocked)
                  && d'.ip == (if ip.Some? then ip else d.ip)
                  && d'.groupName == (if groupName.Some? then groupName else d.groupName)
                  && d' == d.(hostname := d'.hostname, hostnameLocked := d'.hostnameLocked, ip := d'.ip, groupName := d'.groupName))
  {
  }

  /** What the other operations leave as it was: a recovery all but name, status and
      heartbeat time, a socket that opens or ends all but status and heartbeat time. */
  lemma OtherFields(rows: seq<Device>, id: string, hostname: string, token: string, now: Stamp)
    ensures var rows' := OnRecover(rows, id, hostname, token, now).0;
            && |rows'| == |rows|
            && forall k :: 0 <= k < |rows| ==>
                 && rows'[k] == rows[k].(hostname := rows'[k].hostname, status := rows'[k].status, lastHeartbeat := rows'[k].lastHeartbeat)
                 && (rows'[k] != rows[k] ==>
                       rows[k].id == id && rows'[k].hostname == if rows[k].hostnameLocked then rows[k].hostname else Some(hostname))
    ensures var rows' := OnConnect(rows, id, token, now);
            && |rows'| == |rows|
            && forall k :: 0 <= k < |rows| ==>
                 && rows'[k] == rows[k].(status := rows'[k].status, lastHeartbeat := rows'[k].lastHeartbeat)
                 && (rows'[k] != rows[k] ==> rows[k].id == id)
    ensures var rows' := OnDisconnect(rows, id, now);
            var found := IndexOfId(rows, id);
            && |rows'| == |rows|
            && forall k :: 0 <= k < |rows| ==>
                 rows'[k] == if found == Some(k) then rows[k].(status := Offline, lastHeartbeat := now) else rows[k]
  {
  }

  /** The sweep changes nothing but the status of the silent rows. */
  lemma SweptRows(rows: seq<Device>, cutoff: Stamp)
    ensures var rows' := OnSweep(rows, cutoff);
            && |rows'| == |rows|
            && forall i :: 0 <= i < |rows| ==>
                 rows'[i] == if Silent(rows[i], cutoff) then rows[i].(status := Offline) else rows[i]
  {
  }

  /** A recovery is refused exactly when its device is unknown or has another token, a
      socket exactly when its device is unknown or its token is missing or another
      one; both change nothing then, and put the device online otherwise. */
  lemma RefusedRequests(rows: seq<Device>, deviceId: string, hostname: string, token: string, now: Stamp)
    ensures var found := IndexOfId(rows, deviceId);
            var (rows', answer) := OnRecover(rows, deviceId, hostname, token, now);
            && (answer == Recovered <==> found.Some? && TokenFits(rows[found.value], token))
            && (if answer == Recovered then rows'[found.value].status == Online && rows'[found.value].lastHeartbeat == now
                else rows' == rows)
    ensures var found := IndexOfId(rows, deviceId);
            var rows' := OnConnect(rows, deviceId, token, now);
            if found.Some? && token != "" && rows[found.value].token == token
            then rows'[found.value].status == Online && rows'[found.value].lastHeartbeat == now
            else rows' == rows
  {
  }

  ghost predicate TakenByOther(rows: seq<Device>, i: nat, ip: Option<string>) {
    ip.Some? && ip.value != "" && exists j :: 0 <= j < |rows| && j != i && HasIp(rows[j], ip.value)
  }

  lemma ReplaceKeepsUniqueIps(rows: seq<Device>, i: nat, d: Device)
    requires UniqueIps(rows) && i < |rows|
    ensures UniqueIps(rows[i := d]) <==> !TakenByOther(rows, i, d.ip)
  {
    var rows' := rows[i := d];
    assert forall k :: 0 <= k < |rows| && k != i ==> rows'[k] == rows[k];
    if TakenByOther(rows, i, d.ip) {
      var j :| 0 <= j < |rows| && j != i && HasIp(rows[j], d.ip.value);
      assert rows'[j].ip == rows'[i].ip && (i < j || j < i);
    }
  }

  lemma SameIpsKeepUniqueIps(rows: seq<Device>, rows': seq<Device>)
    requires UniqueIps(rows) && |rows'| == |rows| && forall i :: 0 <= i < |rows| ==> rows'[i].ip == rows[i].ip
    ensures UniqueIps(rows')
  {
  }

  lemma OwnIpIsFree(rows: seq<Device>, i: nat)
    requires UniqueIps(rows) && i < |rows|
    ensures !TakenByOther(rows, i, rows[i].ip)
  {
  }

  /** The request takes over, by device id, a row other than the one that holds the IP it reports. */
  ghost predicate TakesUsedIp(rows: seq<Device>, req: Request) {
    var found := Find(rows, req);
    && found.Some? && MayTakeOver(rows[found.value], req) && req.ip != ""
    && exists j :: 0 <= j < |rows| && j != found.value && HasIp(rows[j], req.ip)
  }

  /** A heartbeat keeps the IPs unique if and only if it does not take over one row with the IP of another. */
  lemma HeartbeatKeepsUniqueIps(rows: seq<Device>, req: Request, now: Stamp, newId: string, newToken: string)
    requires UniqueIps(rows)
    ensures UniqueIps(OnHeartbeat(rows, req, now, newId, newToken).0) <==> !TakesUsedIp(rows, req)
  {
    FoundRow(rows, req);
    hide Find;
    var rows' := OnHeartbeat(rows, req, now, newId, newToken).0;
    var found := Find(rows, req);
    if found.Some? && rows' != rows {
      ReplaceKeepsUniqueIps(rows, found.value, rows'[found.value]);
      OwnIpIsFree(rows, found.value);
    } else if rows' != rows {
      assert forall k :: 0 <= k < |rows| ==> rows'[k] == rows[k];
      assert rows'[|rows|].ip == Some(req.ip);
      assert req.ip != "" ==> forall k :: 0 <= k < |rows| ==> !HasIp(rows[k], req.ip);
    }
  }

  // ---------------------------------------------------------------------
  // Whole runs
  // ---------------------------------------------------------------------

  datatype Op =
    | HeartbeatOp(req: Request, now: Stamp, newId: string, newToken: string)
    | RecoverOp(deviceId: string, newName: string, token: string, now: Stamp)
    | UpdateOp(deviceId: string, hostname: Option<string>, ip: Option<string>, groupName: Option<string>)
    | DeleteOp(ids: set<string>, now: Stamp)
    | AddOp(added: seq<Device>)
    | ConnectOp(deviceId: string, token: string, now: Stamp)
    | DisconnectOp(deviceId: string, now: Stamp)
    | SweepOp(cutoff: Stamp)

  function Apply(rows: seq<Device>, op: Op): seq<Device> {
    match op
    case HeartbeatOp(req, now, newId, newToken) => OnHeartbeat(rows, req, now, newId, newToken).0
    case RecoverOp(id, name, token, now) => OnRecover(rows, id, name, token, now).0
    case UpdateOp(id, hostname, ip, group) => OnUpdate(rows, id, hostname, ip, group)
    case DeleteOp(ids, now) => OnDelete(rows, ids, now)
    case AddOp(added) => rows + added
    case ConnectOp(id, token, now) => OnConnect(rows, id, token, now)
    case DisconnectOp(id, now) => OnDisconnect(rows, id, now)
    case SweepOp(cutoff) => OnSweep(rows, cutoff)
  }

  function Run(rows: seq<Device>, ops: seq<Op>): seq<Device> {
    if ops == [] then rows else Apply(Run(rows, ops[..|ops| - 1]), ops[|ops| - 1])
  }

  /** Rows stay where they are and keep their ids: nothing but the start-up clean-up removes a row. */
  lemma RowsStay(rows: seq<Device>, op: Op, i: nat)
    requires i < |rows|
    ensures |rows| <= |Apply(rows, op)| && Apply(rows, op)[i].id == rows[i].id
  {
    hide Find, IndexOfId, Less, StoredText, CutoffText;
  }

  lemma {:induction false} RowsStayInRun(rows: seq<Device>, ops: seq<Op>, i: nat)
    requires i < |rows|
    ensures i < |Run(rows, ops)| && Run(rows, ops)[i].id == rows[i].id
  {
    if ops != [] {
      RowsStayInRun(rows, ops[..|ops| - 1], i);
      RowsStay(Run(rows, ops[..|ops| - 1]), ops[|ops| - 1], i);
    }
  }

  // ---- one row per IP ----

  /** The operation gives a row an IP that another row has. */
  ghost predicate UsesTakenIp(rows: seq<Device>, op: Op) {
    match op
    case HeartbeatOp(req, _, _, _) => TakesUsedIp(rows, req)
    case UpdateOp(id, _, ip, _) => IndexOfId(rows, id).Some? && TakenByOther(rows, IndexOfId(rows, id).value, ip)
    case AddOp(added) =>
      || !UniqueIps(added)
      || exists k :: 0 <= k < |added| && added[k].ip.Some? && added[k].ip.value != ""
                     && exists j :: 0 <= j < |rows| && HasIp(rows[j], added[k].ip.value)
    case _ => false
  }

  lemma UpdateKeepsUniqueIps(rows: seq<Device>, op: Op)
    requires UniqueIps(rows) && op.UpdateOp?
    ensures UniqueIps(Apply(rows, op)) <==> !UsesTakenIp(rows, op)
  {
    var found := IndexOfId(rows, op.deviceId);
    if found.Some? {
      ReplaceKeepsUniqueIps(rows, found.value, Apply(rows, op)[found.value]);
      OwnIpIsFree(rows, found.value);
    }
  }

  lemma AddKeepsUniqueIps(rows: seq<Device>, added: seq<Device>)
    requires UniqueIps(rows)
    ensures UniqueIps(rows + added) <==> !UsesTakenIp(rows, AddOp(added))
  {
    var all := rows + added;
    if UniqueIps(all) {
      forall j, k | 0 <= j < k < |added| && added[j].ip == added[k].ip ensures added[j].ip in {None, Some("")} {
        assert all[|rows| + j].ip == all[|rows| + k].ip;
      }
      forall j, k | 0 <= j < |rows| && 0 <= k < |added| && rows[j].ip == added[k].ip ensures added[k].ip in {None, Some("")} {
        assert all[j].ip == all[|rows| + k].ip;
      }
    }
    if !UsesTakenIp(rows, AddOp(added)) {
      forall j, k | 0 <= j < k < |all| && all[j].ip == all[k].ip ensures all[j].ip in {None, Some("")} {
        if j < |rows| <= k {
          assert all[k] == added[k - |rows|] && all[j] == rows[j];
        } else if |rows| <= j {
          assert all[k] == added[k - |rows|] && all[j] == added[j - |rows|];
        }
      }
    }
  }

  /** An operation keeps the IPs unique if and only if it does not give a row an IP
      that another row has: only a take-over, an edit by hand and an addition can. */
  lemma OpKeepsUniqueIps(rows: seq<Device>, op: Op)
    requires UniqueIps(rows)
    ensures UniqueIps(Apply(rows, op)) <==> !UsesTakenIp(rows, op)
  {
    match op
    case HeartbeatOp(req, now, newId, newToken) => HeartbeatKeepsUniqueIps(rows, req, now, newId, newToken);
    case UpdateOp(_, _, _, _) => UpdateKeepsUniqueIps(rows, op);
    case AddOp(added) => AddKeepsUniqueIps(rows, added);
    case _ => SameIpsKeepUniqueIps(rows, Apply(rows, op));
  }

  /** One row per IP in every state of every run that never gives out a taken IP. */
  lemma {:induction false} RunKeepsUniqueIps(rows: seq<Device>, ops: seq<Op>)
    requires UniqueIps(rows) && forall k :: 0 <= k < |ops| ==> !UsesTakenIp(Run(rows, ops[..k]), ops[k])
    ensures UniqueIps(Run(rows, ops))
  {
    if ops != [] {
      var before := ops[..|ops| - 1];
      assert forall k :: 0 <= k < |before| ==> before[..k] == ops[..k] && before[k] == ops[k];
      RunKeepsUniqueIps(rows, before);
      OpKeepsUniqueIps(Run(rows, before), ops[|ops| - 1]);
    }
  }

  // ---- ownership ----

  /** The operation hands row i to a new owner. */
  predicate ReEnrols(rows: seq<Device>, op: Op, i: nat) {
    op.HeartbeatOp? && Find(rows, op.req) == Some(i) && i < |rows| && MayTakeOver(rows[i], op.req)
  }

  lemma OwnerStep(rows: seq<Device>, op: Op, i: nat)
    requires i < |rows|
    ensures i < |Apply(rows, op)|
    ensures ReEnrols(rows, op, i) ==> Apply(rows, op)[i].token == op.req.token && Apply(rows, op)[i].deletedAt.None?
    ensures !ReEnrols(rows, op, i) ==> Apply(rows, op)[i].token == rows[i].token
    ensures rows[i].deletedAt.None? && !(op.DeleteOp? && rows[i].id in op.ids) ==> Apply(rows, op)[i].deletedAt.None?
  {
    hide Find, IndexOfId, Less, StoredText, CutoffText;
    match op
    case HeartbeatOp(_, _, _, _) =>
    case _ =>
  }

  /** No request with the right secret is answered by handing row i over. */
  ghost predicate NeverReEnrolledWithSecret(rows: seq<Device>, ops: seq<Op>, i: nat) {
    forall k :: 0 <= k < |ops| && ops[k].HeartbeatOp? && ops[k].req.secretOk ==> !ReEnrols(Run(rows, ops[..k]), ops[k], i)
  }

  ghost predicate NeverDeleted(ops: seq<Op>, id: string) {
    forall k :: 0 <= k < |ops| && ops[k].DeleteOp? ==> id !in ops[k].ids
  }

  lemma PrefixFacts(rows: seq<Device>, ops: seq<Op>, i: nat, id: string)
    requires ops != [] && NeverReEnrolledWithSecret(rows, ops, i) && NeverDeleted(ops, id)
    ensures var before := ops[..|ops| - 1];
            NeverReEnrolledWithSecret(rows, before, i) && NeverDeleted(before, id)
  {
    var before := ops[..|ops| - 1];
    assert forall k :: 0 <= k < |before| ==> before[..k] == ops[..k] && before[k] == ops[k];
  }

  /** Ownership: through every run of operations, a row that is never deleted keeps
      its token until a heartbeat with the enrolment secret re-enrols it. */
  lemma {:induction false} TokenKept(rows: seq<Device>, ops: seq<Op>, i: nat)
    requires i < |rows| && rows[i].deletedAt.None?
    requires NeverDeleted(ops, rows[i].id) && NeverReEnrolledWithSecret(rows, ops, i)
    ensures i < |Run(rows, ops)|
    ensures Run(rows, ops)[i].token == rows[i].token && Run(rows, ops)[i].deletedAt.None?
  {
    if ops != [] {
      var before, op := ops[..|ops| - 1], ops[|ops| - 1];
      PrefixFacts(rows, ops, i, rows[i].id);
      TokenKept(rows, before, i);
      RowsStayInRun(rows, before, i);
      OwnerStep(Run(rows, before), op, i);
      assert ops[..|ops| - 1] == before;
    }
  }

  /** Re-enrolment is the only other way: the token of a row changes only to the token of a request that takes the row over. */
  lemma TokenChangesOnlyByTakeover(rows: seq<Device>, op: Op, i: nat)
    requires i < |rows| && Apply(rows, op)[i].token != rows[i].token
    ensures op.HeartbeatOp? && Find(rows, op.req) == Some(i)
    ensures Apply(rows, op)[i].token == op.req.token
    ensures op.req.secretOk || rows[i].deletedAt.Some?
  {
    OwnerStep(rows, op, i);
  }

  // ---- names given by hand ----

  predicate Renames(rows: seq<Device>, op: Op, i: nat) {
    op.UpdateOp? && op.hostname.Some? && IndexOfId(rows, op.deviceId) == Some(i)
  }

  lemma NameStep(rows: seq<Device>, op: Op, i: nat)
    requires i < |rows| && rows[i].hostnameLocked
    ensures i < |Apply(rows, op)| && Apply(rows, op)[i].hostnameLocked
    ensures !ReEnrols(rows, op, i) && !Renames(rows, op, i) ==> Apply(rows, op)[i].hostname == rows[i].hostname
  {
  }

  /** A name given by hand survives every heartbeat and recovery until the row is re-enrolled or renamed by hand. */
  lemma {:induction false} NameKept(rows: seq<Device>, ops: seq<Op>, i: nat)
    requires i < |rows| && rows[i].hostnameLocked
    requires forall k :: 0 <= k < |ops| ==>
                           !ReEnrols(Run(rows, ops[..k]), ops[k], i) && !Renames(Run(rows, ops[..k]), ops[k], i)
    ensures i < |Run(rows, ops)| && Run(rows, ops)[i].hostname == rows[i].hostname && Run(rows, ops)[i].hostnameLocked
  {
    if ops != [] {
      var before := ops[..|ops| - 1];
      assert forall k :: 0 <= k < |before| ==> before[..k] == ops[..k] && before[k] == ops[k];
      NameKept(rows, before, i);
      assert ops[..|ops| - 1] == before;
      NameStep(Run(rows, before), ops[|ops| - 1], i);
    }
  }

  /** Renaming by hand sets the name and locks it. */
  lemma RenameLocks(rows: seq<Device>, op: Op, i: nat)
    requires i < |rows| && Renames(rows, op, i)
    ensures Apply(rows, op)[i].hostname == op.hostname && Apply(rows, op)[i].hostnameLocked
  {
  }

  // ---------------------------------------------------------------------
  // Freshness
  // ---------------------------------------------------------------------

  const SECOND := 1_000_000
  const HEARTBEAT_TIMEOUT := 15 * SECOND

  /** The sweep's text comparison: an online device is marked offline exactly when
      the whole second of its last heartbeat ended 15 seconds ago or earlier. */
  lemma SilentIff(d: Device, now: Stamp, cutoff: Stamp)
    requires Instant(cutoff) == Instant(now) - HEARTBEAT_TIMEOUT
    ensures Silent(d, cutoff) <==>
            d.status == Online && (WholeSeconds(d.lastHeartbeat) + 1) * SECOND <= Instant(now) - HEARTBEAT_TIMEOUT
  {
    CutoffOrder(d.lastHeartbeat, cutoff);
  }

  /** A heartbeat less than 15 seconds old is never swept, one 16 seconds old or older always is. */
  lemma SweptByAge(d: Device, now: Stamp, cutoff: Stamp)
    requires Instant(cutoff) == Instant(now) - HEARTBEAT_TIMEOUT && d.status == Online
    ensures var age := Instant(now) - Instant(d.lastHeartbeat);
            && (age < 15 * SECOND ==> SweptRow(d, cutoff) == d)
            && (age >= 16 * SECOND ==> SweptRow(d, cutoff).status == Offline)
  {
    SilentIff(d, now, cutoff);
  }

  /** Every online device was heard of after the given instant. */
  ghost predicate HeardAfter(rows: seq<Device>, instant: int) {
    forall i :: 0 <= i < |rows| && rows[i].status == Online ==> Instant(rows[i].lastHeartbeat) > instant
  }

  /** The clock reading that an operation stores. */
  function Reading(op: Op): Option<Stamp> {
    match op
    case HeartbeatOp(_, now, _, _) => Some(now)
    case RecoverOp(_, _, _, now) => Some(now)
    case DeleteOp(_, now) => Some(now)
    case ConnectOp(_, _, now) => Some(now)
    case DisconnectOp(_, now) => Some(now)
    case UpdateOp(_, _, _, _) => None
    case AddOp(_) => None
    case SweepOp(_) => None
  }

  /** The operation happens at the given time. Rows are added offline. */
  predicate At(op: Op, time: int) {
    && (Reading(op).Some? ==> Instant(Reading(op).value) == time)
    && (op.AddOp? ==> forall i :: 0 <= i < |op.added| ==> op.added[i].status == Offline)
    && (op.SweepOp? ==> Instant(op.cutoff) == time - HEARTBEAT_TIMEOUT)
  }

  /** A row that is online after an operation was so before, or was just heard of. */
  lemma OnlineStep(rows: seq<Device>, op: Op, i: nat)
    requires i < |Apply(rows, op)| && Apply(rows, op)[i].status == Online
    ensures var d := Apply(rows, op)[i];
            || (i < |rows| && rows[i].status == Online && d.lastHeartbeat == rows[i].lastHeartbeat)
            || Some(d.lastHeartbeat) == Reading(op)
            || (op.AddOp? && |rows| <= i && d == op.added[i - |rows|])
  {
    hide Find, IndexOfId, Less, StoredText, CutoffText;
  }

  lemma SweepHeardAfter(rows: seq<Device>, now: int, cutoff: Stamp)
    requires Instant(cutoff) == now - HEARTBEAT_TIMEOUT
    ensures HeardAfter(OnSweep(rows, cutoff), now - 16 * SECOND)
  {
    var rows' := OnSweep(rows, cutoff);
    forall i | 0 <= i < |rows'| && rows'[i].status == Online
      ensures Instant(rows'[i].lastHeartbeat) > now - 16 * SECOND
    {
      assert rows'[i] == SweptRow(rows[i], cutoff);
      CutoffOrder(rows[i].lastHeartbeat, cutoff);
    }
  }

  lemma StepHeardAfter(rows: seq<Device>, op: Op, time: int, instant: int)
    requires HeardAfter(rows, instant) && At(op, time) && instant < time
    ensures HeardAfter(Apply(rows, op), instant)
  {
    var rows' := Apply(rows, op);
    forall i | 0 <= i < |rows'| && rows'[i].status == Online
      ensures Instant(rows'[i].lastHeartbeat) > instant
    {
      OnlineStep(rows, op, i);
    }
  }

  /** A run together with the times of its operations, on a clock that never goes back. */
  predicate Timed(ops: seq<Op>, times: seq<int>) {
    && |times| == |ops|
    && (forall k :: 0 <= k < |ops| ==> At(ops[k], times[k]))
    && (forall k :: 0 < k < |ops| ==> times[k - 1] <= times[k])
  }

  lemma TimedPrefix(ops: seq<Op>, times: seq<int>)
    requires Timed(ops, times) && ops != []
    ensures Timed(ops[..|ops| - 1], times[..|ops| - 1])
  {
  }

  lemma {:induction false} HeardSinceSweep(rows: seq<Device>, ops: seq<Op>, times: seq<int>, s: nat)
    requires Timed(ops, times) && s < |ops| && ops[s].SweepOp?
    ensures HeardAfter(Run(rows, ops), times[s] - 16 * SECOND)
    ensures times[s] <= times[|ops| - 1]
  {
    hide HeardAfter, OnSweep;
    var n := |ops| - 1;
    if s == n {
      SweepHeardAfter(Run(rows, ops[..n]), times[s], ops[s].cutoff);
    } else {
      hide Apply, At;
      TimedPrefix(ops, times);
      HeardSinceSweep(rows, ops[..n], times[..n], s);
      StepHeardAfter(Run(rows, ops[..n]), ops[n], times[n], times[s] - 16 * SECOND);
    }
  }

  /** Freshness: in every run, whenever the last sweep is at most P ago, every
      online device was heard of less than 16 seconds plus P ago. */
  lemma OnlineIsFresh(rows: seq<Device>, ops: seq<Op>, times: seq<int>, s: nat, now: int, P: nat, i: nat)
    requires Timed(ops, times) && s < |ops| && ops[s].SweepOp?
    requires times[|ops| - 1] <= now <= times[s] + P
    requires i < |Run(rows, ops)| && Run(rows, ops)[i].status == Online
    ensures now - Instant(Run(rows, ops)[i].lastHeartbeat) < 16 * SECOND + P
  {
    HeardSinceSweep(rows, ops, times, s);
  }

  // ---- staying online ----

  /** The operation takes row i offline: a sweep that finds it silent, a deletion, the
      end of its socket, or a take-over by an agent that is not online. */
  predicate TakesOffline(rows: seq<Device>, op: Op, i: nat)
    requires i < |rows|
  {
    match op
    case HeartbeatOp(req, _, _, _) => ReEnrols(rows, op, i) && !req.online
    case DeleteOp(ids, _) => rows[i].id in ids
    case DisconnectOp(id, _) => IndexOfId(rows, id) == Some(i)
    case SweepOp(cutoff) => WholeSeconds(rows[i].lastHeartbeat) < WholeSeconds(cutoff)
    case _ => false
  }

  /** When an online row goes offline: exactly by such an operation. */
  lemma OfflineStepIff(rows: seq<Device>, op: Op, i: nat)
    requires i < |rows| && rows[i].status == Online
    ensures i < |Apply(rows, op)|
    ensures Apply(rows, op)[i].status != Online <==> TakesOffline(rows, op, i)
    ensures !TakesOffline(rows, op, i) ==>
              || Apply(rows, op)[i].lastHeartbeat == rows[i].lastHeartbeat
              || Some(Apply(rows, op)[i].lastHeartbeat) == Reading(op)
  {
    hide Find, IndexOfId, Less, StoredText, CutoffText;
    if op.SweepOp? {
      CutoffOrder(rows[i].lastHeartbeat, op.cutoff);
    }
  }

  /** An accepted heartbeat of row i, which it may have added, by an agent that is online. */
  predicate HeardOnline(rows: seq<Device>, op: Op, i: nat) {
    && op.HeartbeatOp? && op.req.online
    && if i < |rows| then
         && Find(rows, op.req) == Some(i)
         && (rows[i].token == "" || op.req.token == rows[i].token || rows[i].deletedAt.Some? || op.req.secretOk)
       else i == |rows| && Find(rows, op.req) == None && op.req.secretOk
  }

  /** Since operation k nobody has deleted row i, ended its socket, or taken it over while offline. */
  ghost predicate LeftAlone(rows: seq<Device>, ops: seq<Op>, k: nat, i: nat) {
    forall j :: k < j < |ops| ==>
      var now := Run(rows, ops[..j]);
      && i < |now|
      && (ops[j].DeleteOp? ==> now[i].id !in ops[j].ids)
      && (ops[j].DisconnectOp? ==> now[i].id != ops[j].deviceId)
      && (ReEnrols(now, ops[j], i) ==> ops[j].req.online)
  }

  ghost predicate OnlineSince(rows: seq<Device>, i: nat, instant: int) {
    i < |rows| && rows[i].status == Online && Instant(rows[i].lastHeartbeat) >= instant
  }

  lemma HeardStep(rows: seq<Device>, op: Op, i: nat, time: int)
    requires HeardOnline(rows, op, i) && At(op, time)
    ensures OnlineSince(Apply(rows, op), i, time)
  {
    if i == |rows| {
      NewRegistration(rows, op.req, op.now, op.newId, op.newToken);
    } else if rows[i].token == "" || op.req.token == rows[i].token {
      OrdinaryHeartbeat(rows, op.req, op.now, op.newId, op.newToken, i);
    } else {
      TakeOver(rows, op.req, op.now, op.newId, op.newToken, i);
    }
  }

  lemma StaysOnline(rows: seq<Device>, op: Op, i: nat, time: int, instant: int)
    requires OnlineSince(rows, i, instant) && At(op, time) && instant <= time < instant + 15 * SECOND
    requires op.DeleteOp? ==> rows[i].id !in op.ids
    requires op.DisconnectOp? ==> rows[i].id != op.deviceId
    requires ReEnrols(rows, op, i) ==> op.req.online
    ensures OnlineSince(Apply(rows, op), i, instant)
  {
    hide Apply, ReEnrols;
    OfflineStepIff(rows, op, i);
  }

  /** The converse of OnlineIsFresh: in every run, a row with an accepted online heartbeat
      less than 15 seconds ago is online, unless it has been deleted, its socket has
      ended, or it was taken over by an agent that is not online since then. */
  lemma {:induction false} HeardIsOnline(rows: seq<Device>, ops: seq<Op>, times: seq<int>, k: nat, i: nat)
    requires Timed(ops, times) && k < |ops| && HeardOnline(Run(rows, ops[..k]), ops[k], i)
    requires LeftAlone(rows, ops, k, i)
    requires times[|ops| - 1] < times[k] + 15 * SECOND
    ensures times[k] <= times[|ops| - 1]
    ensures i < |Run(rows, ops)| && Run(rows, ops)[i].status == Online
    ensures Instant(Run(rows, ops)[i].lastHeartbeat) >= times[k]
  {
    hide Apply, HeardOnline, ReEnrols, LeftAlone, At, OnlineSince;
    var n := |ops| - 1;
    if k == n {
      HeardStep(Run(rows, ops[..n]), ops[n], i, times[n]);
    } else {
      var before := ops[..n];
      TimedPrefix(ops, times);
      LeftAloneBefore(rows, ops, k, i);
      assert before[..k] == ops[..k] && before[k] == ops[k];
      HeardIsOnline(rows, before, times[..n], k, i);
      assert times[k] <= times[n - 1] <= times[n];
      assert OnlineSince(Run(rows, before), i, times[k]) by { OnlineSinceIs(Run(rows, before), i, times[k]); }
      StaysOnline(Run(rows, before), ops[n], i, times[n], times[k]);
    }
    OnlineSinceIs(Run(rows, ops), i, times[k]);
  }

  lemma OnlineSinceIs(rows: seq<Device>, i: nat, instant: int)
    ensures OnlineSince(rows, i, instant) <==>
            i < |rows| && rows[i].status == Online && Instant(rows[i].lastHeartbeat) >= instant
  {
  }

  lemma LeftAloneBefore(rows: seq<Device>, ops: seq<Op>, k: nat, i: nat)
    requires LeftAlone(rows, ops, k, i) && k < |ops| - 1
    ensures var n := |ops| - 1;
            var now := Run(rows, ops[..n]);
            && LeftAlone(rows, ops[..n], k, i)
            && i < |now|
            && (ops[n].DeleteOp? ==> now[i].id !in ops[n].ids)
            && (ops[n].DisconnectOp? ==> now[i].id != ops[n].deviceId)
            && (ReEnrols(now, ops[n], i) ==> ops[n].req.online)
  {
    hide Run, ReEnrols;
    var before := ops[..|ops| - 1];
    forall j | k < j < |before|
      ensures before[..j] == ops[..j] && before[j] == ops[j]
    {
    }
  }
}
