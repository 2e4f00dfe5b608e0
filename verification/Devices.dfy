/** The device table: one row per device, in the order in which the rows were added. */
module Devices {
  import opened Wrappers
  import opened Clock

  datatype DeviceStatus = Online | Offline | Generalized | Recovering

  datatype SysInfo = SysInfo(cpuModel: Option<string>, cpuCores: Option<int>, memoryTotalMb: Option<int>,
                             diskTotalGb: Option<int>, diskFreeGb: Option<int>, osVersion: Option<string>,
                             serialNumber: Option<string>, macAddress: Option<string>,
                             manufacturer: Option<string>, model: Option<string>)

  datatype Device = Device(id: string, hostname: Option<string>, hostnameLocked: bool, ip: Option<string>,
                           osInfo: Option<string>, status: DeviceStatus, groupName: Option<string>,
                           rearmCount: int, agentVersion: Option<string>,
                           sysinfo: SysInfo, sysinfoAt: Option<Stamp>,
                           token: string, lastHeartbeat: Stamp, deletedAt: Option<Stamp>)

  const NO_SYSINFO := SysInfo(None, None, None, None, None, None, None, None, None, None)

  /** A row added by hand, by an import or for an installation package: offline until its agent calls. */
  function Added(id: string, hostname: Option<string>, ip: Option<string>, groupName: Option<string>,
                 token: string, now: Stamp): Device {
    Device(id, hostname, false, ip, None, Offline, groupName, -1, None, NO_SYSINFO, None, token, now, None)
  }

  predicate HasIp(d: Device, ip: string) {
    d.ip == Some(ip)
  }

  /** At most one row, deleted or not, for every IP that is not empty. */
  ghost predicate UniqueIps(rows: seq<Device>) {
    forall i, j :: 0 <= i < j < |rows| && rows[i].ip == rows[j].ip ==> rows[i].ip in {None, Some("")}
  }

  function IndexOfId(rows: seq<Device>, id: string): (r: Option<nat>)
    ensures r.Some? ==> r.value < |rows| && rows[r.value].id == id
    ensures r.None? ==> forall i :: 0 <= i < |rows| ==> rows[i].id != id
  {
    if rows == [] then None
    else if rows[|rows| - 1].id == id then Some(|rows| - 1)
    else IndexOfId(rows[..|rows| - 1], id)
  }

  /** The row of an IP with the latest heartbeat. */
  function NewestOfIp(rows: seq<Device>, ip: string): (r: Option<nat>)
    ensures r.Some? ==>
              && r.value < |rows| && HasIp(rows[r.value], ip)
              && forall i :: 0 <= i < |rows| && HasIp(rows[i], ip) ==>
                   Instant(rows[i].lastHeartbeat) <= Instant(rows[r.value].lastHeartbeat)
    ensures r.None? ==> forall i :: 0 <= i < |rows| ==> !HasIp(rows[i], ip)
  {
    if rows == [] then None
    else
      var n := |rows| - 1;
      var before := NewestOfIp(rows[..n], ip);
      if HasIp(rows[n], ip)
         && (before.None? || Instant(rows[before.value].lastHeartbeat) < Instant(rows[n].lastHeartbeat))
      then Some(n) else before
  }
}
