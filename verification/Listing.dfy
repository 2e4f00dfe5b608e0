/** The device list: filtered, sorted by the number of the IP, and cut into pages. */
module Listing {
  import opened Wrappers
  import opened Text
  import opened Devices
  import opened Ipv4
  import opened Sorting

  /** The sort key: valid addresses first and by number, the rest after them, each by host name second. */
  datatype Key = Key(missing: nat, address: nat, hostname: string)

  function SortKey(d: Device): Key {
    var hostname := if d.hostname.Some? then d.hostname.value else "";
    var address := if d.ip.Some? then ParseAddress(d.ip.value) else None;
    if address.Some? then Key(0, address.value, hostname) else Key(1, 0, hostname)
  }

  /** Tuples compare from the left. */
  predicate KeyLess(k: Key, l: Key) {
    || k.missing < l.missing
    || (k.missing == l.missing && (k.address < l.address || (k.address == l.address && Less(k.hostname, l.hostname))))
  }

  function NotAfter(): (Device, Device) -> bool {
    (d: Device, e: Device) => !KeyLess(SortKey(e), SortKey(d))
  }

  function Filter(rows: seq<Device>, wanted: Device -> bool): seq<Device> {
    if rows == [] then []
    else if rows[0].deletedAt.None? && wanted(rows[0]) then [rows[0]] + Filter(rows[1..], wanted)
    else Filter(rows[1..], wanted)
  }

  function Listed(rows: seq<Device>, wanted: Device -> bool): seq<Device> {
    Sort(NotAfter(), Filter(rows, wanted))
  }

  function Min(a: nat, b: nat): nat {
    if a < b then a else b
  }

  /** devices[start:start + size]; a slice is cut off at the end of the list. */
  function Page(list: seq<Device>, page: nat, size: nat): seq<Device>
    requires page >= 1 && size >= 1
  {
    var start := (page - 1) * size;
    list[Min(start, |list|)..Min(start + size, |list|)]
  }

  /** One request of the list. */
  function ListDevices(rows: seq<Device>, wanted: Device -> bool, page: nat, size: nat): seq<Device>
    requires page >= 1 && size >= 1
  {
    Page(Listed(rows, wanted), page, size)
  }

  /** Pages 1 to pages, one after the other. */
  function Joined(rows: seq<Device>, wanted: Device -> bool, pages: nat, size: nat): seq<Device>
    requires size >= 1
  {
    if pages == 0 then [] else Joined(rows, wanted, pages - 1, size) + ListDevices(rows, wanted, pages, size)
  }

  // ---------------------------------------------------------------------
  // The order
  // ---------------------------------------------------------------------

  lemma KeyOrder(k: Key, l: Key, m: Key)
    ensures !KeyLess(k, k)
    ensures KeyLess(k, l) || KeyLess(l, k) || k == l
    ensures KeyLess(k, l) && KeyLess(l, m) ==> KeyLess(k, m)
    ensures !(KeyLess(k, l) && KeyLess(l, k))
  {
    LessIrreflexive(k.hostname);
    LessTotal(k.hostname, l.hostname);
    if Less(k.hostname, l.hostname) && Less(l.hostname, m.hostname) {
      LessTransitive(k.hostname, l.hostname, m.hostname);
    }
    if Less(k.hostname, l.hostname) && Less(l.hostname, k.hostname) {
      LessTransitive(k.hostname, l.hostname, k.hostname);
    }
  }

  lemma NotAfterIsPreorder()
    ensures TotalPreorder(NotAfter())
  {
    hide SortKey, KeyLess;
    forall d: Device, e: Device ensures NotAfter()(d, e) || NotAfter()(e, d) {
      KeyOrder(SortKey(d), SortKey(e), SortKey(d));
    }
    forall d: Device, e: Device, f: Device | NotAfter()(d, e) && NotAfter()(e, f)
      ensures NotAfter()(d, f)
    {
      var k, l, m := SortKey(d), SortKey(e), SortKey(f);
      KeyOrder(k, l, m);
      KeyOrder(m, k, l);
      KeyOrder(l, m, k);
    }
  }

  predicate ValidIp(d: Device) {
    d.ip.Some? && ParseAddress(d.ip.value).Some?
  }

  lemma {:induction false} FilteredTimes(rows: seq<Device>, wanted: Device -> bool, d: Device)
    ensures multiset(Filter(rows, wanted))[d] == if d.deletedAt == None && wanted(d) then multiset(rows)[d] else 0
  {
    if rows != [] {
      FilteredTimes(rows[1..], wanted, d);
      assert rows == [rows[0]] + rows[1..];
    }
  }

  /** The list holds every row that is not deleted and is wanted, as often as the table does, and no other row. */
  lemma ListedTimes(rows: seq<Device>, wanted: Device -> bool, d: Device)
    ensures multiset(Listed(rows, wanted))[d] == if d.deletedAt == None && wanted(d) then multiset(rows)[d] else 0
  {
    SortPermutes(NotAfter(), Filter(rows, wanted));
    FilteredTimes(rows, wanted, d);
  }

  function HostName(d: Device): string {
    if d.hostname.Some? then d.hostname.value else ""
  }

  /** In the list devices with a valid address come first, and the octets of their
      addresses ascend from the left; at the same address, and among the others, the host
      names ascend. */
  lemma ListOrder(rows: seq<Device>, wanted: Device -> bool, i: nat, j: nat)
    requires i < j < |Listed(rows, wanted)|
    ensures var d, e := Listed(rows, wanted)[i], Listed(rows, wanted)[j];
            && (ValidIp(e) ==> ValidIp(d))
            && (ValidIp(d) && ValidIp(e) ==>
                  var q, r := Octets(ParseAddress(d.ip.value).value), Octets(ParseAddress(e.ip.value).value);
                  || q.a < r.a
                  || (q.a == r.a && (q.b < r.b || (q.b == r.b && (q.c < r.c || (q.c == r.c && q.d <= r.d))))))
    ensures var d, e := Listed(rows, wanted)[i], Listed(rows, wanted)[j];
            (if ValidIp(d) && ValidIp(e) then ParseAddress(d.ip.value) == ParseAddress(e.ip.value) else !ValidIp(d)) ==>
              !Less(HostName(e), HostName(d))
  {
    hide ParseAddress, Octets, Listed;
    var list := Listed(rows, wanted);
    ListIsSorted(rows, wanted);
    var d, e := list[i], list[j];
    assert NotAfter()(d, e);
    if ValidIp(d) && ValidIp(e) {
      var n, m := ParseAddress(d.ip.value).value, ParseAddress(e.ip.value).value;
      OctetsNumber(n);
      OctetsNumber(m);
      NumberOrder(Octets(m), Octets(n));
    }
  }

  lemma ListIsSorted(rows: seq<Device>, wanted: Device -> bool)
    ensures Sorted(NotAfter(), Listed(rows, wanted))
  {
    hide SortKey, KeyLess, NotAfter;
    NotAfterIsPreorder();
    SortSorts(NotAfter(), Filter(rows, wanted));
  }

  // ---------------------------------------------------------------------
  // The pages
  // ---------------------------------------------------------------------

  lemma {:induction false} JoinedIsPrefix(rows: seq<Device>, wanted: Device -> bool, pages: nat, size: nat)
    requires size >= 1
    ensures var list := Listed(rows, wanted);
            Joined(rows, wanted, pages, size) == list[..Min(pages * size, |list|)]
  {
    hide Listed;
    if pages > 0 {
      JoinedIsPrefix(rows, wanted, pages - 1, size);
      assert pages * size == (pages - 1) * size + size;
    }
  }

  /** On one snapshot, the pages 1, 2, 3, ... of any size together are the sorted
      list: every wanted device once, on exactly as many pages as it takes. */
  lemma PagesCoverOnce(rows: seq<Device>, wanted: Device -> bool, pages: nat, size: nat)
    requires size >= 1 && pages * size >= |Filter(rows, wanted)|
    ensures var all := Joined(rows, wanted, pages, size);
            && all == Listed(rows, wanted)
            && multiset(all) == multiset(Filter(rows, wanted))
            && forall d :: multiset(all)[d] == if d.deletedAt == None && wanted(d) then multiset(rows)[d] else 0
  {
    forall d ensures multiset(Listed(rows, wanted))[d] == if d.deletedAt == None && wanted(d) then multiset(rows)[d] else 0 {
      ListedTimes(rows, wanted, d);
    }
    JoinedIsPrefix(rows, wanted, pages, size);
    SortPermutes(NotAfter(), Filter(rows, wanted));
    var list := Listed(rows, wanted);
    assert list[..|list|] == list;
  }

  /** A page beyond the end is empty, and every page before the last is full. */
  lemma PageLengths(rows: seq<Device>, wanted: Device -> bool, page: nat, size: nat)
    requires page >= 1 && size >= 1
    ensures var n := |Filter(rows, wanted)|;
            && (page * size <= n ==> |ListDevices(rows, wanted, page, size)| == size)
            && ((page - 1) * size >= n ==> ListDevices(rows, wanted, page, size) == [])
  {
    SortPermutes(NotAfter(), Filter(rows, wanted));
    assert page * size == (page - 1) * size + size;
  }
}
