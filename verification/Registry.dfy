/**
 The manager's device table: a fixed number of slots searched from the front by device id or by
 address.
 */
module Registry {
  const MAXDEVICECOUNT := 100

  datatype Device = Device(ip: string, devId: string, group: string, desc: string, socket: nat, proxied: nat)

  datatype Slot = Hole | Taken(device: Device)

  /** The two fields the table is searched by. */
  datatype Column = DevId | Ip

  function KeyOf(d: Device, f: Column): (r: string) {
    if f.DevId? then d.devId else d.ip
  }

  predicate Match(s: Slot, f: Column, key: string) {
    s.Taken? && KeyOf(s.device, f) == key
  }

  /** The first slot that matches, or the table's length. */
  function Find(t: seq<Slot>, f: Column, key: string, from: nat := 0): (i: nat)
    requires from <= |t|
    ensures from <= i <= |t|
    ensures i < |t| ==> Match(t[i], f, key)
    ensures forall k :: from <= k < i ==> !Match(t[k], f, key)
    decreases |t| - from
  {
    if from == |t| || Match(t[from], f, key) then from else Find(t, f, key, from + 1)
  }

  function FirstHole(t: seq<Slot>, from: nat := 0): (i: nat)
    requires from <= |t|
    ensures from <= i <= |t|
    ensures i < |t| ==> t[i].Hole?
    ensures forall k :: from <= k < i ==> t[k].Taken?
    decreases |t| - from
  {
    if from == |t| || t[from].Hole? then from else FirstHole(t, from + 1)
  }

  // ---------- The operations ----------

  datatype Op = Register(device: Device) | Delete(ip: string) | Proxy(ip: string, on: bool)

  /** A known device id is replaced in its slot; a new one takes the first hole, or is dropped. */
  function Add(t: seq<Slot>, d: Device): (u: seq<Slot>)
    ensures |u| == |t|
  {
    var i := Find(t, DevId, d.devId);
    if i < |t| then t[i := Taken(d)]
    else if FirstHole(t) < |t| then t[FirstHole(t) := Taken(d)]
    else t
  }

  function Apply(t: seq<Slot>, op: Op): (u: seq<Slot>)
    ensures |u| == |t|
  {
    match op
    case Register(d) => Add(t, d)
    case Delete(ip) => var i := Find(t, Ip, ip); if i < |t| then t[i := Hole] else t
    case Proxy(ip, on) =>
      var i := Find(t, Ip, ip);
      if i < |t| then t[i := Taken(t[i].device.(proxied := if on then 1 else 0))] else t
  }

  function ApplyAll(t: seq<Slot>, ops: seq<Op>): (u: seq<Slot>)
    ensures |u| == |t|
    decreases |ops|
  {
    if ops == [] then t else ApplyAll(Apply(t, ops[0]), ops[1..])
  }

  // ---------- Invariants ----------

  /** No two slots hold the same device id. */
  ghost predicate Distinct(t: seq<Slot>) {
    forall i, j :: 0 <= i < j < |t| && t[i].Taken? && t[j].Taken? ==> t[i].device.devId != t[j].device.devId
  }

  ghost predicate Flagged(t: seq<Slot>) {
    forall i :: 0 <= i < |t| && t[i].Taken? ==> t[i].device.proxied <= 1
  }

  /** A new record is never proxied. */
  predicate Legal(op: Op) {
    op.Register? ==> op.device.proxied == 0
  }

  /** Operations change one slot at most, and only to a device whose id is in no other slot. */
  lemma OneSlot(t: seq<Slot>, op: Op) returns (i: nat)
    requires Distinct(t) && t != []
    ensures i < |t| && Apply(t, op) == t[i := Apply(t, op)[i]]
    ensures Distinct(Apply(t, op))
  {
    var u := Apply(t, op);
    match op
    case Register(d) =>
      i := Find(t, DevId, d.devId);
      if i == |t| {
        i := if FirstHole(t) < |t| then FirstHole(t) else 0;
      }
    case Delete(ip) =>
      i := if Find(t, Ip, ip) < |t| then Find(t, Ip, ip) else 0;
    case Proxy(ip, _) =>
      i := if Find(t, Ip, ip) < |t| then Find(t, Ip, ip) else 0;
  }

  predicate Absent(t: seq<Slot>, id: string) {
    forall k :: 0 <= k < |t| ==> !Match(t[k], DevId, id)
  }

  predicate FrontHole(t: seq<Slot>, j: int) {
    0 <= j < |t| && t[j].Hole? && forall k :: 0 <= k < j ==> t[k].Taken?
  }

  /** Where a registration goes: the slot that holds the device id; without one the hole with no hole
      in front of it; with neither it is dropped. */
  lemma RegisterSlot(t: seq<Slot>, d: Device)
    requires Distinct(t)
    ensures forall j :: 0 <= j < |t| && Match(t[j], DevId, d.devId) ==> Add(t, d) == t[j := Taken(d)]
    ensures Absent(t, d.devId) ==> forall j :: FrontHole(t, j) ==> Add(t, d) == t[j := Taken(d)]
    ensures Absent(t, d.devId) && (forall k :: 0 <= k < |t| ==> t[k].Taken?) ==> Add(t, d) == t
  {
    forall j | 0 <= j < |t| && Match(t[j], DevId, d.devId)
      ensures Find(t, DevId, d.devId) == j
    {
    }
    forall j | FrontHole(t, j)
      ensures FirstHole(t) == j
    {
    }
  }

  // ---------- Refinement of a bounded map ----------

  ghost function MapOf(t: seq<Slot>): (r: map<string, Device>)
    requires Distinct(t)
  {
    map i | 0 <= i < |t| && t[i].Taken? :: t[i].device.devId := t[i].device
  }

  lemma InMap(t: seq<Slot>, id: string)
    requires Distinct(t)
    ensures var i := Find(t, DevId, id);
            if i < |t| then id in MapOf(t) && MapOf(t)[id] == t[i].device else id !in MapOf(t)
  {
    var i := Find(t, DevId, id);
    if i < |t| {
      assert t[i].device.devId == id;
    }
  }

  lemma Taking(t: seq<Slot>, i: nat, d: Device)
    requires Distinct(t) && i < |t| && Distinct(t[i := Taken(d)])
    requires t[i].Hole? || t[i].device.devId == d.devId
    ensures MapOf(t[i := Taken(d)]) == MapOf(t)[d.devId := d]
  {
    var u := t[i := Taken(d)];
    var m, n := MapOf(u), MapOf(t)[d.devId := d];
    assert u[i].device.devId in m && m[d.devId] == d;
    forall id | id in n
      ensures id in m && m[id] == n[id]
    {
      if id != d.devId {
        var k :| 0 <= k < |t| && t[k].Taken? && t[k].device.devId == id;
        assert u[k] == t[k];
      }
    }
    forall id | id in m
      ensures id in n
    {
      var k :| 0 <= k < |u| && u[k].Taken? && u[k].device.devId == id;
      if k != i {
        assert t[k] == u[k];
      }
    }
  }

  lemma Freeing(t: seq<Slot>, i: nat)
    requires Distinct(t) && i < |t| && t[i].Taken? && Distinct(t[i := Hole])
    ensures MapOf(t[i := Hole]) == MapOf(t) - {t[i].device.devId}
  {
    var u := t[i := Hole];
    var m, n := MapOf(u), MapOf(t) - {t[i].device.devId};
    forall id | id in n
      ensures id in m && m[id] == n[id]
    {
      var k :| 0 <= k < |t| && t[k].Taken? && t[k].device.devId == id;
      assert u[k] == t[k];
    }
    forall id | id in m
      ensures id in n
    {
      var k :| 0 <= k < |u| && u[k].Taken? && u[k].device.devId == id;
      assert t[k] == u[k];
    }
  }

  lemma {:induction false} MapSize(t: seq<Slot>)
    requires Distinct(t)
    ensures |MapOf(t)| <= |t|
    ensures |MapOf(t)| < |t| <==> FirstHole(t) < |t|
  {
    if t == [] {
      assert MapOf(t) == map[];
    } else {
      hide MapOf;
      hide FirstHole;
      var s := t[..|t| - 1];
      MapSize(s);
      HoleInFront(t);
      LastSlot(t);
    }
  }

  /** What the last slot adds. */
  lemma LastSlot(t: seq<Slot>)
    requires t != [] && Distinct(t)
    ensures Distinct(t[..|t| - 1])
    ensures |MapOf(t)| == |MapOf(t[..|t| - 1])| + (if t[|t| - 1].Taken? then 1 else 0)
  {
    hide MapOf;
    var n := |t| - 1;
    var s := t[..n];
    var padded := s + [Hole];
    SameMap(s);
    assert t == padded[n := t[n]];
    if t[n].Taken? {
      var d := t[n].device;
      Taking(padded, n, d);
      InMap(s, d.devId);
      assert forall k :: 0 <= k < n && s[k].Taken? ==> t[k] == s[k] && s[k].device.devId != d.devId;
      assert d.devId !in MapOf(s);
      assert t == padded[n := Taken(d)];
      assert MapOf(t) == MapOf(s)[d.devId := d];
    } else {
      assert t == padded;
    }
  }

  lemma SameMap(s: seq<Slot>)
    requires Distinct(s)
    ensures Distinct(s + [Hole]) && MapOf(s + [Hole]) == MapOf(s)
  {
    var u := s + [Hole];
    forall id | id in MapOf(s)
      ensures id in MapOf(u) && MapOf(u)[id] == MapOf(s)[id]
    {
      var k :| 0 <= k < |s| && s[k].Taken? && s[k].device.devId == id;
      assert u[k] == s[k];
    }
    forall id | id in MapOf(u)
      ensures id in MapOf(s)
    {
      var k :| 0 <= k < |u| && u[k].Taken? && u[k].device.devId == id;
      assert s[k] == u[k];
    }
  }

  lemma HoleInFront(t: seq<Slot>)
    requires t != []
    ensures FirstHole(t) < |t| <==> FirstHole(t[..|t| - 1]) < |t| - 1 || t[|t| - 1].Hole?
  {
    var s := t[..|t| - 1];
    if FirstHole(s) < |s| {
      assert t[FirstHole(s)].Hole?;
    }
    if FirstHole(t) < |s| {
      assert s[FirstHole(t)].Hole?;
    }
  }

  /** The map operations. Deleting and flagging go by address and take one device that has it. */
  ghost predicate MapStep(m: map<string, Device>, op: Op, bound: nat, n: map<string, Device>) {
    match op
    case Register(d) => n == if d.devId in m || |m| < bound then m[d.devId := d] else m
    case Delete(ip) =>
      if forall id :: id in m ==> m[id].ip != ip then n == m
      else exists id :: id in m && m[id].ip == ip && n == m - {id}
    case Proxy(ip, on) =>
      if forall id :: id in m ==> m[id].ip != ip then n == m
      else exists id :: id in m && m[id].ip == ip && n == m[id := m[id].(proxied := if on then 1 else 0)]
  }

  lemma ByAddress(t: seq<Slot>, ip: string)
    requires Distinct(t)
    ensures (forall id :: id in MapOf(t) ==> MapOf(t)[id].ip != ip) <==> Find(t, Ip, ip) == |t|
    ensures var i := Find(t, Ip, ip);
            i < |t| ==> t[i].device.devId in MapOf(t) && MapOf(t)[t[i].device.devId] == t[i].device
  {
    var i := Find(t, Ip, ip);
    if i == |t| {
      forall id | id in MapOf(t)
        ensures MapOf(t)[id].ip != ip
      {
        var k :| 0 <= k < |t| && t[k].Taken? && t[k].device.devId == id;
      }
    } else {
      assert t[i].device.devId in MapOf(t);
    }
  }

  /** The table behaves as a map from device ids to devices that holds at most as many devices as
      there are slots. */
  lemma RefinesMap(t: seq<Slot>, op: Op)
    requires Distinct(t) && t != []
    ensures Distinct(Apply(t, op)) && MapStep(MapOf(t), op, |t|, MapOf(Apply(t, op)))
  {
    hide MapOf;
    var j := OneSlot(t, op);
    match op
    case Register(d) =>
      InMap(t, d.devId);
      MapSize(t);
      var i := Find(t, DevId, d.devId);
      if i < |t| {
        Taking(t, i, d);
      } else if FirstHole(t) < |t| {
        Taking(t, FirstHole(t), d);
      }
    case Delete(ip) =>
      ByAddress(t, ip);
      var i := Find(t, Ip, ip);
      if i < |t| {
        Freeing(t, i);
      }
    case Proxy(ip, on) =>
      ByAddress(t, ip);
      var i := Find(t, Ip, ip);
      if i < |t| {
        Taking(t, i, t[i].device.(proxied := if on then 1 else 0));
      }
  }

  /** Over every run the table follows a run of the map, device ids stay distinct and the proxy flag
      is 0 or 1. */
  lemma {:induction false} EveryRun(t: seq<Slot>, ops: seq<Op>) returns (maps: seq<map<string, Device>>)
    requires Distinct(t) && Flagged(t) && t != [] && forall k :: 0 <= k < |ops| ==> Legal(ops[k])
    ensures var u := ApplyAll(t, ops);
            && Distinct(u) && Flagged(u)
            && |maps| == |ops| + 1 && maps[0] == MapOf(t) && maps[|ops|] == MapOf(u)
            && (forall k :: 0 <= k < |ops| ==> MapStep(maps[k], ops[k], |t|, maps[k + 1]))
            && (forall k :: 0 <= k < |maps| ==> |maps[k]| <= |t|)
    decreases |ops|
  {
    hide MapOf;
    hide MapStep;
    MapSize(t);
    if ops == [] {
      maps := [MapOf(t)];
    } else {
      RefinesMap(t, ops[0]);
      var later := EveryRun(Apply(t, ops[0]), ops[1..]);
      maps := [MapOf(t)] + later;
    }
  }
}
