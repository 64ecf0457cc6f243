/**
 What each kind of package does to the device table and what is sent for it, slot by slot and in
 terms of the bytes and texts of the package.
 */
module Effects {
  import opened Package
  import Framer
  import opened Registry
  import opened Payload
  import opened Manager
  import C = IoTCommand
  import opened JsonTree

  /** "Master" and "0". */
  const MASTER_BYTES: seq<Byte> := [77, 97, 115, 116, 101, 114]
  const ZERO_BYTES: seq<Byte> := [48]

  // ---------- Slots ----------

  predicate HasIp(s: Slot, ip: string) {
    s.Taken? && s.device.ip == ip
  }

  predicate HasId(s: Slot, id: string) {
    s.Taken? && s.device.devId == id
  }

  /** Slot i is the first with this address. */
  predicate FirstAt(t: seq<Slot>, ip: string, i: nat) {
    i < |t| && HasIp(t[i], ip) && forall k :: 0 <= k < i ==> !HasIp(t[k], ip)
  }

  predicate NoneAt(t: seq<Slot>, ip: string) {
    forall k :: 0 <= k < |t| ==> !HasIp(t[k], ip)
  }

  /** The first slot with the address has this flag now; nothing else has changed. */
  ghost predicate Flags(t: seq<Slot>, u: seq<Slot>, ip: string, flag: nat) {
    && (forall i: nat :: FirstAt(t, ip, i) ==> u == t[i := Taken(t[i].device.(proxied := flag))])
    && (NoneAt(t, ip) ==> u == t)
  }

  /** The first slot with the address is empty now; nothing else has changed. */
  ghost predicate Empties(t: seq<Slot>, u: seq<Slot>, ip: string) {
    && (forall i: nat :: FirstAt(t, ip, i) ==> u == t[i := Hole])
    && (NoneAt(t, ip) ==> u == t)
  }

  /** The slot that holds the device id, or without one the front hole, holds the device now; nothing
      else has changed. */
  ghost predicate Stores(t: seq<Slot>, u: seq<Slot>, d: Device) {
    && (forall i: nat :: i < |t| && HasId(t[i], d.devId) ==> u == t[i := Taken(d)])
    && ((forall k :: 0 <= k < |t| ==> !HasId(t[k], d.devId)) ==>
          && (forall i: nat :: FrontHoleAt(t, i) ==> u == t[i := Taken(d)])
          && ((forall k :: 0 <= k < |t| ==> t[k].Taken?) ==> u == t))
  }

  /** Slot i is empty and no slot in front of it is. */
  predicate FrontHoleAt(t: seq<Slot>, i: nat) {
    i < |t| && t[i].Hole? && forall k :: 0 <= k < i ==> t[k].Taken?
  }

  lemma FindsFirst(t: seq<Slot>, ip: string)
    ensures forall i: nat :: FirstAt(t, ip, i) ==> Find(t, Ip, ip) == i
    ensures NoneAt(t, ip) ==> Find(t, Ip, ip) == |t|
  {
    var f := Find(t, Ip, ip);
    assert f < |t| ==> HasIp(t[f], ip);
    forall i: nat | FirstAt(t, ip, i)
      ensures f == i
    {
      assert i < f ==> !Match(t[i], Ip, ip);
    }
  }

  // ---------- Commands ----------

  /** A package to the manager whose data are this command. */
  ghost predicate Commands(a: Arrival, kind: C.Type, id: string, value: string) {
    Received(a.pkg) && a.pkg.des == MASTER_BYTES && ReadManagement(a.pkg.data) == Cmd(kind, id, value)
  }

  lemma Dispatched(p: Pkg)
    ensures p.des == MASTER_BYTES ==> Dispatch(p) == ForManager
    ensures p.des == ZERO_BYTES && p.sor == ZERO_BYTES <==> Dispatch(p) == IpRequest
    ensures p.des != MASTER_BYTES && !(p.des == ZERO_BYTES && p.sor == ZERO_BYTES) <==> Dispatch(p) == Forwarded
  {
    assert MASTER_BYTES[0] != ZERO_BYTES[0];
  }

  lemma CommandHandled(s: State, a: Arrival, id: string, value: string)
    requires Commands(a, C.Management, id, value) && !("Dis_" <= id)
    ensures Handle(s, a) == Reacts(s.(registry := ApplyAll(s.registry, CommandOps(id, value))), [])
  {
    hide ReadManagement;
    hide DeviceList;
    Dispatched(a.pkg);
  }

  /** Prx_Add sets the flag of the first device with the address, and changes nothing else; with no
      such device it changes nothing. */
  lemma ProxyAdded(s: State, a: Arrival, v: string) returns (u: seq<Slot>)
    requires Commands(a, C.Management, "Prx_Add", v)
    ensures Handle(s, a) == Reacts(State(u, s.issued), []) && Flags(s.registry, u, v, 1)
  {
    hide ReadManagement;
    hide Handle;
    hide Find;
    DiscoveryDiffers("Prx_Add");
    CommandHandled(s, a, "Prx_Add", v);
    u := Handle(s, a).state.registry;
    FindsFirst(s.registry, v);
    OneChange(s.registry, [Proxy(v, true)]);
  }

  /** Prx_Rmv clears it. */
  lemma ProxyRemoved(s: State, a: Arrival, v: string) returns (u: seq<Slot>)
    requires Commands(a, C.Management, "Prx_Rmv", v)
    ensures Handle(s, a) == Reacts(State(u, s.issued), []) && Flags(s.registry, u, v, 0)
  {
    hide ReadManagement;
    hide Handle;
    hide Find;
    DiscoveryDiffers("Prx_Rmv");
    CommandHandled(s, a, "Prx_Rmv", v);
    u := Handle(s, a).state.registry;
    FindsFirst(s.registry, v);
    OneChange(s.registry, [Proxy(v, false)]);
  }

  /** Del_Dev empties the first slot with the address. */
  lemma DeviceDeleted(s: State, a: Arrival, v: string) returns (u: seq<Slot>)
    requires Commands(a, C.Management, "Del_Dev", v)
    ensures Handle(s, a) == Reacts(State(u, s.issued), []) && Empties(s.registry, u, v)
  {
    hide ReadManagement;
    hide Handle;
    hide Find;
    DiscoveryDiffers("Del_Dev");
    CommandHandled(s, a, "Del_Dev", v);
    u := Handle(s, a).state.registry;
    FindsFirst(s.registry, v);
    OneChange(s.registry, [Delete(v)]);
  }

  /** Any other command that asks for no discovery, and any command of another type, does nothing. */
  lemma OtherCommands(s: State, a: Arrival, kind: C.Type, id: string, v: string)
    requires Commands(a, kind, id, v)
    requires kind != C.Management || (!("Dis_" <= id) && id !in {"Del_Dev", "Prx_Add", "Prx_Rmv"})
    ensures Handle(s, a) == Reacts(s, [])
  {
    hide ReadManagement;
    hide DeviceList;
    Dispatched(a.pkg);
  }

  /** Neither do data with another first key. */
  lemma OtherData(s: State, a: Arrival)
    requires Received(a.pkg) && a.pkg.des == MASTER_BYTES && ReadManagement(a.pkg.data) == Unknown
    ensures Handle(s, a) == Reacts(s, [])
  {
    hide ReadManagement;
    Dispatched(a.pkg);
  }

  // ---------- Discovery ----------

  /** Who is listed: all but the sender and the user interfaces, of the kind asked for. */
  lemma {:induction false} SelectedExact(t: seq<Slot>, sender: string, query: string, d: Device)
    ensures d in Selected(t, sender, query) <==>
              && Taken(d) in t && d.ip != sender && d.group != "UI"
              && (query == "Dis_Pxd" ==> d.proxied == 1) && (query == "Dis_NPx" ==> d.proxied == 0)
    decreases |t|
  {
    if t != [] {
      SelectedExact(t[1..], sender, query, d);
      assert Taken(d) in t <==> Taken(d) == t[0] || Taken(d) in t[1..];
    }
  }

  /** After Prx_Add the device is listed among the proxied ones, and none with its id among the others. */
  lemma ProxiedIsListed(s: State, a: Arrival, v: string, i: nat, sender: string) returns (u: seq<Slot>)
    requires Commands(a, C.Management, "Prx_Add", v) && FirstAt(s.registry, v, i) && Distinct(s.registry)
    requires sender != v && s.registry[i].device.group != "UI"
    ensures Handle(s, a) == Reacts(State(u, s.issued), [])
    ensures var d := s.registry[i].device;
            && d.(proxied := 1) in Selected(u, sender, "Dis_Pxd") && d.(proxied := 1) in Selected(u, sender, "Dis_All")
            && forall e :: e in Selected(u, sender, "Dis_NPx") ==> e.devId != d.devId
  {
    hide Handle;
    hide Commands;
    hide Selected;
    u := ProxyAdded(s, a, v);
    FlagListed(s.registry, u, i, 1, sender);
  }
  /** After Prx_Rmv it is the other way round. */
  lemma UnproxiedIsListed(s: State, a: Arrival, v: string, i: nat, sender: string) returns (u: seq<Slot>)
    requires Commands(a, C.Management, "Prx_Rmv", v) && FirstAt(s.registry, v, i) && Distinct(s.registry)
    requires sender != v && s.registry[i].device.group != "UI"
    ensures Handle(s, a) == Reacts(State(u, s.issued), [])
    ensures var d := s.registry[i].device;
            && d.(proxied := 0) in Selected(u, sender, "Dis_NPx") && d.(proxied := 0) in Selected(u, sender, "Dis_All")
            && forall e :: e in Selected(u, sender, "Dis_Pxd") ==> e.devId != d.devId
  {
    hide Handle;
    hide Commands;
    hide Selected;
    u := ProxyRemoved(s, a, v);
    FlagListed(s.registry, u, i, 0, sender);
  }
  lemma FlagListed(t: seq<Slot>, u: seq<Slot>, i: nat, flag: nat, sender: string)
    requires i < |t| && t[i].Taken? && flag <= 1 && Distinct(t) && u == t[i := Taken(t[i].device.(proxied := flag))]
    requires t[i].device.ip != sender && t[i].device.group != "UI"
    ensures var d := t[i].device;
            && d.(proxied := flag) in Selected(u, sender, "Dis_All")
            && d.(proxied := flag) in Selected(u, sender, if flag == 1 then "Dis_Pxd" else "Dis_NPx")
            && forall e :: e in Selected(u, sender, if flag == 1 then "Dis_NPx" else "Dis_Pxd") ==> e.devId != d.devId
  {
    hide Selected;
    var d := t[i].device.(proxied := flag);
    assert u[i] == Taken(d);
    SelectedExact(u, sender, "Dis_All", d);
    SelectedExact(u, sender, "Dis_Pxd", d);
    SelectedExact(u, sender, "Dis_NPx", d);
    var other := if flag == 1 then "Dis_NPx" else "Dis_Pxd";
    forall e | e in Selected(u, sender, other)
      ensures e.devId != d.devId
    {
      SelectedExact(u, sender, other, e);
      var k :| 0 <= k < |u| && u[k] == Taken(e);
      assert k != i && t[k] == u[k];
    }
  }

  /** A discovery of an unknown kind is answered by an empty list. */
  lemma UnknownDiscovery(s: State, a: Arrival, id: string, v: string)
    requires Commands(a, C.Management, id, v) && "Dis_" <= id && id !in {"Dis_All", "Dis_Pxd", "Dis_NPx"}
    requires |a.pkg.sor| < 15
    ensures Handle(s, a) == Reacts(s, [Send(a.socket, Encoding(Create(MASTER_BYTES, a.pkg.sor, [])))])
  {
    hide ReadManagement;
    hide Encoding;
    Dispatched(a.pkg);
    NothingListed(s.registry, Chars(a.pkg.sor), id, []);
    ShortReply(MASTER_BYTES, a.pkg.sor, []);
  }

  // ---------- Registrations ----------

  /** A package to the manager whose data are this registration. */
  ghost predicate Registers(a: Arrival, id: string, group: string, desc: string) {
    Received(a.pkg) && a.pkg.des == MASTER_BYTES && ReadManagement(a.pkg.data) == Record(id, group, desc)
  }

  /** It is stored under the sender's address, as the document says and with the client slot the
      package came from: in the slot that holds the device id, without one in the front hole; with all
      slots taken it is dropped. Nothing is sent. */
  lemma RegistrationStored(s: State, a: Arrival, id: string, group: string, desc: string) returns (u: seq<Slot>)
    requires Registers(a, id, group, desc) && Distinct(s.registry)
    ensures Handle(s, a) == Reacts(State(u, s.issued), [])
    ensures Stores(s.registry, u, Device(Chars(a.pkg.sor), id, group, desc, a.socket, 0))
  {
    hide ReadManagement;
    hide Add;
    var t, d := s.registry, Device(Chars(a.pkg.sor), id, group, desc, a.socket, 0);
    Dispatched(a.pkg);
    OneChange(t, [Register(d)]);
    RegisterSlot(t, d);
    SameSlots(t, id);
    u := Add(t, d);
  }

  lemma SameSlots(t: seq<Slot>, id: string)
    ensures forall i :: 0 <= i < |t| ==> (HasId(t[i], id) <==> Match(t[i], DevId, id))
    ensures (forall k :: 0 <= k < |t| ==> !HasId(t[k], id)) <==> Absent(t, id)
    ensures forall i: nat :: FrontHoleAt(t, i) <==> FrontHole(t, i)
  {
  }

  /** There is a slot for the registration: one that holds the device id, or an empty one. */
  predicate HasSlot(t: seq<Slot>, id: string) {
    exists i :: 0 <= i < |t| && (HasId(t[i], id) || t[i].Hole?)
  }

  lemma StoredSlot(t: seq<Slot>, u: seq<Slot>, d: Device) returns (i: nat)
    requires Stores(t, u, d) && HasSlot(t, d.devId)
    ensures i < |t| && u == t[i := Taken(d)]
    ensures HasId(t[i], d.devId) || (t[i].Hole? && forall k :: 0 <= k < |t| ==> !HasId(t[k], d.devId))
  {
    if k :| 0 <= k < |t| && HasId(t[k], d.devId) {
      i := k;
    } else {
      i := FirstHole(t);
      assert FrontHoleAt(t, i);
    }
  }

  /** From a registration to its packages: if no other device holds the sender's address, the next
      package for that address goes, byte for byte, to the client slot the registration came from. */
  lemma RegisteredIsReached(s: State, a: Arrival, id: string, group: string, desc: string, b: Arrival)
    requires Registers(a, id, group, desc) && Distinct(s.registry) && HasSlot(s.registry, id)
    requires forall k :: 0 <= k < |s.registry| && HasIp(s.registry[k], Chars(a.pkg.sor)) ==> HasId(s.registry[k], id)
    requires Received(b.pkg) && b.pkg.des == a.pkg.sor && b.pkg.des != MASTER_BYTES
    requires !(b.pkg.des == ZERO_BYTES && b.pkg.sor == ZERO_BYTES) && |Encoding(b.pkg)| <= 1024
    ensures Handle(s, a).Reacts?
    ensures var next := Handle(s, a).state; Handle(next, b) == Reacts(next, [Send(a.socket, Encoding(b.pkg))])
  {
    hide Registers;
    hide Encoding;
    hide HandleManagement;
    hide HandleIpRequest;
    var d := Device(Chars(a.pkg.sor), id, group, desc, a.socket, 0);
    var u := RegistrationStored(s, a, id, group, desc);
    var i := StoredSlot(s.registry, u, d);
    Dispatched(b.pkg);
    OnlyThere(s.registry, i, d);
  }

  lemma OnlyThere(t: seq<Slot>, i: nat, d: Device)
    requires i < |t| && Distinct(t) && (HasId(t[i], d.devId) || t[i].Hole?)
    requires HasId(t[i], d.devId) || forall k :: 0 <= k < |t| ==> !HasId(t[k], d.devId)
    requires forall k :: 0 <= k < |t| && HasIp(t[k], d.ip) ==> HasId(t[k], d.devId)
    ensures var u := t[i := Taken(d)]; Find(u, Ip, d.ip) == i && u[i].device == d
  {
    var u := t[i := Taken(d)];
    forall k | 0 <= k < i
      ensures !HasIp(u[k], d.ip)
    {
      assert u[k] == t[k];
    }
    assert FirstAt(u, d.ip, i);
    FindsFirst(u, d.ip);
  }

  // ---------- Addresses and forwarding ----------

  /** A request for an address is answered by one package to the asking slot: from Master, to DEV. and
      the count so far, with 0 for data. The count goes up. From the hundred and first on the source
      writes past its suffix. */
  lemma AddressAnswered(s: State, a: Arrival, t: seq<Byte>)
    requires Received(a.pkg) && a.pkg.des == ZERO_BYTES && a.pkg.sor == ZERO_BYTES
    ensures s.issued >= 100 <==> Handle(s, a) == Broken
    ensures s.issued < 100 ==>
              var r := Handle(s, a);
              && r.state == s.(issued := s.issued + 1) && |r.sends| == 1 && r.sends[0].socket == a.socket
              && var (o, rest) := Next(r.sends[0].bytes + t);
                 && o.Completed? && rest == t && o.pkg.sor == MASTER_BYTES && o.pkg.data == ZERO_BYTES
                 && o.pkg.des == [68, 69, 86, 46] + Decimal(s.issued)
  {
    hide Next;
    hide Encoding;
    Dispatched(a.pkg);
    if s.issued < 100 {
      var p := Create(MASTER_BYTES, [68, 69, 86, 46] + Decimal(s.issued), ZERO_BYTES);
      DecimalLength(s.issued);
      assert WellFormed(p);
      Framer.NextOfEncoding(p, t);
    }
  }

  /** Every other package goes, byte for byte, to the client slot of the first device with its
      destination address; without one a package goes back to the client it came from. */
  lemma OthersForwarded(s: State, a: Arrival)
    requires Received(a.pkg) && a.pkg.des != MASTER_BYTES && !(a.pkg.des == ZERO_BYTES && a.pkg.sor == ZERO_BYTES)
    ensures forall i: nat :: FirstAt(s.registry, Chars(a.pkg.des), i) && |Encoding(a.pkg)| <= 1024 ==>
              Handle(s, a) == Reacts(s, [Send(s.registry[i].device.socket, Encoding(a.pkg))])
    ensures NoneAt(s.registry, Chars(a.pkg.des)) && |a.pkg.des| < 10 ==>
              Handle(s, a) == Reacts(s, [Send(a.socket, Encoding(Create(MASTER_BYTES, a.pkg.sor, CommandData(C.Management, "Del_Dev", Chars(a.pkg.des)))))])
  {
    hide Encoding;
    hide CommandData;
    Dispatched(a.pkg);
    FindsFirst(s.registry, Chars(a.pkg.des));
  }

  // ---------- Start and replies ----------

  /** The manager starts with a hundred empty slots and no address handed out. */
  lemma StartsEmpty()
    ensures Init().issued == 0 && |Init().registry| == 100 && forall i :: 0 <= i < 100 ==> Init().registry[i] == Hole
  {
  }

  /** A discovery whose reply has at most 4096 bytes is answered, and changes nothing. */
  lemma DiscoveryAnswered(s: State, a: Arrival, id: string, v: string)
    requires Commands(a, C.Management, id, v) && "Dis_" <= id
    requires |Encoding(Create(MASTER_BYTES, a.pkg.sor, DeviceList(s.registry, Chars(a.pkg.sor), id)))| <= 4096
    ensures Handle(s, a) == Reacts(s, [Send(a.socket, Encoding(Create(MASTER_BYTES, a.pkg.sor, DeviceList(s.registry, Chars(a.pkg.sor), id))))])
  {
    hide ReadManagement;
    hide Encoding;
    hide DeviceList;
    Dispatched(a.pkg);
  }
}
