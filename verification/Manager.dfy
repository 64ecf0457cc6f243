/**
 The manager: it issues addresses, keeps the device table, answers management packages and forwards
 all others. A run is a sequence of completed packages, each with the client slot it came from.
 */
module Manager {
  import opened Package
  import Framer
  import Jsmn
  import JsonFile
  import opened Registry
  import opened Payload
  import C = IoTCommand
  import opened JsonTree

  const MASTER: seq<Byte> := [77, 97, 115, 116, 101, 114]
  const PREFIX: seq<Byte> := [68, 69, 86, 46] // DEV.
  const NO_ADDRESS: seq<Byte> := [48]
  const MAXADDRESSES := 100
  const MAXPACKETSIZE := 1024
  const MAX_DEVICE_LIST_BUF := 4096

  /** `issued` counts the addresses handed out. */
  datatype State = State(registry: seq<Slot>, issued: nat)

  /** Bytes sent to a client slot. */
  datatype Send = Send(socket: nat, bytes: seq<Byte>)

  /** What handling a package does. `Broken` marks packages on which the source reads unset memory
      or writes past a buffer: those with `Unreadable` data, a hundred and first address, and a
      destination, a package or a device list too long for the buffer it is sent from. */
  datatype Reaction = Reacts(state: State, sends: seq<Send>) | Broken

  datatype Arrival = Arrival(socket: nat, pkg: Pkg)

  function Init(): (r: State) {
    State(seq(Registry.MAXDEVICECOUNT, _ => Hole), 0)
  }

  function IssuedAddress(n: nat): (r: seq<Byte>) {
    PREFIX + Decimal(n)
  }

  /** A package that came off a receive buffer. */
  predicate Received(p: Pkg) {
    p.headerLength >= 0 && p.dataLength == |p.data| && NoZero(p.sor) && NoZero(p.des)
  }

  lemma CompletedIsReceived(s: seq<Byte>)
    requires Next(s).0.Completed?
    ensures Received(Next(s).0.pkg)
  {
    hide HasFields;
    hide Check;
  }

  lemma {:induction false} DrainedAreReceived(s: seq<Byte>)
    ensures forall p :: p in Framer.Drain(s).pkgs ==> Received(p)
    decreases |s|
  {
    hide Next;
    hide Received;
    if Next(s).0.Completed? {
      Framer.NextAppend(s, []);
      CompletedIsReceived(s);
      DrainedAreReceived(Next(s).1);
    }
  }

  /** Whatever bytes a client sends, in whatever chunks, what the receive loop delivers is what the
      handlers expect. */
  lemma {:induction false} DeliveredAreReceived(buf: seq<Byte>, chunks: seq<seq<Byte>>)
    ensures forall p :: p in Framer.Run(buf, chunks).pkgs ==> Received(p)
    decreases |chunks|
  {
    hide Framer.Drain;
    hide Received;
    if chunks != [] {
      DrainedAreReceived(buf + chunks[0]);
      DrainedAreReceived([]);
      DeliveredAreReceived(Framer.Receive(buf, chunks[0]).rest, chunks[1..]);
    }
  }

  // ---------- The handlers ----------

  function HandleIpRequest(s: State, socket: nat): (r: Reaction) {
    if s.issued >= MAXADDRESSES then Broken
    else Reacts(s.(issued := s.issued + 1),
                [Send(socket, Encoding(Create(MASTER, IssuedAddress(s.issued), NO_ADDRESS)))])
  }

  /** The answer to a package for an address nobody registered. */
  function Unregistered(p: Pkg): (r: Pkg) {
    Create(MASTER, p.sor, CommandData(C.Management, "Del_Dev", Chars(p.des)))
  }

  function HandleForwarding(s: State, socket: nat, p: Pkg): (r: Reaction)
    requires Received(p)
  {
    var i := Find(s.registry, Ip, Chars(p.des));
    if i == |s.registry| then
      if |p.des| >= C.COMMAND_CHAR_SIZE then Broken
      else Reacts(s, [Send(socket, Encoding(Unregistered(p)))])
    else if |Encoding(p)| > MAXPACKETSIZE then Broken
    else Reacts(s, [Send(s.registry[i].device.socket, Encoding(p))])
  }

  /** The change a management package makes to the table, if any. */
  ghost function OpOf(a: Arrival): (r: seq<Op>) {
    match ReadManagement(a.pkg.data)
    case Record(id, group, desc) => [Register(Device(Chars(a.pkg.sor), id, group, desc, a.socket, 0))]
    case Cmd(kind, id, value) => if kind.Management? then CommandOps(id, value) else []
    case _ => []
  }

  function CommandOps(id: string, value: string): (r: seq<Op>) {
    if id == "Del_Dev" then [Delete(value)]
    else if id == "Prx_Add" then [Proxy(value, true)]
    else if id == "Prx_Rmv" then [Proxy(value, false)]
    else []
  }

  predicate Listed(s: Slot, sender: string, query: string) {
    && s.Taken? && s.device.ip != sender && s.device.group != "UI"
    && (query == "Dis_Pxd" ==> s.device.proxied == 1)
    && (query == "Dis_NPx" ==> s.device.proxied == 0)
  }

  /** The device list of a discovery reply: address and description of every device but the sender and
      the user interfaces, each ended by a NUL. An unknown query lists nothing. */
  function DeviceList(t: seq<Slot>, sender: string, query: string): (r: seq<Byte>) {
    if t == [] || query !in {"Dis_All", "Dis_Pxd", "Dis_NPx"} then []
    else (if Listed(t[0], sender, query) then Bytes(t[0].device.ip) + [0] + Bytes(t[0].device.desc) + [0] else [])
         + DeviceList(t[1..], sender, query)
  }

  ghost function HandleManagement(s: State, a: Arrival): (r: Reaction) {
    match ReadManagement(a.pkg.data)
    case Unreadable => Broken
    case Cmd(kind, id, _) =>
      if kind.Management? && "Dis_" <= id then
        var reply := Create(MASTER, a.pkg.sor, DeviceList(s.registry, Chars(a.pkg.sor), id));
        if |Encoding(reply)| > MAX_DEVICE_LIST_BUF then Broken
        else Reacts(s, [Send(a.socket, Encoding(reply))])
      else Reacts(s.(registry := ApplyAll(s.registry, OpOf(a))), [])
    case _ => Reacts(s.(registry := ApplyAll(s.registry, OpOf(a))), [])
  }

  datatype Route = IpRequest | ForManager | Forwarded

  function Dispatch(p: Pkg): (r: Route) {
    if p.des == NO_ADDRESS && p.sor == NO_ADDRESS then IpRequest
    else if p.des == MASTER then ForManager
    else Forwarded
  }

  ghost function Handle(s: State, a: Arrival): (r: Reaction)
    requires Received(a.pkg)
  {
    match Dispatch(a.pkg)
    case IpRequest => HandleIpRequest(s, a.socket)
    case ForManager => HandleManagement(s, a)
    case Forwarded => HandleForwarding(s, a.socket, a.pkg)
  }

  /** Data that do not tokenize are handled all the same: unless reading their first name leaves the
      tokens or fails as a registration, nothing changes and nothing is sent. */
  lemma UntokenizedIsIgnored(s: State, a: Arrival)
    requires !Jsmn.Run(Content(a.pkg.data), JsonFile.MAX_TOKENS, Jsmn.START).0.Count?
    ensures OpOf(a) == []
    ensures ReadManagement(a.pkg.data) != Unreadable ==> HandleManagement(s, a) == Reacts(s, [])
  {
    hide ReadManagement;
    UntokenizedIsNothing(a.pkg.data);
  }

  /** In particular a command cut short, and any other first name but that of a registration. */
  lemma CutShortIsIgnored(s: State, a: Arrival, before: string, gap: string, name: string, rest: string, junk: seq<Byte>)
    requires Spaces(before) && Spaces(gap) && StringOk(name) && |name| < TEMP_STR_LEN && name != "IOTDEV"
    requires var text := Opening(before, gap, name) + rest;
             && Plain(text) && |text| + 1 + |junk| <= JsonFile.MAX_CONTENT
             && !Jsmn.Run(text, JsonFile.MAX_TOKENS, Jsmn.START).0.Count?
             && a.pkg.data == Bytes(text) + [0] + junk
    ensures HandleManagement(s, a) == Reacts(s, [])
  {
    hide ReadManagement;
    BrokenByName(before, gap, name, rest, junk);
  }

  // ---------- Runs ----------

  ghost predicate Runs(s: State, run: seq<Arrival>)
    decreases |run|
  {
    run == [] || (Received(run[0].pkg) && Handle(s, run[0]).Reacts? && Runs(Handle(s, run[0]).state, run[1..]))
  }

  ghost function Run(s: State, run: seq<Arrival>): (r: State)
    requires Runs(s, run)
    decreases |run|
  {
    if run == [] then s else Run(Handle(s, run[0]).state, run[1..])
  }

  /** Table changes of an arrival. */
  ghost function Changes(a: Arrival): (r: seq<Op>) {
    if Dispatch(a.pkg).ForManager? then OpOf(a) else []
  }

  lemma HandleChanges(s: State, a: Arrival)
    requires Received(a.pkg) && Handle(s, a).Reacts?
    ensures Handle(s, a).state.registry == ApplyAll(s.registry, Changes(a))
    ensures Handle(s, a).state.issued == s.issued + (if Dispatch(a.pkg).IpRequest? then 1 else 0)
    ensures |Changes(a)| <= 1 && forall op :: op in Changes(a) ==> Legal(op)
  {
    hide ReadManagement;
    hide DeviceList;
    hide Encoding;
    match ReadManagement(a.pkg.data)
    case Cmd(_, id, _) => DiscoveryDiffers(id);
    case _ =>
  }

  lemma DiscoveryDiffers(id: string)
    ensures "Dis_" <= id ==> id != "Del_Dev" && id != "Prx_Add" && id != "Prx_Rmv"
  {
    assert "Dis_"[1] == 'i';
    assert "Del_Dev"[1] == 'e' && "Prx_Add"[1] == 'r' && "Prx_Rmv"[1] == 'r';
  }

  /** The table changes of a run, in order. */
  ghost function AllChanges(run: seq<Arrival>): (r: seq<Op>)
    decreases |run|
  {
    if run == [] then [] else Changes(run[0]) + AllChanges(run[1..])
  }

  lemma {:induction false} ApplyAppend(t: seq<Slot>, x: seq<Op>, y: seq<Op>)
    ensures ApplyAll(t, x + y) == ApplyAll(ApplyAll(t, x), y)
    decreases |x|
  {
    if x == [] {
      assert x + y == y;
    } else {
      assert (x + y)[1..] == x[1..] + y;
      ApplyAppend(Apply(t, x[0]), x[1..], y);
    }
  }

  lemma {:induction false} RunChanges(s: State, run: seq<Arrival>)
    requires Runs(s, run)
    ensures Run(s, run).registry == ApplyAll(s.registry, AllChanges(run))
    ensures forall op :: op in AllChanges(run) ==> Legal(op)
    decreases |run|
  {
    hide Handle;
    hide Changes;
    hide Apply;
    if run != [] {
      HandleChanges(s, run[0]);
      RunChanges(Handle(s, run[0]).state, run[1..]);
      ApplyAppend(s.registry, Changes(run[0]), AllChanges(run[1..]));
    }
  }

  /** Over every run of packages, data that do not tokenize included, the device table follows a run of a map that
      holds at most 100 devices, device ids stay distinct and the proxy flags are 0 or 1. */
  lemma RegistryOverRuns(run: seq<Arrival>) returns (maps: seq<map<string, Device>>)
    requires Runs(Init(), run)
    ensures var t, ops := Run(Init(), run).registry, AllChanges(run);
            && |t| == Registry.MAXDEVICECOUNT && Distinct(t) && Flagged(t)
            && |maps| == |ops| + 1 && maps[0] == map[] && maps[|ops|] == MapOf(t)
            && (forall k :: 0 <= k < |ops| ==> MapStep(maps[k], ops[k], Registry.MAXDEVICECOUNT, maps[k + 1]))
            && (forall k :: 0 <= k < |maps| ==> |maps[k]| <= Registry.MAXDEVICECOUNT)
  {
    hide Run;
    hide Runs;
    hide MapStep;
    hide ApplyAll;
    hide AllChanges;
    RunChanges(Init(), run);
    maps := EveryRun(Init().registry, AllChanges(run));
    assert MapOf(Init().registry) == map[];
  }

  // ---------- Addresses ----------

  lemma IssuedDiffer(i: nat, j: nat)
    requires i != j
    ensures IssuedAddress(i) != IssuedAddress(j) && Chars(IssuedAddress(i)) != Chars(IssuedAddress(j))
  {
    if IssuedAddress(i) == IssuedAddress(j) {
      assert IssuedAddress(i)[4..] == Decimal(i) && IssuedAddress(j)[4..] == Decimal(j);
      AtoiDecimal(i);
      AtoiDecimal(j);
    }
    if Chars(IssuedAddress(i)) == Chars(IssuedAddress(j)) {
      CharsInjective(IssuedAddress(i), IssuedAddress(j));
    }
  }

  /** The client slots that asked for an address. */
  function Requesters(run: seq<Arrival>): (r: seq<nat>)
    decreases |run|
  {
    if run == [] then []
    else (if Dispatch(run[0].pkg).IpRequest? then [run[0].socket] else []) + Requesters(run[1..])
  }

  /** What is read from the answers to the address requests of a run: who gets which address. */
  ghost function Given(s: State, run: seq<Arrival>): (r: seq<(nat, seq<Byte>)>)
    requires Runs(s, run)
    decreases |run|
  {
    if run == [] then []
    else
      var r := Handle(s, run[0]);
      (if Dispatch(run[0].pkg).IpRequest? then ReadAddress(r.sends) else []) + Given(r.state, run[1..])
  }

  function ReadAddress(sends: seq<Send>): (r: seq<(nat, seq<Byte>)>) {
    if |sends| != 1 then []
    else match Next(sends[0].bytes).0
      case Completed(p) => [(sends[0].socket, p.des)]
      case _ => []
  }

  lemma RequestAnswered(s: State, socket: nat)
    requires s.issued < MAXADDRESSES
    ensures ReadAddress(HandleIpRequest(s, socket).sends) == [(socket, IssuedAddress(s.issued))]
  {
    hide Next;
    hide Encoding;
    var p := Create(MASTER, IssuedAddress(s.issued), NO_ADDRESS);
    DecimalLength(s.issued);
    assert WellFormed(p);
    Framer.NextOfEncoding(p, []);
    assert Encoding(p) + [] == Encoding(p);
  }

  /** One address after the other, from the n-th on, for these client slots. */
  function InTurn(sockets: seq<nat>, n: nat): (r: seq<(nat, seq<Byte>)>)
    ensures |r| == |sockets|
    decreases |sockets|
  {
    if sockets == [] then [] else [(sockets[0], IssuedAddress(n))] + InTurn(sockets[1..], n + 1)
  }

  lemma {:induction false} InTurnAt(sockets: seq<nat>, n: nat, k: nat)
    requires k < |sockets|
    ensures InTurn(sockets, n)[k] == (sockets[k], IssuedAddress(n + k))
    decreases |sockets|
  {
    if k > 0 {
      InTurnAt(sockets[1..], n + 1, k - 1);
    }
  }

  lemma {:induction false} GivenInTurn(s: State, run: seq<Arrival>)
    requires Runs(s, run)
    ensures Run(s, run).issued == s.issued + |Requesters(run)|
    ensures Given(s, run) == InTurn(Requesters(run), s.issued)
    decreases |run|
  {
    hide *;
    if run == [] {
      GivenNothing(s, run);
    } else {
      GivenStep(s, run);
      var next := Handle(s, run[0]).state;
      GivenInTurn(next, run[1..]);
      FirstInTurn(run[0].socket, Requesters(run[1..]), s.issued);
    }
  }

  lemma GivenNothing(s: State, run: seq<Arrival>)
    requires run == [] && Runs(s, run)
    ensures Run(s, run) == s && Requesters(run) == [] && Given(s, run) == InTurn([], s.issued) == []
  {
  }

  lemma FirstInTurn(socket: nat, sockets: seq<nat>, n: nat)
    ensures InTurn([socket] + sockets, n) == [(socket, IssuedAddress(n))] + InTurn(sockets, n + 1)
    ensures |[socket] + sockets| == 1 + |sockets|
  {
    assert ([socket] + sockets)[1..] == sockets;
  }

  lemma GivenStep(s: State, run: seq<Arrival>)
    requires Runs(s, run) && run != []
    ensures Received(run[0].pkg) && Handle(s, run[0]).Reacts? && Runs(Handle(s, run[0]).state, run[1..])
    ensures var next := Handle(s, run[0]).state;
            && Run(s, run) == Run(next, run[1..])
            && if Dispatch(run[0].pkg).IpRequest? then
                 && next.issued == s.issued + 1 && Requesters(run) == [run[0].socket] + Requesters(run[1..])
                 && Given(s, run) == [(run[0].socket, IssuedAddress(s.issued))] + Given(next, run[1..])
               else
                 && next.issued == s.issued && Requesters(run) == Requesters(run[1..])
                 && Given(s, run) == Given(next, run[1..])
  {
    hide Handle;
    hide ReadAddress;
    hide IssuedAddress;
    hide Changes;
    hide Dispatch;
    HandleChanges(s, run[0]);
    RequestIsAnswered(s, run[0]);
    var next := Handle(s, run[0]).state;
    assert [] + Given(next, run[1..]) == Given(next, run[1..]);
    assert [] + Requesters(run[1..]) == Requesters(run[1..]);
  }

  lemma RequestIsAnswered(s: State, a: Arrival)
    requires Received(a.pkg) && Handle(s, a).Reacts?
    ensures Dispatch(a.pkg).IpRequest? ==> ReadAddress(Handle(s, a).sends) == [(a.socket, IssuedAddress(s.issued))]
  {
    hide ReadAddress;
    if Dispatch(a.pkg).IpRequest? {
      RequestAnswered(s, a.socket);
    }
  }

  /** Over every run each address request is answered, in turn, to the client slot that asked; the
      n-th answer carries the n-th address, and no two are alike. */
  lemma AddressesOverRuns(run: seq<Arrival>)
    requires Runs(Init(), run)
    ensures var given, asked := Given(Init(), run), Requesters(run);
            && |given| == |asked| == Run(Init(), run).issued
            && (forall k :: 0 <= k < |given| ==> given[k] == (asked[k], IssuedAddress(k)))
            && (forall i, j :: 0 <= i < j < |given| ==> given[i].1 != given[j].1)
  {
    hide Given;
    hide Runs;
    hide Run;
    hide Requesters;
    hide IssuedAddress;
    GivenInTurn(Init(), run);
    var given, asked := Given(Init(), run), Requesters(run);
    forall k | 0 <= k < |given|
      ensures given[k] == (asked[k], IssuedAddress(k))
    {
      InTurnAt(asked, 0, k);
    }
    forall i, j | 0 <= i < j < |given|
      ensures given[i].1 != given[j].1
    {
      IssuedDiffer(i, j);
    }
  }

  // ---------- Routing ----------

  ghost predicate UniqueIps(t: seq<Slot>) {
    forall i, j :: 0 <= i < j < |t| && t[i].Taken? && t[j].Taken? ==> t[i].device.ip != t[j].device.ip
  }

  /** Looking its address up leads to every registered device. */
  ghost predicate AllReached(t: seq<Slot>) {
    forall j :: 0 <= j < |t| && t[j].Taken? ==> Find(t, Ip, t[j].device.ip) == j
  }

  /** No other device holds the address. */
  predicate FreeFor(t: seq<Slot>, d: Device) {
    forall j :: 0 <= j < |t| && t[j].Taken? && t[j].device.ip == d.ip ==> t[j].device.devId == d.devId
  }

  /** A registration that is not dropped. */
  predicate Stored(t: seq<Slot>, d: Device) {
    Find(t, DevId, d.devId) < |t| || FirstHole(t) < |t|
  }

  lemma ReachedIsUnique(t: seq<Slot>)
    ensures AllReached(t) <==> UniqueIps(t)
  {
    if AllReached(t) {
      forall i, j | 0 <= i < j < |t| && t[i].Taken? && t[j].Taken?
        ensures t[i].device.ip != t[j].device.ip
      {
        assert Find(t, Ip, t[i].device.ip) == i && Find(t, Ip, t[j].device.ip) == j;
      }
    }
    if UniqueIps(t) {
      forall j | 0 <= j < |t| && t[j].Taken?
        ensures Find(t, Ip, t[j].device.ip) == j
      {
        var i := Find(t, Ip, t[j].device.ip);
        assert Match(t[j], Ip, t[j].device.ip);
      }
    }
  }

  /** A registration keeps the addresses apart if and only if it is dropped or no other device holds
      its address. */
  lemma AddKeepsUnique(t: seq<Slot>, d: Device)
    requires Distinct(t) && UniqueIps(t)
    ensures UniqueIps(Add(t, d)) <==> !Stored(t, d) || FreeFor(t, d)
  {
    var u := Add(t, d);
    if Stored(t, d) {
      var i := if Find(t, DevId, d.devId) < |t| then Find(t, DevId, d.devId) else FirstHole(t);
      assert u == t[i := Taken(d)];
      if UniqueIps(u) {
        forall j | 0 <= j < |t| && j != i
          ensures t[j].Taken? ==> t[j].device.ip != d.ip
        {
          assert u[j] == t[j] && u[i] == Taken(d);
        }
      }
      if FreeFor(t, d) {
        forall j | 0 <= j < |t| && j != i
          ensures t[j].Taken? ==> t[j].device.ip != d.ip
        {
          OtherSlot(t, d, i, j);
        }
        assert UniqueIps(u);
      }
    }
  }

  lemma OtherSlot(t: seq<Slot>, d: Device, i: nat, j: nat)
    requires Distinct(t) && i < |t| && j < |t| && j != i && FreeFor(t, d)
    requires i == if Find(t, DevId, d.devId) < |t| then Find(t, DevId, d.devId) else FirstHole(t)
    ensures t[j].Taken? ==> t[j].device.ip != d.ip
  {
    assert t[j].Taken? && t[j].device.ip == d.ip ==> Match(t[j], DevId, d.devId);
  }

  lemma OthersKeepUnique(t: seq<Slot>, op: Op)
    requires UniqueIps(t) && !op.Register?
    ensures UniqueIps(Apply(t, op))
  {
  }

  /** Every registration that is stored has an address no other device holds at that moment. */
  ghost predicate Fresh(s: State, run: seq<Arrival>)
    requires Runs(s, run)
    decreases |run|
  {
    run == [] || (
      var a := run[0];
      && (Changes(a) != [] && Changes(a)[0].Register? && Stored(s.registry, Changes(a)[0].device) ==>
            FreeFor(s.registry, Changes(a)[0].device))
      && Fresh(Handle(s, a).state, run[1..]))
  }

  /** At every moment of the run every registered device is reached under its address. */
  ghost predicate AlwaysReached(s: State, run: seq<Arrival>)
    requires Runs(s, run)
    decreases |run|
  {
    AllReached(s.registry) && (run == [] || AlwaysReached(Handle(s, run[0]).state, run[1..]))
  }

  lemma StepKeepsUnique(s: State, a: Arrival)
    requires Received(a.pkg) && Handle(s, a).Reacts? && Distinct(s.registry) && s.registry != [] && UniqueIps(s.registry)
    ensures var u := Handle(s, a).state.registry;
            && Distinct(u) && u != []
            && (UniqueIps(u) <==>
                  (Changes(a) != [] && Changes(a)[0].Register? && Stored(s.registry, Changes(a)[0].device) ==>
                     FreeFor(s.registry, Changes(a)[0].device)))
  {
    hide Handle;
    hide Changes;
    hide Stored;
    hide FreeFor;
    hide UniqueIps;
    HandleChanges(s, a);
    if Changes(a) != [] {
      var op := Changes(a)[0];
      OneChange(s.registry, Changes(a));
      var i := OneSlot(s.registry, op);
      if op.Register? {
        AddKeepsUnique(s.registry, op.device);
      } else {
        OthersKeepUnique(s.registry, op);
      }
    }
  }

  lemma {:induction false} ReachedExact(s: State, run: seq<Arrival>)
    requires Runs(s, run) && Distinct(s.registry) && s.registry != [] && UniqueIps(s.registry)
    ensures AlwaysReached(s, run) <==> Fresh(s, run)
    ensures Fresh(s, run) ==> UniqueIps(Run(s, run).registry)
    decreases |run|
  {
    hide Handle;
    hide Changes;
    hide Stored;
    hide FreeFor;
    hide UniqueIps;
    hide AllReached;
    ReachedIsUnique(s.registry);
    if run != [] {
      StepKeepsUnique(s, run[0]);
      var next := Handle(s, run[0]).state;
      ReachedIsUnique(next.registry);
      if UniqueIps(next.registry) {
        ReachedExact(next, run[1..]);
      }
    }
  }

  /** Over every run: each registered device is reached under its address at every moment if and only
      if every registration that was stored had an address that no other device held just then. */
  lemma RoutingExact(run: seq<Arrival>)
    requires Runs(Init(), run)
    ensures AlwaysReached(Init(), run) <==> Fresh(Init(), run)
  {
    ReachedExact(Init(), run);
  }

  // ---------- Clients that register under the addresses they were given ----------

  /** Each registration is under an issued address, and `who` says whose address it is. A device may
      register again under an address of its own. */
  ghost predicate ByIssue(s: State, who: map<nat, string>, run: seq<Arrival>)
    requires Runs(s, run)
    decreases |run|
  {
    run == [] || (
      var a := run[0];
      && (Changes(a) != [] && Changes(a)[0].Register? ==> Owned(Changes(a)[0].device, s.issued, who))
      && ByIssue(Handle(s, a).state, who, run[1..]))
  }

  ghost predicate Owned(d: Device, issued: nat, who: map<nat, string>) {
    exists k: nat :: k < issued && k in who && who[k] == d.devId && d.ip == Chars(IssuedAddress(k))
  }

  ghost predicate AllOwned(s: State, who: map<nat, string>) {
    forall i :: 0 <= i < |s.registry| && s.registry[i].Taken? ==> Owned(s.registry[i].device, s.issued, who)
  }

  lemma OwnedIsFree(s: State, who: map<nat, string>, d: Device)
    requires AllOwned(s, who) && Owned(d, s.issued, who)
    ensures FreeFor(s.registry, d)
  {
    var t := s.registry;
    forall j | 0 <= j < |t| && t[j].Taken? && t[j].device.ip == d.ip
      ensures t[j].device.devId == d.devId
    {
      var k: nat :| k < s.issued && k in who && who[k] == d.devId && d.ip == Chars(IssuedAddress(k));
      var m: nat :| m < s.issued && m in who && who[m] == t[j].device.devId && t[j].device.ip == Chars(IssuedAddress(m));
      if k != m {
        IssuedDiffer(k, m);
      }
    }
  }

  lemma OwnedLater(d: Device, e: Device, issued: nat, later: nat, who: map<nat, string>)
    requires Owned(d, issued, who) && issued <= later && e.ip == d.ip && e.devId == d.devId
    ensures Owned(e, later, who)
  {
  }

  /** What an operation leaves in a slot: the registered device, or what was there, but for its flag. */
  lemma ApplyDevices(t: seq<Slot>, op: Op, i: nat)
    requires i < |t| && Apply(t, op)[i].Taken?
    ensures var d := Apply(t, op)[i].device;
            || (op.Register? && d == op.device)
            || (t[i].Taken? && d.ip == t[i].device.ip && d.devId == t[i].device.devId)
  {
  }

  lemma StepKeepsOwned(s: State, who: map<nat, string>, a: Arrival)
    requires Received(a.pkg) && Handle(s, a).Reacts? && AllOwned(s, who)
    requires Changes(a) != [] && Changes(a)[0].Register? ==> Owned(Changes(a)[0].device, s.issued, who)
    ensures AllOwned(Handle(s, a).state, who)
  {
    hide Handle;
    hide Changes;
    hide Apply;
    hide Owned;
    HandleChanges(s, a);
    var n := Handle(s, a).state;
    if Changes(a) != [] {
      OneChange(s.registry, Changes(a));
    }
    forall i | 0 <= i < |n.registry| && n.registry[i].Taken?
      ensures Owned(n.registry[i].device, n.issued, who)
    {
      var e := n.registry[i].device;
      if Changes(a) != [] {
        ApplyDevices(s.registry, Changes(a)[0], i);
      }
      OwnedLater(if Changes(a) != [] && Changes(a)[0].Register? && e == Changes(a)[0].device then e else s.registry[i].device,
                 e, s.issued, n.issued, who);
    }
  }

  /** Registrations under issued addresses, each used by one device only, are fresh, however often a
      device registers again. */
  lemma {:induction false} IssuedIsFresh(s: State, who: map<nat, string>, run: seq<Arrival>)
    requires Runs(s, run) && ByIssue(s, who, run) && AllOwned(s, who)
    ensures Fresh(s, run)
    decreases |run|
  {
    hide Handle;
    hide Changes;
    hide Owned;
    hide AllOwned;
    hide FreeFor;
    hide Stored;
    if run != [] {
      StepKeepsOwned(s, who, run[0]);
      if Changes(run[0]) != [] && Changes(run[0])[0].Register? {
        OwnedIsFree(s, who, Changes(run[0])[0].device);
      }
      IssuedIsFresh(Handle(s, run[0]).state, who, run[1..]);
    }
  }

  lemma OneChange(t: seq<Slot>, ops: seq<Op>)
    requires |ops| == 1
    ensures ApplyAll(t, ops) == Apply(t, ops[0])
  {
    assert ApplyAll(Apply(t, ops[0]), ops[1..]) == Apply(t, ops[0]);
  }

  /** The last registration of every device id. */
  function History(h: map<string, Device>, ops: seq<Op>): (r: map<string, Device>)
    decreases |ops|
  {
    if ops == [] then h
    else History(if ops[0].Register? then h[ops[0].device.devId := ops[0].device] else h, ops[1..])
  }

  ghost predicate Recorded(t: seq<Slot>, h: map<string, Device>) {
    forall i :: 0 <= i < |t| && t[i].Taken? ==>
      && t[i].device.devId in h
      && h[t[i].device.devId].ip == t[i].device.ip
      && h[t[i].device.devId].socket == t[i].device.socket
  }

  lemma {:induction false} HistoryRecords(t: seq<Slot>, h: map<string, Device>, ops: seq<Op>)
    requires Distinct(t) && t != [] && Recorded(t, h)
    ensures Recorded(ApplyAll(t, ops), History(h, ops))
    decreases |ops|
  {
    if ops != [] {
      hide Apply;
      OneRecorded(t, h, ops[0]);
      var i := OneSlot(t, ops[0]);
      HistoryRecords(Apply(t, ops[0]), if ops[0].Register? then h[ops[0].device.devId := ops[0].device] else h, ops[1..]);
    }
  }

  lemma OneRecorded(t: seq<Slot>, h: map<string, Device>, op: Op)
    requires Distinct(t) && t != [] && Recorded(t, h)
    ensures Recorded(Apply(t, op), if op.Register? then h[op.device.devId := op.device] else h)
  {
  }

  /** Routing over whole runs. After every run a package to be forwarded makes exactly one send: its
      own bytes to the client slot recorded by the last registration of the device that its
      destination address leads to, or, if no device holds it, the deletion of that address to the
      client it came from. If every stored registration had an address that no other device held,
      every registered device is reached that way. */
  lemma RoutingOverRuns(run: seq<Arrival>, a: Arrival)
    requires Runs(Init(), run)
    requires Received(a.pkg) && Dispatch(a.pkg).Forwarded? && Handle(Run(Init(), run), a).Reacts?
    ensures var s, h := Run(Init(), run), History(map[], AllChanges(run));
            var i := Find(s.registry, Ip, Chars(a.pkg.des));
            && Recorded(s.registry, h) && (Fresh(Init(), run) ==> AllReached(s.registry))
            && Handle(s, a) == Reacts(s, [
                 if i < |s.registry| then Send(h[s.registry[i].device.devId].socket, Encoding(a.pkg))
                 else Send(a.socket, Encoding(Unregistered(a.pkg)))])
  {
    hide Run;
    hide Runs;
    hide Fresh;
    hide History;
    hide Encoding;
    hide ApplyAll;
    hide AllChanges;
    hide Unregistered;
    RunChanges(Init(), run);
    ReachedExact(Init(), run);
    ReachedIsUnique(Run(Init(), run).registry);
    HistoryRecords(Init().registry, map[], AllChanges(run));
  }

  /** Why addresses must be fresh: of two devices registered under one address the first keeps getting
      its packages, although the second registered later. */
  lemma SharedAddress(first: Device, second: Device)
    requires first.devId != second.devId && first.ip == second.ip
    ensures var t := ApplyAll(Init().registry, [Register(first), Register(second)]);
            && t[0] == Taken(first) && t[1] == Taken(second)
            && Find(t, Ip, second.ip) == 0
            && var h := History(map[], [Register(first), Register(second)]);
               second.devId in h && h[second.devId] == second
  {
    var ops := [Register(first), Register(second)];
    assert ops[1..] == [Register(second)] && [Register(second)][1..] == [];
    var t0 := Init().registry;
    var t1 := Apply(t0, Register(first));
    assert FirstHole(t0) == 0 && t1 == t0[0 := Taken(first)];
    assert FirstHole(t1) == 1;
    var t2 := Apply(t1, Register(second));
    assert t2 == t1[1 := Taken(second)];
    OneChange(t1, ops[1..]);
    assert ApplyAll(t0, ops) == t2;
    assert Find(t2, Ip, second.ip) == 0;
    var h := map[first.devId := first];
    assert History(map[], ops) == History(h, ops[1..]) == History(h[second.devId := second], []);
  }

  /** A created package is forwarded byte for byte. */
  lemma ForwardedUnchanged(s: State, socket: nat, p: Pkg, t: seq<Byte>)
    requires WellFormed(p) && Find(s.registry, Ip, Chars(p.des)) < |s.registry| && |Encoding(p)| <= MAXPACKETSIZE
    ensures Received(p) && Next(Encoding(p) + t) == (Completed(p), t)
    ensures var r := HandleForwarding(s, socket, p);
            r.Reacts? && |r.sends| == 1 && r.sends[0].bytes + t == Encoding(p) + t
  {
    hide Next;
    hide Encoding;
    Framer.NextOfEncoding(p, t);
    HeaderDescribesItself(p.sor, p.des, p.data);
  }

  /** The sender of a package for an unregistered address reads the answer as the command to delete
      that address. */
  lemma DeletionIsRead(p: Pkg, t: seq<Byte>)
    requires Address(p.sor) && AtomOk(Chars(p.des)) && |p.des| < C.COMMAND_CHAR_SIZE
    ensures var q := Unregistered(p);
            && Next(Encoding(q) + t) == (Completed(q), t) && q.sor == MASTER && q.des == p.sor
            && ReadManagement(q.data) == Cmd(C.Management, "Del_Dev", Chars(p.des))
  {
    hide Next;
    hide Encoding;
    hide CommandData;
    hide ReadManagement;
    hide AtomOk;
    var q := Unregistered(p);
    DelDevOk();
    CommandIsRead(C.Management, "Del_Dev", Chars(p.des));
    CommandLength(C.Management, "Del_Dev", Chars(p.des));
    assert WellFormed(q);
    Framer.NextOfEncoding(q, t);
  }

  lemma DelDevOk()
    ensures AtomOk("Del_Dev")
  {
  }

  lemma CommandLength(kind: C.Type, id: string, value: string)
    requires id != "Value"
    ensures |CommandData(kind, id, value)| <= 40 + |id| + |value|
  {
    hide Print;
    hide C.Inner;
    C.TreeLength(C.TypeText(kind), id, "Value", value);
  }

  lemma ShortReply(sor: seq<Byte>, des: seq<Byte>, data: seq<Byte>)
    requires |sor| < IP_ADDR_SIZE && |des| < IP_ADDR_SIZE && |data| < 100
    ensures |Encoding(Create(sor, des, data))| < 200
  {
    var p := Create(sor, des, data);
    DecimalLength(|data|);
    DecimalLength(p.headerLength);
  }

  // ---------- Discovery ----------

  lemma NothingListed(t: seq<Slot>, sender: string, query: string, done: seq<Byte>)
    ensures t == [] || query !in {"Dis_All", "Dis_Pxd", "Dis_NPx"} ==>
              DeviceList(t, sender, query) == [] && done + DeviceList(t, sender, query) == done
  {
  }

  /** The entry of one slot moves from the rest of the list behind what is written. */
  lemma OneListed(t: seq<Slot>, i: nat, sender: string, query: string, done: seq<Byte>)
    requires i < |t| && query in {"Dis_All", "Dis_Pxd", "Dis_NPx"}
    ensures done + DeviceList(t[i..], sender, query)
            == (if Listed(t[i], sender, query) then
                  done + (Bytes(t[i].device.ip) + [0] + Bytes(t[i].device.desc) + [0])
                else done) + DeviceList(t[i + 1..], sender, query)
  {
    hide Listed;
    assert t[i..][1..] == t[i + 1..];
  }

  function Selected(t: seq<Slot>, sender: string, query: string): (r: seq<Device>) {
    if t == [] then []
    else (if Listed(t[0], sender, query) then [t[0].device] else []) + Selected(t[1..], sender, query)
  }

  /** A device list as its receiver splits it at the NULs. */
  function ReadList(s: seq<Byte>): (r: seq<(string, string)>)
    decreases |s|
  {
    if |Field(s)| >= |s| || |Field(Skip(s))| >= |Skip(s)| then []
    else [(Chars(Field(s)), Chars(Field(Skip(s))))] + ReadList(Skip(Skip(s)))
  }

  function Pairs(ds: seq<Device>): (r: seq<(string, string)>) {
    if ds == [] then [] else [(ds[0].ip, ds[0].desc)] + Pairs(ds[1..])
  }

  ghost predicate AllPlain(t: seq<Slot>) {
    forall i :: 0 <= i < |t| && t[i].Taken? ==> Plain(t[i].device.ip) && Plain(t[i].device.desc)
  }

  /** A discovery reply lists exactly the selected devices, in slot order, and reads back as such. */
  lemma {:induction false} ListIsRead(t: seq<Slot>, sender: string, query: string)
    requires AllPlain(t) && query in {"Dis_All", "Dis_Pxd", "Dis_NPx"}
    ensures ReadList(DeviceList(t, sender, query)) == Pairs(Selected(t, sender, query))
    decreases |t|
  {
    if t != [] {
      hide Listed;
      hide ReadList;
      hide Bytes;
      hide Plain;
      ListIsRead(t[1..], sender, query);
      var listed, rest := DeviceList(t[1..], sender, query), Selected(t[1..], sender, query);
      if Listed(t[0], sender, query) {
        OneEntry(t[0], sender, query, listed);
        assert ([t[0].device] + rest)[1..] == rest;
      } else {
        assert [] + listed == listed && [] + rest == rest;
      }
    }
  }

  lemma OneEntry(s: Slot, sender: string, query: string, rest: seq<Byte>)
    requires Listed(s, sender, query) && Plain(s.device.ip) && Plain(s.device.desc)
    ensures ReadList(Bytes(s.device.ip) + [0] + Bytes(s.device.desc) + [0] + rest)
            == [(s.device.ip, s.device.desc)] + ReadList(rest)
  {
    hide Bytes;
    hide Plain;
    hide Package.Field;
    hide Skip;
    var a, b := Bytes(s.device.ip), Bytes(s.device.desc);
    var w := a + [0] + b + [0] + rest;
    CharsOfBytes(s.device.ip);
    CharsOfBytes(s.device.desc);
    FieldThen(a, b + [0] + rest);
    FieldThen(b, rest);
    assert w == a + [0] + (b + [0] + rest);
  }

  lemma ChangesPlain(a: Arrival)
    requires Received(a.pkg)
    ensures forall op :: op in Changes(a) && op.Register? ==> Plain(op.device.ip) && Plain(op.device.desc)
  {
    hide C.Readable;
    hide C.Parsed;
    hide C.Field;
    var data := a.pkg.data;
    BytesPlain(a.pkg.sor);
    BytesPlain(Package.Field(data));
    RecordText(data);
  }

  lemma BytesPlain(s: seq<Byte>)
    requires NoZero(s)
    ensures Plain(Chars(s))
  {
  }

  lemma RecordText(data: seq<Byte>)
    ensures ReadManagement(data).Record? ==> ReadManagement(data).desc == Content(data)
  {
    hide C.Readable;
    hide C.Field;
    hide Run;
  }

  lemma ApplyPlain(t: seq<Slot>, op: Op)
    requires AllPlain(t) && (op.Register? ==> Plain(op.device.ip) && Plain(op.device.desc))
    ensures AllPlain(Apply(t, op))
  {
    hide Plain;
  }

  lemma {:induction false} PlainOverRuns(s: State, run: seq<Arrival>)
    requires Runs(s, run) && AllPlain(s.registry)
    ensures AllPlain(Run(s, run).registry)
    decreases |run|
  {
    if run != [] {
      hide Handle;
      hide AllPlain;
      hide Changes;
      hide Apply;
      hide Plain;
      HandleChanges(s, run[0]);
      ChangesPlain(run[0]);
      if Changes(run[0]) != [] {
        OneChange(s.registry, Changes(run[0]));
        ApplyPlain(s.registry, Changes(run[0])[0]);
      }
      PlainOverRuns(Handle(s, run[0]).state, run[1..]);
    }
  }

  /** After every run, a discovery query is answered, to the client it came from, with one package
      whose data reads as the addresses and descriptions of exactly the selected devices. */
  lemma DiscoveryOverRuns(run: seq<Arrival>, a: Arrival, query: string, value: string)
    requires Runs(Init(), run) && Received(a.pkg) && Dispatch(a.pkg).ForManager? && Address(a.pkg.sor)
    requires query in {"Dis_All", "Dis_Pxd", "Dis_NPx"}
    requires ReadManagement(a.pkg.data) == Cmd(C.Management, query, value)
    requires Handle(Run(Init(), run), a).Reacts?
    ensures var s := Run(Init(), run);
            var r := Handle(s, a);
            && r.state == s && |r.sends| == 1 && r.sends[0].socket == a.socket
            && var o := Next(r.sends[0].bytes).0;
               && o.Completed? && o.pkg.sor == MASTER && o.pkg.des == a.pkg.sor
               && ReadList(o.pkg.data) == Pairs(Selected(s.registry, Chars(a.pkg.sor), query))
  {
    hide Run;
    hide Runs;
    hide ReadManagement;
    hide DeviceList;
    hide Selected;
    hide Encoding;
    hide Next;
    hide ReadList;
    var s := Run(Init(), run);
    assert AllPlain(Init().registry);
    PlainOverRuns(Init(), run);
    var sender := Chars(a.pkg.sor);
    ListIsRead(s.registry, sender, query);
    var p := Create(MASTER, a.pkg.sor, DeviceList(s.registry, sender, query));
    EncodingHoldsData(p);
    assert WellFormed(p);
    Framer.NextOfEncoding(p, []);
    assert Encoding(p) + [] == Encoding(p);
  }

  lemma EncodingHoldsData(p: Pkg)
    requires p.headerLength >= 0 && p.dataLength >= 0
    ensures |p.data| <= |Encoding(p)|
  {
  }

  lemma ListedOnce(s: Slot, sender: string)
    requires s.Taken? ==> s.device.proxied <= 1
    ensures Listed(s, sender, "Dis_All") <==> Listed(s, sender, "Dis_Pxd") || Listed(s, sender, "Dis_NPx")
    ensures !(Listed(s, sender, "Dis_Pxd") && Listed(s, sender, "Dis_NPx"))
  {
  }

  /** The proxied and the unproxied devices make up all devices. */
  lemma {:induction false} DiscoverySplits(t: seq<Slot>, sender: string)
    requires Flagged(t)
    ensures multiset(Selected(t, sender, "Dis_All"))
            == multiset(Selected(t, sender, "Dis_Pxd")) + multiset(Selected(t, sender, "Dis_NPx"))
    decreases |t|
  {
    hide Listed;
    if t != [] {
      DiscoverySplits(t[1..], sender);
      ListedOnce(t[0], sender);
    }
  }
}
