/**
 The manager's handlers, on the device array and the address counter they update in place.
 */
module ManagerService {
  import Jsmn
  import JsmnStack
  import opened JsonEdit
  import opened JsonLookup
  import opened JsonFile
  import opened Package
  import Framer
  import opened PackageBuffer
  import opened Registry
  import opened Payload
  import M = Manager
  import C = IoTCommand
  import opened JsonTree

  class DeviceInfo {
    const ip: string
    const devId: string
    const group: string
    const desc: string
    const socket: nat
    var proxied: nat

    constructor (ip: string, devId: string, group: string, desc: string, socket: nat)
      ensures Value() == Device(ip, devId, group, desc, socket, 0)
    {
      this.ip, this.devId, this.group, this.desc, this.socket := ip, devId, group, desc, socket;
      proxied := 0;
    }

    function Value(): (r: Device)
      reads this
    {
      Device(ip, devId, group, desc, socket, proxied)
    }
  }

  class Server {
    const devices: array<DeviceInfo?>
    var ipCount: nat

    ghost function Records(): (r: set<object>)
      reads devices
    {
      set i | 0 <= i < devices.Length && devices[i] != null :: devices[i] as object
    }

    /** No record is in two entries. */
    ghost predicate Valid()
      reads devices
    {
      && devices.Length == Registry.MAXDEVICECOUNT
      && forall i, j :: 0 <= i < j < devices.Length && devices[i] != null ==> devices[i] != devices[j]
    }

    ghost function SlotAt(i: nat): (r: Slot)
      requires i < devices.Length
      reads devices, if devices[i] == null then {} else {devices[i]}
    {
      if devices[i] == null then Hole else Taken(devices[i].Value())
    }

    ghost function Table(): (t: seq<Slot>)
      reads devices, Records()
      ensures |t| == devices.Length
      ensures forall i :: 0 <= i < |t| ==> t[i] == SlotAt(i)
    {
      seq(devices.Length, i requires 0 <= i < devices.Length reads devices, Records() => SlotAt(i))
    }

    ghost function Value(): (r: M.State)
      reads this, devices, Records()
    {
      M.State(Table(), ipCount)
    }

    constructor ()
      ensures Valid() && fresh(devices) && Value() == M.Init()
    {
      devices := new DeviceInfo?[Registry.MAXDEVICECOUNT](_ => null);
      ipCount := 0;
    }

    // ---------- Searching ----------

    method FindDeviceIndexWithIp(ip: string) returns (index: int)
      requires Valid()
      ensures Value() == old(Value())
      ensures var i := Find(Table(), Ip, ip); index == if i < devices.Length then i else -1
    {
      index := -1;
      var i := 0;
      while i < devices.Length
        invariant i <= devices.Length && index == -1
        invariant Find(Table(), Ip, ip) == Find(Table(), Ip, ip, i)
      {
        if devices[i] != null && devices[i].ip == ip {
          index := i;
          break;
        }
        i := i + 1;
      }
    }

    method FindDeviceIndexWithId(id: string) returns (index: int)
      requires Valid()
      ensures Value() == old(Value())
      ensures var i := Find(Table(), DevId, id); index == if i < devices.Length then i else -1
    {
      index := -1;
      var i := 0;
      while i < devices.Length
        invariant i <= devices.Length && index == -1
        invariant Find(Table(), DevId, id) == Find(Table(), DevId, id, i)
      {
        if devices[i] != null && devices[i].devId == id {
          index := i;
          break;
        }
        i := i + 1;
      }
    }

    // ---------- The table ----------

    method Place(index: nat, d: DeviceInfo)
      requires Valid() && index < devices.Length && d !in Records()
      modifies devices
      ensures Valid() && Table() == old(Table())[index := Taken(d.Value())]
    {
      forall k | 0 <= k < devices.Length
        ensures devices[k] != d
      {
        assert devices[k] != null ==> devices[k] in Records();
      }
      devices[index] := d;
    }

    method AddNewDevice(ip: string, id: string, group: string, desc: string, socket: nat)
      requires Valid()
      modifies devices
      ensures Valid() && Table() == Add(old(Table()), Device(ip, id, group, desc, socket, 0))
    {
      var d := new DeviceInfo(ip, id, group, desc, socket);
      ghost var t := Table();
      var index := FindDeviceIndexWithId(id);
      if index >= 0 {
        Place(index, d);
      } else {
        var i := 0;
        while i < devices.Length
          invariant i <= devices.Length && FirstHole(t) == FirstHole(t, i)
          invariant Valid() && Table() == t && d !in Records()
        {
          if devices[i] == null {
            Place(i, d);
            return;
          }
          i := i + 1;
        }
      }
    }

    method DeleteDevice(ip: string)
      requires Valid()
      modifies devices
      ensures Valid() && Table() == Apply(old(Table()), Delete(ip))
    {
      ghost var t := Table();
      var index := FindDeviceIndexWithIp(ip);
      if index >= 0 {
        devices[index] := null;
        assert Table() == t[index := Hole];
      }
    }

    method SetProxied(ip: string, on: bool)
      requires Valid()
      modifies Records()
      ensures Valid() && Table() == Apply(old(Table()), Proxy(ip, on))
    {
      var index := FindDeviceIndexWithIp(ip);
      if index >= 0 {
        assert devices[index] in Records();
        ghost var d := Table()[index].device;
        forall k | 0 <= k < devices.Length && k != index
          ensures devices[k] != devices[index]
        {
          assert if k < index then devices[k] != devices[index] else devices[index] != devices[k];
        }
        devices[index].proxied := if on then 1 else 0;
        assert SlotAt(index) == Taken(d.(proxied := if on then 1 else 0));
      }
    }

    // ---------- Packages ----------

    /** Creates a package, encodes it and returns the bytes to send. */
    static method Packed(sor: seq<Byte>, des: seq<Byte>, data: seq<Byte>, size: nat) returns (bytes: seq<Byte>)
      requires |sor| < IP_ADDR_SIZE && |des| < IP_ADDR_SIZE
      requires |Encoding(Create(sor, des, data))| <= size <= MAX_SUMMED
      ensures bytes == Encoding(Create(sor, des, data))
    {
      hide Encoding;
      var p := new IoTPackage();
      p.CreatePackage(sor, des, data);
      var buffer := new Byte[size](_ => 0);
      var n := EncodePackage(buffer, p);
      bytes := buffer[..n];
    }

    method HandleIpRequestPackage(socket: nat) returns (sends: seq<M.Send>)
      requires Valid() && M.HandleIpRequest(Value(), socket).Reacts?
      modifies this`ipCount
      ensures Valid() && M.HandleIpRequest(old(Value()), socket) == M.Reacts(Value(), sends)
    {
      hide Encoding;
      var suffix := Decimal(ipCount);
      DecimalLength(ipCount);
      M.ShortReply(M.MASTER, M.IssuedAddress(ipCount), M.NO_ADDRESS);
      ipCount := ipCount + 1;
      var newIp := M.PREFIX + suffix;
      var bytes := Packed(M.MASTER, newIp, M.NO_ADDRESS, Framer.MAXRECV);
      sends := [M.Send(socket, bytes)];
    }

    /** The text of a command as package data, with its NUL. */
    static method CommandBytes(id: string, value: string, stray: Jsmn.Kind, blank: Jsmn.Token) returns (data: seq<Byte>)
      requires |id| < C.COMMAND_CHAR_SIZE && NoNul(id) && |value| < C.COMMAND_CHAR_SIZE && NoNul(value)
      ensures data == CommandData(C.Management, id, value)
    {
      hide Print;
      hide C.Encoded;
      var cmd := new C.Command();
      cmd.kind, cmd.id, cmd.value := C.Management, id, value;
      var text, _ := cmd.Encode(stray, blank);
      data := Bytes(text) + [0];
    }

    method HandleForwardingPackage(p: IoTPackage, socket: nat, stray: Jsmn.Kind, blank: Jsmn.Token) returns (sends: seq<M.Send>)
      requires Valid() && M.Received(p.Value()) && |p.sor| < IP_ADDR_SIZE
      requires M.HandleForwarding(Value(), socket, p.Value()).Reacts?
      ensures M.HandleForwarding(Value(), socket, p.Value()) == M.Reacts(Value(), sends)
    {
      hide Encoding;
      hide CommandData;
      ghost var s := Value();
      var index := FindDeviceIndexWithIp(Chars(p.des));
      if index < 0 {
        M.DelDevOk();
        var data := CommandBytes("Del_Dev", Chars(p.des), stray, blank);
        M.CommandLength(C.Management, "Del_Dev", Chars(p.des));
        M.ShortReply(M.MASTER, p.sor, data);
        var bytes := Packed(M.MASTER, p.sor, data, M.MAXPACKETSIZE);
        sends := [M.Send(socket, bytes)];
      } else {
        var buffer := new Byte[M.MAXPACKETSIZE](_ => 0);
        var n := EncodePackage(buffer, p);
        assert Value() == s;
        sends := [M.Send(devices[index].socket, buffer[..n])];
      }
    }

    /** Address and description of all devices but the sender and the user interfaces. */
    method EncodeAllDevicesExceptOne(exceptIp: string) returns (buffer: seq<Byte>)
      requires Valid()
      ensures buffer == M.DeviceList(Table(), exceptIp, "Dis_All") && Value() == old(Value())
    {
      buffer := [];
      var i := 0;
      ghost var t := Table();
      while i < devices.Length
        invariant i <= devices.Length
        invariant M.DeviceList(t, exceptIp, "Dis_All") == buffer + M.DeviceList(t[i..], exceptIp, "Dis_All")
      {
        M.OneListed(t, i, exceptIp, "Dis_All", buffer);
        if devices[i] != null && devices[i].ip != exceptIp {
          if devices[i].group != "UI" {
            buffer := buffer + (Bytes(devices[i].ip) + [0] + Bytes(devices[i].desc) + [0]);
          }
        }
        i := i + 1;
      }
      M.NothingListed(t[i..], exceptIp, "Dis_All", buffer);
      assert Table() == t && t[i..] == [] && M.DeviceList(t, exceptIp, "Dis_All") == buffer;
    }

    /** The same, of the proxied or the unproxied ones. */
    method EncodePxdDevicesExceptOne(exceptIp: string, isProxied: nat) returns (buffer: seq<Byte>)
      requires Valid() && isProxied <= 1
      ensures buffer == M.DeviceList(Table(), exceptIp, if isProxied == 1 then "Dis_Pxd" else "Dis_NPx")
      ensures Value() == old(Value())
    {
      buffer := [];
      var i := 0;
      ghost var t := Table();
      ghost var query := if isProxied == 1 then "Dis_Pxd" else "Dis_NPx";
      while i < devices.Length
        invariant i <= devices.Length
        invariant M.DeviceList(t, exceptIp, query) == buffer + M.DeviceList(t[i..], exceptIp, query)
      {
        M.OneListed(t, i, exceptIp, query, buffer);
        if devices[i] != null && devices[i].ip != exceptIp && devices[i].proxied == isProxied {
          if devices[i].group != "UI" {
            buffer := buffer + (Bytes(devices[i].ip) + [0] + Bytes(devices[i].desc) + [0]);
          }
        }
        i := i + 1;
      }
      M.NothingListed(t[i..], exceptIp, query, buffer);
      assert Table() == t && t[i..] == [] && M.DeviceList(t, exceptIp, query) == buffer;
    }

    method DiscoverPackageReplier(p: IoTPackage, socket: nat, id: string) returns (sends: seq<M.Send>)
      requires Valid() && |p.sor| < IP_ADDR_SIZE
      requires |Encoding(Create(M.MASTER, p.sor, M.DeviceList(Table(), Chars(p.sor), id)))| <= M.MAX_DEVICE_LIST_BUF
      ensures sends == [M.Send(socket, Encoding(Create(M.MASTER, p.sor, M.DeviceList(Table(), Chars(p.sor), id))))]
      ensures Value() == old(Value())
    {
      hide Encoding;
      hide M.DeviceList;
      var list: seq<Byte> := [];
      M.NothingListed(Table(), Chars(p.sor), id, []);
      if id == "Dis_All" {
        list := EncodeAllDevicesExceptOne(Chars(p.sor));
      } else if id == "Dis_Pxd" {
        list := EncodePxdDevicesExceptOne(Chars(p.sor), 1);
      } else if id == "Dis_NPx" {
        list := EncodePxdDevicesExceptOne(Chars(p.sor), 0);
      }
      assert list == M.DeviceList(Table(), Chars(p.sor), id);
      ghost var t := Table();
      var bytes := Packed(M.MASTER, p.sor, list, M.MAX_DEVICE_LIST_BUF);
      assert Table() == t;
      sends := [M.Send(socket, bytes)];
    }

    method HandleManagementPackage(p: IoTPackage, socket: nat, stray: Jsmn.Kind, blank: Jsmn.Token) returns (sends: seq<M.Send>)
      requires Valid() && |p.sor| < IP_ADDR_SIZE
      requires M.HandleManagement(Value(), M.Arrival(socket, p.Value())).Reacts?
      modifies devices, Records()
      ensures Valid() && M.HandleManagement(old(Value()), M.Arrival(socket, old(p.Value()))) == M.Reacts(Value(), sends)
    {
      hide Encoding;
      hide ReadManagement;
      hide M.DeviceList;
      ghost var a := M.Arrival(socket, p.Value());
      ghost var s := Value();
      sends := [];
      var m := ReadData(p.data, stray, blank);
      match m {
        case Record(id, group, desc) =>
          AddNewDevice(Chars(p.sor), id, group, desc, socket);
          M.OneChange(s.registry, M.OpOf(a));
        case Cmd(kind, id, value) =>
          if !kind.Management? {
          } else if |id| >= 4 && id[..4] == "Dis_" {
            sends := DiscoverPackageReplier(p, socket, id);
          } else {
            assert !("Dis_" <= id);
            Manage(id, value);
          }
        case Unknown =>
      }
    }

    /** The management commands that change the table. */
    method Manage(id: string, value: string)
      requires Valid()
      modifies devices, Records()
      ensures Valid() && ipCount == old(ipCount)
      ensures Table() == ApplyAll(old(Table()), M.CommandOps(id, value))
    {
      if id == "Del_Dev" {
        DeleteDevice(value);
      } else if id == "Prx_Add" {
        SetProxied(value, true);
      } else if id == "Prx_Rmv" {
        SetProxied(value, false);
      }
    }

    /** One completed package from a client slot. */
    method HandlePackage(p: IoTPackage, socket: nat, stray: Jsmn.Kind, blank: Jsmn.Token) returns (sends: seq<M.Send>)
      requires Valid() && M.Received(p.Value()) && |p.sor| < IP_ADDR_SIZE
      requires M.Handle(Value(), M.Arrival(socket, p.Value())).Reacts?
      modifies this`ipCount, devices, Records()
      ensures Valid() && M.Handle(old(Value()), M.Arrival(socket, old(p.Value()))) == M.Reacts(Value(), sends)
    {
      hide M.HandleIpRequest;
      hide M.HandleManagement;
      hide M.HandleForwarding;
      if p.des == M.NO_ADDRESS && p.sor == M.NO_ADDRESS {
        sends := HandleIpRequestPackage(socket);
      } else if p.des == M.MASTER {
        sends := HandleManagementPackage(p, socket, stray, blank);
      } else {
        sends := HandleForwardingPackage(p, socket, stray, blank);
      }
    }
  }

  /** Tokenizes the text and reads the name in the second token left, if there are two. */
  method ReadName(text: string, stray: Jsmn.Kind, blank: Jsmn.Token) returns (json: JsonData, name: string)
    requires |text| < MAX_CONTENT && NoNul(text)
    requires |Jsmn.Run(text, MAX_TOKENS, Jsmn.START).1.tokens| >= 2
    ensures var (code, st) := Jsmn.Run(text, MAX_TOKENS, Jsmn.START);
            && JsmnStack.Started(st.tokens, |text|) && name == Pattern(text, st.tokens[1])
            && json.Valid() && json.Text() == text && (code.Count? ==> json.Table() == Doc(text, st.tokens))
  {
    hide Jsmn.Run;
    hide StrLen;
    json := new JsonData(text, blank);
    json.InitToken(stray);
    JsmnStack.TokensStarted(text, MAX_TOKENS);
    ghost var left := Jsmn.Run(text, MAX_TOKENS, Jsmn.START).1.tokens;
    assert json.tokens[..|left|][1] == left[1];
    name := json.GetPattern(json.tokens[1]);
  }

  /** Tokenizes the data and reads it by the name of its first key. */
  method ReadData(data: seq<Byte>, stray: Jsmn.Kind, blank: Jsmn.Token) returns (m: Management)
    requires ReadManagement(data) != Unreadable
    ensures m == ReadManagement(data)
  {
    hide C.Readable;
    hide C.Field;
    hide Result;
    hide Resolve;
    hide Jsmn.Run;
    hide Pattern;
    var text := Content(data);
    C.ParsedInside(text);
    var json, name := ReadName(text, stray, blank);
    if name == "IOTDEV" {
      assert json.Table() == C.Parsed(text);
      var id := json.GetValue(DEVICE_ID);
      var group := json.GetValue(FUNCTION_GROUP);
      m := Record(id.value, match group case Some(g) => g case None => id.value, text);
    } else if name == "IOTCMD" {
      var cmd := new C.Command();
      cmd.Decode(text, stray, blank);
      m := Cmd(cmd.kind, cmd.id, cmd.value);
    } else {
      m := Unknown;
    }
  }
}
