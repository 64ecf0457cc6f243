/**
 The broker's device array, updated in place: every used entry points to a device record with its
 own receive buffer.
 */
module XBeeDevices {
  import opened Package
  import opened Framer
  import opened PackageBuffer
  import opened XBeeBroker
  import opened XBeeReassembly

  class XBeeDevInfo {
    const addr: Addr
    const buffer: ReceiveBuffer
    var readyToReceive: int
    var isAlive: int

    constructor (addr: Addr)
      ensures this.addr == addr && readyToReceive == 1 && isAlive == 1
      ensures buffer.Valid() && buffer.Contents() == [] && fresh(buffer) && fresh(buffer.bytes)
    {
      var b := new ReceiveBuffer();
      this.addr := addr;
      buffer := b;
      readyToReceive := 1;
      isAlive := 1;
    }
  }

  class DeviceTable {
    const devices: array<XBeeDevInfo?>

    ghost function Buffers(): (r: set<object>)
      reads devices
    {
      (set i | 0 <= i < devices.Length && devices[i] != null :: devices[i].buffer as object) +
      (set i | 0 <= i < devices.Length && devices[i] != null :: devices[i].buffer.bytes as object)
    }

    /** Entries share neither buffers nor the bytes in them. */
    ghost predicate Valid()
      reads devices, Buffers()
    {
      && devices.Length == MAXDEVICECOUNT
      && (forall i :: 0 <= i < devices.Length && devices[i] != null ==> devices[i].buffer.Valid())
      && (forall i, j :: 0 <= i < j < devices.Length && devices[i] != null && devices[j] != null ==>
                           devices[i].buffer != devices[j].buffer && devices[i].buffer.bytes != devices[j].buffer.bytes)
    }

    ghost function SlotAt(i: nat): (r: Slot)
      requires i < devices.Length && (devices[i] != null ==> devices[i].buffer.Valid())
      reads devices, if devices[i] == null then {} else {devices[i].buffer, devices[i].buffer.bytes}
    {
      if devices[i] == null then Free else Used(devices[i].addr, devices[i].buffer.Contents())
    }

    ghost function Table(): (t: seq<Slot>)
      requires Valid()
      reads devices, Buffers()
      ensures |t| == MAXDEVICECOUNT
      ensures forall i :: 0 <= i < |t| ==> t[i] == SlotAt(i)
    {
      seq(devices.Length, i requires 0 <= i < devices.Length && Valid() reads devices, Buffers() => SlotAt(i))
    }

    constructor ()
      ensures Valid() && fresh(devices) && Table() == Empty()
    {
      devices := new XBeeDevInfo?[MAXDEVICECOUNT](_ => null);
    }

    method FindDeviceIndex(addr: Addr) returns (index: int)
      requires Valid()
      ensures var i := Find(Table(), addr); index == if i < MAXDEVICECOUNT then i else -1
    {
      index := -1;
      var i := 0;
      while i < MAXDEVICECOUNT
        invariant i <= MAXDEVICECOUNT && index == -1
        invariant Find(Table(), addr) == Find(Table(), addr, i)
      {
        if devices[i] != null && devices[i].addr == addr {
          index := i;
          break;
        }
        i := i + 1;
      }
    }

    /** The new device takes the first free entry; with none free nothing changes. */
    method AddNewDevice(addr: Addr) returns (i: nat)
      requires Valid()
      modifies devices
      ensures Valid() && i == FirstFree(old(Table()))
      ensures Table() == if i < MAXDEVICECOUNT then old(Table())[i := Used(addr, [])] else old(Table())
      ensures i < MAXDEVICECOUNT ==> devices[i] != null && fresh(devices[i].buffer) && fresh(devices[i].buffer.bytes)
    {
      ghost var t := Table();
      i := 0;
      while i < MAXDEVICECOUNT
        invariant i <= MAXDEVICECOUNT && devices[..] == old(devices[..])
        invariant Valid() && Table() == t && Buffers() == old(Buffers())
        invariant FirstFree(t) == FirstFree(t, i)
      {
        if devices[i] == null {
          var d := new XBeeDevInfo(addr);
          devices[i] := d;
          break;
        }
        i := i + 1;
      }
    }

    /** Forgets a device that does not answer. */
    method RemoveDevice(index: nat)
      requires Valid() && index < MAXDEVICECOUNT && devices[index] != null
      modifies devices
      ensures Valid() && Table() == old(Table())[index := Free]
    {
      devices[index] := null;
    }

    /** A frame of received data. */
    method HandleRx(addr: Addr, data: seq<Byte>) returns (delivered: seq<Pkg>)
      requires Valid() && HasRoom(Table(), addr)
      requires |BufferOf(Table(), addr)| + |data| <= MAXRECV && Defined(BufferOf(Table(), addr) + data)
      modifies devices, Buffers()
      ensures Valid()
      ensures (Table(), delivered) == XBeeReassembly.Receive(old(Table()), addr, data)
    {
      hide Drain;
      hide Defined;
      var index := FindDeviceIndex(addr);
      if index < 0 {
        index := AddNewDevice(addr);
        delivered := Feed(index, data);
      } else {
        assert devices[index].buffer in Buffers() && devices[index].buffer.bytes in Buffers();
        delivered := Feed(index, data);
      }
    }

    /** Appends to one device's buffer and takes the packages off it. */
    method Feed(index: nat, data: seq<Byte>) returns (delivered: seq<Pkg>)
      requires Valid() && index < MAXDEVICECOUNT && devices[index] != null
      requires |Table()[index].buffer| + |data| <= MAXRECV && Defined(Table()[index].buffer + data)
      modifies devices[index].buffer, devices[index].buffer.bytes
      ensures Valid()
      ensures var t := old(Table());
              var d := Drain(t[index].buffer + data);
              Table() == t[index := Used(t[index].addr, d.rest)] && delivered == d.pkgs
    {
      hide Drain;
      hide Defined;
      var buffer := devices[index].buffer;
      buffer.Append(data);
      delivered := buffer.TakeAll();
    }
  }
}
