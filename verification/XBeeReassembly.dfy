/**
 Reassembly: fragments from many radio devices arrive interleaved, and each device's bytes are
 collected in the slot the broker keeps for its address.
 */
module XBeeReassembly {
  import opened Package
  import opened Framer
  import opened XBeeFrame
  import opened XBeeBroker

  datatype Slot = Free | Used(addr: Addr, buffer: seq<Byte>)

  // ---------- The table ----------

  /** The slot of an address, or the table's length. */
  function Find(t: seq<Slot>, a: Addr, from: nat := 0): (i: nat)
    requires from <= |t|
    ensures from <= i <= |t|
    ensures i < |t| ==> t[i].Used? && t[i].addr == a
    ensures forall k :: from <= k < i ==> t[k].Used? ==> t[k].addr != a
    decreases |t| - from
  {
    if from == |t| || (t[from].Used? && t[from].addr == a) then from else Find(t, a, from + 1)
  }

  function FirstFree(t: seq<Slot>, from: nat := 0): (i: nat)
    requires from <= |t|
    ensures from <= i <= |t|
    ensures i < |t| ==> t[i].Free?
    ensures forall k :: from <= k < i ==> t[k].Used?
    decreases |t| - from
  {
    if from == |t| || t[from].Free? then from else FirstFree(t, from + 1)
  }

  ghost predicate Distinct(t: seq<Slot>) {
    forall i, j :: 0 <= i < j < |t| && t[i].Used? && t[j].Used? ==> t[i].addr != t[j].addr
  }

  predicate HasRoom(t: seq<Slot>, a: Addr) {
    Find(t, a) < |t| || FirstFree(t) < |t|
  }

  /** The table with a slot for the address, which is made if it is missing. */
  function Admit(t: seq<Slot>, a: Addr): (r: (seq<Slot>, nat))
    requires HasRoom(t, a)
    ensures |r.0| == |t| && r.1 < |t| && r.0[r.1].Used? && r.0[r.1].addr == a
  {
    var i := Find(t, a);
    if i < |t| then (t, i) else (t[FirstFree(t) := Used(a, [])], FirstFree(t))
  }

  /** A frame of received data: the packages it completes leave the slot's buffer. */
  function Receive(t: seq<Slot>, a: Addr, data: seq<Byte>): (r: (seq<Slot>, seq<Pkg>))
    requires HasRoom(t, a)
    ensures |r.0| == |t|
  {
    var (t1, i) := Admit(t, a);
    var d := Drain(t1[i].buffer + data);
    (t1[i := Used(a, d.rest)], d.pkgs)
  }

  /** What is buffered for an address; nothing if it has no slot. */
  function BufferOf(t: seq<Slot>, a: Addr): (r: seq<Byte>) {
    var i := Find(t, a);
    if i < |t| then t[i].buffer else []
  }

  lemma FoundAt(t: seq<Slot>, a: Addr, i: nat)
    requires Distinct(t) && i < |t| && t[i].Used? && t[i].addr == a
    ensures Find(t, a) == i
  {
  }

  /** Writing one slot changes what is buffered for that slot's address only. */
  lemma WriteSlot(t: seq<Slot>, i: nat, s: Slot, b: Addr)
    requires i < |t| && Distinct(t) && Distinct(t[i := s])
    requires (t[i].Used? ==> t[i].addr != b) && (s.Used? ==> s.addr != b)
    ensures BufferOf(t[i := s], b) == BufferOf(t, b)
  {
    var u := t[i := s];
    var k := Find(t, b);
    if k < |t| {
      assert k != i && u[k] == t[k];
      FoundAt(u, b, k);
    } else {
    }
  }

  lemma AdmitKeeps(t: seq<Slot>, a: Addr, b: Addr)
    requires Distinct(t) && HasRoom(t, a)
    ensures var (u, i) := Admit(t, a);
            Distinct(u) && u[i].buffer == BufferOf(t, a) && BufferOf(u, b) == BufferOf(t, b)
  {
    if Find(t, a) == |t| {
      var i := FirstFree(t);
      assert Distinct(t[i := Used(a, [])]);
      if a == b {
        FoundAt(t[i := Used(a, [])], a, i);
      } else {
        WriteSlot(t, i, Used(a, []), b);
      }
    }
  }

  /** A frame feeds the buffer of its own address and no other, and two slots never share an
      address. */
  lemma ReceiveFeedsOne(t: seq<Slot>, a: Addr, data: seq<Byte>, b: Addr)
    requires Distinct(t) && HasRoom(t, a)
    ensures var (u, ps) := Receive(t, a, data);
            var d := Drain(BufferOf(t, a) + data);
            && Distinct(u) && ps == d.pkgs
            && BufferOf(u, b) == if b == a then d.rest else BufferOf(t, b)
  {
    hide Drain;
    AdmitKeeps(t, a, b);
    var (t1, i) := Admit(t, a);
    var d := Drain(BufferOf(t, a) + data);
    var u := t1[i := Used(a, d.rest)];
    assert Distinct(u);
    if b == a {
      FoundAt(u, a, i);
    } else {
      WriteSlot(t1, i, Used(a, d.rest), b);
    }
  }

  /** Taking a device out empties its buffer and no other. */
  lemma RemoveDropsOne(t: seq<Slot>, i: nat, b: Addr)
    requires Distinct(t) && i < |t|
    ensures var u := t[i := Free];
            && Distinct(u)
            && BufferOf(u, b) == if t[i].Used? && t[i].addr == b then [] else BufferOf(t, b)
  {
    var u := t[i := Free];
    if t[i].Used? && t[i].addr == b {
    } else {
      WriteSlot(t, i, Free, b);
    }
  }

  // ---------- Runs ----------

  /** What the broker's two threads do to the table: a frame of received data, or the removal of a
      device that did not answer. */
  datatype Event = Frame(addr: Addr, data: seq<Byte>) | Remove(index: nat)

  datatype Delivery = Delivery(addr: Addr, pkg: Pkg)

  function Tagged(a: Addr, ps: seq<Pkg>): (r: seq<Delivery>) {
    if ps == [] then [] else [Delivery(a, ps[0])] + Tagged(a, ps[1..])
  }

  predicate Enabled(t: seq<Slot>, e: Event) {
    match e
    case Frame(a, _) => HasRoom(t, a)
    case Remove(i) => i < |t| && t[i].Used?
  }

  function Step(t: seq<Slot>, e: Event): (r: (seq<Slot>, seq<Delivery>))
    requires Enabled(t, e)
    ensures |r.0| == |t|
  {
    match e
    case Frame(a, data) => var (u, ps) := Receive(t, a, data); (u, Tagged(a, ps))
    case Remove(i) => (t[i := Free], [])
  }

  predicate Runs(t: seq<Slot>, es: seq<Event>)
    decreases |es|
  {
    es == [] || (Enabled(t, es[0]) && Runs(Step(t, es[0]).0, es[1..]))
  }

  function Run(t: seq<Slot>, es: seq<Event>): (r: (seq<Slot>, seq<Delivery>))
    requires Runs(t, es)
    ensures |r.0| == |t|
    decreases |es|
  {
    if es == [] then (t, [])
    else
      var (t1, ds) := Step(t, es[0]);
      var (t2, more) := Run(t1, es[1..]);
      (t2, ds + more)
  }

  /** The packages delivered for one address. */
  function From(ds: seq<Delivery>, a: Addr): (r: seq<Pkg>) {
    if ds == [] then []
    else if ds[0].addr == a then [ds[0].pkg] + From(ds[1..], a) else From(ds[1..], a)
  }

  /** The data that arrived from one address. */
  function Chunks(es: seq<Event>, a: Addr): (r: seq<seq<Byte>>) {
    if es == [] then []
    else if es[0].Frame? && es[0].addr == a then [es[0].data] + Chunks(es[1..], a) else Chunks(es[1..], a)
  }

  /** The address is not taken out during the run. */
  predicate Stays(t: seq<Slot>, es: seq<Event>, a: Addr)
    requires Runs(t, es)
    decreases |es|
  {
    es == [] || ((es[0].Remove? ==> t[es[0].index].addr != a) && Stays(Step(t, es[0]).0, es[1..], a))
  }

  lemma {:induction false} FromAppend(x: seq<Delivery>, y: seq<Delivery>, a: Addr)
    ensures From(x + y, a) == From(x, a) + From(y, a)
  {
    if x == [] {
      assert x + y == y;
    } else {
      assert (x + y)[1..] == x[1..] + y;
      FromAppend(x[1..], y, a);
    }
  }

  lemma {:induction false} FromTagged(a: Addr, ps: seq<Pkg>, b: Addr)
    ensures From(Tagged(a, ps), b) == if a == b then ps else []
  {
    if ps != [] {
      FromTagged(a, ps[1..], b);
    }
  }

  lemma StepFeedsOne(t: seq<Slot>, e: Event, a: Addr)
    requires Distinct(t) && Enabled(t, e)
    requires e.Remove? ==> t[e.index].addr != a
    ensures var (u, ds) := Step(t, e);
            && Distinct(u)
            && if e.Frame? && e.addr == a then
                 var d := Drain(BufferOf(t, a) + e.data); BufferOf(u, a) == d.rest && From(ds, a) == d.pkgs
               else BufferOf(u, a) == BufferOf(t, a) && From(ds, a) == []
  {
    hide Drain;
    hide BufferOf;
    match e
    case Frame(b, data) =>
      ReceiveFeedsOne(t, b, data, a);
      FromTagged(b, Receive(t, b, data).1, a);
    case Remove(i) =>
      RemoveDropsOne(t, i, a);
  }

  /** However the devices' frames interleave, each device's packages are exactly those its own
      bytes would give alone, and its buffer holds exactly what they would leave. */
  lemma {:induction false} Demultiplexed(t: seq<Slot>, es: seq<Event>, a: Addr)
    requires Distinct(t) && Runs(t, es) && Stays(t, es, a)
    requires Roomy(BufferOf(t, a), Chunks(es, a))
    ensures var (u, ds) := Run(t, es);
            var alone := Framer.Run(BufferOf(t, a), Chunks(es, a));
            Distinct(u) && From(ds, a) == alone.pkgs && BufferOf(u, a) == alone.rest
    decreases |es|
  {
    hide Drain;
    hide BufferOf;
    if es != [] {
      var (t1, ds) := Step(t, es[0]);
      StepFeedsOne(t, es[0], a);
      Demultiplexed(t1, es[1..], a);
      FromAppend(ds, Run(t1, es[1..]).1, a);
      if es[0].Frame? && es[0].addr == a {
        assert Chunks(es, a)[1..] == Chunks(es[1..], a);
      }
    }
  }

  // ---------- Fragments of packages ----------

  /** The fragments of package after package. */
  ghost function FragmentAll(ps: seq<Pkg>): (r: seq<seq<Byte>>)
    requires AllWellFormed(ps)
  {
    if ps == [] then [] else Fragments(Encoding(ps[0])) + FragmentAll(ps[1..])
  }

  lemma {:induction false} FlatAppend(x: seq<seq<Byte>>, y: seq<seq<Byte>>)
    ensures Flat(x + y) == Flat(x) + Flat(y)
  {
    if x == [] {
      assert x + y == y;
    } else {
      assert (x + y)[1..] == x[1..] + y;
      FlatAppend(x[1..], y);
      assert x[0] + (Flat(x[1..]) + Flat(y)) == (x[0] + Flat(x[1..])) + Flat(y);
    }
  }

  lemma {:induction false} FragmentAllJoins(ps: seq<Pkg>)
    requires AllWellFormed(ps)
    ensures Flat(FragmentAll(ps)) == Stream(ps)
  {
    if ps != [] {
      hide Encoding;
      FragmentAllJoins(ps[1..]);
      FragmentsJoin(Encoding(ps[0]));
      FlatAppend(Fragments(Encoding(ps[0])), FragmentAll(ps[1..]));
    }
  }

  lemma {:induction false} RoomyAppend(buf: seq<Byte>, x: seq<seq<Byte>>, y: seq<seq<Byte>>)
    ensures Roomy(buf, x + y) <==> Roomy(buf, x) && Roomy(Framer.Run(buf, x).rest, y)
    decreases |x|
  {
    hide Drain;
    if x == [] {
      assert x + y == y;
    } else {
      assert (x + y)[1..] == x[1..] + y;
      RoomyAppend(Framer.Receive(buf, x[0]).rest, x[1..], y);
    }
  }

  /** The fragments of one package never fill the buffer, and leave it empty. */
  lemma {:induction false} OnePackageFits(p: Pkg, buf: seq<Byte>, left: seq<Byte>)
    requires WellFormed(p) && buf + left == Encoding(p) && left != [] && |Encoding(p)| <= MAXRECV
    ensures Roomy(buf, Fragments(left)) && Framer.Run(buf, Fragments(left)).rest == []
    decreases |left|
  {
    hide Encoding;
    hide Next;
    var fs := Fragments(left);
    if |left| > MAXSENDBUFFER {
      var now, later := left[..MAXSENDBUFFER], left[MAXSENDBUFFER..];
      assert now + later == left && (buf + now) + later == Encoding(p);
      assert buf + now <= Encoding(p);
      NextOfPrefix(p, buf + now);
      OnePackageFits(p, buf + now, later);
      assert fs[1..] == Fragments(later);
    } else {
      assert Encoding(p) + [] == Encoding(p);
      NextOfEncoding(p, []);
      NextOfNothing();
      assert fs == [left] && buf + left == Encoding(p);
      assert Drain(Encoding(p)).rest == Drain([]).rest == [];
      assert fs[1..] == [];
    }
  }

  ghost predicate Sendable(ps: seq<Pkg>) {
    AllWellFormed(ps) && forall i :: 0 <= i < |ps| ==> |Encoding(ps[i])| <= MAXRECV
  }

  lemma {:induction false} FragmentsFit(ps: seq<Pkg>)
    requires Sendable(ps)
    ensures Roomy([], FragmentAll(ps))
    decreases |ps|
  {
    if ps != [] {
      hide Encoding;
      hide Drain;
      var enc := Encoding(ps[0]);
      assert [] + enc == enc;
      OnePackageFits(ps[0], [], enc);
      FragmentsFit(ps[1..]);
      RoomyAppend([], Fragments(enc), FragmentAll(ps[1..]));
    }
  }

  /** Fragment and reassemble. From an empty table, while frames of any number of devices interleave
      and other devices come and go, the fragments of a device's packages that have arrived deliver
      exactly the packages they complete, in order, and the device's buffer holds exactly the
      unfinished rest; the buffer is never full. Once all its fragments are there, all its packages
      have been delivered. */
  lemma FragmentsReassemble(es: seq<Event>, a: Addr, ps: seq<Pkg>)
    requires Sendable(ps) && Chunks(es, a) <= FragmentAll(ps)
    requires Runs(Empty(), es) && Stays(Empty(), es, a)
    ensures |Flat(Chunks(es, a))| <= |Stream(ps)|
    ensures var (u, ds) := Run(Empty(), es);
            (From(ds, a), BufferOf(u, a)) == Whole(ps, |Flat(Chunks(es, a))|)
    ensures Chunks(es, a) == FragmentAll(ps) ==> From(Run(Empty(), es).1, a) == ps
  {
    hide Framer.Run;
    hide Runs;
    hide Stays;
    hide Chunks;
    hide FragmentAll;
    hide Encoding;
    hide Run;
    hide Drain;
    hide Stream;
    hide Whole;
    hide Roomy;
    var all, came := FragmentAll(ps), Chunks(es, a);
    var rest := all[|came|..];
    assert all == came + rest;
    FragmentsFit(ps);
    RoomyAppend([], came, rest);
    FragmentAllJoins(ps);
    FlatAppend(came, rest);
    assert Flat(came) <= Stream(ps);
    Demultiplexed(Empty(), es, a);
    ChunkIndependence(ps, came);
    WholeStream(ps);
  }

  function Empty(): (r: seq<Slot>) {
    seq(MAXDEVICECOUNT, _ => Free)
  }

  // ---------- Frames of received data ----------

  /** A frame of received data as the radio writes it. Its first address byte stands where a request
      has its frame id. */
  datatype RxFrame = RxFrame(addr: Addr, addr16: U16, option: Byte, data: seq<Byte>)

  function RxData(f: RxFrame): (r: seq<Byte>) {
    AddrBytes(f.addr) + [f.addr16 / 256, f.addr16 % 256, f.option] + f.data
  }

  function RxRequest(f: RxFrame): (r: Request) {
    Request(ZB_RX_RESPONSE, RxData(f)[0], RxData(f)[1..])
  }

  const RX_DATA_OFFSET := 11

  /** What the broker reads from a response. A response too short for the fixed part makes the source
      read bytes that were not received. */
  datatype Reading = Data(event: Event) | TooShort | NotData

  function ReadRx(r: Response): (f: Reading) {
    if r.apiId != ZB_RX_RESPONSE then NotData
    else if |r.data| < RX_DATA_OFFSET then TooShort
    else Data(Frame(JoinAddr(r.data), r.data[RX_DATA_OFFSET..]))
  }

  function ReadAll(rs: seq<Response>): (r: seq<Reading>) {
    if rs == [] then [] else [ReadRx(rs[0])] + ReadAll(rs[1..])
  }

  function FrameEvents(fs: seq<RxFrame>): (r: seq<Event>) {
    if fs == [] then [] else [Frame(fs[0].addr, fs[0].data)] + FrameEvents(fs[1..])
  }

  function RxRequests(fs: seq<RxFrame>): (r: seq<Request>) {
    if fs == [] then [] else [RxRequest(fs[0])] + RxRequests(fs[1..])
  }

  function AsReadings(es: seq<Event>): (r: seq<Reading>) {
    if es == [] then [] else [Data(es[0])] + AsReadings(es[1..])
  }

  lemma ReadOne(f: RxFrame)
    ensures var q := RxRequest(f);
            ReadRx(Response(q.apiId, [q.frameId] + q.data)) == Data(Frame(f.addr, f.data))
  {
    var d := RxData(f);
    assert [d[0]] + d[1..] == d;
    var rest := [f.addr16 / 256, f.addr16 % 256, f.option] + f.data;
    assert d == AddrBytes(f.addr) + rest;
    AddressRoundTrip(f.addr, rest);
    assert d[RX_DATA_OFFSET..] == f.data;
  }

  lemma {:induction false} ReadEach(fs: seq<RxFrame>)
    ensures ReadAll(Responses(RxRequests(fs))) == AsReadings(FrameEvents(fs))
  {
    if fs != [] {
      hide RxRequest;
      hide ReadRx;
      ReadOne(fs[0]);
      ReadEach(fs[1..]);
    }
  }

  lemma {:induction false} RxRequestsAt(fs: seq<RxFrame>)
    requires forall i :: 0 <= i < |fs| ==> |fs[i].data| <= 95
    ensures var rs := RxRequests(fs); forall i :: 0 <= i < |rs| ==> |rs[i].data| <= 105
  {
    if fs != [] {
      RxRequestsAt(fs[1..]);
      var rs := RxRequests(fs);
      assert |rs[0].data| == 10 + |fs[0].data|;
      forall i | 1 <= i < |rs|
        ensures |rs[i].data| <= 105
      {
        assert rs[i] == RxRequests(fs[1..])[i - 1];
      }
    }
  }

  /** From the serial line to the table: frames of received data that arrive over any number of polls
      reach the broker with the sender's address and the payload it sent, in order. */
  lemma FramesAreRead(st: Rx, polls: seq<Poll>, fs: seq<RxFrame>)
    requires Reachable(st) && Between(st) && Bytes(polls) == Wires(RxRequests(fs))
    requires forall i :: 0 <= i < |fs| ==> |fs[i].data| <= 95
    ensures ReadAll(Session(st, polls).0) == AsReadings(FrameEvents(fs))
  {
    hide Session;
    RxRequestsAt(fs);
    SendReceiveAll(st, polls, RxRequests(fs));
    ReadEach(fs);
  }

  // ---------- From the line to the packages ----------

  /** The frames of received data among what was read. */
  function EventsOf(rs: seq<Reading>): (r: seq<Event>) {
    if rs == [] then [] else (if rs[0].Data? then [rs[0].event] else []) + EventsOf(rs[1..])
  }

  lemma {:induction false} EventsOfReadings(es: seq<Event>)
    ensures EventsOf(AsReadings(es)) == es
  {
    if es != [] {
      EventsOfReadings(es[1..]);
      assert ([Data(es[0])] + AsReadings(es[1..]))[1..] == AsReadings(es[1..]);
    }
  }

  lemma {:induction false} FramesStay(t: seq<Slot>, fs: seq<RxFrame>, a: Addr)
    requires Runs(t, FrameEvents(fs))
    ensures Stays(t, FrameEvents(fs), a)
    decreases |fs|
  {
    hide Step;
    hide Enabled;
    if fs != [] {
      var es := FrameEvents(fs);
      assert es[1..] == FrameEvents(fs[1..]);
      FramesStay(Step(t, es[0]).0, fs[1..], a);
    }
  }

  /** From the serial line to the packages. The bytes of any interleaving of many devices' frames, read
      over any polls, bring the broker exactly those frames; and of the packages a device sent in
      fragments, exactly those that are complete have been delivered, in order, and exactly the
      unfinished rest is buffered. */
  lemma LineToPackages(st: Rx, polls: seq<Poll>, fs: seq<RxFrame>, a: Addr, ps: seq<Pkg>)
    requires Reachable(st) && Between(st) && Bytes(polls) == Wires(RxRequests(fs))
    requires forall i :: 0 <= i < |fs| ==> |fs[i].data| <= 95
    requires Runs(Empty(), FrameEvents(fs))
    requires Sendable(ps) && Chunks(FrameEvents(fs), a) <= FragmentAll(ps)
    ensures |Flat(Chunks(FrameEvents(fs), a))| <= |Stream(ps)|
    ensures var es := EventsOf(ReadAll(Session(st, polls).0));
            && es == FrameEvents(fs)
            && var (u, ds) := Run(Empty(), es);
               && (From(ds, a), BufferOf(u, a)) == Whole(ps, |Flat(Chunks(FrameEvents(fs), a))|)
               && (Chunks(FrameEvents(fs), a) == FragmentAll(ps) ==> From(ds, a) == ps)
  {
    hide Session;
    hide Stream;
    hide Whole;
    hide Run;
    hide Chunks;
    hide FragmentAll;
    hide Wires;
    hide From;
    hide BufferOf;
    var es := FrameEvents(fs);
    FramesAreRead(st, polls, fs);
    EventsOfReadings(es);
    FramesStay(Empty(), fs, a);
    FragmentsReassemble(es, a, ps);
  }

  // ---------- As bytes ----------

  /** A response with api id 0x90 is eight address bytes, three that are passed over, and the payload;
      with fewer than eleven bytes it is too short, and with another api id it is no received data. */
  lemma RxLayout(a: Addr, x: Byte, y: Byte, option: Byte, payload: seq<Byte>, r: Response)
    ensures ReadRx(Response(0x90, AddrBytes(a) + ([x, y, option] + payload))) == Data(Frame(a, payload))
    ensures r.apiId != 0x90 ==> ReadRx(r) == NotData
    ensures r.apiId == 0x90 && |r.data| < 11 ==> ReadRx(r) == TooShort
  {
    hide AddrBytes;
    hide JoinAddr;
    AddressBytes(a);
    AddressRoundTrip(a, [x, y, option] + payload);
    var d := AddrBytes(a) + ([x, y, option] + payload);
    assert d[11..] == payload;
  }

  /** The broker starts with ten free slots. */
  lemma StartsFree()
    ensures |Empty()| == 10 && forall i :: 0 <= i < 10 ==> Empty()[i] == Free
  {
  }
}
