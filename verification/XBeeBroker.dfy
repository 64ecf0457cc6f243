/**
 The XBee broker: packages are cut into fragments for the radio, and the fragments that arrive
 from many devices, interleaved, are put together again per device.
 */
module XBeeBroker {
  import opened Package
  import Framer
  import opened XBeeFrame

  const MAXSENDBUFFER := 60
  const MAXDEVICECOUNT := 10
  const ZB_TX_REQUEST: Byte := 0x10
  const ZB_RX_RESPONSE: Byte := 0x90
  const ZB_TX_API_LENGTH := 12
  const ZB_BROADCAST_ADDRESS := 0xfffe

  type U32 = x: int | 0 <= x < 0x1_0000_0000
  type U16 = x: int | 0 <= x < 0x1_0000

  /** A 64-bit radio address in two words. */
  datatype Addr = Addr(msb: U32, lsb: U32)

  // ---------- Addresses as bytes ----------

  function Split4(w: U32): (r: seq<Byte>) {
    [w / 0x100_0000 % 256, w / 0x1_0000 % 256, w / 0x100 % 256, w % 256]
  }

  function Join4(s: seq<Byte>): (r: U32)
    requires |s| == 4
  {
    (s[0] as int) * 0x100_0000 + (s[1] as int) * 0x1_0000 + (s[2] as int) * 0x100 + s[3]
  }

  function AddrBytes(a: Addr): (r: seq<Byte>) {
    Split4(a.msb) + Split4(a.lsb)
  }

  function JoinAddr(s: seq<Byte>): (r: Addr)
    requires |s| >= 8
  {
    Addr(Join4(s[..4]), Join4(s[4..8]))
  }

  lemma JoinSplit(w: U32)
    ensures Join4(Split4(w)) == w
  {
    var a, b, c := w / 0x100, w / 0x1_0000, w / 0x100_0000;
    assert w == 256 * a + w % 256;
    assert a / 256 == b && b / 256 == c;
    assert a == 256 * b + a % 256;
    assert b == 256 * c + b % 256;
  }

  /** The address survives being split into bytes and joined again. */
  lemma AddressRoundTrip(a: Addr, rest: seq<Byte>)
    ensures JoinAddr(AddrBytes(a) + rest) == a
  {
    var s := AddrBytes(a) + rest;
    assert s[..4] == Split4(a.msb) && s[4..8] == Split4(a.lsb);
    JoinSplit(a.msb);
    JoinSplit(a.lsb);
  }

  // ---------- Requests to the radio ----------

  datatype ZBTxRequest = ZBTxRequest(addr: Addr, addr16: U16, radius: Byte, option: Byte, payload: seq<Byte>)

  /** One byte of the frame data, by position. */
  function GetFrameData(r: ZBTxRequest, pos: nat): (f: Byte)
    requires pos < ZB_TX_API_LENGTH + |r.payload|
  {
    if pos == 0 then r.addr.msb / 0x100_0000 % 256
    else if pos == 1 then r.addr.msb / 0x1_0000 % 256
    else if pos == 2 then r.addr.msb / 0x100 % 256
    else if pos == 3 then r.addr.msb % 256
    else if pos == 4 then r.addr.lsb / 0x100_0000 % 256
    else if pos == 5 then r.addr.lsb / 0x1_0000 % 256
    else if pos == 6 then r.addr.lsb / 0x100 % 256
    else if pos == 7 then r.addr.lsb % 256
    else if pos == 8 then r.addr16 / 0x100 % 256
    else if pos == 9 then r.addr16 % 256
    else if pos == 10 then r.radius
    else if pos == 11 then r.option
    else r.payload[pos - ZB_TX_API_LENGTH]
  }

  function FrameData(r: ZBTxRequest): (f: seq<Byte>) {
    seq(ZB_TX_API_LENGTH + |r.payload|, i requires 0 <= i < ZB_TX_API_LENGTH + |r.payload| => GetFrameData(r, i))
  }

  /** The frame data is the address, the four fixed bytes and the payload, in that order. */
  lemma FrameDataLayout(r: ZBTxRequest)
    ensures FrameData(r) == AddrBytes(r.addr) + [r.addr16 / 256, r.addr16 % 256, r.radius, r.option] + r.payload
  {
    var s := AddrBytes(r.addr) + [r.addr16 / 256, r.addr16 % 256, r.radius, r.option] + r.payload;
    assert |s| == ZB_TX_API_LENGTH + |r.payload|;
  }

  /** The request the broker makes for a fragment. */
  function FragmentRequest(target: Addr, index: nat, fragment: seq<Byte>): (r: Request)
    requires index < 255
  {
    Request(ZB_TX_REQUEST, index + 1, FrameData(ZBTxRequest(target, ZB_BROADCAST_ADDRESS, 0, 0, fragment)))
  }

  // ---------- Cutting a package ----------

  function Fragments(s: seq<Byte>): (r: seq<seq<Byte>>) {
    if s == [] then []
    else if |s| <= MAXSENDBUFFER then [s]
    else [s[..MAXSENDBUFFER]] + Fragments(s[MAXSENDBUFFER..])
  }

  predicate FragmentSized(f: seq<Byte>) {
    1 <= |f| <= MAXSENDBUFFER
  }

  lemma {:induction false} FragmentsJoin(s: seq<Byte>)
    ensures Framer.Flat(Fragments(s)) == s
    ensures forall i :: 0 <= i < |Fragments(s)| ==> FragmentSized(Fragments(s)[i])
  {
    if |s| > MAXSENDBUFFER {
      var rest := s[MAXSENDBUFFER..];
      FragmentsJoin(rest);
      var fs := [s[..MAXSENDBUFFER]] + Fragments(rest);
      assert fs[1..] == Fragments(rest);
      assert s[..MAXSENDBUFFER] + rest == s;
      forall i | 0 <= i < |fs|
        ensures FragmentSized(fs[i])
      {
        if i > 0 {
          assert fs[i] == Fragments(rest)[i - 1];
        }
      }
    } else if s != [] {
      assert [s][1..] == [];
      assert s + [] == s;
    }
  }

  /** The sending loop: whole fragments first, then what is left. */
  method Cut(transfer: array<Byte>, n: nat) returns (fragments: seq<seq<Byte>>)
    requires n <= transfer.Length
    ensures fragments == Fragments(transfer[..n])
  {
    hide Fragments;
    var left: nat := n;
    var start: nat := 0;
    fragments := [];
    assert transfer[start..n] == transfer[..n];
    while left > 0
      invariant start <= n && start + left == n
      invariant fragments + Fragments(transfer[start..n]) == Fragments(transfer[..n])
    {
      var length := if left > MAXSENDBUFFER then MAXSENDBUFFER else left;
      var send := new Byte[MAXSENDBUFFER](_ => 0);
      var i, j := start, 0;
      while i < start + length
        invariant start <= i <= start + length && j == i - start
        invariant send[..j] == transfer[start..i]
      {
        send[j] := transfer[i];
        j := j + 1;
        i := i + 1;
      }
      ghost var s := transfer[start..n];
      assert s[..length] == transfer[start..start + length];
      assert s[length..] == transfer[start + length..n];
      OneFragment(s, length);
      assert fragments + ([send[..j]] + Fragments(s[length..])) == (fragments + [send[..j]]) + Fragments(s[length..]);
      fragments := fragments + [send[..j]];
      start := start + length;
      left := left - length;
    }
    assert transfer[start..n] == [];
    NoFragments();
    assert fragments + [] == fragments;
  }

  lemma NoFragments()
    ensures Fragments([]) == []
  {
  }

  lemma OneFragment(s: seq<Byte>, length: nat)
    requires s != [] && length == if |s| > MAXSENDBUFFER then MAXSENDBUFFER else |s|
    ensures Fragments(s) == [s[..length]] + Fragments(s[length..])
  {
    if |s| <= MAXSENDBUFFER {
      assert s[length..] == [] && s[..length] == s;
      assert [s] + [] == [s];
    }
  }

  // ---------- Fragments on the serial line ----------

  function FragmentRequests(target: Addr, index: nat, fs: seq<seq<Byte>>): (r: seq<Request>)
    requires index < 255
  {
    if fs == [] then [] else [FragmentRequest(target, index, fs[0])] + FragmentRequests(target, index, fs[1..])
  }

  /** The payloads of received transmit requests: what follows the frame id and the fixed part. */
  function Payloads(rs: seq<Response>): (r: seq<seq<Byte>>) {
    if rs == [] then []
    else [if |rs[0].data| > ZB_TX_API_LENGTH then rs[0].data[1 + ZB_TX_API_LENGTH..] else []] + Payloads(rs[1..])
  }

  /** Transmit requests for this device and this address. */
  predicate AllFor(rs: seq<Response>, target: Addr, index: nat) {
    rs == [] || (
      && rs[0].apiId == ZB_TX_REQUEST && |rs[0].data| >= 9 && rs[0].data[0] == index + 1
      && JoinAddr(rs[0].data[1..9]) == target && AllFor(rs[1..], target, index))
  }

  lemma OneRequest(target: Addr, index: nat, f: seq<Byte>)
    requires index < 255
    ensures var q := FragmentRequest(target, index, f);
            var d := [q.frameId] + q.data;
            && |q.data| == ZB_TX_API_LENGTH + |f| && d[0] == index + 1
            && JoinAddr(d[1..9]) == target && d[1 + ZB_TX_API_LENGTH..] == f
  {
    hide GetFrameData;
    var r := ZBTxRequest(target, ZB_BROADCAST_ADDRESS, 0, 0, f);
    FrameDataLayout(r);
    var q := FragmentRequest(target, index, f);
    var d := [q.frameId] + q.data;
    assert d[1..9] == AddrBytes(target) + [];
    AddressRoundTrip(target, []);
    assert d[1 + ZB_TX_API_LENGTH..] == f;
  }

  lemma {:induction false} RequestsRead(target: Addr, index: nat, fs: seq<seq<Byte>>)
    requires index < 255 && forall i :: 0 <= i < |fs| ==> FragmentSized(fs[i])
    ensures var qs := FragmentRequests(target, index, fs);
            && (forall i :: 0 <= i < |qs| ==> |qs[i].data| <= 105)
            && Payloads(Responses(qs)) == fs && AllFor(Responses(qs), target, index)
    decreases |fs|
  {
    hide FragmentRequest;
    hide JoinAddr;
    if fs != [] {
      OneRequest(target, index, fs[0]);
      RequestsRead(target, index, fs[1..]);
      var q, more := FragmentRequest(target, index, fs[0]), FragmentRequests(target, index, fs[1..]);
      assert FragmentSized(fs[0]);
      assert ([q] + more)[1..] == more && ([Response(q.apiId, [q.frameId] + q.data)] + Responses(more))[1..] == Responses(more);
      assert q.apiId == ZB_TX_REQUEST by { RequestApi(target, index, fs[0]); }
    }
  }

  lemma RequestApi(target: Addr, index: nat, f: seq<Byte>)
    requires index < 255
    ensures FragmentRequest(target, index, f).apiId == ZB_TX_REQUEST
  {
  }

  /** A package cut into fragments and sent, whatever the polls that read the line: each frame carries
      the device's frame id and address, and the payloads put together are the package. */
  lemma FragmentsReachTheRadio(st: Rx, polls: seq<Poll>, target: Addr, index: nat, s: seq<Byte>)
    requires index < MAXDEVICECOUNT && Reachable(st) && Between(st)
    requires Bytes(polls) == Wires(FragmentRequests(target, index, Fragments(s)))
    ensures var rs := Session(st, polls).0;
            AllFor(rs, target, index) && Framer.Flat(Payloads(rs)) == s
  {
    hide Session;
    hide Wires;
    hide Responses;
    FragmentsJoin(s);
    RequestsRead(target, index, Fragments(s));
    SendReceiveAll(st, polls, FragmentRequests(target, index, Fragments(s)));
  }

  // ---------- As bytes ----------

  /** The high word first, and in each word the high byte. */
  lemma AddressBytes(a: Addr)
    ensures var s := AddrBytes(a);
            && |s| == 8
            && ((s[0] as int * 256 + s[1] as int) * 256 + s[2] as int) * 256 + s[3] as int == a.msb
            && ((s[4] as int * 256 + s[5] as int) * 256 + s[6] as int) * 256 + s[7] as int == a.lsb
  {
    WordBytes(a.msb);
    WordBytes(a.lsb);
  }

  lemma WordBytes(w: U32)
    ensures var s := Split4(w);
            ((s[0] as int * 256 + s[1] as int) * 256 + s[2] as int) * 256 + s[3] as int == w
  {
    var a, b, c := w / 0x100, w / 0x1_0000, w / 0x100_0000;
    assert a / 256 == b && b / 256 == c;
    assert w == 256 * a + w % 256 && a == 256 * b + a % 256 && b == 256 * c + b % 256;
  }

  /** A fragment goes to the radio in a frame with api id 0x10 and, for frame id, the device's index plus
      one: its address, the unknown network address 0xfffe, two zeros and the fragment. */
  lemma FragmentFrame(target: Addr, index: nat, fragment: seq<Byte>)
    requires index < 255
    ensures FragmentRequest(target, index, fragment)
            == Request(0x10, index + 1, AddrBytes(target) + [0xff, 0xfe, 0, 0] + fragment)
  {
    FrameDataLayout(ZBTxRequest(target, ZB_BROADCAST_ADDRESS, 0, 0, fragment));
  }

  /** All fragments but the last have 60 bytes; the k-th starts at byte 60k. */
  lemma {:induction false} FragmentAt(s: seq<Byte>, k: nat)
    ensures |Fragments(s)| == (|s| + 59) / 60
    ensures k < |Fragments(s)| ==>
              60 * k < |s| && Fragments(s)[k] == s[60 * k..if 60 * k + 60 < |s| then 60 * k + 60 else |s|]
    decreases |s|
  {
    if |s| > 60 {
      hide Fragments;
      var rest := s[60..];
      FirstFragment(s);
      FragmentAt(rest, if k == 0 then 0 else k - 1);
      if 0 < k < |Fragments(s)| {
        assert Fragments(s)[k] == Fragments(rest)[k - 1];
        SliceOfRest(s, 60 * k, if 60 * k + 60 < |s| then 60 * k + 60 else |s|);
      }
    } else if s != [] {
      assert Fragments(s) == [s] && s[0..|s|] == s;
    }
  }

  lemma FirstFragment(s: seq<Byte>)
    requires |s| > 60
    ensures Fragments(s) == [s[0..60]] + Fragments(s[60..])
  {
    assert s[0..60] == s[..60];
  }

  lemma SliceOfRest(s: seq<Byte>, lo: nat, hi: nat)
    requires 60 <= lo <= hi <= |s|
    ensures s[60..][lo - 60..hi - 60] == s[lo..hi]
  {
  }
}
