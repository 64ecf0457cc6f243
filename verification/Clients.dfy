/**
 The server's receive loop over all its clients. Chunks of many clients arrive interleaved, every
 client slot has a receive buffer of its own, and each completed package is handled, under the slot
 it came from, before the next look at the buffer.
 */
module Clients {
  import opened Package
  import opened Framer
  import opened Manager

  /** A disconnect leaves the slot to a later client, who starts with an empty buffer. */
  datatype Event = Chunk(socket: nat, bytes: seq<Byte>) | Closed(socket: nat)

  predicate InRange(line: seq<Event>, n: nat) {
    forall i :: 0 <= i < |line| ==> line[i].socket < n
  }

  function Tagged(socket: nat, ps: seq<Pkg>): (run: seq<Arrival>)
    ensures |run| == |ps|
  {
    if ps == [] then [] else [Arrival(socket, ps[0])] + Tagged(socket, ps[1..])
  }

  /** The packages the manager gets, in the order it gets them. */
  function Arrivals(bufs: seq<seq<Byte>>, line: seq<Event>): (run: seq<Arrival>)
    requires InRange(line, |bufs|)
    decreases |line|
  {
    if line == [] then []
    else
      match line[0]
      case Chunk(c, bytes) =>
        var d := Receive(bufs[c], bytes);
        Tagged(c, d.pkgs) + Arrivals(bufs[c := d.rest], line[1..])
      case Closed(c) => Arrivals(bufs[c := []], line[1..])
  }

  /** What one slot sent. */
  function ChunksOf(line: seq<Event>, c: nat): (chunks: seq<seq<Byte>>) {
    if line == [] then []
    else (if line[0].Chunk? && line[0].socket == c then [line[0].bytes] else []) + ChunksOf(line[1..], c)
  }

  /** What the manager got from one slot. */
  function From(run: seq<Arrival>, c: nat): (ps: seq<Pkg>) {
    if run == [] then [] else (if run[0].socket == c then [run[0].pkg] else []) + From(run[1..], c)
  }

  lemma {:induction false} FromConcat(a: seq<Arrival>, b: seq<Arrival>, c: nat)
    ensures From(a + b, c) == From(a, c) + From(b, c)
  {
    hide From;
    if a == [] {
      NoneFrom(c);
      assert a + b == b && From(a, c) + From(b, c) == From(b, c);
    } else {
      FromFirst(a[0], a[1..], c);
      assert [a[0]] + a[1..] == a;
      FromConcat(a[1..], b, c);
      FromFirst(a[0], a[1..] + b, c);
      assert a + b == [a[0]] + (a[1..] + b);
    }
  }

  lemma NoneFrom(c: nat)
    ensures From([], c) == []
  {
  }

  lemma FromFirst(a: Arrival, run: seq<Arrival>, c: nat)
    ensures From([a] + run, c) == (if a.socket == c then [a.pkg] else []) + From(run, c)
  {
    assert ([a] + run)[1..] == run;
  }

  lemma {:induction false} FromTagged(socket: nat, ps: seq<Pkg>, c: nat)
    ensures From(Tagged(socket, ps), c) == if socket == c then ps else []
  {
    if ps != [] {
      var run := Tagged(socket, ps);
      assert run[1..] == Tagged(socket, ps[1..]);
      FromTagged(socket, ps[1..], c);
    }
  }

  /** However the clients' chunks interleave, and whoever else disconnects, what the manager gets from
      a slot is what that slot's chunks alone deliver. */
  lemma {:induction false} OwnChunksOnly(bufs: seq<seq<Byte>>, line: seq<Event>, c: nat)
    requires InRange(line, |bufs|) && c < |bufs| && Closed(c) !in line
    ensures From(Arrivals(bufs, line), c) == Framer.Run(bufs[c], ChunksOf(line, c)).pkgs
    decreases |line|
  {
    hide Receive;
    if line != [] {
      var e := line[0];
      match e
      case Chunk(socket, bytes) =>
        var d := Receive(bufs[socket], bytes);
        OwnChunksOnly(bufs[socket := d.rest], line[1..], c);
        FromConcat(Tagged(socket, d.pkgs), Arrivals(bufs[socket := d.rest], line[1..]), c);
        FromTagged(socket, d.pkgs, c);
        if socket == c {
          assert ([bytes] + ChunksOf(line[1..], c))[1..] == ChunksOf(line[1..], c);
        }
      case Closed(socket) =>
        OwnChunksOnly(bufs[socket := []], line[1..], c);
        assert [] + ChunksOf(line[1..], c) == ChunksOf(line[1..], c);
    }
  }

  function Empty(n: nat): (bufs: seq<seq<Byte>>)
    ensures |bufs| == n && forall i :: 0 <= i < n ==> bufs[i] == []
  {
    seq(n, _ => [])
  }

  /** Of a client whose chunks are part of a stream of packages the manager gets exactly the packages
      that part completes, in order. */
  lemma PackagesArrive(n: nat, line: seq<Event>, c: nat, ps: seq<Pkg>)
    requires InRange(line, n) && c < n && Closed(c) !in line && AllWellFormed(ps)
    requires Flat(ChunksOf(line, c)) <= Stream(ps) && Roomy([], ChunksOf(line, c))
    ensures From(Arrivals(Empty(n), line), c) == Whole(ps, |Flat(ChunksOf(line, c))|).0
  {
    hide Arrivals;
    hide From;
    hide Framer.Run;
    OwnChunksOnly(Empty(n), line, c);
    ChunkIndependence(ps, ChunksOf(line, c));
  }

  lemma {:induction false} TaggedReceived(socket: nat, ps: seq<Pkg>)
    requires forall p :: p in ps ==> Received(p)
    ensures forall a :: a in Tagged(socket, ps) ==> Received(a.pkg)
  {
    if ps != [] {
      TaggedReceived(socket, ps[1..]);
    }
  }

  /** Whatever the clients send, the manager can take what it gets. */
  lemma {:induction false} ArrivalsReceived(bufs: seq<seq<Byte>>, line: seq<Event>)
    requires InRange(line, |bufs|)
    ensures forall a :: a in Arrivals(bufs, line) ==> Received(a.pkg)
    decreases |line|
  {
    hide Received;
    hide Receive;
    if line != [] {
      match line[0]
      case Chunk(c, bytes) =>
        var d := Receive(bufs[c], bytes);
        DeliveredAreReceived(bufs[c], [bytes]);
        assert forall p :: p in d.pkgs ==> p in Framer.Run(bufs[c], [bytes]).pkgs;
        TaggedReceived(c, d.pkgs);
        ArrivalsReceived(bufs[c := d.rest], line[1..]);
      case Closed(c) =>
        ArrivalsReceived(bufs[c := []], line[1..]);
    }
  }

  // ---------- Addresses ----------

  function Requests(ps: seq<Pkg>): (r: nat) {
    if ps == [] then 0 else (if Dispatch(ps[0]).IpRequest? then 1 else 0) + Requests(ps[1..])
  }

  /** The addresses sent to one slot. */
  function GivenTo(given: seq<(nat, seq<Byte>)>, c: nat): (addresses: seq<seq<Byte>>) {
    if given == [] then [] else (if given[0].0 == c then [given[0].1] else []) + GivenTo(given[1..], c)
  }

  lemma {:induction false} OnePerRequest(s: State, run: seq<Arrival>, c: nat)
    requires Runs(s, run)
    ensures |GivenTo(Given(s, run), c)| == Requests(From(run, c))
    decreases |run|
  {
    hide Given;
    hide Runs;
    hide Handle;
    hide Dispatch;
    if run == [] {
      GivenNothing(s, run);
    } else {
      GivenStep(s, run);
      var next := Handle(s, run[0]).state;
      OnePerRequest(next, run[1..], c);
      OneMore((run[0].socket, IssuedAddress(s.issued)), Given(next, run[1..]), run[0].pkg, From(run[1..], c), c);
      assert [] + From(run[1..], c) == From(run[1..], c);
    }
  }

  lemma OneMore(first: (nat, seq<Byte>), later: seq<(nat, seq<Byte>)>, p: Pkg, rest: seq<Pkg>, c: nat)
    ensures |GivenTo([first] + later, c)| == (if first.0 == c then 1 else 0) + |GivenTo(later, c)|
    ensures Requests([p] + rest) == (if Dispatch(p).IpRequest? then 1 else 0) + Requests(rest)
  {
    assert ([first] + later)[1..] == later && ([p] + rest)[1..] == rest;
  }

  lemma {:induction false} GivenToIn(given: seq<(nat, seq<Byte>)>, c: nat)
    ensures forall x :: x in GivenTo(given, c) ==> (c, x) in given
  {
    if given != [] {
      GivenToIn(given[1..], c);
    }
  }

  /** From the clients' bytes to their addresses: a client whose stream of packages has arrived in
      full, in whatever chunks and between whatever chunks of others, has been sent one address for
      each of its requests, and no address has been sent twice, to it or to anyone. */
  lemma AddressesOverClients(n: nat, line: seq<Event>, c: nat, ps: seq<Pkg>)
    requires InRange(line, n) && c < n && Closed(c) !in line && AllWellFormed(ps)
    requires Flat(ChunksOf(line, c)) == Stream(ps) && Roomy([], ChunksOf(line, c))
    requires Runs(Init(), Arrivals(Empty(n), line))
    ensures var given := Given(Init(), Arrivals(Empty(n), line));
            && |GivenTo(given, c)| == Requests(ps)
            && (forall i, j :: 0 <= i < j < |given| ==> given[i].1 != given[j].1)
            && (forall x :: x in GivenTo(given, c) ==> (c, x) in given)
  {
    hide Arrivals;
    hide Given;
    hide Runs;
    hide Requests;
    hide GivenTo;
    hide From;
    var run := Arrivals(Empty(n), line);
    PackagesArrive(n, line, c, ps);
    WholeStream(ps);
    OnePerRequest(Init(), run, c);
    AddressesOverRuns(run);
    GivenToIn(Given(Init(), run), c);
  }

  // ---------- Disconnects ----------

  /** A client that takes over a slot starts with an empty buffer: what its predecessor left unfinished
      is gone, and what it finished was delivered. */
  lemma {:induction false} FreshAfterClose(bufs: seq<seq<Byte>>, before: seq<Event>, after: seq<Event>, c: nat)
    requires InRange(before, |bufs|) && InRange(after, |bufs|) && c < |bufs| && Closed(c) !in before && Closed(c) !in after
    ensures InRange(before + [Closed(c)] + after, |bufs|)
    ensures From(Arrivals(bufs, before + [Closed(c)] + after), c)
            == Framer.Run(bufs[c], ChunksOf(before, c)).pkgs + Framer.Run([], ChunksOf(after, c)).pkgs
    decreases |before|
  {
    hide Receive;
    hide From;
    hide Framer.Run;
    var line := before + [Closed(c)] + after;
    if before == [] {
      NoChunks(bufs[c], c);
      assert line[0] == Closed(c) && line[1..] == after;
      OwnChunksOnly(bufs[c := []], after, c);
      assert [] + Framer.Run([], ChunksOf(after, c)).pkgs == Framer.Run([], ChunksOf(after, c)).pkgs;
    } else {
      var e := before[0];
      assert line[0] == e && line[1..] == before[1..] + [Closed(c)] + after;
      match e
      case Chunk(socket, bytes) =>
        var d := Receive(bufs[socket], bytes);
        FreshAfterClose(bufs[socket := d.rest], before[1..], after, c);
        FromConcat(Tagged(socket, d.pkgs), Arrivals(bufs[socket := d.rest], line[1..]), c);
        FromTagged(socket, d.pkgs, c);
        OneChunk(bufs[c], before, c);
      case Closed(socket) =>
        FreshAfterClose(bufs[socket := []], before[1..], after, c);
        assert [] + ChunksOf(before[1..], c) == ChunksOf(before[1..], c);
    }
  }

  lemma NoChunks(buf: seq<Byte>, c: nat)
    ensures ChunksOf([], c) == [] && Framer.Run(buf, []).pkgs == []
  {
  }

  lemma OneChunk(buf: seq<Byte>, line: seq<Event>, c: nat)
    requires line != [] && line[0].Chunk?
    ensures var rest := ChunksOf(line[1..], c);
            if line[0].socket == c then
              var d := Receive(buf, line[0].bytes);
              Framer.Run(buf, ChunksOf(line, c)).pkgs == d.pkgs + Framer.Run(d.rest, rest).pkgs
            else ChunksOf(line, c) == rest
  {
    var rest := ChunksOf(line[1..], c);
    if line[0].socket == c {
      assert ([line[0].bytes] + rest)[1..] == rest;
    } else {
      assert [] + rest == rest;
    }
  }
}
