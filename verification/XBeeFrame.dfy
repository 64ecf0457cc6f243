/**
 The XBee API frame codec: what sending a request writes to the serial line, and the
 byte-at-a-time receiver.

 The receiver polls the line once for every byte; between two polls the line may be idle, and
 an idle poll ends the call or leaves an escape pending. A schedule lists what the polls see.
 */
module XBeeFrame {
  import opened Package

  const START_BYTE: Byte := 0x7e
  const ESCAPE: Byte := 0x7d
  const XON: Byte := 0x11
  const XOFF: Byte := 0x13
  const MAX_FRAME_DATA_SIZE := 110

  const NO_ERROR: Byte := 0
  const CHECKSUM_FAILURE: Byte := 1
  const PACKET_EXCEEDS_BYTE_ARRAY_LENGTH: Byte := 2
  const UNEXPECTED_START_BYTE: Byte := 3

  // ---------- Sending ----------

  /** Exclusive or with 0x20. */
  function Flip(b: Byte): (r: Byte) {
    if b / 32 % 2 == 0 then b + 32 else b - 32
  }

  lemma FlipTwice(b: Byte)
    ensures Flip(Flip(b)) == b
  {
  }

  predicate Special(b: Byte) {
    b == START_BYTE || b == ESCAPE || b == XON || b == XOFF
  }

  function Escape(b: Byte): (r: seq<Byte>) {
    if Special(b) then [ESCAPE, Flip(b)] else [b]
  }

  function EscapeAll(s: seq<Byte>): (r: seq<Byte>) {
    if s == [] then [] else Escape(s[0]) + EscapeAll(s[1..])
  }

  /** Length, api id, frame id, data and checksum, before escaping. */
  function Body(apiId: Byte, frameId: Byte, data: seq<Byte>): (r: seq<Byte>) {
    var length := (|data| + 2) % 0x1_0000;
    var covered := [apiId, frameId] + data;
    [length / 256, length % 256] + covered + [0xff - Sum(covered) % 256]
  }

  function Wire(apiId: Byte, frameId: Byte, data: seq<Byte>): (r: seq<Byte>) {
    [START_BYTE] + EscapeAll(Body(apiId, frameId, data))
  }

  // ---------- Receiving ----------

  datatype Poll = Idle | Got(b: Byte)

  /** The receiver and its response. `frame` is the fixed data buffer. */
  datatype Rx = Rx(pos: nat, escape: bool, total: Byte, msb: Byte, lsb: Byte, apiId: Byte, checksum: Byte,
                   frameLength: Byte, complete: bool, error: Byte, frame: seq<Byte>)
  {
    predicate Done() {
      complete || error > 0
    }
  }

  function Reset(st: Rx): (r: Rx) {
    Rx(0, false, 0, 0, 0, 0, 0, 0, false, NO_ERROR, st.frame)
  }

  /** Safety: the position and with it every store into the data buffer stay in bounds. */
  predicate Bounded(st: Rx) {
    st.pos <= 111 && |st.frame| == MAX_FRAME_DATA_SIZE && (st.pos == 0 ==> !st.escape)
  }

  /** What one unescaped byte does; true if the call then returns. */
  function Place(st: Rx, b: Byte): (r: (Rx, bool))
    requires Bounded(st)
    ensures Bounded(r.0.(escape := false))
  {
    var st := if st.pos >= 3 then st.(total := (st.total + b) % 256) else st;
    if st.pos == 0 then (if b == START_BYTE then st.(pos := 1) else st, false)
    else if st.pos == 1 then (st.(msb := b, pos := 2), false)
    else if st.pos == 2 then (st.(lsb := b, pos := 3), false)
    else if st.pos == 3 then (st.(apiId := b, pos := 4), false)
    else if st.pos > MAX_FRAME_DATA_SIZE then (st.(error := PACKET_EXCEEDS_BYTE_ARRAY_LENGTH), true)
    else if st.pos == st.lsb + 3 then
      var st := if st.total == 0xff then st.(checksum := b, complete := true, error := NO_ERROR)
                else st.(error := CHECKSUM_FAILURE);
      (st.(frameLength := st.pos - 4, pos := 0), true)
    else (st.(frame := st.frame[st.pos - 4 := b], pos := st.pos + 1), false)
  }

  /** The receive loop: what is left of the schedule when the call returns. */
  function Loop(st: Rx, polls: seq<Poll>): (r: (Rx, seq<Poll>))
    requires Bounded(st)
    ensures Bounded(r.0) && |r.1| <= |polls| && (polls != [] ==> |r.1| < |polls|)
    decreases |polls|, 0
  {
    if polls == [] then (st, [])
    else if polls[0].Idle? then (st, polls[1..])
    else
      var b := polls[0].b;
      if st.pos > 0 && b == START_BYTE then (st.(error := UNEXPECTED_START_BYTE), polls[1..])
      else if st.pos > 0 && b == ESCAPE then
        if |polls| > 1 && polls[1].Got? then Handle(st, Flip(polls[1].b), polls[2..])
        else Loop(st.(escape := true), if |polls| > 1 then polls[2..] else [])
      else Handle(st, b, polls[1..])
  }

  function Handle(st: Rx, b: Byte, polls: seq<Poll>): (r: (Rx, seq<Poll>))
    requires Bounded(st)
    ensures Bounded(r.0) && |r.1| <= |polls|
    decreases |polls|, 1
  {
    var b := if st.escape then Flip(b) else b;
    var (st, stop) := Place(st.(escape := false), b);
    if stop then (st, polls) else Loop(st, polls)
  }

  /** One call of readPacket: a finished or failed response is discarded first. */
  function ReadPacket(st: Rx, polls: seq<Poll>): (r: (Rx, seq<Poll>))
    requires Bounded(st)
    ensures Bounded(r.0) && (polls != [] ==> |r.1| < |polls|)
  {
    Loop(if st.Done() then Reset(st) else st, polls)
  }

  datatype Response = Response(apiId: Byte, data: seq<Byte>)

  function ResponseOf(st: Rx): (r: Response)
    requires Bounded(st) && st.frameLength <= MAX_FRAME_DATA_SIZE
  {
    Response(st.apiId, st.frame[..st.frameLength])
  }

  /** Calls of readPacket until the schedule is used up, with the responses found on the way. */
  function Session(st: Rx, polls: seq<Poll>): (r: (seq<Response>, Rx))
    requires Bounded(st)
    decreases |polls|
  {
    if polls == [] then ([], st)
    else
      var (st1, rest) := ReadPacket(st, polls);
      var (found, last) := Session(st1, rest);
      (if st1.complete && st1.frameLength <= MAX_FRAME_DATA_SIZE then [ResponseOf(st1)] + found else found, last)
  }

  function Bytes(polls: seq<Poll>): (r: seq<Byte>) {
    if polls == [] then []
    else (if polls[0].Got? then [polls[0].b] else []) + Bytes(polls[1..])
  }

  // ---------- One symbol at a time ----------

  /** What a session makes of a call's outcome. */
  function Finish(r: (Rx, seq<Poll>)): (f: (seq<Response>, Rx))
    requires Bounded(r.0)
  {
    var (found, last) := Session(r.0, r.1);
    (if r.0.complete && r.0.frameLength <= MAX_FRAME_DATA_SIZE then [ResponseOf(r.0)] + found else found, last)
  }

  /** Going on in the same call, or in the next one, comes to the same. */
  lemma SessionIsLoop(st: Rx, polls: seq<Poll>)
    requires Bounded(st) && !st.Done()
    ensures Session(st, polls) == Finish(Loop(st, polls))
  {
    hide Loop;
    if polls == [] {
      LoopEmpty(st);
      assert Session(st, []) == ([], st);
    }
  }

  lemma LoopEmpty(st: Rx)
    requires Bounded(st)
    ensures Loop(st, []) == (st, [])
  {
  }

  lemma SameLoop(st: Rx, polls: seq<Poll>, st1: Rx, polls1: seq<Poll>)
    requires Bounded(st) && !st.Done() && Bounded(st1) && !st1.Done()
    requires Loop(st, polls) == Loop(st1, polls1)
    ensures Session(st, polls) == Session(st1, polls1)
  {
    hide Loop;
    hide Session;
    SessionIsLoop(st, polls);
    SessionIsLoop(st1, polls1);
  }

  /** An idle poll changes nothing. */
  lemma SessionIdle(st: Rx, polls: seq<Poll>)
    requires Bounded(st) && !st.Done() && polls != [] && polls[0].Idle?
    ensures Session(st, polls) == Session(st, polls[1..])
  {
    hide Session;
    SessionIsLoop(st, polls);
  }

  lemma PlaceGoesOn(st: Rx, b: Byte)
    requires Bounded(st) && !st.Done() && !st.escape && !Place(st, b).1
    ensures var n := Place(st, b).0; !n.Done() && !n.escape && Bounded(n)
    ensures st.pos > 0 ==> Place(st, b).0.pos == st.pos + 1
  {
  }

  /** The line bytes still to come of one symbol. */
  function Coming(escape: bool, b: Byte): (r: seq<Byte>) {
    if escape then [Flip(b)] else Escape(b)
  }

  /** Flipped specials are neither start bytes nor escapes; unescaped bytes are not either. */
  lemma Flipped(b: Byte)
    ensures Special(b) ==> Flip(b) != START_BYTE && Flip(b) != ESCAPE && Flip(Flip(b)) == b
    ensures !Special(b) ==> b != START_BYTE && b != ESCAPE
  {
  }

  /** Inside a frame, whatever the idle polls, one sent symbol reaches the receiver's state machine
      as the byte that was sent. */
  lemma {:induction false} OneSymbol(st: Rx, polls: seq<Poll>, b: Byte, more: seq<Byte>) returns (rest: seq<Poll>)
    requires Bounded(st) && !st.Done() && st.pos > 0 && (st.escape ==> Special(b))
    requires Bytes(polls) == Coming(st.escape, b) + more
    ensures Session(st, polls) == Finish(Handle(st.(escape := false), b, rest))
    ensures Bytes(rest) == more && |rest| < |polls|
    decreases |polls|
  {
    hide Session;
    hide Finish;
    hide Handle;
    hide Flip;
    Flipped(b);
    FirstPoll(polls, Coming(st.escape, b) + more);
    if polls[0].Idle? {
      SessionIdle(st, polls);
      rest := OneSymbol(st, polls[1..], b, more);
    } else if st.escape {
      rest := polls[1..];
      SessionIsLoop(st, polls);
      HandleEscaped(st, polls[0].b, rest);
    } else if !Special(b) {
      rest := polls[1..];
      SessionIsLoop(st, polls);
    } else if |polls| > 1 && polls[1].Got? {
      rest := polls[2..];
      FirstPoll(polls[1..], [Flip(b)] + more);
      SessionIsLoop(st, polls);
    } else {
      FirstPoll(polls[1..], [Flip(b)] + more);
      SameLoop(st, polls, st.(escape := true), polls[2..]);
      rest := OneSymbol(st.(escape := true), polls[2..], b, more);
    }
  }

  /** Bytes still to come come from some poll. */
  lemma FirstPoll(polls: seq<Poll>, s: seq<Byte>)
    requires Bytes(polls) == s && s != []
    ensures polls != []
    ensures polls[0].Got? ==> polls[0].b == s[0] && Bytes(polls[1..]) == s[1..]
    ensures polls[0].Idle? ==> Bytes(polls[1..]) == s
  {
  }

  lemma HandleEscaped(st: Rx, c: Byte, rest: seq<Poll>)
    requires Bounded(st) && st.escape
    ensures Handle(st, c, rest) == Handle(st.(escape := false), Flip(c), rest)
  {
  }

  // ---------- One frame ----------

  /** Inside a frame: `h` lists the unescaped bytes accepted since the start byte. */
  ghost predicate Tracks(st: Rx, h: seq<Byte>) {
    && st.pos == 1 + |h| <= 111 && |st.frame| == MAX_FRAME_DATA_SIZE && !st.Done()
    && (|h| >= 1 ==> st.msb == h[0])
    && (|h| >= 2 ==> st.lsb == h[1])
    && (|h| >= 3 ==> st.apiId == h[2])
    && st.total == (if |h| >= 2 then Sum(h[2..]) % 256 else 0)
    && (|h| > 3 ==> |h| - 3 <= MAX_FRAME_DATA_SIZE && st.frame[..|h| - 3] == h[3..])
  }

  /** Between frames: waiting for a start byte. */
  predicate Hunting(st: Rx) {
    st.pos == 0 && !st.escape && st.total == 0 && !st.Done() && |st.frame| == MAX_FRAME_DATA_SIZE
  }

  /** The next byte is the checksum. */
  predicate AtChecksum(st: Rx) {
    4 <= st.pos <= MAX_FRAME_DATA_SIZE && st.pos == st.lsb + 3
  }

  lemma SumOne(h: seq<Byte>, b: Byte)
    ensures Sum(h + [b]) == Sum(h) + b
  {
    assert (h + [b])[..|h|] == h;
  }

  lemma ModSum(a: nat, b: Byte)
    ensures (a % 256 + b) % 256 == (a + b) % 256
  {
  }

  /** A byte before the checksum is recorded and added up. */
  lemma PlaceTracks(st: Rx, h: seq<Byte>, b: Byte)
    requires Tracks(st, h) && !st.escape && !AtChecksum(st) && st.pos <= MAX_FRAME_DATA_SIZE
    ensures !Place(st, b).1 && Tracks(Place(st, b).0, h + [b]) && !Place(st, b).0.escape
  {
    var g := h + [b];
    if |h| >= 2 {
      assert g[2..] == h[2..] + [b];
      SumOne(h[2..], b);
      ModSum(Sum(h[2..]), b);
    } else {
      assert |g| >= 2 ==> g[2..] == [];
    }
    if |h| >= 3 {
      var f := st.frame[st.pos - 4 := b];
      assert g[3..] == h[3..] + [b];
      assert f[..|g| - 3] == st.frame[..|h| - 3] + [b];
      if |h| == 3 {
        assert h[3..] == [] && st.frame[..0] == [];
      }
    }
  }

  /** The checksum byte ends the frame; the response is good exactly when everything from the api
      id on adds up to 0xff modulo 256. */
  lemma PlaceEnds(st: Rx, h: seq<Byte>, b: Byte)
    requires Tracks(st, h) && !st.escape && AtChecksum(st)
    ensures var (n, stop) := Place(st, b);
            && stop && Bounded(n) && n.Done() && n.pos == 0
            && (n.complete <==> Sum(h[2..] + [b]) % 256 == 0xff)
            && (n.complete ==> n.error == NO_ERROR && n.checksum == b
                               && n.frameLength == |h| - 3 && ResponseOf(n) == Response(h[2], h[3..]))
  {
    SumOne(h[2..], b);
    ModSum(Sum(h[2..]), b);
    if |h| == 3 {
      assert h[3..] == [] && st.frame[..0] == [];
    }
  }

  lemma BodyFacts(apiId: Byte, frameId: Byte, data: seq<Byte>)
    requires |data| <= 105
    ensures var body := Body(apiId, frameId, data);
            var n := |body| - 1;
            && n == |data| + 4 && body[1] == |data| + 2 && body[2] == apiId
            && body[3..n] == [frameId] + data
            && Sum(body[2..n] + [body[n]]) % 256 == 0xff
  {
    var covered := [apiId, frameId] + data;
    var body := Body(apiId, frameId, data);
    var n := |body| - 1;
    assert body[2..n] == covered;
    assert body[3..n] == [frameId] + data;
    SumOne(covered, body[n]);
  }

  lemma NextByte(s: seq<Byte>, n: nat)
    requires n < |s|
    ensures s[n..] != [] && s[n..][0] == s[n] && s[n..][1..] == s[n + 1..] && s[..n] + [s[n]] == s[..n + 1]
  {
  }

  /** From inside a frame, the rest of its bytes complete it. */
  lemma {:induction false} RestOfFrame(st: Rx, polls: seq<Poll>, h: seq<Byte>, apiId: Byte, frameId: Byte, data: seq<Byte>, more: seq<Byte>)
    returns (last: Rx, rest: seq<Poll>)
    requires |data| <= 105
    requires |h| < |Body(apiId, frameId, data)| && h == Body(apiId, frameId, data)[..|h|]
    requires Bytes(polls) == EscapeAll(Body(apiId, frameId, data)[|h|..]) + more
    requires Tracks(st, h) && !st.escape
    ensures Bounded(last) && last.Done() && Bytes(rest) == more
    ensures Session(st, polls) == ([Response(apiId, [frameId] + data)] + Session(last, rest).0, Session(last, rest).1)
    decreases |data| + 5 - |h|
  {
    hide Session;
    hide Handle;
    hide Place;
    hide Tracks;
    hide Body;
    hide EscapeAll;
    var body := Body(apiId, frameId, data);
    var b := body[|h|];
    BodyFacts(apiId, frameId, data);
    TracksBasics(st, h);
    EscapeHead(body[|h|..], more);
    NextByte(body, |h|);
    var left := EscapeAll(body[|h| + 1..]) + more;
    rest := OneSymbol(st, polls, b, left);
    assert st.(escape := false) == st;
    if |h| + 1 < |body| {
      PlaceTracks(st, h, b);
      HandleGoesOn(st, b, rest);
      last, rest := RestOfFrame(Place(st, b).0, rest, h + [b], apiId, frameId, data, more);
    } else {
      PlaceEnds(st, h, b);
      HandleStops(st, b, rest);
      last := Place(st, b).0;
      EscapeNothing(body[|h| + 1..], more);
    }
  }

  lemma TracksBasics(st: Rx, h: seq<Byte>)
    requires Tracks(st, h)
    ensures Bounded(st) && !st.Done() && st.pos == 1 + |h| && (|h| >= 2 ==> st.lsb == h[1])
  {
  }

  lemma EscapeHead(s: seq<Byte>, more: seq<Byte>)
    requires s != []
    ensures EscapeAll(s) + more == Escape(s[0]) + (EscapeAll(s[1..]) + more)
  {
  }

  lemma EscapeNothing(s: seq<Byte>, more: seq<Byte>)
    requires s == []
    ensures EscapeAll(s) + more == more
  {
  }

  lemma HandleGoesOn(st: Rx, b: Byte, rest: seq<Poll>)
    requires Bounded(st) && !st.Done() && !st.escape && !Place(st, b).1
    ensures Bounded(Place(st, b).0) && Finish(Handle(st, b, rest)) == Session(Place(st, b).0, rest)
  {
    hide Session;
    hide Place;
    hide Loop;
    hide Finish;
    assert st.(escape := false) == st;
    PlaceGoesOn(st, b);
    SessionIsLoop(Place(st, b).0, rest);
  }

  lemma HandleStops(st: Rx, b: Byte, rest: seq<Poll>)
    requires Bounded(st) && !st.escape && Place(st, b).1
    ensures Handle(st, b, rest) == (Place(st, b).0, rest)
  {
    hide Place;
    assert st.(escape := false) == st;
  }

  // ---------- Whole frames, from any reachable receiver ----------

  /** Between calls the receiver has a finished response, waits for a start byte, or is inside a
      frame (an escape may be pending). */
  ghost predicate Reachable(st: Rx) {
    Bounded(st) && (st.Done() || Hunting(st) || exists h :: Tracks(st, h))
  }

  /** A finished response is discarded by the next call. */
  lemma SessionAfterDone(st: Rx, polls: seq<Poll>)
    requires Bounded(st) && st.Done() && polls != []
    ensures Session(st, polls) == Session(Reset(st), polls)
  {
  }

  lemma {:induction false} Silent(st: Rx, polls: seq<Poll>)
    requires Bounded(st) && Bytes(polls) == []
    ensures Session(st, polls).0 == []
    decreases |polls|
  {
    if polls != [] {
      hide Session;
      if st.Done() {
        SessionAfterDone(st, polls);
      }
      var st1 := if st.Done() then Reset(st) else st;
      SessionIdle(st1, polls);
      Silent(st1, polls[1..]);
    } else {
      assert Session(st, []) == ([], st);
    }
  }

  /** While hunting, bytes other than a start byte are passed over. */
  lemma {:induction false} HuntSkips(st: Rx, polls: seq<Poll>, junk: seq<Byte>, more: seq<Byte>) returns (rest: seq<Poll>)
    requires Hunting(st) && Bytes(polls) == junk + more && START_BYTE !in junk
    ensures Session(st, polls) == Session(st, rest) && Bytes(rest) == more
    decreases |polls|
  {
    if junk == [] {
      assert junk + more == more;
      rest := polls;
    } else {
      hide Session;
      FirstPoll(polls, junk + more);
      if polls[0].Idle? {
        SessionIdle(st, polls);
        rest := HuntSkips(st, polls[1..], junk, more);
      } else {
        assert (junk + more)[1..] == junk[1..] + more;
        SessionSkip(st, polls);
        rest := HuntSkips(st, polls[1..], junk[1..], more);
      }
    }
  }

  lemma SessionSkip(st: Rx, polls: seq<Poll>)
    requires Hunting(st) && polls != [] && polls[0].Got? && polls[0].b != START_BYTE
    ensures Session(st, polls) == Session(st, polls[1..])
  {
    hide Session;
    assert Place(st, polls[0].b) == (st, false);
    SameLoop(st, polls, st, polls[1..]);
  }

  /** The start byte opens a frame. */
  lemma {:induction false} StartByte(st: Rx, polls: seq<Poll>, more: seq<Byte>) returns (rest: seq<Poll>)
    requires Hunting(st) && Bytes(polls) == [START_BYTE] + more
    ensures Tracks(st.(pos := 1), []) && Session(st, polls) == Session(st.(pos := 1), rest) && Bytes(rest) == more
    decreases |polls|
  {
    hide Session;
    FirstPoll(polls, [START_BYTE] + more);
    if polls[0].Idle? {
      SessionIdle(st, polls);
      rest := StartByte(st, polls[1..], more);
    } else {
      rest := polls[1..];
      assert ([START_BYTE] + more)[1..] == more;
      SameLoop(st, polls, st.(pos := 1), rest);
    }
  }

  /** Not inside a frame: the next start byte will be taken as one. */
  predicate Between(st: Rx) {
    st.Done() || st.pos == 0
  }

  function Fresh(st: Rx): (r: Rx) {
    if st.Done() then Reset(st) else st
  }

  lemma FreshHunts(st: Rx, polls: seq<Poll>)
    requires Reachable(st) && Between(st) && polls != []
    ensures Hunting(Fresh(st)) && Session(st, polls) == Session(Fresh(st), polls)
  {
    if st.Done() {
      SessionAfterDone(st, polls);
    }
  }

  /** A whole frame sent to a receiver between frames yields its response; then what follows. */
  lemma FrameThen(st: Rx, polls: seq<Poll>, apiId: Byte, frameId: Byte, data: seq<Byte>, more: seq<Byte>)
    returns (last: Rx, rest: seq<Poll>)
    requires Reachable(st) && Between(st) && |data| <= 105
    requires Bytes(polls) == Wire(apiId, frameId, data) + more
    ensures Reachable(last) && last.Done() && Bytes(rest) == more
    ensures Session(st, polls) == ([Response(apiId, [frameId] + data)] + Session(last, rest).0, Session(last, rest).1)
  {
    hide Session;
    hide Body;
    hide EscapeAll;
    var body := Body(apiId, frameId, data);
    var tail := EscapeAll(body) + more;
    assert Wire(apiId, frameId, data) + more == [START_BYTE] + tail;
    FirstPoll(polls, [START_BYTE] + tail);
    FreshHunts(st, polls);
    rest := StartByte(Fresh(st), polls, tail);
    BodyFacts(apiId, frameId, data);
    assert body[0..] == body && body[..0] == [];
    last, rest := RestOfFrame(Fresh(st).(pos := 1), rest, [], apiId, frameId, data, more);
  }

  /** What send writes, arriving over any number of calls and split anywhere, is received as one
      response with the same api id and the frame id followed by the data. */
  lemma SendReceive(st: Rx, polls: seq<Poll>, apiId: Byte, frameId: Byte, data: seq<Byte>)
    requires Reachable(st) && Between(st) && |data| <= 105
    requires Bytes(polls) == Wire(apiId, frameId, data)
    ensures Session(st, polls).0 == [Response(apiId, [frameId] + data)]
  {
    hide Session;
    hide Wire;
    assert Wire(apiId, frameId, data) + [] == Wire(apiId, frameId, data);
    var last, rest := FrameThen(st, polls, apiId, frameId, data, []);
    Silent(last, rest);
  }

  // ---------- Data that does not fit ----------

  /** Past the data buffer the frame is given up, and what is left of it is passed over. */
  lemma {:induction false} OverlongRest(st: Rx, polls: seq<Poll>, h: seq<Byte>, body: seq<Byte>)
    requires |body| > 110 && |h| <= 110 && h == body[..|h|] && !(1 <= body[1] <= 107)
    requires Bytes(polls) == EscapeAll(body[|h|..]) + []
    requires Tracks(st, h) && !st.escape
    ensures Session(st, polls).0 == []
    decreases 110 - |h|
  {
    hide Session;
    hide Handle;
    hide Place;
    hide Tracks;
    hide EscapeAll;
    var b := body[|h|];
    TracksBasics(st, h);
    EscapeHead(body[|h|..], []);
    NextByte(body, |h|);
    var left := EscapeAll(body[|h| + 1..]) + [];
    var rest := OneSymbol(st, polls, b, left);
    assert st.(escape := false) == st;
    if |h| < 110 {
      PlaceTracks(st, h, b);
      HandleGoesOn(st, b, rest);
      OverlongRest(Place(st, b).0, rest, h + [b], body);
    } else {
      PlaceExceeds(st, b);
      HandleStops(st, b, rest);
      GivenUp(Place(st, b).0, rest, body[|h| + 1..]);
    }
  }

  lemma PlaceExceeds(st: Rx, b: Byte)
    requires Bounded(st) && !st.Done() && st.pos == 111
    ensures var (n, stop) := Place(st, b); stop && Bounded(n) && n.Done() && !n.complete
  {
  }

  lemma GivenUp(st: Rx, polls: seq<Poll>, s: seq<Byte>)
    requires Bounded(st) && st.Done() && Bytes(polls) == EscapeAll(s) + []
    ensures Session(st, polls).0 == []
  {
    hide Session;
    if polls == [] {
      Silent(st, polls);
    } else {
      SessionAfterDone(st, polls);
      NoRawStart(s);
      var rest := HuntSkips(Reset(st), polls, EscapeAll(s), []);
      Silent(Reset(st), rest);
    }
  }

  /** With 255 data bytes the length wraps to 1: the frame id is taken for the checksum. */
  lemma WrappedRest(st: Rx, polls: seq<Poll>, body: seq<Byte>)
    requires |body| > 4 && body[1] == 1 && Tracks(st, body[..3]) && !st.escape
    requires Bytes(polls) == EscapeAll(body[3..]) + []
    ensures Session(st, polls).0 == [] || Session(st, polls).0 == [Response(body[2], [])]
  {
    hide Session;
    hide Handle;
    hide Place;
    hide Tracks;
    hide EscapeAll;
    var h, b := body[..3], body[3];
    TracksBasics(st, h);
    EscapeHead(body[3..], []);
    assert body[3..][1..] == body[4..];
    var rest := OneSymbol(st, polls, b, EscapeAll(body[4..]) + []);
    assert st.(escape := false) == st;
    PlaceEnds(st, h, b);
    HandleStops(st, b, rest);
    var n := Place(st, b).0;
    assert h[3..] == [];
    if n.complete {
    } else {
    }
    GivenUp(n, rest, body[4..]);
  }

  /** The first symbols of a frame, none of which is the checksum. */
  lemma {:induction false} FirstSymbols(st: Rx, polls: seq<Poll>, h: seq<Byte>, body: seq<Byte>, n: nat)
    returns (st1: Rx, rest: seq<Poll>)
    requires |h| <= n <= 3 && n < |body| && h == body[..|h|]
    requires Bytes(polls) == EscapeAll(body[|h|..]) + [] && Tracks(st, h) && !st.escape
    ensures Tracks(st1, body[..n]) && !st1.escape && Bytes(rest) == EscapeAll(body[n..]) + []
    ensures Session(st, polls) == Session(st1, rest)
    decreases n - |h|
  {
    if |h| == n {
      return st, polls;
    }
    hide Session;
    hide Handle;
    hide Place;
    hide Tracks;
    hide EscapeAll;
    var b := body[|h|];
    TracksBasics(st, h);
    EscapeHead(body[|h|..], []);
    NextByte(body, |h|);
    rest := OneSymbol(st, polls, b, EscapeAll(body[|h| + 1..]) + []);
    assert st.(escape := false) == st;
    PlaceTracks(st, h, b);
    HandleGoesOn(st, b, rest);
    assert h + [b] == body[..|h| + 1];
    st1, rest := FirstSymbols(Place(st, b).0, rest, h + [b], body, n);
  }

  /** The round trip holds exactly up to 105 bytes of request data; the data length itself is one
      byte. */
  lemma SendReceiveExact(st: Rx, polls: seq<Poll>, apiId: Byte, frameId: Byte, data: seq<Byte>)
    requires Reachable(st) && Between(st) && |data| <= 255
    requires Bytes(polls) == Wire(apiId, frameId, data)
    ensures Session(st, polls).0 == [Response(apiId, [frameId] + data)] <==> |data| <= 105
  {
    hide Session;
    hide EscapeAll;
    if |data| <= 105 {
      SendReceive(st, polls, apiId, frameId, data);
    } else {
      var body := Body(apiId, frameId, data);
      var tail := EscapeAll(body) + [];
      LongBody(apiId, frameId, data);
      assert Wire(apiId, frameId, data) == [START_BYTE] + tail;
      FirstPoll(polls, [START_BYTE] + tail);
      FreshHunts(st, polls);
      var rest := StartByte(Fresh(st), polls, tail);
      assert body[0..] == body && body[..0] == [];
      if |data| == 255 {
        var st1, rest1 := FirstSymbols(Fresh(st).(pos := 1), rest, [], body, 3);
        WrappedRest(st1, rest1, body);
      } else {
        OverlongRest(Fresh(st).(pos := 1), rest, [], body);
      }
    }
  }

  lemma LongBody(apiId: Byte, frameId: Byte, data: seq<Byte>)
    requires 105 < |data| <= 255
    ensures var body := Body(apiId, frameId, data);
            |body| > 110 && if |data| == 255 then body[1] == 1 else !(1 <= body[1] <= 107)
  {
  }

  datatype Request = Request(apiId: Byte, frameId: Byte, data: seq<Byte>)

  function Wires(rs: seq<Request>): (r: seq<Byte>) {
    if rs == [] then [] else Wire(rs[0].apiId, rs[0].frameId, rs[0].data) + Wires(rs[1..])
  }

  function Responses(rs: seq<Request>): (r: seq<Response>) {
    if rs == [] then [] else [Response(rs[0].apiId, [rs[0].frameId] + rs[0].data)] + Responses(rs[1..])
  }

  /** Any number of frames sent one after the other are all received, in order. */
  lemma {:induction false} SendReceiveAll(st: Rx, polls: seq<Poll>, rs: seq<Request>)
    requires Reachable(st) && Between(st) && Bytes(polls) == Wires(rs)
    requires forall i :: 0 <= i < |rs| ==> |rs[i].data| <= 105
    ensures Session(st, polls).0 == Responses(rs)
    decreases |rs|
  {
    hide Session;
    hide Wire;
    if rs == [] {
      Silent(st, polls);
    } else {
      var last, rest := FrameThen(st, polls, rs[0].apiId, rs[0].frameId, rs[0].data, Wires(rs[1..]));
      SendReceiveAll(last, rest, rs[1..]);
    }
  }

  // ---------- Resynchronisation ----------

  lemma {:induction false} NoRawStart(s: seq<Byte>)
    ensures START_BYTE !in EscapeAll(s)
  {
    if s != [] {
      NoRawStart(s[1..]);
      Flipped(s[0]);
    }
  }

  /** A start byte inside a frame is swallowed as an error, and the next call starts over. */
  lemma {:induction false} StartInsideFrame(st: Rx, polls: seq<Poll>, more: seq<Byte>) returns (rest: seq<Poll>)
    requires Bounded(st) && !st.Done() && st.pos > 0 && Bytes(polls) == [START_BYTE] + more
    ensures var e := st.(error := UNEXPECTED_START_BYTE);
            Bounded(e) && Session(st, polls) == Session(e, rest) && Bytes(rest) == more
    decreases |polls|
  {
    hide Session;
    FirstPoll(polls, [START_BYTE] + more);
    if polls[0].Idle? {
      SessionIdle(st, polls);
      rest := StartInsideFrame(st, polls[1..], more);
    } else {
      rest := polls[1..];
      assert ([START_BYTE] + more)[1..] == more;
      SessionIsLoop(st, polls);
    }
  }

  /** From any state the receiver can be in between calls, two whole frames deliver the second one;
      they deliver both exactly when the first did not arrive in the middle of another frame. */
  lemma Resynchronises(st: Rx, polls: seq<Poll>, a: Request, b: Request)
    requires Reachable(st) && |a.data| <= 105 && |b.data| <= 105
    requires Bytes(polls) == Wires([a, b])
    ensures Session(st, polls).0 == if Between(st) then Responses([a, b]) else Responses([b])
  {
    if Between(st) {
      SendReceiveAll(st, polls, [a, b]);
    } else {
      hide Session;
      hide EscapeAll;
      hide Wire;
      var junk := EscapeAll(Body(a.apiId, a.frameId, a.data));
      var tail := Wires([b]);
      assert [a, b][1..] == [b];
      WireSplit(a, tail);
      var rest := StartInsideFrame(st, polls, junk + tail);
      var e := st.(error := UNEXPECTED_START_BYTE);
      if rest == [] {
        assert false;
      }
      SessionAfterDone(e, rest);
      NoRawStart(Body(a.apiId, a.frameId, a.data));
      var rest2 := HuntSkips(Reset(e), rest, junk, tail);
      SendReceiveAll(Reset(e), rest2, [b]);
    }
  }

  lemma WireSplit(a: Request, tail: seq<Byte>)
    ensures Wire(a.apiId, a.frameId, a.data) + tail == [START_BYTE] + (EscapeAll(Body(a.apiId, a.frameId, a.data)) + tail)
  {
  }

  // ---------- Every schedule ----------

  /** A response offered to the caller covers as many bytes as its length byte says, and api id,
      data and checksum byte add up to 0xff modulo 256. */
  predicate Good(st: Rx) {
    && st.frameLength + 1 == st.lsb && st.frameLength <= 106 && st.error == NO_ERROR
    && |st.frame| == MAX_FRAME_DATA_SIZE
    && (st.apiId + Sum(st.frame[..st.frameLength]) + st.checksum) % 256 == 0xff
  }

  lemma SumCons(b: Byte, s: seq<Byte>)
    ensures Sum([b] + s) == b + Sum(s)
  {
    SumConcat([b], s);
    assert Sum([b]) == b;
  }

  lemma PlaceSound(st: Rx, b: Byte)
    requires Reachable(st) && !st.Done() && !st.escape
    ensures var n := Place(st, b).0;
            Reachable(n) && (n.complete ==> Good(n)) && (!Place(st, b).1 ==> !n.Done() && !n.escape)
  {
    hide Tracks;
    if !Hunting(st) {
      var h :| Tracks(st, h);
      TracksBasics(st, h);
      if AtChecksum(st) {
        PlaceEndsGood(st, h, b);
      } else if st.pos <= MAX_FRAME_DATA_SIZE {
        PlaceTracks(st, h, b);
      }
    } else if b == START_BYTE {
      StartTracks(st);
    }
  }

  lemma StartTracks(st: Rx)
    requires Hunting(st)
    ensures Tracks(st.(pos := 1), [])
  {
  }

  lemma PlaceEndsGood(st: Rx, h: seq<Byte>, b: Byte)
    requires Tracks(st, h) && !st.escape && AtChecksum(st)
    ensures var n := Place(st, b).0; Bounded(n) && n.Done() && (n.complete ==> Good(n))
  {
    PlaceEnds(st, h, b);
    assert h[2..] == [h[2]] + h[3..];
    SumOne(h[2..], b);
    SumCons(h[2], h[3..]);
  }

  lemma EscapeReachable(st: Rx, escape: bool)
    requires Reachable(st) && !st.Done() && st.pos > 0
    ensures Reachable(st.(escape := escape)) && !st.(escape := escape).Done()
  {
    var h :| Tracks(st, h);
    assert Tracks(st.(escape := escape), h);
  }

  lemma {:induction false} LoopSound(st: Rx, polls: seq<Poll>)
    requires Reachable(st) && !st.Done()
    ensures var n := Loop(st, polls).0; Reachable(n) && (n.complete ==> Good(n))
    decreases |polls|, 0
  {
    hide Reachable;
    hide Handle;
    ReachableBounded(st);
    if polls != [] && polls[0].Got? {
      var b := polls[0].b;
      if st.pos > 0 && b == START_BYTE {
        ErrorReachable(st);
      } else if st.pos > 0 && b == ESCAPE {
        if |polls| > 1 && polls[1].Got? {
          HandleSound(st, Flip(polls[1].b), polls[2..]);
        } else {
          EscapeReachable(st, true);
          LoopSound(st.(escape := true), if |polls| > 1 then polls[2..] else []);
        }
      } else {
        HandleSound(st, b, polls[1..]);
      }
    }
  }

  lemma ReachableBounded(st: Rx)
    requires Reachable(st)
    ensures Bounded(st)
  {
  }

  lemma ErrorReachable(st: Rx)
    requires Reachable(st) && !st.Done()
    ensures Reachable(st.(error := UNEXPECTED_START_BYTE)) && !st.(error := UNEXPECTED_START_BYTE).complete
  {
  }

  lemma {:induction false} HandleSound(st: Rx, b: Byte, polls: seq<Poll>)
    requires Reachable(st) && !st.Done()
    ensures Bounded(st) && var n := Handle(st, b, polls).0; Reachable(n) && (n.complete ==> Good(n))
    decreases |polls|, 1
  {
    hide Reachable;
    hide Loop;
    hide Place;
    ReachableBounded(st);
    var c := if st.escape then Flip(b) else b;
    var st1 := st.(escape := false);
    if st.escape {
      EscapeReachable(st, false);
    } else {
      assert st1 == st;
    }
    PlaceSound(st1, c);
    if !Place(st1, c).1 {
      LoopSound(Place(st1, c).0, polls);
    }
  }

  /** On every schedule of bytes and idle polls a call keeps the receiver reachable, with its
      position and stores in bounds, and offers a response only if its checksum is right. */
  lemma ReadPacketSound(st: Rx, polls: seq<Poll>)
    requires Reachable(st)
    ensures Bounded(st) && var n := ReadPacket(st, polls).0; Reachable(n) && Bounded(n) && (n.complete ==> Good(n))
  {
    hide Loop;
    LoopSound(if st.Done() then Reset(st) else st, polls);
  }

  // ---------- Whole sessions ----------

  ghost predicate SameTop(a: Rx, b: Rx) {
    |a.frame| == |b.frame| == MAX_FRAME_DATA_SIZE && a.frame[107..] == b.frame[107..]
  }

  lemma PlaceStores(st: Rx, b: Byte)
    requires Bounded(st)
    ensures SameTop(st, Place(st, b).0)
    ensures !st.escape ==> Bounded(Place(st, b).0)
  {
  }

  lemma {:induction false} LoopStores(st: Rx, polls: seq<Poll>)
    requires Bounded(st)
    ensures SameTop(st, Loop(st, polls).0)
    decreases |polls|, 0
  {
    hide Handle;
    if polls != [] && polls[0].Got? {
      var b := polls[0].b;
      if st.pos > 0 && b == ESCAPE {
        if |polls| > 1 && polls[1].Got? {
          HandleStores(st, Flip(polls[1].b), polls[2..]);
        } else {
          LoopStores(st.(escape := true), if |polls| > 1 then polls[2..] else []);
        }
      } else if !(st.pos > 0 && b == START_BYTE) {
        HandleStores(st, b, polls[1..]);
      }
    }
  }

  lemma {:induction false} HandleStores(st: Rx, b: Byte, polls: seq<Poll>)
    requires Bounded(st)
    ensures SameTop(st, Handle(st, b, polls).0)
    decreases |polls|, 1
  {
    hide Loop;
    hide Place;
    var st1 := st.(escape := false);
    var (n, stop) := Place(st1, if st.escape then Flip(b) else b);
    PlaceStores(st1, if st.escape then Flip(b) else b);
    if !stop {
      LoopStores(n, polls);
    }
  }

  /** Over every session, whatever the line brings: the receiver stays reachable with its position at
      most 111, and the data buffer is never written above index 106. */
  lemma {:induction false} StoresInBounds(st: Rx, polls: seq<Poll>)
    requires Reachable(st)
    ensures var last := Session(st, polls).1;
            Reachable(last) && last.pos <= 111 && SameTop(st, last)
    decreases |polls|
  {
    hide Loop;
    if polls != [] {
      hide Reachable;
      ReachableBounded(st);
      ReadPacketSound(st, polls);
      var start := if st.Done() then Reset(st) else st;
      LoopStores(start, polls);
      var (n, rest) := ReadPacket(st, polls);
      StoresInBounds(n, rest);
      ReachableBounded(Session(st, polls).1);
    }
  }
}
