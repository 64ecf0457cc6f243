/**
 What the receiver keeps of an arbitrary byte stream: the bytes of a received frame against the
 bytes on the line, over any number of calls and any idle polls.

 An escape byte that is the last thing a poll finds stays pending. If the next byte is another
 escape, the source flips the byte behind it twice, so the same line bytes can be kept differently,
 depending on when they arrive.
 */
module XBeeLine {
  import opened Package
  import opened XBeeFrame

  // ---------- The line ----------

  /** The bytes a line stands for: an escape byte says that the next byte is flipped. */
  function Unescaped(pending: bool, s: seq<Byte>): (r: seq<Byte>)
    decreases |s|
  {
    if s == [] then []
    else if pending then [Flip(s[0])] + Unescaped(false, s[1..])
    else if s[0] == ESCAPE then Unescaped(true, s[1..])
    else [s[0]] + Unescaped(false, s[1..])
  }

  /** The bytes that reach the state machine inside a frame. */
  function Symbols(pending: bool, polls: seq<Poll>): (r: seq<Byte>)
    decreases |polls|
  {
    if polls == [] then []
    else if polls[0].Idle? then Symbols(pending, polls[1..])
    else if polls[0].b != ESCAPE then [if pending then Flip(polls[0].b) else polls[0].b] + Symbols(false, polls[1..])
    else if |polls| > 1 && polls[1].Got? then
      [if pending then polls[1].b else Flip(polls[1].b)] + Symbols(false, polls[2..])
    else Symbols(true, if |polls| > 1 then polls[2..] else [])
  }

  /** No pending escape meets another escape. */
  predicate Quiet(pending: bool, polls: seq<Poll>)
    decreases |polls|
  {
    if polls == [] then true
    else if polls[0].Idle? then Quiet(pending, polls[1..])
    else if polls[0].b != ESCAPE then Quiet(false, polls[1..])
    else if pending then false
    else if |polls| > 1 && polls[1].Got? then Quiet(false, polls[2..])
    else Quiet(true, if |polls| > 1 then polls[2..] else [])
  }

  lemma OnePoll(polls: seq<Poll>)
    requires polls != []
    ensures polls[0].Idle? ==> Bytes(polls) == Bytes(polls[1..])
    ensures polls[0].Got? ==> Bytes(polls) != [] && Bytes(polls)[0] == polls[0].b && Bytes(polls)[1..] == Bytes(polls[1..])
  {
  }

  lemma TwoPolls(polls: seq<Poll>)
    requires |polls| > 1
    ensures polls[1].Idle? ==> Bytes(polls[1..]) == Bytes(polls[2..])
    ensures polls[1].Got? ==> Bytes(polls[1..]) != [] && Bytes(polls[1..])[0] == polls[1].b
                              && Bytes(polls[1..])[1..] == Bytes(polls[2..])
  {
    assert polls[1..][1..] == polls[2..];
    OnePoll(polls[1..]);
  }

  lemma {:induction false} PendingLength(s: seq<Byte>)
    ensures |Unescaped(false, s)| <= |Unescaped(true, s)| <= |Unescaped(false, s)| + 1
  {
    if s != [] {
      PendingLength(s[1..]);
    }
  }

  /** The state machine never gets more bytes than the line stands for. */
  lemma {:induction false} NoMoreSymbols(pending: bool, polls: seq<Poll>)
    ensures |Symbols(pending, polls)| <= |Unescaped(false, Bytes(polls))|
    decreases |polls|
  {
    if polls != [] {
      OnePoll(polls);
      if polls[0].Idle? {
        NoMoreSymbols(pending, polls[1..]);
      } else if polls[0].b != ESCAPE {
        NoMoreSymbols(false, polls[1..]);
      } else if |polls| > 1 && polls[1].Got? {
        TwoPolls(polls);
        NoMoreSymbols(false, polls[2..]);
      } else if |polls| > 1 {
        TwoPolls(polls);
        NoMoreSymbols(true, polls[2..]);
        PendingLength(Bytes(polls[2..]));
      } else {
        assert polls[1..] == [];
      }
    }
  }

  lemma SameHead(b: Byte, x: seq<Byte>, y: seq<Byte>)
    ensures [b] + x == [b] + y <==> x == y
  {
    if [b] + x == [b] + y {
      assert ([b] + x)[1..] == x && ([b] + y)[1..] == y;
    }
  }

  /** A pending escape that meets an escape loses a byte or changes one. */
  lemma ClashDiffers(polls: seq<Poll>)
    requires polls != [] && polls[0] == Got(ESCAPE)
    ensures Symbols(true, polls) != Unescaped(true, Bytes(polls))
  {
    var after := if |polls| > 1 then polls[2..] else [];
    OnePoll(polls);
    if |polls| > 1 {
      TwoPolls(polls);
    } else {
      assert polls[1..] == [];
    }
    if |polls| > 1 && polls[1].Got? {
      NoMoreSymbols(false, after);
    } else {
      NoMoreSymbols(true, after);
    }
  }

  /** On every schedule: the state machine gets exactly the bytes the line stands for if and only if
      no pending escape meets another escape. */
  lemma {:induction false} SymbolsExact(pending: bool, polls: seq<Poll>)
    ensures Symbols(pending, polls) == Unescaped(pending, Bytes(polls)) <==> Quiet(pending, polls)
    decreases |polls|
  {
    if polls != [] {
      OnePoll(polls);
      if polls[0].Idle? {
        SymbolsExact(pending, polls[1..]);
      } else if polls[0].b != ESCAPE {
        var b := if pending then Flip(polls[0].b) else polls[0].b;
        SymbolsExact(false, polls[1..]);
        SameHead(b, Symbols(false, polls[1..]), Unescaped(false, Bytes(polls[1..])));
      } else if pending {
        ClashDiffers(polls);
      } else if |polls| > 1 && polls[1].Got? {
        TwoPolls(polls);
        SymbolsExact(false, polls[2..]);
        SameHead(Flip(polls[1].b), Symbols(false, polls[2..]), Unescaped(false, Bytes(polls[2..])));
      } else if |polls| > 1 {
        TwoPolls(polls);
        SymbolsExact(true, polls[2..]);
      } else {
        assert polls[1..] == [];
      }
    }
  }

  /** No escape byte is followed by an escape byte. */
  predicate NoDoubleEscape(s: seq<Byte>) {
    forall i :: 0 <= i < |s| - 1 && s[i] == ESCAPE ==> s[i + 1] != ESCAPE
  }

  lemma DoubleTail(s: seq<Byte>)
    requires s != []
    ensures NoDoubleEscape(s) <==> NoDoubleEscape(s[1..]) && (s[0] == ESCAPE && |s| > 1 ==> s[1] != ESCAPE)
  {
    var t := s[1..];
    if NoDoubleEscape(t) && (s[0] == ESCAPE && |s| > 1 ==> s[1] != ESCAPE) {
      forall i | 0 <= i < |s| - 1 && s[i] == ESCAPE
        ensures s[i + 1] != ESCAPE
      {
        if i > 0 {
          assert t[i - 1] == s[i] && t[i] == s[i + 1];
        }
      }
    }
    if NoDoubleEscape(s) {
      forall i | 0 <= i < |t| - 1 && t[i] == ESCAPE
        ensures t[i + 1] != ESCAPE
      {
        assert t[i] == s[i + 1] && t[i + 1] == s[i + 2];
      }
    }
  }

  lemma {:induction false} CleanLineQuiet(pending: bool, polls: seq<Poll>)
    requires NoDoubleEscape(Bytes(polls)) && (pending && Bytes(polls) != [] ==> Bytes(polls)[0] != ESCAPE)
    ensures Quiet(pending, polls)
    decreases |polls|
  {
    hide NoDoubleEscape;
    if polls != [] {
      OnePoll(polls);
      if polls[0].Idle? {
        CleanLineQuiet(pending, polls[1..]);
      } else {
        var s := Bytes(polls);
        DoubleTail(s);
        if polls[0].b != ESCAPE {
          CleanLineQuiet(false, polls[1..]);
        } else if |polls| > 1 && polls[1].Got? {
          TwoPolls(polls);
          DoubleTail(s[1..]);
          CleanLineQuiet(false, polls[2..]);
        } else if |polls| > 1 {
          TwoPolls(polls);
          CleanLineQuiet(true, polls[2..]);
        }
      }
    }
  }

  /** The schedule with an idle poll behind every byte. */
  function Spaced(s: seq<Byte>): (polls: seq<Poll>) {
    if s == [] then [] else [Got(s[0]), Idle] + Spaced(s[1..])
  }

  lemma {:induction false} SpacedLine(pending: bool, s: seq<Byte>)
    ensures Bytes(Spaced(s)) == s
    ensures Quiet(pending, Spaced(s)) <==> NoDoubleEscape(s) && (pending && s != [] ==> s[0] != ESCAPE)
    decreases |s|
  {
    hide NoDoubleEscape;
    if s == [] {
      NoByte();
    } else {
      var p := Spaced(s);
      DoubleTail(s);
      assert p[2..] == Spaced(s[1..]) && p[0] == Got(s[0]) && p[1] == Idle;
      OnePoll(p);
      TwoPolls(p);
      SpacedLine(s[0] == ESCAPE, s[1..]);
      assert Quiet(false, p[1..]) == Quiet(false, p[2..]);
    }
  }

  lemma NoByte()
    ensures NoDoubleEscape([])
  {
  }

  /** For a line: every schedule of its bytes gives the state machine exactly the bytes the line stands
      for if and only if no escape byte in it is followed by an escape byte. */
  lemma EverySchedule(s: seq<Byte>)
    ensures (forall polls :: Bytes(polls) == s ==> Symbols(false, polls) == Unescaped(false, s)) <==> NoDoubleEscape(s)
  {
    hide Quiet;
    hide Symbols;
    hide Unescaped;
    hide NoDoubleEscape;
    if NoDoubleEscape(s) {
      forall polls | Bytes(polls) == s
        ensures Symbols(false, polls) == Unescaped(false, s)
      {
        CleanLineQuiet(false, polls);
        SymbolsExact(false, polls);
      }
    } else {
      SpacedLine(false, s);
      SymbolsExact(false, Spaced(s));
    }
  }

  // ---------- The receiver over calls ----------

  /** Any number of calls, until a frame is complete or given up, or the polls run out. */
  function Drive(st: Rx, polls: seq<Poll>): (r: (Rx, seq<Poll>))
    requires Bounded(st)
    ensures Bounded(r.0) && |r.1| <= |polls|
    decreases |polls|
  {
    if st.Done() || polls == [] then (st, polls)
    else
      var (n, rest) := ReadPacket(st, polls);
      Drive(n, rest)
  }

  /** The polls that were used. */
  function Used(polls: seq<Poll>, rest: seq<Poll>): (r: seq<Poll>)
    requires |rest| <= |polls|
  {
    polls[..|polls| - |rest|]
  }

  lemma DriveLoop(st: Rx, polls: seq<Poll>)
    requires Bounded(st) && !st.Done()
    ensures Drive(st, polls) == Drive(Loop(st, polls).0, Loop(st, polls).1)
  {
    hide Loop;
    if polls == [] {
      LoopEmpty(st);
    }
  }

  lemma SameDrive(st: Rx, polls: seq<Poll>, st1: Rx, polls1: seq<Poll>)
    requires Bounded(st) && !st.Done() && Bounded(st1) && !st1.Done()
    requires Loop(st, polls) == Loop(st1, polls1)
    ensures Drive(st, polls) == Drive(st1, polls1)
  {
    hide Loop;
    hide Drive;
    DriveLoop(st, polls);
    DriveLoop(st1, polls1);
  }

  lemma DriveIdle(st: Rx, polls: seq<Poll>)
    requires Bounded(st) && !st.Done() && polls != [] && polls[0].Idle?
    ensures Drive(st, polls) == Drive(st, polls[1..])
  {
    hide Drive;
    DriveLoop(st, polls);
  }

  lemma PlaceStops(st: Rx, b: Byte)
    requires Bounded(st) && !st.Done() && !st.escape
    ensures var (n, stop) := Place(st, b); Bounded(n) && (stop <==> n.Done())
  {
  }

  /** A byte handed to the state machine, then what follows. */
  lemma DriveHandle(st: Rx, polls: seq<Poll>, b: Byte, later: seq<Poll>)
    requires Bounded(st) && !st.Done() && Loop(st, polls) == Handle(st, b, later)
    ensures var n := Place(st.(escape := false), if st.escape then Flip(b) else b).0;
            Bounded(n) && Drive(st, polls) == Drive(n, later)
  {
    hide Drive;
    hide Loop;
    hide Place;
    hide Flip;
    var c := if st.escape then Flip(b) else b;
    var n := Place(st.(escape := false), c).0;
    PlaceStops(st.(escape := false), c);
    DriveLoop(st, polls);
    if !n.Done() {
      DriveLoop(n, later);
    }
  }

  // ---------- What a response holds ----------

  /** Length bytes, api id, frame data and checksum, as the receiver keeps them. */
  function Held(st: Rx): (r: seq<Byte>)
    requires st.frameLength <= |st.frame|
  {
    [st.msb, st.lsb, st.apiId] + st.frame[..st.frameLength] + [st.checksum]
  }

  lemma EndHolds(st: Rx, h: seq<Byte>, b: Byte)
    requires Tracks(st, h) && !st.escape && AtChecksum(st)
    ensures var n := Place(st, b).0;
            n.Done() && (n.complete ==> n.frameLength <= |n.frame| && Held(n) == h + [b])
  {
    PlaceEnds(st, h, b);
    assert h == [h[0], h[1], h[2]] + h[3..];
  }

  lemma TooFar(st: Rx, h: seq<Byte>, b: Byte)
    requires Tracks(st, h) && !st.escape && st.pos > MAX_FRAME_DATA_SIZE
    ensures var n := Place(st, b).0; n.Done() && !n.complete
  {
  }

  lemma TracksPending(st: Rx, h: seq<Byte>, pending: bool)
    requires Tracks(st, h)
    ensures Tracks(st.(escape := pending), h) && Bounded(st.(escape := pending))
  {
  }

  /** One byte of a frame: the state machine gets it, then the rest of the schedule. */
  lemma {:induction false} AfterByte(st: Rx, polls: seq<Poll>, h: seq<Byte>, b: Byte, later: seq<Poll>)
    requires Tracks(st, h) && |later| < |polls| && later == polls[|polls| - |later|..]
    requires Bounded(st) && Loop(st, polls) == Handle(st, b, later)
    ensures var c := if st.escape then Flip(b) else b;
            var (n, rest) := Drive(st, polls);
            && |rest| <= |later|
            && (n.complete ==> n.frameLength <= |n.frame| && Held(n) == h + ([c] + Symbols(false, Used(later, rest))))
    decreases |polls|, 0
  {
    hide Drive;
    hide Loop;
    hide Handle;
    hide Place;
    hide Tracks;
    hide Symbols;
    hide Flip;
    hide Held;
    var c := if st.escape then Flip(b) else b;
    var st1 := st.(escape := false);
    TracksBasics(st, h);
    TracksPending(st, h, false);
    DriveHandle(st, polls, b, later);
    var n := Place(st1, c).0;
    if AtChecksum(st1) {
      EndHolds(st1, h, c);
      NoneUsed(n, later);
    } else if st.pos > MAX_FRAME_DATA_SIZE {
      TooFar(st1, h, c);
      NoneUsed(n, later);
    } else {
      PlaceTracks(st1, h, c);
      InFrame(n, later, h + [c]);
      assert (h + [c]) + Symbols(false, Used(later, Drive(n, later).1)) == h + ([c] + Symbols(false, Used(later, Drive(n, later).1)));
    }
  }

  lemma NoneUsed(st: Rx, polls: seq<Poll>)
    requires Bounded(st) && st.Done()
    ensures Drive(st, polls) == (st, polls) && Symbols(false, Used(polls, polls)) == []
  {
  }

  /** From inside a frame, whatever the line brings and over any number of calls: a response that
      comes of it holds the bytes so far and then exactly the bytes the state machine was given. */
  lemma {:induction false} InFrame(st: Rx, polls: seq<Poll>, h: seq<Byte>)
    requires Tracks(st, h) && Bounded(st)
    ensures var (n, rest) := Drive(st, polls);
            n.complete ==> n.frameLength <= |n.frame| && Held(n) == h + Symbols(st.escape, Used(polls, rest))
    decreases |polls|, 1
  {
    hide Drive;
    hide Handle;
    hide Tracks;
    hide Flip;
    hide Held;
    TracksBasics(st, h);
    if polls == [] {
      DriveNothing(st);
    } else if polls[0].Idle? {
      DriveIdle(st, polls);
      InFrame(st, polls[1..], h);
      UsedMore(polls, 1, Drive(st, polls[1..]).1);
    } else if polls[0].b == START_BYTE {
      DriveLoop(st, polls);
      NoneUsed(st.(error := UNEXPECTED_START_BYTE), polls[1..]);
    } else if polls[0].b != ESCAPE {
      AfterByte(st, polls, h, polls[0].b, polls[1..]);
      UsedMore(polls, 1, Drive(st, polls).1);
    } else if |polls| > 1 && polls[1].Got? {
      FlipTwice(polls[1].b);
      AfterByte(st, polls, h, Flip(polls[1].b), polls[2..]);
      UsedMore(polls, 2, Drive(st, polls).1);
    } else {
      var later := if |polls| > 1 then polls[2..] else [];
      TracksPending(st, h, true);
      TracksBasics(st.(escape := true), h);
      SameDrive(st, polls, st.(escape := true), later);
      InFrame(st.(escape := true), later, h);
      UsedMore(polls, if |polls| > 1 then 2 else 1, Drive(st, polls).1);
    }
  }

  lemma DriveNothing(st: Rx)
    requires Bounded(st)
    ensures Drive(st, []) == (st, []) && Used([], []) == []
  {
  }

  /** The first polls are among the used ones. */
  lemma UsedMore(polls: seq<Poll>, n: nat, rest: seq<Poll>)
    requires n <= |polls| && |rest| <= |polls| - n
    ensures Used(polls, rest) == polls[..n] + Used(polls[n..], rest)
  {
  }

  lemma StartHere(st: Rx, polls: seq<Poll>)
    requires Hunting(st) && polls != [] && polls[0].Got?
    ensures Drive(st, polls) == Drive(if polls[0].b == START_BYTE then st.(pos := 1) else st, polls[1..])
  {
    hide Drive;
    DriveHandle(st, polls, polls[0].b, polls[1..]);
    assert st.(escape := false) == st;
  }

  /** From between frames: a response starts at a start byte in front of which there is none, and
      holds exactly the bytes the state machine was given since. */
  lemma {:induction false} FromStart(st: Rx, polls: seq<Poll>) returns (j: nat)
    requires Hunting(st) && Drive(st, polls).0.complete
    ensures var (n, rest) := Drive(st, polls);
            var used := Used(polls, rest);
            && j < |used| && used[j] == Got(START_BYTE) && START_BYTE !in Bytes(used[..j])
            && n.frameLength <= |n.frame| && Held(n) == Symbols(false, used[j + 1..])
    decreases |polls|
  {
    hide Drive;
    hide Symbols;
    hide Held;
    if polls == [] {
      DriveNothing(st);
      assert false;
    }
    if polls[0] == Got(START_BYTE) {
      StartHere(st, polls);
      StartTracks(st);
      InFrame(st.(pos := 1), polls[1..], []);
      var rest := Drive(st, polls).1;
      UsedMore(polls, 1, rest);
      assert Used(polls, rest)[1..] == Used(polls[1..], rest);
      assert [] + Symbols(false, Used(polls[1..], rest)) == Symbols(false, Used(polls[1..], rest));
      j := 0;
    } else {
      if polls[0].Idle? {
        DriveIdle(st, polls);
      } else {
        StartHere(st, polls);
      }
      var rest := Drive(st, polls).1;
      var i := FromStart(st, polls[1..]);
      UsedMore(polls, 1, rest);
      OneMorePoll(polls[0], Used(polls[1..], rest), i);
      assert polls[..1] == [polls[0]];
      j := i + 1;
    }
  }

  lemma OneMorePoll(p: Poll, used: seq<Poll>, i: nat)
    requires i < |used| && p != Got(START_BYTE) && START_BYTE !in Bytes(used[..i])
    ensures var more := [p] + used;
            more[i + 1] == used[i] && more[i + 2..] == used[i + 1..] && START_BYTE !in Bytes(more[..i + 1])
  {
    var front := ([p] + used)[..i + 1];
    OnePoll(front);
    assert front[1..] == used[..i];
  }

  /** What a response holds, on every schedule and over any number of calls. It starts at the first
      start byte. Since then the line stands for exactly the length bytes, api id, data and checksum
      that were kept if and only if no pending escape met another escape; so it does whenever no
      escape byte on the line is followed by an escape byte. */
  lemma HoldsTheLine(st: Rx, polls: seq<Poll>) returns (j: nat)
    requires Reachable(st) && Between(st) && Drive(Fresh(st), polls).0.complete
    ensures var (n, rest) := Drive(Fresh(st), polls);
            var used := Used(polls, rest);
            && j < |used| && used[j] == Got(START_BYTE) && START_BYTE !in Bytes(used[..j])
            && n.frameLength <= |n.frame|
            && var line := used[j + 1..];
               && (Held(n) == Unescaped(false, Bytes(line)) <==> Quiet(false, line))
               && (NoDoubleEscape(Bytes(line)) ==> Held(n) == Unescaped(false, Bytes(line)))
  {
    hide Drive;
    hide Held;
    hide Symbols;
    hide Unescaped;
    hide Quiet;
    hide NoDoubleEscape;
    FreshHunting(st);
    j := FromStart(Fresh(st), polls);
    var line := Used(polls, Drive(Fresh(st), polls).1)[j + 1..];
    SymbolsExact(false, line);
    if NoDoubleEscape(Bytes(line)) {
      CleanLineQuiet(false, line);
    }
  }

  lemma FreshHunting(st: Rx)
    requires Reachable(st) && Between(st)
    ensures Hunting(Fresh(st))
  {
  }

  lemma Together(st: Rx, h: seq<Byte>)
    requires Tracks(st, h) && !st.escape && Bounded(st) && 4 <= st.pos < 100 && st.lsb + 3 > st.pos + 2
    ensures Tracks(Drive(st, [Got(ESCAPE), Got(ESCAPE), Got(5)]).0, h + [0x5d, 5])
  {
    hide Drive;
    hide Tracks;
    hide Handle;
    hide Place;
    var polls := [Got(ESCAPE), Got(ESCAPE), Got(5)];
    TracksBasics(st, h);
    assert st.(escape := false) == st;
    PlaceTracks(st, h, 0x5d);
    var n := Place(st, 0x5d).0;
    KeepsLength(st, 0x5d);
    TracksBasics(n, h + [0x5d]);
    PlaceTracks(n, h + [0x5d], 5);
    assert (h + [0x5d]) + [5] == h + [0x5d, 5];
    assert polls[2..] == [Got(5)] && [Got(5)][1..] == [];
    DriveHandle(st, polls, Flip(ESCAPE), [Got(5)]);
    DriveHandle(n, [Got(5)], 5, []);
    assert n.(escape := false) == n;
    DriveNothing(Place(n, 5).0);
  }

  lemma KeepsLength(st: Rx, b: Byte)
    requires Bounded(st) && st.pos > 3
    ensures Place(st, b).0.lsb == st.lsb
  {
  }

  lemma Separate(st: Rx, h: seq<Byte>)
    requires Tracks(st, h) && !st.escape && Bounded(st) && 4 <= st.pos < 100 && st.lsb + 3 > st.pos + 2
    ensures Tracks(Drive(st, [Got(ESCAPE), Idle, Got(ESCAPE), Got(5)]).0, h + [5])
  {
    hide Drive;
    hide Tracks;
    hide Handle;
    hide Place;
    var polls, tail := [Got(ESCAPE), Idle, Got(ESCAPE), Got(5)], [Got(ESCAPE), Got(5)];
    TracksBasics(st, h);
    PlaceTracks(st, h, 5);
    assert polls[2..] == tail && tail[2..] == [];
    var pending := st.(escape := true);
    SameDrive(st, polls, pending, tail);
    DriveHandle(pending, tail, Flip(5), []);
    assert pending.(escape := false) == st;
    DriveNothing(Place(st, 5).0);
  }

  /** The same three line bytes, kept as two bytes when they arrive at once and as one when the line
      was idle behind the first. */
  lemma ArrivalMatters(st: Rx, h: seq<Byte>)
    requires Tracks(st, h) && !st.escape && Bounded(st) && 4 <= st.pos < 100 && st.lsb + 3 > st.pos + 2
    ensures var together := [Got(ESCAPE), Got(ESCAPE), Got(5)];
            var apart := [Got(ESCAPE), Idle, Got(ESCAPE), Got(5)];
            && Bytes(together) == Bytes(apart)
            && Tracks(Drive(st, together).0, h + [0x5d, 5]) && Tracks(Drive(st, apart).0, h + [5])
  {
    hide Drive;
    hide Tracks;
    ArrivalLines();
    Together(st, h);
    Separate(st, h);
  }

  lemma ArrivalLines()
    ensures Bytes([Got(ESCAPE), Got(ESCAPE), Got(5)]) == Bytes([Got(ESCAPE), Idle, Got(ESCAPE), Got(5)])
  {
    var together := [Got(ESCAPE), Got(ESCAPE), Got(5)];
    var apart := [Got(ESCAPE), Idle, Got(ESCAPE), Got(5)];
    var tail := [Got(ESCAPE), Got(5)];
    assert together[1..] == tail && apart[1..] == [Idle] + tail && ([Idle] + tail)[1..] == tail;
    OnePoll(together);
    OnePoll(apart);
    OnePoll(apart[1..]);
  }
}
