/**
 The bytes on the serial line as numbers: which bytes a sent frame can hold, how the four special
 bytes are written, and what a frame is made of.
 */
module XBeeWire {
  import opened Package
  import opened XBeeFrame
  import XBeeLine

  // ---------- Escaping ----------

  /** Flipping changes bit 5 and no other. */
  lemma FlipsBitFive(b: Byte)
    ensures Flip(b) / 64 == b / 64 && Flip(b) % 32 == b % 32 && Flip(b) / 32 % 2 == 1 - b / 32 % 2
  {
  }

  /** How one byte is written. */
  function Symbol(b: Byte): (r: seq<Byte>) {
    if b == 0x7e then [0x7d, 0x5e]
    else if b == 0x7d then [0x7d, 0x5d]
    else if b == 0x11 then [0x7d, 0x31]
    else if b == 0x13 then [0x7d, 0x33]
    else [b]
  }

  lemma SymbolIsSent(b: Byte)
    ensures Escape(b) == Symbol(b)
  {
  }

  /** The start byte, the escape byte, XON and XOFF are sent as two bytes, every other byte as itself. */
  lemma SymbolsSent(b: Byte)
    ensures Escape(0x7e) == [0x7d, 0x5e] && Escape(0x7d) == [0x7d, 0x5d]
    ensures Escape(0x11) == [0x7d, 0x31] && Escape(0x13) == [0x7d, 0x33]
    ensures b !in {0x7e, 0x7d, 0x11, 0x13} ==> Escape(b) == [b]
  {
  }

  /** No raw special byte but the escape byte, and that only in front of a flipped special. */
  predicate Clean(w: seq<Byte>) {
    && 0x7e !in w && 0x11 !in w && 0x13 !in w
    && forall i :: 0 <= i < |w| && w[i] == 0x7d ==> i + 1 < |w| && w[i + 1] in {0x5e, 0x5d, 0x31, 0x33}
  }

  lemma {:induction false} EscapedIsClean(s: seq<Byte>)
    ensures Clean(EscapeAll(s))
  {
    if s != [] {
      EscapedIsClean(s[1..]);
      SymbolsSent(s[0]);
      CleanJoins(Escape(s[0]), EscapeAll(s[1..]));
    }
  }

  lemma CleanJoins(a: seq<Byte>, b: seq<Byte>)
    requires Clean(a) && Clean(b)
    ensures Clean(a + b)
  {
    var w := a + b;
    forall i | 0 <= i < |w| && w[i] == 0x7d
      ensures i + 1 < |w| && w[i + 1] in {0x5e, 0x5d, 0x31, 0x33}
    {
      if i < |a| {
        assert a[i] == 0x7d && w[i + 1] == a[i + 1];
      } else {
        assert b[i - |a|] == 0x7d && w[i + 1] == b[i + 1 - |a|];
      }
    }
  }

  /** A sent frame is a start byte and then clean bytes. */
  lemma WireBytes(apiId: Byte, frameId: Byte, data: seq<Byte>)
    ensures var w := Wire(apiId, frameId, data); w[0] == 0x7e && Clean(w[1..])
  {
    hide EscapeAll;
    EscapedIsClean(Body(apiId, frameId, data));
    assert Wire(apiId, frameId, data)[1..] == EscapeAll(Body(apiId, frameId, data));
  }

  /** Undoing the escapes gives the bytes back. */
  lemma {:induction false} UnescapedIsSent(s: seq<Byte>)
    ensures XBeeLine.Unescaped(false, EscapeAll(s)) == s
  {
    if s != [] {
      UnescapedIsSent(s[1..]);
      Flipped(s[0]);
      var w, later := Escape(s[0]) + EscapeAll(s[1..]), EscapeAll(s[1..]);
      if Special(s[0]) {
        assert w[1..][1..] == later;
      } else {
        assert w[1..] == later;
      }
    }
  }

  // ---------- Frames ----------

  /** Behind the start byte, with the escapes undone: two length bytes, high byte first, that count the
      api id, the frame id and the data; these; and a byte that makes their sum 255 modulo 256. */
  lemma FrameLayout(apiId: Byte, frameId: Byte, data: seq<Byte>)
    requires |data| <= 65533
    ensures var s := XBeeLine.Unescaped(false, Wire(apiId, frameId, data)[1..]);
            && |s| == |data| + 5
            && 256 * (s[0] as int) + s[1] as int == |data| + 2
            && s[2] == apiId && s[3] == frameId && s[4..|s| - 1] == data
            && ((apiId as int) + (frameId as int) + Sum(data) + (s[|s| - 1] as int)) % 256 == 255
  {
    hide EscapeAll;
    hide XBeeLine.Unescaped;
    hide Body;
    hide Sum;
    var body := Body(apiId, frameId, data);
    UnescapedIsSent(body);
    assert Wire(apiId, frameId, data)[1..] == EscapeAll(body);
    BodyLayout(apiId, frameId, data);
  }

  lemma BodyLayout(apiId: Byte, frameId: Byte, data: seq<Byte>)
    requires |data| <= 65533
    ensures var s := Body(apiId, frameId, data);
            && |s| == |data| + 5
            && 256 * (s[0] as int) + s[1] as int == |data| + 2
            && s[2] == apiId && s[3] == frameId && s[4..|s| - 1] == data
            && ((apiId as int) + (frameId as int) + Sum(data) + (s[|s| - 1] as int)) % 256 == 255
  {
    hide Sum;
    var n := |data| + 2;
    HighLow(n);
    CoveredSum(apiId, frameId, data);
    Complement(Sum([apiId, frameId] + data));
    Parts(n / 256, n % 256, apiId, frameId, data, 0xff - Sum([apiId, frameId] + data) % 256);
  }

  lemma Parts(a: Byte, b: Byte, c: Byte, d: Byte, data: seq<Byte>, e: Byte)
    ensures var s := [a, b] + ([c, d] + data) + [e];
            |s| == |data| + 5 && s[0] == a && s[1] == b && s[2] == c && s[3] == d && s[4..|s| - 1] == data && s[|s| - 1] == e
  {
  }

  lemma HighLow(n: nat)
    requires n < 0x1_0000
    ensures n % 0x1_0000 == n && n / 256 < 256 && 256 * (n / 256) + n % 256 == n
  {
  }

  lemma CoveredSum(apiId: Byte, frameId: Byte, data: seq<Byte>)
    ensures Sum([apiId, frameId] + data) == (apiId as int) + (frameId as int) + Sum(data)
  {
    SumConcat([apiId, frameId], data);
    SumOne([apiId], frameId);
    SumOne([], apiId);
    assert [apiId] + [frameId] == [apiId, frameId] && [] + [apiId] == [apiId];
  }

  lemma Complement(n: nat)
    ensures (n + (0xff - n % 256)) % 256 == 255
  {
  }

  /** The frame that asks a radio for its node join time, byte for byte. */
  lemma NodeJoinFrame()
    ensures Wire(0x08, 0x52, [0x4e, 0x4a]) == [0x7e, 0x00, 0x04, 0x08, 0x52, 0x4e, 0x4a, 0x0d]
  {
    hide Sum;
    hide EscapeAll;
    CoveredSum(0x08, 0x52, [0x4e, 0x4a]);
    TwoSum(0x4e, 0x4a);
    var body := [0x00, 0x04, 0x08, 0x52, 0x4e, 0x4a, 0x0d];
    assert [0x00, 0x04] + ([0x08, 0x52] + [0x4e, 0x4a]) + [0x0d as Byte] == body;
    NothingEscaped(body);
  }

  lemma TwoSum(a: Byte, b: Byte)
    ensures Sum([a, b]) == (a as int) + (b as int)
  {
    SumOne([a], b);
    SumOne([], a);
    assert [a] + [b] == [a, b] && [] + [a] == [a];
  }

  lemma {:induction false} NothingEscaped(s: seq<Byte>)
    requires forall i :: 0 <= i < |s| ==> s[i] !in {0x7e, 0x7d, 0x11, 0x13}
    ensures EscapeAll(s) == s
  {
    if s != [] {
      NothingEscaped(s[1..]);
      SymbolsSent(s[0]);
    }
  }

  // ---------- Receiving ----------

  /** How a frame ends at its checksum byte, and at a byte that does not fit: the error numbers are 0,
      1 and 2, and only the first is a response. */
  lemma FrameEnds(st: Rx, b: Byte)
    requires Bounded(st) && !st.Done()
    ensures 4 <= st.pos <= 110 && st.pos == st.lsb + 3 ==>
              var (n, stop) := Place(st, b);
              && stop && n.pos == 0
              && if (st.total + b) % 256 == 255 then n.complete && n.error == 0 && n.frameLength == st.pos - 4
                 else !n.complete && n.error == 1
    ensures st.pos == 111 ==> var (n, stop) := Place(st, b); stop && !n.complete && n.error == 2
  {
    hide Bounded;
  }

  /** A start byte inside a frame ends the call with error 3, whatever comes behind it. */
  lemma StartEnds(st: Rx, polls: seq<Poll>)
    requires Bounded(st) && st.pos > 0
    ensures Loop(st, [Got(0x7e)] + polls) == (st.(error := 3), polls)
  {
    hide Handle;
    hide Bounded;
    var all := [Got(0x7e)] + polls;
    assert all[0] == Got(START_BYTE) && all[1..] == polls;
  }
}
