/**
 The XBee object: the receiver and sender of XBeeFrame as the source runs them, one field
 update at a time.
 */
module XBeeDevice {
  import opened Package
  import F = XBeeFrame
  import opened XBeeWire

  class XBee {
    var pos: nat
    var escape: bool
    var checksumTotal: Byte
    var msbLength: Byte
    var lsbLength: Byte
    var apiId: Byte
    var checksum: Byte
    var frameLength: Byte
    var complete: bool
    var errorCode: Byte
    const frameData: array<Byte>

    /** The serial line: what the coming polls will see, the byte polled last, and what was written. */
    var line: seq<F.Poll>
    var availableByte: Byte
    var isAvailable: bool
    var written: seq<Byte>

    ghost function State(): (r: F.Rx)
      reads this, frameData
    {
      F.Rx(pos, escape, checksumTotal, msbLength, lsbLength, apiId, checksum, frameLength, complete, errorCode, frameData[..])
    }

    ghost predicate Valid()
      reads this, frameData
    {
      F.Bounded(State()) && !isAvailable
    }

    constructor (schedule: seq<F.Poll>)
      ensures Valid() && F.Hunting(State()) && line == schedule && written == [] && fresh(frameData)
    {
      pos, escape, checksumTotal := 0, false, 0;
      msbLength, lsbLength, apiId, checksum, frameLength := 0, 0, 0, 0, 0;
      complete, errorCode := false, F.NO_ERROR;
      frameData := new Byte[F.MAX_FRAME_DATA_SIZE](_ => 0);
      line, availableByte, isAvailable, written := schedule, 0, false, [];
    }

    /** Polls the line once; a byte seen stays available until it is read. */
    method Available() returns (r: bool)
      requires !isAvailable
      modifies this`line, this`availableByte, this`isAvailable
      ensures r == isAvailable == (old(line) != [] && old(line)[0].Got?)
      ensures r ==> availableByte == old(line)[0].b
      ensures line == if old(line) == [] then [] else old(line)[1..]
    {
      if line != [] {
        if line[0].Got? {
          availableByte := line[0].b;
          isAvailable := true;
        }
        line := line[1..];
      }
      return isAvailable;
    }

    method Read() returns (b: Byte)
      modifies this`isAvailable
      ensures b == availableByte && !isAvailable
    {
      isAvailable := false;
      return availableByte;
    }

    method ResetResponse()
      requires Valid()
      modifies this`pos, this`escape, this`checksumTotal, this`msbLength, this`lsbLength, this`apiId,
               this`checksum, this`frameLength, this`complete, this`errorCode
      ensures Valid() && State() == F.Reset(old(State()))
    {
      pos, escape, checksumTotal := 0, false, 0;
      complete, errorCode, checksum := false, F.NO_ERROR, 0;
      apiId, msbLength, lsbLength, frameLength := 0, 0, 0, 0;
    }

    /** The packet length: the high byte is shifted out of the mask. */
    function PacketLength(): (n: nat)
      reads this
      ensures n == lsbLength
    {
      (msbLength * 256) % 256 + lsbLength % 256
    }

    /** The switch on the position, for one unescaped byte. */
    method Step(b: Byte) returns (stop: bool)
      requires Valid() && !escape
      modifies this, frameData
      ensures Valid() && line == old(line) && written == old(written)
      ensures (State(), stop) == F.Place(old(State()), b)
    {
      stop := false;
      if pos >= 3 {
        checksumTotal := (checksumTotal + b) % 256;
      }
      if pos == 0 {
        if b == F.START_BYTE {
          pos := pos + 1;
        }
      } else if pos == 1 {
        msbLength := b;
        pos := pos + 1;
      } else if pos == 2 {
        lsbLength := b;
        pos := pos + 1;
      } else if pos == 3 {
        apiId := b;
        pos := pos + 1;
      } else if pos > F.MAX_FRAME_DATA_SIZE {
        errorCode := F.PACKET_EXCEEDS_BYTE_ARRAY_LENGTH;
        stop := true;
      } else if pos == PacketLength() + 3 {
        if checksumTotal == 0xff {
          checksum := b;
          complete := true;
          errorCode := F.NO_ERROR;
        } else {
          errorCode := F.CHECKSUM_FAILURE;
        }
        frameLength := pos - 4;
        pos := 0;
        stop := true;
      } else {
        frameData[pos - 4] := b;
        pos := pos + 1;
      }
    }

    /** Reads polled bytes until a response is finished or fails, or the line is idle. */
    method ReadPacket()
      requires Valid()
      modifies this, frameData
      ensures Valid() && written == old(written)
      ensures (State(), line) == F.ReadPacket(old(State()), old(line))
    {
      if complete || errorCode > 0 {
        ResetResponse();
      }
      ghost var call := F.Loop(State(), line);
      var stop := false;
      while !stop
        invariant Valid() && written == old(written)
        invariant stop ==> call == (State(), line)
        invariant !stop ==> call == F.Loop(State(), line)
        decreases |line|, !stop
      {
        stop := OneByte();
      }
    }

    /** One turn of the loop: poll, read, unescape, place. */
    method OneByte() returns (stop: bool)
      requires Valid()
      modifies this, frameData
      ensures Valid() && written == old(written)
      ensures stop ==> F.Loop(old(State()), old(line)) == (State(), line)
      ensures !stop ==> F.Loop(old(State()), old(line)) == F.Loop(State(), line) && |line| < |old(line)|
    {
      ghost var st, polls := State(), line;
      var more := Available();
      if !more {
        return true;
      }
      var b := Read();
      if pos > 0 && b == F.START_BYTE {
        errorCode := F.UNEXPECTED_START_BYTE;
        return true;
      }
      if pos > 0 && b == F.ESCAPE {
        more := Available();
        if more {
          b := Read();
          b := F.Flip(b);
        } else {
          escape := true;
          return false;
        }
      }
      stop := Unescaped(b);
    }

    method Unescaped(byte: Byte) returns (stop: bool)
      requires Valid()
      modifies this, frameData
      ensures Valid() && line == old(line) && written == old(written)
      ensures stop ==> F.Handle(old(State()), byte, line) == (State(), line)
      ensures !stop ==> F.Handle(old(State()), byte, line) == F.Loop(State(), line)
    {
      var b := byte;
      if escape {
        b := F.Flip(b);
        escape := false;
      }
      assert State() == old(State()).(escape := false);
      stop := Step(b);
    }

    method Write(b: Byte)
      modifies this`written
      ensures written == old(written) + [b]
    {
      written := written + [b];
    }

    method SendByte(b: Byte, esc: bool)
      modifies this`written
      ensures written == old(written) + (if esc then F.Escape(b) else [b])
      ensures written == old(written) + (if esc then Symbol(b) else [b])
    {
      if esc && (b == F.START_BYTE || b == F.ESCAPE || b == F.XON || b == F.XOFF) {
        Write(F.ESCAPE);
        Write(F.Flip(b));
      } else {
        Write(b);
      }
    }

    /** Start byte, length, api id and frame id. */
    method SendHead(api: Byte, frameId: Byte, length: nat)
      requires length <= 255
      modifies this`written
      ensures written == old(written) + ([F.START_BYTE]
                + F.EscapeAll([(length + 2) / 256, (length + 2) % 256, api, frameId]))
    {
      hide F.EscapeAll;
      hide Symbol;
      hide F.Escape;
      ghost var before := written;
      var msb: Byte := (length + 2) / 256;
      var lsb: Byte := (length + 2) % 256;
      SendByte(F.START_BYTE, false);
      SendByte(msb, true);
      SendByte(lsb, true);
      SendByte(api, true);
      SendByte(frameId, true);
      EscapeFour(msb, lsb, api, frameId);
      FiveParts(before, [F.START_BYTE], F.Escape(msb), F.Escape(lsb), F.Escape(api), F.Escape(frameId));
    }

    /** The data bytes, and their sum. */
    method SendData(data: seq<Byte>, start: Byte) returns (sum: Byte)
      modifies this`written
      ensures written == old(written) + F.EscapeAll(data)
      ensures sum == (start + Sum(data)) % 256
    {
      hide Symbol;
      hide F.Escape;
      sum := start;
      var i := 0;
      while i < |data|
        invariant i <= |data|
        invariant written == old(written) + F.EscapeAll(data[..i])
        invariant sum == (start + Sum(data[..i])) % 256
      {
        OneMore(data, i);
        SumStep(start, data, i);
        SendByte(data[i], true);
        sum := (sum + data[i]) % 256;
        i := i + 1;
      }
      assert data[..|data|] == data;
    }

    /** Writes one frame. */
    method Send(api: Byte, frameId: Byte, data: seq<Byte>)
      requires |data| <= 255
      modifies this`written
      ensures written == old(written) + F.Wire(api, frameId, data)
    {
      hide Symbol;
      hide F.Escape;
      hide F.EscapeAll;
      hide Sum;
      SendHead(api, frameId, |data|);
      var sum := SendData(data, (api + frameId) % 256);
      SendByte(0xff - sum, true);
      BodyParts(api, frameId, data);
    }
  }

  lemma FiveParts(s: seq<Byte>, a: seq<Byte>, b: seq<Byte>, c: seq<Byte>, d: seq<Byte>, e: seq<Byte>)
    ensures s + a + b + c + d + e == s + (a + (b + c + d + e))
  {
  }

  lemma EscapeFour(a: Byte, b: Byte, c: Byte, d: Byte)
    ensures F.EscapeAll([a, b, c, d]) == F.Escape(a) + F.Escape(b) + F.Escape(c) + F.Escape(d)
  {
    hide F.Escape;
    EscapeAppend([], a);
    EscapeAppend([a], b);
    EscapeAppend([a, b], c);
    EscapeAppend([a, b, c], d);
    assert [] + [a] == [a] && [a] + [b] == [a, b] && [a, b] + [c] == [a, b, c] && [a, b, c] + [d] == [a, b, c, d];
  }

  lemma {:induction false} EscapeConcat(s: seq<Byte>, t: seq<Byte>)
    ensures F.EscapeAll(s + t) == F.EscapeAll(s) + F.EscapeAll(t)
  {
    if s == [] {
      assert s + t == t;
    } else {
      assert (s + t)[1..] == s[1..] + t;
      EscapeConcat(s[1..], t);
    }
  }

  /** The body is sent in three parts; the checksum complements the sum of what it covers. */
  lemma BodyParts(api: Byte, frameId: Byte, data: seq<Byte>)
    requires |data| <= 255
    ensures var head := [(|data| + 2) / 256, (|data| + 2) % 256, api, frameId];
            var sum := ((api + frameId) % 256 + Sum(data)) % 256;
            F.EscapeAll(F.Body(api, frameId, data)) == F.EscapeAll(head) + F.EscapeAll(data) + F.Escape(0xff - sum)
  {
    hide F.EscapeAll;
    hide F.Escape;
    var head := [(|data| + 2) / 256, (|data| + 2) % 256, api, frameId];
    var covered := [api, frameId] + data;
    var check := 0xff - Sum(covered) % 256;
    assert F.Body(api, frameId, data) == (head + data) + [check];
    EscapeAppend(head + data, check);
    EscapeConcat(head, data);
    SumConcat([api, frameId], data);
    F.SumOne([api], frameId);
    F.SumOne([], api);
    assert [] + [api] == [api] && [api] + [frameId] == [api, frameId];
    ModOfSum(api + frameId, Sum(data));
  }

  lemma ModOfSum(a: nat, b: nat)
    ensures (a % 256 + b) % 256 == (a + b) % 256
  {
  }

  lemma {:induction false} EscapeAppend(s: seq<Byte>, b: Byte)
    ensures F.EscapeAll(s + [b]) == F.EscapeAll(s) + F.Escape(b)
  {
    if s == [] {
      assert [b][1..] == [];
    } else {
      assert (s + [b])[1..] == s[1..] + [b];
      EscapeAppend(s[1..], b);
    }
  }

  lemma OneMore(body: seq<Byte>, k: nat)
    requires k < |body|
    ensures F.EscapeAll(body[..k + 1]) == F.EscapeAll(body[..k]) + F.Escape(body[k])
  {
    assert body[..k + 1] == body[..k] + [body[k]];
    EscapeAppend(body[..k], body[k]);
  }

  lemma SumStep(start: Byte, data: seq<Byte>, i: nat)
    requires i < |data|
    ensures (start + Sum(data[..i + 1])) % 256 == ((start + Sum(data[..i])) % 256 + data[i]) % 256
  {
    assert data[..i + 1] == data[..i] + [data[i]];
    F.SumOne(data[..i], data[i]);
    F.ModSum(start + Sum(data[..i]), data[i]);
  }
}
