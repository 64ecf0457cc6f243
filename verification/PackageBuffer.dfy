/**
 The package codec and the receive buffer as the source runs them: loops over character buffers
 through a moving offset.
 */
module PackageBuffer {
  import opened Package
  import opened Framer

  /** The package structure, filled in place. */
  class IoTPackage {
    var ver: seq<Byte>
    var headerLength: int
    var dataLength: int
    var sor: seq<Byte>
    var des: seq<Byte>
    var data: seq<Byte>

    constructor ()
      ensures Value() == Pkg([], 0, 0, [], [], [])
    {
      ver, headerLength, dataLength, sor, des, data := [], 0, 0, [], [], [];
    }

    ghost function Value(): (r: Pkg)
      reads this
    {
      Pkg(ver, headerLength, dataLength, sor, des, data)
    }

    method CreatePackage(sorIp: seq<Byte>, desIp: seq<Byte>, bytes: seq<Byte>)
      requires |sorIp| < IP_ADDR_SIZE && |desIp| < IP_ADDR_SIZE
      modifies this
      ensures Value() == Create(sorIp, desIp, bytes)
    {
      var length := 0;
      ver := VERSION;
      sor := sorIp;
      des := desIp;
      dataLength := |bytes|;
      data := bytes;
      length := length + |ver|;
      length := length + 1;
      length := length + |sor|;
      length := length + 1;
      length := length + |des|;
      length := length + 1;
      length := length + |Decimal(dataLength)|;
      length := length + 1;
      if length <= 8 {
        length := length + 1;
      } else if length <= 97 {
        length := length + 2;
      } else {
        length := length + 3;
      }
      headerLength := length + 1;
    }
  }

  /** The largest buffer over which a 32-bit sum of bytes cannot wrap. */
  const MAX_SUMMED := 0x100_0000

  /** Copies bytes behind the offset. */
  method Put(buffer: array<Byte>, offset: nat, s: seq<Byte>) returns (next: nat)
    requires offset + |s| <= buffer.Length
    modifies buffer
    ensures next == offset + |s|
    ensures buffer[..next] == old(buffer[..offset]) + s
    ensures forall k :: next <= k < buffer.Length ==> buffer[k] == old(buffer[k])
  {
    var i := 0;
    next := offset;
    while i < |s|
      invariant i <= |s| && next == offset + i
      invariant buffer[..next] == old(buffer[..offset]) + s[..i]
      invariant forall k :: next <= k < buffer.Length ==> buffer[k] == old(buffer[k])
    {
      buffer[next] := s[i];
      next := next + 1;
      i := i + 1;
    }
  }

  /** Sums the first `n` bytes in 32 bits, then folds the carries. */
  method FoldedSum(buffer: array<Byte>, n: nat) returns (sum: nat)
    requires n <= buffer.Length <= MAX_SUMMED
    ensures sum == Folded(Sum(buffer[..n]))
  {
    sum := 0;
    var i := 0;
    while i < n
      invariant i <= n && sum == Sum(buffer[..i]) && sum <= 255 * i < 0x1_0000_0000
    {
      assert buffer[..i + 1][..i] == buffer[..i];
      sum := sum + buffer[i];
      i := i + 1;
    }
    sum := Fold(sum);
  }

  /** Writes header, data and checksum; the rest of the buffer is left alone. */
  method EncodePackage(buffer: array<Byte>, p: IoTPackage) returns (offset: nat)
    requires p.headerLength >= 0 && p.dataLength == |p.data|
    requires |Encoding(p.Value())| <= buffer.Length <= MAX_SUMMED
    modifies buffer
    ensures offset <= buffer.Length && buffer[..offset] == Encoding(p.Value())
    ensures forall k :: offset <= k < buffer.Length ==> buffer[k] == old(buffer[k])
  {
    ghost var v := p.Value();
    ghost var b, c := Decimal(v.headerLength), Decimal(v.dataLength);
    offset := Put(buffer, 0, p.ver);
    offset := Put(buffer, offset, [0]);
    offset := Put(buffer, offset, Decimal(p.headerLength));
    offset := Put(buffer, offset, [0]);
    offset := Put(buffer, offset, Decimal(p.dataLength));
    offset := Put(buffer, offset, [0]);
    offset := Put(buffer, offset, p.sor);
    offset := Put(buffer, offset, [0]);
    offset := Put(buffer, offset, p.des);
    offset := Put(buffer, offset, [0]);
    offset := Put(buffer, offset, p.data);
    assert buffer[..offset] == Header(v) + v.data by {
      assert [] + v.ver == v.ver;
    }
    var sum := FoldedSum(buffer, offset);
    offset := Put(buffer, offset, [sum / 256, sum % 256]);
  }

  /** Reads the field that starts at `idx`; `next` is left on its NUL. */
  method ReadField(buffer: array<Byte>, idx: nat) returns (temp: seq<Byte>, next: nat)
    requires idx <= buffer.Length && |Field(buffer[idx..])| < |buffer[idx..]|
    ensures temp == Field(buffer[idx..]) && next == idx + |temp| < buffer.Length
    ensures buffer[next + 1..] == Skip(buffer[idx..])
  {
    temp := [];
    next := idx;
    ghost var s := buffer[idx..];
    while buffer[next] != 0
      invariant idx <= next <= idx + |Field(s)| && temp == Field(s)[..next - idx]
      decreases buffer.Length - next
    {
      assert buffer[next] == s[next - idx];
      temp := temp + [buffer[next]];
      next := next + 1;
    }
    assert buffer[next] == s[next - idx];
  }

  /** Reads the five header fields into the structure. */
  method DecodeOnlyHeader(buffer: array<Byte>, p: IoTPackage)
    requires HasFields(buffer[..], 5) && HeaderFits(buffer[..])
    modifies p
    ensures p.Value() == ParseHeader(buffer[..]).(data := old(p.data))
  {
    hide HeaderFits;
    hide Field;
    hide Skip;
    ghost var s := buffer[..];
    ghost var (s1, s2, s3, s4) := (Skip(s), Skip(Skip(s)), Skip(Skip(Skip(s))), Skip(Skip(Skip(Skip(s)))));
    assert HasFields(s1, 4) && HasFields(s2, 3) && HasFields(s3, 2) && HasFields(s4, 1);
    assert buffer[0..] == s;
    var temp, idx := ReadField(buffer, 0);
    p.ver := temp;
    temp, idx := ReadField(buffer, idx + 1);
    p.headerLength := Atoi(temp);
    temp, idx := ReadField(buffer, idx + 1);
    p.dataLength := Atoi(temp);
    temp, idx := ReadField(buffer, idx + 1);
    p.sor := temp;
    temp, idx := ReadField(buffer, idx + 1);
    p.des := temp;
  }

  /** Decodes a whole package at the front of the buffer and compares its checksum. */
  method DecodePackage(buffer: array<Byte>, p: IoTPackage) returns (good: bool)
    requires HasFields(buffer[..], 5) && HeaderFits(buffer[..]) && buffer.Length <= MAX_SUMMED
    requires var h := ParseHeader(buffer[..]);
             h.headerLength >= 0 && h.dataLength >= 0 && h.headerLength + h.dataLength + 2 <= buffer.Length
    modifies p
    ensures var h := ParseHeader(buffer[..]);
            var end := h.headerLength + h.dataLength;
            && p.Value() == h.(data := buffer[h.headerLength..end])
            && good == (buffer[end..end + 2] == Check(buffer[..end]))
  {
    hide HeaderFits;
    hide HasFields;
    hide ParseHeader;
    hide Folded;
    hide Sum;
    hide Check;
    DecodeOnlyHeader(buffer, p);
    ghost var h := ParseHeader(buffer[..]);
    var data, offset := CopyData(buffer, p.headerLength, p.dataLength);
    p.data := data;
    var sum := FoldedSum(buffer, offset);
    var received := (buffer[offset] as int) * 256 + buffer[offset + 1];
    CheckValue(buffer[..offset], buffer[offset..offset + 2]);
    good := received == sum;
  }

  method CopyData(buffer: array<Byte>, from: nat, length: nat) returns (data: seq<Byte>, offset: nat)
    requires from + length <= buffer.Length
    ensures offset == from + length && data == buffer[from..offset]
  {
    offset := from;
    data := [];
    var i := 0;
    while i < length
      invariant 0 <= i <= length && offset == from + i
      invariant data == buffer[from..offset]
    {
      data := data + [buffer[offset]];
      offset := offset + 1;
      i := i + 1;
    }
  }

  /** Two bytes are the checksum exactly when they are the folded sum, high byte first. */
  lemma CheckValue(s: seq<Byte>, two: seq<Byte>)
    requires |two| == 2
    ensures two == Check(s) <==> (two[0] as int) * 256 + two[1] == Folded(Sum(s))
  {
    var f := Folded(Sum(s));
    assert f == 256 * (f / 256) + f % 256;
  }

  /** Five non-empty NUL-terminated fields within the first `length` bytes? */
  method IsCompleteHeader(package: array<Byte>, length: nat) returns (complete: bool)
    requires 0 < length <= package.Length
    ensures complete == HasFields(package[..length], 5)
  {
    hide Field;
    hide Skip;
    hide HasFields;
    ghost var s := package[..length];
    ghost var start := 0;
    if package[0] == 0 {
      FieldsHere(s, 0, 0, 5);
      assert s[0..] == s;
      return false;
    }
    assert s[0..] == s;
    var splits, dataCount, idx := 0, 0, 0;
    while true
      invariant 0 <= splits < 5 && start + dataCount == idx < length
      invariant NoZero(s[start..idx])
      invariant HasFields(s, 5) == HasFields(s[start..], 5 - splits)
      decreases length - idx
    {
      FieldsHere(s, start, idx, 5 - splits);
      if package[idx] == 0 && dataCount > 0 {
        splits := splits + 1;
        if splits == 5 {
          return true;
        }
        dataCount := 0;
        start := idx + 1;
      } else if package[idx] == 0 && dataCount == 0 {
        return false;
      } else {
        dataCount := dataCount + 1;
      }
      idx := idx + 1;
      if idx >= length {
        return false;
      }
    }
  }

  /** One more byte of the field that begins at `start`. */
  lemma FieldEnds(w: seq<Byte>, k: nat, n: nat)
    requires k < |w| && NoZero(w[..k]) && n > 0
    ensures w[k] == 0 ==> HasFields(w, n) == (k > 0 && HasFields(w[k + 1..], n - 1))
  {
    if w[k] == 0 {
      FieldUpTo(w, k);
    }
  }

  lemma NoFieldEnd(w: seq<Byte>, n: nat)
    requires NoZero(w) && n > 0
    ensures !HasFields(w, n)
  {
    assert w[..|w|] == w;
    FieldUpTo(w, |w|);
  }

  lemma NothingLeft(n: nat)
    ensures n > 1 ==> !HasFields([], n - 1)
  {
  }

  lemma NoFieldsNeeded(s: seq<Byte>)
    ensures HasFields(s, 0) && NoZero([])
  {
  }

  lemma ZeroFree(s: seq<Byte>, start: nat, idx: nat)
    requires start <= idx < |s| && NoZero(s[start..idx])
    ensures s[idx] != 0 ==> NoZero(s[start..idx + 1])
  {
    var t := s[start..idx + 1];
    assert forall i :: 0 <= i < |t| - 1 ==> t[i] == s[start..idx][i];
  }

  lemma FieldsHere(s: seq<Byte>, start: nat, idx: nat, n: nat)
    requires start <= idx < |s| && NoZero(s[start..idx]) && n > 0
    ensures s[idx] == 0 && idx > start ==> HasFields(s[start..], n) == HasFields(s[idx + 1..], n - 1)
    ensures s[idx] == 0 && idx == start ==> !HasFields(s[start..], n)
    ensures s[idx] != 0 && idx + 1 == |s| ==> !HasFields(s[start..], n)
    ensures idx + 1 == |s| && n > 1 ==> !HasFields(s[idx + 1..], n - 1)
    ensures s[idx] != 0 ==> NoZero(s[start..idx + 1])
    ensures HasFields(s[idx + 1..], 0) && NoZero(s[idx + 1..idx + 1])
  {
    hide Field;
    hide Skip;
    hide HasFields;
    hide NoZero;
    var w, k := s[start..], idx - start;
    assert w[..k] == s[start..idx] && w[k] == s[idx];
    assert w[k + 1..] == s[idx + 1..];
    FieldEnds(w, k, n);
    ZeroFree(s, start, idx);
    if idx + 1 == |s| {
      assert s[idx + 1..] == [];
      if s[idx] != 0 {
        assert w[..k + 1] == w == s[start..idx + 1];
        NoFieldEnd(w, n);
      }
      NothingLeft(n);
    }
    assert s[idx + 1..idx + 1] == [];
    NoFieldsNeeded(s[idx + 1..]);
  }

  /** With `n` non-NUL bytes read, the field ends here or goes on. */
  lemma {:induction false} FieldUpTo(w: seq<Byte>, n: nat)
    requires n <= |w| && NoZero(w[..n])
    ensures |Field(w)| >= n && (n < |w| && w[n] == 0 ==> |Field(w)| == n)
    ensures n == |w| ==> |Field(w)| == |w|
  {
    if n > 0 {
      assert w[1..][..n - 1] == w[..n][1..];
      assert w[0] == w[..n][0];
      FieldUpTo(w[1..], n - 1);
    }
  }

  // ---------- The receive buffer ----------

  datatype Received = NOERROR | COMPLETED | INVALID_PACKAGE | CHECKSUM_ERROR

  function ResultOf(o: Outcome): (r: Received)
    requires !o.Undefined?
  {
    match o
    case NoError => NOERROR
    case Completed(_) => COMPLETED
    case InvalidPackage => INVALID_PACKAGE
    case ChecksumError => CHECKSUM_ERROR
  }

  /** Taking packages off never meets a header the source cannot handle. */
  ghost predicate Defined(s: seq<Byte>)
    decreases |s|
  {
    && !Next(s).0.Undefined?
    && (Next(s).0.Completed? ==> |Next(s).1| < |s| && Defined(Next(s).1))
  }

  lemma {:induction false} CleanIsDefined(s: seq<Byte>)
    requires Drain(s).clean
    ensures Defined(s)
    decreases |s|
  {
    if Next(s).0.Completed? {
      NextAppend(s, []);
      CleanIsDefined(Next(s).1);
    }
  }

  /** The chunks that leave nothing behind, in terms of their bytes. */
  lemma Dropped(buf: seq<Byte>, chunk: seq<Byte>)
    ensures Receive(buf, chunk) == if |buf| + |chunk| > MAXRECV then Drain([]) else Drain(buf + chunk)
    ensures buf == [] && 7 <= |chunk| <= 2000 && chunk[..7] != [73, 85, 68, 80, 49, 46, 48] ==>
              Receive(buf, chunk) == Drained([], [], false)
    ensures |buf| + |chunk| > 2000 ==> Receive(buf, chunk) == Drained([], [], true)
  {
    hide Drain;
    if buf == [] && 7 <= |chunk| <= 2000 && chunk[..7] != [73, 85, 68, 80, 49, 46, 48] {
      JunkIsDropped(chunk);
    }
    if |buf| + |chunk| > 2000 {
      OverflowIsDropped(buf, chunk);
    }
  }

  lemma OneLook(s: seq<Byte>, before: seq<Pkg>)
    requires Defined(s)
    ensures var ((o, rest), d) := (Next(s), Drain(s));
            && !o.Undefined?
            && if o.Completed? then
                 && Defined(rest) && d.rest == Drain(rest).rest
                 && before + d.pkgs == (before + [o.pkg]) + Drain(rest).pkgs
               else before + d.pkgs == before && d.rest == rest
  {
    hide Next;
  }

  /** A run over chunks that never meets such a header. */
  ghost predicate RunDefined(buf: seq<Byte>, chunks: seq<seq<Byte>>)
    decreases |chunks|
  {
    chunks == []
    || ((|buf| + |chunks[0]| <= MAXRECV ==> Defined(buf + chunks[0])) && RunDefined(Receive(buf, chunks[0]).rest, chunks[1..]))
  }

  lemma {:induction false} CleanRunIsDefined(buf: seq<Byte>, chunks: seq<seq<Byte>>)
    requires Run(buf, chunks).clean
    ensures RunDefined(buf, chunks)
    decreases |chunks|
  {
    hide Drain;
    hide Defined;
    if chunks != [] {
      if |buf| + |chunks[0]| <= MAXRECV {
        CleanIsDefined(buf + chunks[0]);
      }
      CleanRunIsDefined(Receive(buf, chunks[0]).rest, chunks[1..]);
    }
  }

  /** The fields found in a NUL-padded buffer are those of its filled part. */
  lemma PaddedHeader(s: seq<Byte>, padded: seq<Byte>)
    requires s <= padded && HasFields(s, 5)
    ensures HasFields(padded, 5) && ParseHeader(padded) == ParseHeader(s) && HeaderFits(padded) == HeaderFits(s)
  {
    var t := padded[|s|..];
    assert padded == s + t;
    FieldsAppend(s, 5, t);
    ParseAppend(s, t);
  }

  class ReceiveBuffer {
    const bytes: array<Byte>
    var count: nat

    /** Everything from `count` on is zero. */
    ghost predicate Valid()
      reads this, bytes
    {
      && bytes.Length == MAXRECV && count <= MAXRECV
      && forall i :: count <= i < MAXRECV ==> bytes[i] == 0
    }

    ghost function Contents(): (r: seq<Byte>)
      requires count <= bytes.Length
      reads this, bytes
    {
      bytes[..count]
    }

    constructor ()
      ensures Valid() && Contents() == [] && fresh(bytes)
    {
      bytes := new Byte[MAXRECV](_ => 0);
      count := 0;
    }

    /** memset of the whole buffer. */
    method Clear()
      requires Valid()
      modifies this, bytes
      ensures Valid() && Contents() == []
    {
      var i := 0;
      while i < bytes.Length
        invariant i <= bytes.Length && forall k :: 0 <= k < i ==> bytes[k] == 0
        modifies bytes
      {
        bytes[i] := 0;
        i := i + 1;
      }
      count := 0;
    }

    /** Moves what follows the first `total` bytes to the front and zeroes the rest. */
    method DropFront(total: nat)
      requires Valid() && total <= count
      modifies this, bytes
      ensures Valid() && Contents() == old(Contents())[total..]
    {
      ghost var s := Contents();
      var left := count - total;
      var i, idx := 0, total;
      while i < left
        invariant i <= left && idx == total + i
        invariant forall k :: 0 <= k < i ==> bytes[k] == s[total + k]
        invariant forall k :: i <= k < count ==> bytes[k] == s[k]
        invariant forall k :: count <= k < MAXRECV ==> bytes[k] == 0
        modifies bytes
      {
        bytes[i] := bytes[idx];
        idx := idx + 1;
        i := i + 1;
      }
      while i < count
        invariant left <= i <= count
        invariant forall k :: 0 <= k < left ==> bytes[k] == s[total + k]
        invariant forall k :: left <= k < i ==> bytes[k] == 0
        invariant forall k :: count <= k < MAXRECV ==> bytes[k] == 0
        modifies bytes
      {
        bytes[i] := 0;
        i := i + 1;
      }
      count := left;
    }

    method VersionMatches() returns (valid: bool)
      requires Valid()
      ensures valid == (count >= |VERSION| && bytes[..|VERSION|] == VERSION)
    {
      if count < |VERSION| {
        return false;
      }
      return bytes[..|VERSION|] == VERSION;
    }

    /** Takes one package off the front of the buffer, if it is complete. */
    method GetCompleted(p: IoTPackage) returns (result: Received)
      requires Valid() && !Next(Contents()).0.Undefined?
      modifies this, bytes, p
      ensures Valid()
      ensures var (o, rest) := Next(old(Contents()));
              && result == ResultOf(o) && Contents() == rest
              && (o.Completed? ==> p.Value() == o.pkg && |rest| < |old(Contents())|)
      ensures |old(Contents())| >= 7 && old(Contents())[..7] != [73, 85, 68, 80, 49, 46, 48] ==>
                result == INVALID_PACKAGE && Contents() == []
    {
      ghost var s := Contents();
      if |s| >= 7 && s[..7] != [73, 85, 68, 80, 49, 46, 48] {
        JunkIsDropped(s);
      }
      if count < |VERSION| {
        return NOERROR;
      }
      var valid := VersionMatches();
      if !valid {
        Clear();
        return INVALID_PACKAGE;
      }
      assert s[..|VERSION|] == bytes[..|VERSION|];
      var complete := IsCompleteHeader(bytes, count);
      if complete {
        result := TakeWhole(p);
        return;
      }
      return NOERROR;
    }

    /** The same, once the header is complete. */
    method TakeWhole(p: IoTPackage) returns (result: Received)
      requires Valid() && HasFields(Contents(), 5) && HeaderFits(Contents())
      requires !Judge(ParseHeader(Contents()), Contents()).0.Undefined?
      modifies this, bytes, p
      ensures Valid()
      ensures var s := old(Contents());
              var (o, rest) := Judge(ParseHeader(s), s);
              && result == ResultOf(o) && Contents() == rest
              && (o.Completed? ==> p.Value() == o.pkg && |rest| < |s|)
    {
      hide HeaderFits;
      hide HasFields;
      hide ParseHeader;
      hide Check;
      ghost var s, h := Contents(), ParseHeader(Contents());
      PaddedHeader(s, bytes[..]);
      DecodeOnlyHeader(bytes, p);
      var total := p.headerLength + p.dataLength + 2;
      if count < total {
        return NOERROR;
      }
      ghost var end := h.headerLength + h.dataLength;
      assert s[..end] == bytes[..end] && s[end..end + 2] == bytes[end..end + 2];
      assert s[h.headerLength..end] == bytes[h.headerLength..end];
      var good := DecodePackage(bytes, p);
      if good {
        DropFront(total);
        return COMPLETED;
      }
      Clear();
      return CHECKSUM_ERROR;
    }

    /** Appends received bytes behind the filled part. */
    method Append(chunk: seq<Byte>)
      requires Valid() && count + |chunk| <= MAXRECV
      modifies this, bytes
      ensures Valid() && Contents() == old(Contents()) + chunk
    {
      ghost var s := Contents();
      var i := 0;
      while i < |chunk|
        invariant i <= |chunk|
        invariant bytes[..count + i] == s + chunk[..i]
        invariant forall k :: count + i <= k < MAXRECV ==> bytes[k] == 0
        modifies bytes
      {
        bytes[count + i] := chunk[i];
        i := i + 1;
      }
      count := count + |chunk|;
    }

    /** Takes packages off until one look does not complete one. */
    method TakeAll() returns (delivered: seq<Pkg>)
      requires Valid() && Defined(Contents())
      modifies this, bytes
      ensures Valid()
      ensures var d := Drain(old(Contents())); delivered == d.pkgs && Contents() == d.rest
    {
      hide Next;
      hide Drain;
      hide Defined;
      delivered := [];
      var result := COMPLETED;
      ghost var s := Contents();
      while result == COMPLETED
        invariant Valid()
        invariant result == COMPLETED ==> Defined(Contents())
        invariant result == COMPLETED ==>
                    var d := Drain(Contents()); Drain(s).pkgs == delivered + d.pkgs && Drain(s).rest == d.rest
        invariant result != COMPLETED ==> Drain(s).pkgs == delivered && Drain(s).rest == Contents()
        decreases result == COMPLETED, count
      {
        var p := new IoTPackage();
        OneLook(Contents(), delivered);
        result := GetCompleted(p);
        if result == COMPLETED {
          delivered := delivered + [Pkg(p.ver, p.headerLength, p.dataLength, p.sor, p.des, p.data)];
        }
      }
    }

    /** One received chunk, as the server's loop handles it. */
    method ReceiveChunk(chunk: seq<Byte>) returns (delivered: seq<Pkg>)
      requires Valid() && (|Contents()| + |chunk| <= MAXRECV ==> Defined(Contents() + chunk))
      modifies this, bytes
      ensures Valid()
      ensures var d := Receive(old(Contents()), chunk); delivered == d.pkgs && Contents() == d.rest
      ensures old(Contents()) == [] && 7 <= |chunk| <= 2000 && chunk[..7] != [73, 85, 68, 80, 49, 46, 48] ==>
                delivered == [] && Contents() == []
      ensures old(|Contents()|) + |chunk| > 2000 ==> delivered == [] && Contents() == []
    {
      hide Receive;
      Dropped(Contents(), chunk);
      if count + |chunk| > MAXRECV {
        Clear();
        NextOfNothing();
      } else {
        Append(chunk);
      }
      delivered := TakeAll();
    }

    /** One client's chunks, one after the other. */
    method ReceiveAll(chunks: seq<seq<Byte>>) returns (delivered: seq<Pkg>)
      requires Valid() && RunDefined(Contents(), chunks)
      modifies this, bytes
      ensures Valid()
      ensures var d := Run(old(Contents()), chunks); delivered == d.pkgs && Contents() == d.rest
    {
      hide Drain;
      hide Receive;
      hide Defined;
      delivered := [];
      ghost var all := Run(Contents(), chunks);
      var i := 0;
      while i < |chunks|
        invariant i <= |chunks| && Valid() && RunDefined(Contents(), chunks[i..])
        invariant var d := Run(Contents(), chunks[i..]); all.pkgs == delivered + d.pkgs && all.rest == d.rest
      {
        FirstChunk(Contents(), chunks[i..]);
        assert chunks[i..][1..] == chunks[i + 1..];
        var some := ReceiveChunk(chunks[i]);
        delivered := delivered + some;
        i := i + 1;
      }
    }

    /** The chunks of part of a stream of packages leave exactly its whole packages delivered and its
        unfinished rest buffered. */
    method ReceiveStream(chunks: seq<seq<Byte>>, ghost ps: seq<Pkg>) returns (delivered: seq<Pkg>)
      requires Valid() && Contents() == []
      requires AllWellFormed(ps) && Flat(chunks) <= Stream(ps) && Roomy([], chunks)
      modifies this, bytes
      ensures Valid() && (delivered, Contents()) == Whole(ps, |Flat(chunks)|)
    {
      ChunkIndependence(ps, chunks);
      CleanRunIsDefined([], chunks);
      delivered := ReceiveAll(chunks);
    }

    /** The same behind a chunk of junk. */
    method ReceiveStreamAfterJunk(junk: seq<Byte>, chunks: seq<seq<Byte>>, ghost ps: seq<Pkg>) returns (delivered: seq<Pkg>)
      requires Valid() && Contents() == []
      requires 7 <= |junk| <= 2000 && junk[..7] != [73, 85, 68, 80, 49, 46, 48]
      requires AllWellFormed(ps) && Flat(chunks) <= Stream(ps) && Roomy([], chunks)
      modifies this, bytes
      ensures Valid() && (delivered, Contents()) == Whole(ps, |Flat(chunks)|)
    {
      hide Drain;
      hide Run;
      JunkIsDropped(junk);
      assert [] + junk == junk;
      var none := ReceiveChunk(junk);
      delivered := ReceiveStream(chunks, ps);
    }
  }

  lemma FirstChunk(buf: seq<Byte>, chunks: seq<seq<Byte>>)
    requires chunks != [] && RunDefined(buf, chunks)
    ensures |buf| + |chunks[0]| <= MAXRECV ==> Defined(buf + chunks[0])
    ensures var d := Receive(buf, chunks[0]);
            var e := Run(d.rest, chunks[1..]);
            && RunDefined(d.rest, chunks[1..])
            && forall before :: before + Run(buf, chunks).pkgs == (before + d.pkgs) + e.pkgs
    ensures Run(buf, chunks).rest == Run(Receive(buf, chunks[0]).rest, chunks[1..]).rest
  {
  }
}
