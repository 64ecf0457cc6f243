/**
 Taking packages off a byte stream that arrives in arbitrary chunks.
 */
module Framer {
  import opened Package

  const MAXRECV := 2000

  // ---------- One package ----------

  /** Once a package is complete, later bytes do not change it. */
  lemma NextAppend(s: seq<Byte>, t: seq<Byte>)
    requires Next(s).0.Completed?
    ensures Next(s + t) == (Next(s).0, Next(s).1 + t)
    ensures |Next(s).1| < |s|
  {
    hide Judge;
    hide ParseHeader;
    hide HasFields;
    hide HeaderFits;
    FieldsAppend(s, 5, t);
    ParseAppend(s, t);
    JudgeAppend(ParseHeader(s), s, t);
    assert (s + t)[..|VERSION|] == s[..|VERSION|];
  }

  lemma JudgeAppend(p: Pkg, s: seq<Byte>, t: seq<Byte>)
    requires Judge(p, s).0.Completed?
    ensures Judge(p, s + t) == (Judge(p, s).0, Judge(p, s).1 + t)
    ensures |Judge(p, s).1| < |s|
  {
    hide Check;
    var end := p.headerLength + p.dataLength;
    var w := s + t;
    assert w[..end] == s[..end];
    assert w[end..end + 2] == s[end..end + 2];
    assert w[p.headerLength..end] == s[p.headerLength..end];
    assert w[end + 2..] == s[end + 2..] + t;
  }

  lemma {:induction false} FieldAppend(s: seq<Byte>, t: seq<Byte>)
    requires |Field(s)| < |s|
    ensures Field(s + t) == Field(s) && Skip(s + t) == Skip(s) + t
  {
    if s[0] != 0 {
      assert (s + t)[1..] == s[1..] + t;
      FieldAppend(s[1..], t);
    }
    assert (s + t)[|Field(s)| + 1..] == s[|Field(s)| + 1..] + t;
  }

  lemma {:induction false} FieldsAppend(s: seq<Byte>, n: nat, t: seq<Byte>)
    requires HasFields(s, n)
    ensures HasFields(s + t, n)
    decreases n
  {
    hide Field;
    hide Skip;
    if n > 0 {
      FieldAppend(s, t);
      FieldsAppend(Skip(s), n - 1, t);
    }
  }

  lemma ParseAppend(s: seq<Byte>, t: seq<Byte>)
    requires HasFields(s, 5)
    ensures ParseHeader(s + t) == ParseHeader(s) && HeaderFits(s + t) == HeaderFits(s)
  {
    hide Field;
    hide Skip;
    var (s1, s2, s3, s4) := (Skip(s), Skip(Skip(s)), Skip(Skip(Skip(s))), Skip(Skip(Skip(Skip(s)))));
    assert HasFields(s1, 4) && HasFields(s2, 3) && HasFields(s3, 2) && HasFields(s4, 1);
    FieldAppend(s, t);
    FieldAppend(s1, t);
    FieldAppend(s2, t);
    FieldAppend(s3, t);
    FieldAppend(s4, t);
  }

  lemma JudgeWhole(h: seq<Byte>, data: seq<Byte>, p: Pkg, check: seq<Byte>, t: seq<Byte>)
    requires p.headerLength == |h| && p.dataLength == |data| && |check| == 2
    ensures var s := h + (data + check + t);
            Judge(p, s) == if check == Check(h + data) then (Completed(p.(data := data)), t) else (ChecksumError, [])
  {
    hide Check;
    var s := h + (data + check + t);
    var end := |h| + |data|;
    assert s[..end] == h + data;
    assert s[end..end + 2] == check;
    assert s[|h|..end] == data;
    assert s[end + 2..] == t;
  }

  /** A buffer that starts with a written header: what comes next depends on the rest only. */
  lemma NextAfterHeader(p: Pkg, t: seq<Byte>)
    requires WellFormed(p)
    ensures p.headerLength >= 0 && Next(Header(p) + t) == Judge(p.(data := []), Header(p) + t)
  {
    hide Judge;
    hide ParseHeader;
    hide HeaderFits;
    hide HasFields;
    hide Header;
    hide HeaderFits;
    HeaderRoundTrip(p, t);
    HeaderComplete(p, t);
    HeaderDescribesItself(p.sor, p.des, p.data);
    DecimalLength(p.headerLength);
    DecimalLength(p.dataLength);
    VersionFirst(p, Header(p) + t);
  }

  /** A written package at the front of the buffer is read back whole, with a good checksum. */
  lemma NextOfEncoding(p: Pkg, t: seq<Byte>)
    requires WellFormed(p)
    ensures Next(Encoding(p) + t) == (Completed(p), t)
  {
    hide Judge;
    hide Next;
    hide Check;
    hide Header;
    var h := Header(p);
    var check := Check(h + p.data);
    HeaderDescribesItself(p.sor, p.des, p.data);
    NextAfterHeader(p, p.data + check + t);
    JudgeWhole(h, p.data, p.(data := []), check, t);
    assert Encoding(p) + t == h + (p.data + check + t);
  }

  lemma VersionFirst(p: Pkg, s: seq<Byte>)
    requires p.ver == VERSION && p.headerLength >= 0 && p.dataLength >= 0 && |s| >= |VERSION|
    requires Header(p) <= s || s <= Encoding(p)
    ensures s[..|VERSION|] == VERSION
  {
    assert Header(p)[..|VERSION|] == VERSION && Encoding(p)[..|VERSION|] == VERSION;
  }

  /** A cut header has fewer than five whole fields. */
  lemma {:induction false} CutFields(s: seq<Byte>, t: seq<Byte>, n: nat)
    requires HasFields(s, n) && n > 0 && t <= s && |t| < FieldsLength(s, n)
    ensures !HasFields(t, n)
    decreases n
  {
    hide Field;
    hide Skip;
    if HasFields(t, n) {
      var u := s[|t|..];
      assert s == t + u;
      FieldAppend(t, u);
      SkipLength(t);
      if n > 1 {
        assert Skip(t) <= Skip(s);
        CutFields(Skip(s), Skip(t), n - 1);
      }
    }
  }

  lemma SkipLength(s: seq<Byte>)
    requires |Field(s)| < |s|
    ensures |Skip(s)| + |Field(s)| + 1 == |s|
  {
  }

  /** Bytes taken by the first `n` fields. */
  function FieldsLength(s: seq<Byte>, n: nat): (r: nat)
    decreases n
  {
    if n == 0 then 0 else |Field(s)| + 1 + FieldsLength(Skip(s), n - 1)
  }

  lemma HeaderFieldsLength(p: Pkg)
    requires WellFormed(p)
    ensures p.headerLength >= 0 && HasFields(Header(p), 5) && FieldsLength(Header(p), 5) == |Header(p)|
  {
    hide Field;
    hide Skip;
    hide Header;
    hide Decimal;
    hide HasFields;
    assert Header(p) + [] == Header(p);
    HeaderComplete(p, []);
    HeaderChain(p, []);
    var s := Header(p);
    var (s1, s2, s3, s4) := (Skip(s), Skip(Skip(s)), Skip(Skip(Skip(s))), Skip(Skip(Skip(Skip(s)))));
    assert FieldsLength(s4, 1) == |s4| && FieldsLength(s3, 2) == |s3|;
    assert FieldsLength(s2, 3) == |s2| && FieldsLength(s1, 4) == |s1|;
  }

  lemma CutInHeader(p: Pkg, s: seq<Byte>)
    requires WellFormed(p) && s <= Encoding(p) && |VERSION| <= |s| < |Header(p)|
    ensures Next(s) == (NoError, s)
  {
    hide FieldsLength;
    hide Decimal;
    hide Judge;
    hide ParseHeader;
    hide HeaderFits;
    hide HasFields;
    hide Header;
    hide Check;
    var h := Header(p);
    HeaderFieldsLength(p);
    VersionFirst(p, s);
    assert Encoding(p)[..|h|] == h;
    assert s <= h;
    CutFields(h, s, 5);
  }

  lemma CutInData(p: Pkg, s: seq<Byte>)
    requires WellFormed(p) && s <= Encoding(p) && |Header(p)| <= |s| < |Encoding(p)|
    ensures Next(s) == (NoError, s)
  {
    hide Judge;
    hide Next;
    hide Header;
    hide Check;
    var h := Header(p);
    var t := s[|h|..];
    assert Encoding(p)[..|h|] == h;
    assert s == h + t;
    NextAfterHeader(p, t);
    LengthOfEncoding(p);
    JudgeShort(p.(data := []), s);
  }

  lemma LengthOfEncoding(p: Pkg)
    requires WellFormed(p)
    ensures p.headerLength == |Header(p)| && p.dataLength == |p.data|
    ensures |Encoding(p)| == |Header(p)| + |p.data| + 2
  {
    hide Header;
    hide Check;
    HeaderDescribesItself(p.sor, p.des, p.data);
  }

  /** Nothing happens before the last byte of a package has arrived. */
  lemma NextOfPrefix(p: Pkg, s: seq<Byte>)
    requires WellFormed(p) && s <= Encoding(p) && |s| < |Encoding(p)|
    ensures Next(s) == (NoError, s)
  {
    hide Header;
    hide Encoding;
    if |s| >= |VERSION| {
      if |s| < |Header(p)| {
        CutInHeader(p, s);
      } else {
        CutInData(p, s);
      }
    }
  }

  lemma JudgeShort(p: Pkg, s: seq<Byte>)
    requires |s| < p.headerLength + p.dataLength + 2
    ensures Judge(p, s) == (NoError, s)
  {
  }

  // ---------- The receive loop ----------

  /** Packages taken off in a row, what is kept, and whether the loop stopped quietly. */
  datatype Drained = Drained(pkgs: seq<Pkg>, rest: seq<Byte>, clean: bool)

  function Drain(s: seq<Byte>): (r: Drained)
    decreases |s|
  {
    var (o, rest) := Next(s);
    if o.Completed? then
      NextAppend(s, []);
      var d := Drain(rest);
      Drained([o.pkg] + d.pkgs, d.rest, d.clean)
    else Drained([], rest, o.NoError?)
  }

  /** Draining in two goes is draining once, if the first go stopped quietly. */
  lemma {:induction false} DrainAppend(s: seq<Byte>, t: seq<Byte>)
    requires Drain(s).clean
    ensures var d, e := Drain(s), Drain(Drain(s).rest + t);
            Drain(s + t) == Drained(d.pkgs + e.pkgs, e.rest, e.clean)
    decreases |s|
  {
    hide Next;
    var (o, rest) := Next(s);
    if o.Completed? {
      NextAppend(s, t);
      DrainAppend(rest, t);
      var d, e := Drain(rest), Drain(Drain(rest).rest + t);
      assert [o.pkg] + (d.pkgs + e.pkgs) == ([o.pkg] + d.pkgs) + e.pkgs;
    } else {
      KeptByNoError(s);
      assert Drain(s).rest + t == s + t;
      assert [] + Drain(s + t).pkgs == Drain(s + t).pkgs;
    }
  }

  lemma KeptByNoError(s: seq<Byte>)
    requires Next(s).0.NoError?
    ensures Next(s).1 == s
  {
    hide HasFields;
    hide ParseHeader;
    hide Check;
  }

  /** One received chunk: a chunk that would overflow the buffer empties it and is dropped. */
  function Receive(buf: seq<Byte>, chunk: seq<Byte>): (r: Drained) {
    if |buf| + |chunk| > MAXRECV then Drain([]) else Drain(buf + chunk)
  }

  /** A run over chunks, with the packages delivered so far. */
  function Run(buf: seq<Byte>, chunks: seq<seq<Byte>>): (r: Drained)
    decreases |chunks|
  {
    if chunks == [] then Drained([], buf, true)
    else
      var d := Receive(buf, chunks[0]);
      var e := Run(d.rest, chunks[1..]);
      Drained(d.pkgs + e.pkgs, e.rest, d.clean && e.clean)
  }

  function Flat(chunks: seq<seq<Byte>>): (r: seq<Byte>) {
    if chunks == [] then [] else chunks[0] + Flat(chunks[1..])
  }

  /** No chunk trips the overflow test. */
  predicate Roomy(buf: seq<Byte>, chunks: seq<seq<Byte>>)
    decreases |chunks|
  {
    chunks == [] || (|buf| + |chunks[0]| <= MAXRECV && Roomy(Receive(buf, chunks[0]).rest, chunks[1..]))
  }

  /** Any bytes at all: as long as nothing is dropped, chunks deliver what the whole would. */
  lemma {:induction false} ChunksAreOneStream(buf: seq<Byte>, chunks: seq<seq<Byte>>)
    requires Roomy(buf, chunks) && Run(buf, chunks).clean && Drain(buf) == Drained([], buf, true)
    ensures Run(buf, chunks) == Drain(buf + Flat(chunks))
    decreases |chunks|
  {
    if chunks == [] {
      assert buf + [] == buf;
    } else {
      var d := Receive(buf, chunks[0]);
      DrainRest(buf + chunks[0]);
      ChunksAreOneStream(d.rest, chunks[1..]);
      DrainAppend(buf + chunks[0], Flat(chunks[1..]));
      assert buf + Flat(chunks) == (buf + chunks[0]) + Flat(chunks[1..]);
    }
  }

  /** What a quiet drain keeps holds no package. */
  lemma {:induction false} DrainRest(s: seq<Byte>)
    requires Drain(s).clean
    ensures Drain(Drain(s).rest) == Drained([], Drain(s).rest, true)
    decreases |s|
  {
    if Next(s).0.Completed? {
      NextAppend(s, []);
      DrainRest(Next(s).1);
    }
  }

  // ---------- Streams of packages ----------

  ghost predicate AllWellFormed(ps: seq<Pkg>) {
    forall i :: 0 <= i < |ps| ==> WellFormed(ps[i])
  }

  ghost function Stream(ps: seq<Pkg>): (r: seq<Byte>)
    requires AllWellFormed(ps)
  {
    if ps == [] then [] else Encoding(ps[0]) + Stream(ps[1..])
  }

  /** The packages that lie whole in the first `n` bytes of their stream, and what is left over. */
  ghost function Whole(ps: seq<Pkg>, n: nat): (r: (seq<Pkg>, seq<Byte>))
    requires AllWellFormed(ps)
    requires n <= |Stream(ps)|
  {
    if ps == [] || n < |Encoding(ps[0])| then ([], Stream(ps)[..n])
    else
      var (qs, rest) := Whole(ps[1..], n - |Encoding(ps[0])|);
      ([ps[0]] + qs, rest)
  }

  lemma NextOfNothing()
    ensures Next([]) == (NoError, [])
  {
  }

  /** Draining any prefix of a stream of packages is quiet, delivers the whole packages in it in
      order and keeps the rest. */
  lemma {:induction false} DrainPrefix(ps: seq<Pkg>, n: nat)
    requires AllWellFormed(ps)
    requires n <= |Stream(ps)|
    ensures var (qs, rest) := Whole(ps, n);
            Drain(Stream(ps)[..n]) == Drained(qs, rest, true)
    decreases |ps|
  {
    hide Next;
    hide Encoding;
    var s := Stream(ps)[..n];
    if ps == [] {
      assert s == [];
      NextOfNothing();
    } else if n < |Encoding(ps[0])| {
      assert s <= Encoding(ps[0]);
      NextOfPrefix(ps[0], s);
    } else {
      var enc := Encoding(ps[0]);
      var t := Stream(ps[1..])[..n - |enc|];
      assert s == enc + t;
      NextOfEncoding(ps[0], t);
      DrainPrefix(ps[1..], n - |enc|);
    }
  }

  /** Runs over a prefix of a stream are quiet whatever the chunks. */
  lemma {:induction false} PrefixRunsClean(ps: seq<Pkg>, buf: seq<Byte>, chunks: seq<seq<Byte>>)
    requires AllWellFormed(ps)
    requires buf + Flat(chunks) <= Stream(ps) && Roomy(buf, chunks)
    ensures Run(buf, chunks).clean
    decreases |chunks|
  {
    if chunks != [] {
      hide Drain;
      hide Stream;
      hide Whole;
      var s := buf + chunks[0];
      var later := Flat(chunks[1..]);
      PrefixTake(Stream(ps), s, later, buf + Flat(chunks));
      DrainPrefix(ps, |s|);
      var qs := LeftOver(ps, |s|);
      var rest := Drain(s).rest;
      PrefixDrop(Stream(ps), Stream(qs), s, later, rest);
      PrefixRunsClean(qs, rest, chunks[1..]);
    }
  }

  lemma PrefixTake(stream: seq<Byte>, s: seq<Byte>, t: seq<Byte>, both: seq<Byte>)
    requires both == s + t && both <= stream
    ensures |s| <= |stream| && s == stream[..|s|]
  {
  }

  lemma PrefixDrop(stream: seq<Byte>, later: seq<Byte>, s: seq<Byte>, t: seq<Byte>, rest: seq<Byte>)
    requires s + t <= stream && rest <= later && later[|rest|..] == stream[|s|..]
    ensures rest + t <= later
  {
    assert t <= stream[|s|..];
    assert later == rest + later[|rest|..];
  }

  /** The packages not yet whole: their stream starts with what is left over. */
  lemma {:induction false} LeftOver(ps: seq<Pkg>, n: nat) returns (qs: seq<Pkg>)
    requires AllWellFormed(ps)
    requires n <= |Stream(ps)|
    ensures AllWellFormed(qs)
    ensures Whole(ps, n).1 <= Stream(qs)
    ensures Stream(qs)[|Whole(ps, n).1|..] == Stream(ps)[n..]
    decreases |ps|
  {
    if ps == [] || n < |Encoding(ps[0])| {
      qs := ps;
    } else {
      var enc := Encoding(ps[0]);
      qs := LeftOver(ps[1..], n - |enc|);
      assert Stream(ps)[n..] == Stream(ps[1..])[n - |enc|..];
    }
  }

  /** Framing does not depend on how the stream was cut: whatever part of a stream of packages has
      arrived, in whatever chunks, exactly its whole packages have been delivered, in order, and
      exactly the unfinished rest is buffered. */
  lemma ChunkIndependence(ps: seq<Pkg>, chunks: seq<seq<Byte>>)
    requires AllWellFormed(ps)
    requires Flat(chunks) <= Stream(ps) && Roomy([], chunks)
    ensures var (qs, rest) := Whole(ps, |Flat(chunks)|);
            Run([], chunks) == Drained(qs, rest, true)
  {
    var s := Flat(chunks);
    assert [] + s == s && Stream(ps)[..|s|] == s;
    PrefixRunsClean(ps, [], chunks);
    ChunksAreOneStream([], chunks);
    DrainPrefix(ps, |s|);
  }

  /** In particular a stream that has arrived in full has been delivered in full. */
  lemma {:induction false} WholeStream(ps: seq<Pkg>)
    requires AllWellFormed(ps)
    ensures Whole(ps, |Stream(ps)|) == (ps, [])
    decreases |ps|
  {
    if ps != [] {
      hide Encoding;
      WholeStream(ps[1..]);
      assert [ps[0]] + ps[1..] == ps;
      assert |Stream(ps)| - |Encoding(ps[0])| == |Stream(ps[1..])|;
    }
  }

  // ---------- Damage ----------

  /** Changing any one byte of the data or the checksum of a package makes the next look report a
      checksum error and empty the buffer, whatever follows the package. */
  lemma DamageIsDetected(p: Pkg, i: nat, b: Byte, t: seq<Byte>)
    requires WellFormed(p) && p.headerLength <= i < |Encoding(p)| && Encoding(p)[i] != b
    ensures Next(Encoding(p)[i := b] + t) == (ChecksumError, [])
  {
    hide Judge;
    hide Next;
    hide Check;
    hide Header;
    hide Folded;
    var h, data, check := Header(p), p.data, Check(Header(p) + p.data);
    HeaderDescribesItself(p.sor, p.des, p.data);
    var k := i - |h|;
    if k < |data| {
      var damaged := data[k := b];
      HeaderStarts(p);
      DamagedData(h, data, k, b);
      NextAfterHeader(p, damaged + check + t);
      JudgeWhole(h, damaged, p.(data := []), check, t);
      assert Encoding(p)[i := b] + t == h + (damaged + check + t);
    } else {
      var damaged := check[k - |data| := b];
      assert damaged[k - |data|] != check[k - |data|];
      NextAfterHeader(p, data + damaged + t);
      JudgeWhole(h, data, p.(data := []), damaged, t);
      assert Encoding(p)[i := b] + t == h + (data + damaged + t);
    }
  }

  lemma HeaderStarts(p: Pkg)
    requires WellFormed(p)
    ensures p.headerLength >= 0 && |Header(p)| > 0 && Header(p)[0] == VERSION[0]
  {
    assert Header(p)[..|VERSION|] == VERSION;
  }

  lemma DamagedData(h: seq<Byte>, data: seq<Byte>, k: nat, b: Byte)
    requires |h| > 0 && h[0] > 0 && k < |data| && data[k] != b
    ensures Check(h + data[k := b]) != Check(h + data)
  {
    var s := h + data;
    assert h + data[k := b] == s[|h| + k := b];
    PositiveSum(s);
    PositiveSum(s[|h| + k := b]);
    ByteChangesFold(s, |h| + k, b);
  }

  lemma PositiveSum(s: seq<Byte>)
    requires |s| > 0 && s[0] > 0
    ensures Sum(s) > 0
  {
    assert s == [s[0]] + s[1..];
    SumConcat([s[0]], s[1..]);
    assert Sum([s[0]]) == s[0];
  }

  // ---------- Recovery ----------

  /** Seven or more bytes that do not start with IUDP1.0 are dropped at once, all of them. */
  lemma JunkIsDropped(junk: seq<Byte>)
    requires 7 <= |junk| <= 2000 && junk[..7] != [73, 85, 68, 80, 49, 46, 48]
    ensures Next(junk) == (InvalidPackage, []) && Receive([], junk) == Drained([], [], false)
  {
    assert [] + junk == junk;
  }

  /** Fewer bytes are kept: they may become a version. */
  lemma FewBytesAreKept(few: seq<Byte>)
    requires |few| < 7
    ensures Next(few) == (NoError, few) && Receive([], few) == Drained([], few, true)
  {
    assert [] + few == few;
  }

  /** A chunk that would take the buffer past 2000 bytes is dropped, together with what is buffered. */
  lemma OverflowIsDropped(buf: seq<Byte>, chunk: seq<Byte>)
    requires |buf| + |chunk| > 2000
    ensures Receive(buf, chunk) == Drained([], [], true)
  {
    NextOfNothing();
  }

  /** Whatever chunk leaves the buffer empty, a stream that starts behind it is framed as if it were
      the first: exactly the whole packages of the part that has arrived are delivered. */
  lemma StartsAfresh(buf: seq<Byte>, chunk: seq<Byte>, ps: seq<Pkg>, chunks: seq<seq<Byte>>)
    requires Receive(buf, chunk).rest == []
    requires AllWellFormed(ps) && Flat(chunks) <= Stream(ps) && Roomy([], chunks)
    ensures var (d, e) := (Receive(buf, chunk), Run(buf, [chunk] + chunks));
            e.pkgs == d.pkgs + Whole(ps, |Flat(chunks)|).0 && e.rest == Whole(ps, |Flat(chunks)|).1
  {
    assert ([chunk] + chunks)[1..] == chunks;
    ChunkIndependence(ps, chunks);
  }

  /** So junk costs a client nothing that it sends later. */
  lemma RecoversFromJunk(junk: seq<Byte>, ps: seq<Pkg>, chunks: seq<seq<Byte>>)
    requires 7 <= |junk| <= 2000 && junk[..7] != [73, 85, 68, 80, 49, 46, 48]
    requires AllWellFormed(ps) && Flat(chunks) <= Stream(ps) && Roomy([], chunks)
    ensures var r := Run([], [junk] + chunks); (r.pkgs, r.rest) == Whole(ps, |Flat(chunks)|)
  {
    JunkIsDropped(junk);
    StartsAfresh([], junk, ps, chunks);
    assert [] + Whole(ps, |Flat(chunks)|).0 == Whole(ps, |Flat(chunks)|).0;
  }

  /** Nor does an overflow, whatever was buffered. */
  lemma RecoversFromOverflow(buf: seq<Byte>, chunk: seq<Byte>, ps: seq<Pkg>, chunks: seq<seq<Byte>>)
    requires |buf| + |chunk| > 2000
    requires AllWellFormed(ps) && Flat(chunks) <= Stream(ps) && Roomy([], chunks)
    ensures var r := Run(buf, [chunk] + chunks); (r.pkgs, r.rest) == Whole(ps, |Flat(chunks)|)
  {
    OverflowIsDropped(buf, chunk);
    StartsAfresh(buf, chunk, ps, chunks);
    assert [] + Whole(ps, |Flat(chunks)|).0 == Whole(ps, |Flat(chunks)|).0;
  }

  /** Nor does a damaged package that arrives in one chunk, with whatever else is in that chunk. */
  lemma RecoversFromDamage(p: Pkg, i: nat, b: Byte, t: seq<Byte>, ps: seq<Pkg>, chunks: seq<seq<Byte>>)
    requires WellFormed(p) && p.headerLength <= i < |Encoding(p)| && Encoding(p)[i] != b && |Encoding(p)| + |t| <= 2000
    requires AllWellFormed(ps) && Flat(chunks) <= Stream(ps) && Roomy([], chunks)
    ensures var r := Run([], [Encoding(p)[i := b] + t] + chunks); (r.pkgs, r.rest) == Whole(ps, |Flat(chunks)|)
  {
    hide Encoding;
    hide Next;
    var chunk := Encoding(p)[i := b] + t;
    assert [] + chunk == chunk;
    DamageIsDetected(p, i, b, t);
    StartsAfresh([], chunk, ps, chunks);
    assert [] + Whole(ps, |Flat(chunks)|).0 == Whole(ps, |Flat(chunks)|).0;
  }
}
