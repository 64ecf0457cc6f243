/**
 The IoT package: a header of five NUL-terminated fields that contains its own length, the data,
 and a 16-bit checksum folded with end-around carry.
 */
module Package {

  type Byte = b: int | 0 <= b < 256

  const VERSION: seq<Byte> := [73, 85, 68, 80, 49, 46, 48] // IUDP1.0
  const IP_ADDR_SIZE := 15
  const VERSION_CHAR_SIZE := 10
  const TEMP_SIZE := 200

  /** The fields of the package structure that travel. */
  datatype Pkg = Pkg(ver: seq<Byte>, headerLength: int, dataLength: int, sor: seq<Byte>, des: seq<Byte>, data: seq<Byte>)

  predicate NoZero(s: seq<Byte>) {
    forall i :: 0 <= i < |s| ==> s[i] != 0
  }

  // ---------- Numbers as text ----------

  /** sprintf "%d" of a non-negative number. */
  function Decimal(n: nat): (s: seq<Byte>)
    ensures s != [] && NoZero(s)
  {
    if n < 10 then [48 + n] else Decimal(n / 10) + [48 + n % 10]
  }

  predicate IsDigit(b: Byte) {
    48 <= b <= 57
  }

  predicate IsBlank(b: Byte) {
    b == 32 || 9 <= b <= 13
  }

  function Digits(s: seq<Byte>, acc: nat): (r: nat) {
    if s == [] || !IsDigit(s[0]) then acc else Digits(s[1..], 10 * acc + s[0] - 48)
  }

  /** atoi: blanks, a sign, digits; what follows is ignored. */
  function Atoi(s: seq<Byte>): (r: int) {
    if s == [] then 0
    else if IsBlank(s[0]) then Atoi(s[1..])
    else if s[0] == 45 then -(Digits(s[1..], 0) as int)
    else if s[0] == 43 then Digits(s[1..], 0)
    else Digits(s, 0)
  }

  lemma {:induction false} DigitsAppend(s: seq<Byte>, d: Byte, acc: nat)
    requires IsDigit(d) && forall i :: 0 <= i < |s| ==> IsDigit(s[i])
    ensures Digits(s + [d], acc) == 10 * Digits(s, acc) + d - 48
  {
    if s == [] {
      assert [d][1..] == [];
    } else {
      assert (s + [d])[1..] == s[1..] + [d];
      DigitsAppend(s[1..], d, 10 * acc + s[0] - 48);
    }
  }

  lemma {:induction false} DecimalIsRead(n: nat)
    ensures forall i :: 0 <= i < |Decimal(n)| ==> IsDigit(Decimal(n)[i])
    ensures Digits(Decimal(n), 0) == n
  {
    if n < 10 {
      assert [48 + n as Byte][1..] == [];
    } else {
      DecimalIsRead(n / 10);
      DigitsAppend(Decimal(n / 10), 48 + n % 10, 0);
    }
  }

  lemma AtoiDecimal(n: nat)
    ensures Atoi(Decimal(n)) == n
  {
    DecimalIsRead(n);
    assert IsDigit(Decimal(n)[0]);
  }

  lemma DecimalLength(n: nat)
    requires n < 100000
    ensures |Decimal(n)| == if n < 10 then 1 else if n < 100 then 2 else if n < 1000 then 3 else if n < 10000 then 4 else 5
  {
    if n >= 10 {
      DecimalLength(n / 10);
    }
  }

  // ---------- Checksum ----------

  function Sum(s: seq<Byte>): (r: nat) {
    if s == [] then 0 else Sum(s[..|s| - 1]) + s[|s| - 1]
  }

  /** What folding the carries back in leaves: the sum modulo 65535, but never 0 for a positive sum. */
  function Folded(sum: nat): (r: nat)
    ensures r < 0x1_0000 && r % 65535 == sum % 65535
    ensures r == 0 <==> sum == 0
  {
    if sum == 0 then 0 else (sum - 1) % 65535 + 1
  }

  function Check(s: seq<Byte>): (r: seq<Byte>)
    ensures |r| == 2
  {
    var f := Folded(Sum(s));
    [f / 256, f % 256]
  }

  /** One round of folding keeps the residue and gets smaller. */
  lemma FoldStep(sum: nat)
    requires sum / 0x1_0000 > 0
    ensures var r := sum % 0x1_0000 + sum / 0x1_0000;
            0 < r < sum && Folded(r) == Folded(sum)
  {
    var h := sum / 0x1_0000;
    var r := sum % 0x1_0000 + h;
    assert sum == r + 65535 * h;
    assert sum - 1 == (r - 1) + 65535 * h;
    ModPlus(r - 1, h);
  }

  lemma ModPlus(a: int, h: nat)
    ensures (a + 65535 * h) % 65535 == a % 65535
  {
    if h > 0 {
      ModPlus(a, h - 1);
      assert a + 65535 * h == (a + 65535 * (h - 1)) + 65535;
    }
  }

  /** The carry loop. It ends, and leaves the folded sum. */
  method Fold(total: nat) returns (sum: nat)
    ensures sum == Folded(total)
  {
    sum := total;
    while sum / 0x1_0000 > 0
      invariant Folded(sum) == Folded(total)
      decreases sum
    {
      FoldStep(sum);
      sum := sum % 0x1_0000 + sum / 0x1_0000;
    }
    SmallFolded(sum);
  }

  lemma SmallFolded(sum: nat)
    requires sum < 0x1_0000
    ensures Folded(sum) == sum
  {
  }

  lemma {:induction false} SumConcat(a: seq<Byte>, b: seq<Byte>)
    ensures Sum(a + b) == Sum(a) + Sum(b)
  {
    if b == [] {
      assert a + b == a;
    } else {
      assert (a + b)[..|a + b| - 1] == a + b[..|b| - 1];
      SumConcat(a, b[..|b| - 1]);
    }
  }

  /** Changing one byte changes the folded sum. */
  lemma ByteChangesFold(s: seq<Byte>, i: nat, b: Byte)
    requires i < |s| && s[i] != b && Sum(s) > 0 && Sum(s[i := b]) > 0
    ensures Folded(Sum(s[i := b])) != Folded(Sum(s))
  {
    hide Sum;
    hide Folded;
    var t := s[i := b];
    assert s == s[..i] + [s[i]] + s[i + 1..] && t == s[..i] + [b] + s[i + 1..];
    SumConcat(s[..i] + [s[i]], s[i + 1..]);
    SumConcat(s[..i] + [b], s[i + 1..]);
    SumConcat(s[..i], [s[i]]);
    SumConcat(s[..i], [b]);
    SumOfOne(s[i]);
    SumOfOne(b);
    assert Sum(t) - Sum(s) == b - s[i];
    if Folded(Sum(t)) == Folded(Sum(s)) {
      FoldedResidue(Sum(s));
      FoldedResidue(Sum(t));
      SameResidue(Sum(s) - 1, Sum(t) - 1);
    }
  }

  lemma SumOfOne(b: Byte)
    ensures Sum([b]) == b
  {
    assert [b][..0] == [];
  }

  lemma FoldedResidue(sum: nat)
    requires sum > 0
    ensures Folded(sum) == (sum - 1) % 65535 + 1
  {
  }

  lemma SameResidue(a: int, b: int)
    requires a % 65535 == b % 65535 && -256 < a - b < 256
    ensures a == b
  {
  }

  // ---------- Encoding ----------

  function Header(p: Pkg): (r: seq<Byte>)
    requires p.headerLength >= 0 && p.dataLength >= 0
  {
    p.ver + [0] + Decimal(p.headerLength) + [0] + Decimal(p.dataLength) + [0] + p.sor + [0] + p.des + [0]
  }

  function Encoding(p: Pkg): (r: seq<Byte>)
    requires p.headerLength >= 0 && p.dataLength >= 0
  {
    var body := Header(p) + p.data;
    body + Check(body)
  }

  /** Header length without its own field. */
  function Before(sor: seq<Byte>, des: seq<Byte>, data: seq<Byte>): (r: nat) {
    |VERSION| + 1 + |sor| + 1 + |des| + 1 + |Decimal(|data|)| + 1
  }

  /** The source's guess of its own length's digits. */
  function GuessedLength(before: nat): (r: nat) {
    before + (if before <= 8 then 1 else if before <= 97 then 2 else 3) + 1
  }

  function Create(sor: seq<Byte>, des: seq<Byte>, data: seq<Byte>): (r: Pkg) {
    Pkg(VERSION, GuessedLength(Before(sor, des, data)), |data|, sor, des, data)
  }

  lemma DecimalLong(n: nat)
    requires n >= 1000
    ensures |Decimal(n)| >= 4
  {
    assert Decimal(n) == Decimal(n / 10) + [48 + n % 10];
    assert Decimal(n / 10) == Decimal(n / 100) + [48 + n / 10 % 10] by { assert n / 10 / 10 == n / 100; }
    assert Decimal(n / 100) == Decimal(n / 1000) + [48 + n / 100 % 10] by { assert n / 100 / 10 == n / 1000; }
  }

  lemma GuessExact(before: nat)
    ensures before + |Decimal(GuessedLength(before))| + 1 == GuessedLength(before)
            <==> before != 8 && before != 97 && before <= 995
  {
    var n := GuessedLength(before);
    if n < 100000 {
      DecimalLength(n);
    } else {
      DecimalLong(n);
    }
  }

  /** The header length a package is created with is the number of bytes written before the data
      exactly when the rest of the header is not 8 or 97 bytes long, and at most 995. */
  lemma HeaderLengthExact(sor: seq<Byte>, des: seq<Byte>, data: seq<Byte>)
    ensures var p := Create(sor, des, data);
            var before := Before(sor, des, data);
            |Header(p)| == p.headerLength <==> before != 8 && before != 97 && before <= 995
  {
    var p := Create(sor, des, data);
    assert |Header(p)| == Before(sor, des, data) + |Decimal(p.headerLength)| + 1;
    GuessExact(Before(sor, des, data));
  }

  predicate Address(a: seq<Byte>) {
    0 < |a| < IP_ADDR_SIZE && NoZero(a)
  }

  /** With addresses that fit their fields and at most four digits of data length the header
      always describes itself. */
  lemma HeaderDescribesItself(sor: seq<Byte>, des: seq<Byte>, data: seq<Byte>)
    requires Address(sor) && Address(des) && |data| <= 9999
    ensures |Header(Create(sor, des, data))| == Create(sor, des, data).headerLength < 50
  {
    DecimalLength(|data|);
    HeaderLengthExact(sor, des, data);
  }

  /** A package as create_package makes them. */
  predicate WellFormed(p: Pkg) {
    Address(p.sor) && Address(p.des) && |p.data| <= 9999 && p == Create(p.sor, p.des, p.data)
  }

  // ---------- Reading the header ----------

  /** The bytes before the first NUL. */
  function Field(s: seq<Byte>): (f: seq<Byte>)
    ensures |f| <= |s| && f == s[..|f|] && NoZero(f)
    ensures |f| < |s| ==> s[|f|] == 0
  {
    if s == [] || s[0] == 0 then [] else [s[0]] + Field(s[1..])
  }

  /** The bytes after the first NUL. */
  function Skip(s: seq<Byte>): (r: seq<Byte>) {
    if |Field(s)| < |s| then s[|Field(s)| + 1..] else []
  }

  lemma {:induction false} FieldThen(f: seq<Byte>, rest: seq<Byte>)
    requires NoZero(f)
    ensures Field(f + [0] + rest) == f && Skip(f + [0] + rest) == rest
  {
    var s := f + [0] + rest;
    if f != [] {
      assert s[1..] == f[1..] + [0] + rest;
      FieldThen(f[1..], rest);
    }
    assert s[|f| + 1..] == rest;
  }

  /** Does the text start with `n` non-empty NUL-terminated fields? */
  predicate HasFields(s: seq<Byte>, n: nat) {
    n == 0 || (0 < |Field(s)| < |s| && HasFields(Skip(s), n - 1))
  }

  function ParseHeader(s: seq<Byte>): (r: Pkg) {
    var (s1, s2, s3, s4) := (Skip(s), Skip(Skip(s)), Skip(Skip(Skip(s))), Skip(Skip(Skip(Skip(s)))));
    Pkg(Field(s), Atoi(Field(s1)), Atoi(Field(s2)), Field(s3), Field(s4), [])
  }

  /** The fields fit the fixed buffers they are copied to. */
  predicate HeaderFits(s: seq<Byte>) {
    var (s1, s2, s3, s4) := (Skip(s), Skip(Skip(s)), Skip(Skip(Skip(s))), Skip(Skip(Skip(Skip(s)))));
    && |Field(s)| < VERSION_CHAR_SIZE && |Field(s1)| < TEMP_SIZE && |Field(s2)| < TEMP_SIZE
    && |Field(s3)| < IP_ADDR_SIZE && |Field(s4)| < IP_ADDR_SIZE
  }

  lemma Regroup(a: seq<Byte>, b: seq<Byte>, c: seq<Byte>, d: seq<Byte>, e: seq<Byte>, t: seq<Byte>)
    ensures a + [0] + b + [0] + c + [0] + d + [0] + e + [0] + t
         == a + [0] + (b + [0] + (c + [0] + (d + [0] + (e + [0] + t))))
  {
    var e1 := e + [0] + t;
    var d1 := d + [0] + e1;
    var c1 := c + [0] + d1;
    var b1 := b + [0] + c1;
    assert a + [0] + b + [0] + c + [0] + d + [0] + e1 == a + [0] + b + [0] + c + [0] + d + [0] + e + [0] + t;
    assert a + [0] + b + [0] + c + [0] + d1 == a + [0] + b + [0] + c + [0] + d + [0] + e1;
    assert a + [0] + b + [0] + c1 == a + [0] + b + [0] + c + [0] + d1;
    assert a + [0] + b1 == a + [0] + b + [0] + c1;
  }

  /** The five fields of a written header, and what follows it. */
  lemma HeaderChain(p: Pkg, t: seq<Byte>)
    requires p.headerLength >= 0 && p.dataLength >= 0
    requires NoZero(p.ver) && NoZero(p.sor) && NoZero(p.des)
    ensures var s := Header(p) + t;
            var (s1, s2, s3, s4) := (Skip(s), Skip(Skip(s)), Skip(Skip(Skip(s))), Skip(Skip(Skip(Skip(s)))));
            && Field(s) == p.ver && Field(s1) == Decimal(p.headerLength) && Field(s2) == Decimal(p.dataLength)
            && Field(s3) == p.sor && Field(s4) == p.des && Skip(s4) == t
            && |s| == |p.ver| + 1 + |s1| && |s1| == |Field(s1)| + 1 + |s2| && |s2| == |Field(s2)| + 1 + |s3|
            && |s3| == |p.sor| + 1 + |s4| && |s4| == |p.des| + 1 + |t|
  {
    hide Field;
    hide Skip;
    hide Decimal;
    var b, c := Decimal(p.headerLength), Decimal(p.dataLength);
    Regroup(p.ver, b, c, p.sor, p.des, t);
    var s4 := p.des + [0] + t;
    var s3 := p.sor + [0] + s4;
    var s2 := c + [0] + s3;
    var s1 := b + [0] + s2;
    FieldThen(p.ver, s1);
    FieldThen(b, s2);
    FieldThen(c, s3);
    FieldThen(p.sor, s4);
    FieldThen(p.des, t);
  }

  /** Reading a written header gives its fields back. */
  lemma HeaderRoundTrip(p: Pkg, t: seq<Byte>)
    requires p.headerLength >= 0 && p.dataLength >= 0
    requires NoZero(p.ver) && NoZero(p.sor) && NoZero(p.des)
    ensures ParseHeader(Header(p) + t) == p.(data := [])
    ensures HeaderFits(Header(p) + t) <==>
              && |p.ver| < VERSION_CHAR_SIZE && |p.sor| < IP_ADDR_SIZE && |p.des| < IP_ADDR_SIZE
              && |Decimal(p.headerLength)| < TEMP_SIZE && |Decimal(p.dataLength)| < TEMP_SIZE
  {
    hide Field;
    hide Skip;
    hide Header;
    hide Decimal;
    HeaderChain(p, t);
    AtoiDecimal(p.headerLength);
    AtoiDecimal(p.dataLength);
  }

  /** A written header is seen as complete. */
  lemma HeaderComplete(p: Pkg, t: seq<Byte>)
    requires p.headerLength >= 0 && p.dataLength >= 0
    requires NoZero(p.ver) && NoZero(p.sor) && NoZero(p.des) && p.ver != [] && p.sor != [] && p.des != []
    ensures HasFields(Header(p) + t, 5)
  {
    hide Field;
    hide Skip;
    hide Header;
    hide Decimal;
    HeaderChain(p, t);
    var s := Header(p) + t;
    var (s1, s2, s3, s4) := (Skip(s), Skip(Skip(s)), Skip(Skip(Skip(s))), Skip(Skip(Skip(Skip(s)))));
    assert HasFields(s4, 1) && HasFields(s3, 2) && HasFields(s2, 3) && HasFields(s1, 4);
  }

  // ---------- Taking a package off a buffer ----------

  datatype Outcome = NoError | Completed(pkg: Pkg) | InvalidPackage | ChecksumError | Undefined

  /** What one look at the buffered bytes does: the result and the bytes kept. `Undefined` marks a
      header with a negative length or a field too long for its buffer: the source then leaves
      its arrays. */
  function Next(s: seq<Byte>): (r: (Outcome, seq<Byte>)) {
    if |s| < |VERSION| then (NoError, s)
    else if s[..|VERSION|] != VERSION then (InvalidPackage, [])
    else if !HasFields(s, 5) then (NoError, s)
    else if !HeaderFits(s) then (Undefined, s)
    else Judge(ParseHeader(s), s)
  }

  /** The same, once the header has been read. */
  function Judge(p: Pkg, s: seq<Byte>): (r: (Outcome, seq<Byte>)) {
    var end := p.headerLength + p.dataLength;
    if |s| < end + 2 then (NoError, s)
    else if p.headerLength < 0 || p.dataLength < 0 then (Undefined, s)
    else if s[end..end + 2] == Check(s[..end]) then
      (Completed(p.(data := s[p.headerLength..end])), s[end + 2..])
    else (ChecksumError, [])
  }

  // ---------- As bytes ----------

  /** A number behind blanks and a sign, with no digit behind it, is read with its sign. */
  lemma AtoiOfText(blanks: seq<Byte>, n: nat, rest: seq<Byte>)
    requires forall i :: 0 <= i < |blanks| ==> blanks[i] in {9, 10, 11, 12, 13, 32}
    requires rest != [] ==> !(48 <= rest[0] <= 57)
    ensures Atoi(blanks + (Decimal(n) + rest)) == n
    ensures Atoi(blanks + ([43] + Decimal(n) + rest)) == n
    ensures Atoi(blanks + ([45] + Decimal(n) + rest)) == -(n as int)
  {
    hide Atoi;
    BlanksSkipped(blanks, Decimal(n) + rest);
    BlanksSkipped(blanks, [43] + Decimal(n) + rest);
    BlanksSkipped(blanks, [45] + Decimal(n) + rest);
    SignRead(n, rest);
  }

  lemma {:induction false} BlanksSkipped(blanks: seq<Byte>, s: seq<Byte>)
    requires forall i :: 0 <= i < |blanks| ==> blanks[i] in {9, 10, 11, 12, 13, 32}
    ensures Atoi(blanks + s) == Atoi(s)
    decreases |blanks|
  {
    if blanks == [] {
      assert blanks + s == s;
    } else {
      assert (blanks + s)[1..] == blanks[1..] + s;
      BlanksSkipped(blanks[1..], s);
    }
  }

  lemma SignRead(n: nat, rest: seq<Byte>)
    requires rest != [] ==> !(48 <= rest[0] <= 57)
    ensures Atoi(Decimal(n) + rest) == n
    ensures Atoi([43] + Decimal(n) + rest) == n && Atoi([45] + Decimal(n) + rest) == -(n as int)
  {
    hide Decimal;
    hide Digits;
    hide Atoi;
    var d := Decimal(n);
    DecimalIsRead(n);
    DigitsThen(d, rest, 0);
    SignThen(d + rest);
    assert [43] + (d + rest) == [43] + d + rest && [45] + (d + rest) == [45] + d + rest;
    assert IsDigit(d[0]) && (d + rest)[0] == d[0];
  }

  lemma SignThen(s: seq<Byte>)
    ensures Atoi([43] + s) == Digits(s, 0) && Atoi([45] + s) == -(Digits(s, 0) as int)
    ensures s != [] && IsDigit(s[0]) ==> Atoi(s) == Digits(s, 0)
  {
    hide Digits;
    assert ([43] + s)[1..] == s && ([45] + s)[1..] == s;
  }

  lemma {:induction false} DigitsThen(s: seq<Byte>, rest: seq<Byte>, acc: nat)
    requires (forall i :: 0 <= i < |s| ==> IsDigit(s[i])) && (rest != [] ==> !IsDigit(rest[0]))
    ensures Digits(s + rest, acc) == Digits(s, acc)
    decreases |s|
  {
    if s == [] {
      assert s + rest == rest;
    } else {
      assert (s + rest)[1..] == s[1..] + rest;
      DigitsThen(s[1..], rest, 10 * acc + s[0] - 48);
    }
  }

  /** One byte of data from "1" to "2", byte for byte. */
  lemma OneByteOnTheWire()
    ensures Create([49], [50], [5]) == Pkg([73, 85, 68, 80, 49, 46, 48], 17, 1, [49], [50], [5])
    ensures Encoding(Create([49], [50], [5]))
            == [73, 85, 68, 80, 49, 46, 48, 0, 49, 55, 0, 49, 0, 49, 0, 50, 0, 5, 2, 194]
  {
    hide Sum;
    assert Decimal(1) == [49];
    assert Decimal(17) == [49, 55];
    var p := Create([49], [50], [5]);
    assert p == Pkg([73, 85, 68, 80, 49, 46, 48], 17, 1, [49], [50], [5]);
    var s: seq<Byte> := [73, 85, 68, 80, 49, 46, 48, 0, 49, 55, 0, 49, 0, 49, 0, 50, 0, 5];
    assert Header(p) + p.data == s;
    WireSum();
  }

  lemma WireSum()
    ensures Sum([73, 85, 68, 80, 49, 46, 48, 0, 49, 55, 0, 49, 0, 49, 0, 50, 0, 5]) == 706
  {
    var a: seq<Byte>, b: seq<Byte>, c: seq<Byte> := [73, 85, 68, 80, 49, 46], [48, 0, 49, 55, 0, 49], [0, 49, 0, 50, 0, 5];
    hide Sum;
    SixSum(73, 85, 68, 80, 49, 46);
    SixSum(48, 0, 49, 55, 0, 49);
    SixSum(0, 49, 0, 50, 0, 5);
    SumConcat(a, b);
    SumConcat(a + b, c);
    assert a + b + c == [73, 85, 68, 80, 49, 46, 48, 0, 49, 55, 0, 49, 0, 49, 0, 50, 0, 5];
  }

  lemma SixSum(a: Byte, b: Byte, c: Byte, d: Byte, e: Byte, f: Byte)
    ensures Sum([a, b, c, d, e, f]) == (a as int) + (b as int) + (c as int) + (d as int) + (e as int) + (f as int)
  {
    hide Sum;
    SumSnoc([], a);
    SumSnoc([a], b);
    SumSnoc([a, b], c);
    SumSnoc([a, b, c], d);
    SumSnoc([a, b, c, d], e);
    SumSnoc([a, b, c, d, e], f);
    assert [] + [a] == [a] && [a] + [b] == [a, b] && [a, b] + [c] == [a, b, c] && [a, b, c] + [d] == [a, b, c, d];
    assert [a, b, c, d] + [e] == [a, b, c, d, e] && [a, b, c, d, e] + [f] == [a, b, c, d, e, f];
    SumNothing();
  }

  lemma SumNothing()
    ensures Sum([]) == 0
  {
  }

  lemma SumSnoc(s: seq<Byte>, b: Byte)
    ensures Sum(s + [b]) == Sum(s) + (b as int)
  {
    assert (s + [b])[..|s|] == s;
  }

  // ---------- Fields and addresses ----------

  /** A header field counts only if it is not empty; an empty one stops the header for good. */
  lemma FieldsExact(f: seq<Byte>, rest: seq<Byte>, n: nat)
    requires NoZero(f) && n > 0
    ensures HasFields(f + [0] + rest, n) <==> f != [] && HasFields(rest, n - 1)
    ensures !HasFields(f, n)
  {
    hide Field;
    hide Skip;
    FieldThen(f, rest);
    NoNulField(f);
  }

  lemma {:induction false} NoNulField(f: seq<Byte>)
    requires NoZero(f)
    ensures Field(f) == f
  {
    if f != [] {
      NoNulField(f[1..]);
    }
  }

  /** So bytes with an empty field behind the version are kept and wait, whatever follows. */
  lemma EmptyFieldWaits(rest: seq<Byte>)
    ensures var s := [73, 85, 68, 80, 49, 46, 48] + [0] + ([] + [0] + rest); Next(s) == (NoError, s)
  {
    hide Judge;
    hide HeaderFits;
    hide ParseHeader;
    hide HasFields;
    hide Field;
    var v: seq<Byte> := [73, 85, 68, 80, 49, 46, 48];
    FieldsExact(v, [] + [0] + rest, 5);
    FieldsExact([], rest, 4);
    var s := v + [0] + ([] + [0] + rest);
    assert s[..7] == v;
  }

  /** The packages the theorems are about: addresses of 1 to 14 bytes without NUL, at most 9999 bytes of
      data, and the rest as create_package fills it in. */
  lemma WellFormedExact(p: Pkg)
    ensures WellFormed(p) <==>
              && 1 <= |p.sor| <= 14 && 0 !in p.sor && 1 <= |p.des| <= 14 && 0 !in p.des && |p.data| <= 9999
              && p.ver == [73, 85, 68, 80, 49, 46, 48] && p.dataLength == |p.data| && p.headerLength == |Header(Create(p.sor, p.des, p.data))|
  {
    if Address(p.sor) && Address(p.des) && |p.data| <= 9999 {
      HeaderDescribesItself(p.sor, p.des, p.data);
    }
    ZeroFreeExact(p.sor);
    ZeroFreeExact(p.des);
  }

  lemma ZeroFreeExact(s: seq<Byte>)
    ensures NoZero(s) <==> 0 !in s
  {
  }
}
