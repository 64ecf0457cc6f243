/**
 The coder's recursive builder, driven by three cursors into the output, the table and the input,
 and the two operations made of it.
 */
module CoderBuild {
  import opened Jsmn
  import opened JsonTree
  import opened JsonEdit
  import opened JsonLookup
  import opened JsonFile
  import opened CoderTemplate
  import opened Coder

  // ---------- The fixed template ----------

  function Plain(name: string, rest: Fields): (r: Fields) {
    Field(name, Slot, rest)
  }

  const HEADER := Branch(false, Plain("Version", Plain("Data_Len", Plain("H_Len", Plain("IP_Src", Plain("IP_Des",
                    Plain("Header_Checksum", Plain("Flag", End))))))))
  const SEGMENT := Branch(false, Field("Header", HEADER, Plain("Data", End)))
  const TEMPLATE := Branch(false, Plain("magic number", Field("UDP Segment", SEGMENT, End)))

  const HEADER_TABLE: seq<Row> := [
    Row("", Object, 7), Row("Version", String, 1), Row("", String, 0), Row("Data_Len", String, 1), Row("", String, 0),
    Row("H_Len", String, 1), Row("", String, 0), Row("IP_Src", String, 1), Row("", String, 0),
    Row("IP_Des", String, 1), Row("", String, 0), Row("Header_Checksum", String, 1), Row("", String, 0),
    Row("Flag", String, 1), Row("", String, 0)]
  const TABLE: seq<Row> :=
    [Row("", Object, 2), Row("magic number", String, 1), Row("", String, 0), Row("UDP Segment", String, 1),
     Row("", Object, 2), Row("Header", String, 1)] + HEADER_TABLE + [Row("Data", String, 1), Row("", String, 0)]

  lemma OnePlain(name: string, rest: Fields)
    requires name != ""
    ensures FieldRows(Plain(name, rest)) == [Row(name, String, 1), Row("", String, 0)] + FieldRows(rest)
    ensures FieldCount(Plain(name, rest)) == 1 + FieldCount(rest)
    ensures TakenFields(Plain(name, rest)) == (if name == DATA then 0 else 1) + TakenFields(rest)
  {
    assert Rows(Slot) == [Row("", String, 0)];
  }

  lemma HeaderRows()
    ensures Rows(HEADER) == HEADER_TABLE && TakenFields(HEADER.fields) == 7
  {
    hide FieldRows;
    hide FieldCount;
    hide TakenFields;
    hide Plain;
    var f7 := Plain("Flag", End);
    var f6 := Plain("Header_Checksum", f7);
    var f5 := Plain("IP_Des", f6);
    var f4 := Plain("IP_Src", f5);
    var f3 := Plain("H_Len", f4);
    var f2 := Plain("Data_Len", f3);
    NoFields();
    OnePlain("Flag", End);
    OnePlain("Header_Checksum", f7);
    OnePlain("IP_Des", f6);
    OnePlain("IP_Src", f5);
    OnePlain("H_Len", f4);
    OnePlain("Data_Len", f3);
    OnePlain("Version", f2);
  }

  lemma NoFields()
    ensures FieldRows(End) == [] && FieldCount(End) == 0 && TakenFields(End) == 0
  {
  }

  lemma OneNested(name: string, s: Shape, rest: Fields)
    requires name != "" && s.Branch?
    ensures FieldRows(Field(name, s, rest)) == [Row(name, String, 1)] + Rows(s) + FieldRows(rest)
    ensures FieldCount(Field(name, s, rest)) == 1 + FieldCount(rest)
    ensures TakenFields(Field(name, s, rest)) == TakenFields(s.fields) + TakenFields(rest)
  {
  }

  lemma SegmentRows()
    ensures Rows(SEGMENT) == [Row("", Object, 2), Row("Header", String, 1)] + HEADER_TABLE + [Row("Data", String, 1), Row("", String, 0)]
    ensures TakenFields(SEGMENT.fields) == 7
  {
    hide FieldRows;
    hide FieldCount;
    hide TakenFields;
    hide Plain;
    NoFields();
    HeaderRows();
    OnePlain("Data", End);
    OneNested("Header", HEADER, Plain("Data", End));
  }

  /** The table is the preorder of the template, whose eight leaves before Data are taken from the
      stream. */
  lemma TableIsTemplate()
    ensures Rows(TEMPLATE) == TABLE && |TABLE| == 23 && TakenFields(TEMPLATE.fields) == 8
  {
    hide FieldRows;
    hide FieldCount;
    hide TakenFields;
    hide Plain;
    NoFields();
    SegmentRows();
    OneNested("UDP Segment", SEGMENT, End);
    OnePlain("magic number", Field("UDP Segment", SEGMENT, End));
  }

  /** Letters, digits, blanks and underscores need no escape. */
  predicate Simple(name: string) {
    forall i :: 0 <= i < |name| ==> name[i] != '\"' && name[i] != '\\' && name[i] != '\0'
  }

  lemma {:induction false} SimpleOk(name: string)
    requires Simple(name)
    ensures StringOk(name) && NoNul(name)
  {
    if name != "" {
      SimpleOk(name[1..]);
    }
  }

  lemma SegmentGood()
    ensures GoodFields(SEGMENT.fields, false) && DataLastIn(SEGMENT.fields)
  {
    hide StringOk;
    hide NoNul;
    hide Good;
    hide NoData;
    SimpleOk("Header");
    SimpleOk("Data");
    HeaderGood();
    SlotGood();
    assert GoodFields(End, false);
    assert GoodFields(Plain("Data", End), false) && DataLastIn(Plain("Data", End));
  }

  lemma SlotGood()
    ensures Good(Slot)
  {
  }

  /** The template is one the round trip is for. */
  lemma TemplateGood()
    ensures Good(TEMPLATE) && DataLast(TEMPLATE) && ObjectsOnly(TEMPLATE) && !TEMPLATE.isArray
  {
    hide StringOk;
    hide NoNul;
    SimpleOk("UDP Segment");
    SimpleOk("magic number");
    SegmentGood();
    var rest := Field("UDP Segment", SEGMENT, End);
    assert GoodFields(Plain("magic number", rest), false) && DataLastIn(Plain("magic number", rest));
  }

  lemma HeaderGood()
    ensures Good(HEADER) && NoData(HEADER)
  {
    hide StringOk;
    hide NoNul;
    SimpleOk("Flag");
    SimpleOk("Header_Checksum");
    SimpleOk("IP_Des");
    SimpleOk("IP_Src");
    SimpleOk("H_Len");
    SimpleOk("Data_Len");
    SimpleOk("Version");
    var f4 := Plain("IP_Src", Plain("IP_Des", Plain("Header_Checksum", Plain("Flag", End))));
  }

  // ---------- Building ----------

  /** What an entry prints: its own line, its name and its value. The root has no line. */
  function Entry(name: string, s: Shape, leaves: seq<string>, k: nat, tab: nat): (r: string) {
    (if tab != 0 then Break(tab) else "") + PrintTag(TagOf(name, s, tab)) + Print(FillValue(name, s, leaves, k, tab, "0"))
  }

  ghost predicate RowsAt(info: seq<Row>, i: nat, rows: seq<Row>) {
    i + |rows| <= |info| && info[i..i + |rows|] == rows
  }

  lemma RowsSplit(info: seq<Row>, i: nat, a: seq<Row>, b: seq<Row>)
    requires RowsAt(info, i, a + b)
    ensures RowsAt(info, i, a) && RowsAt(info, i + |a|, b)
  {
    var w := info[i..i + |a + b|];
    assert w[..|a|] == a && w[|a|..] == b;
  }

  /** The leaves from the k-th on are ahead in the input. */
  ghost predicate Ahead(input: string, at: nat, leaves: seq<string>, k: nat) {
    at <= |input| && k <= |leaves| && Stream(leaves[k..]) <= input[at..]
  }

  lemma AheadNext(input: string, at: nat, leaves: seq<string>, k: nat, m: nat)
    requires Ahead(input, at, leaves, k) && k <= m <= |leaves|
    ensures Ahead(input, at + |Stream(leaves[k..m])|, leaves, m)
    ensures input[at..at + |Stream(leaves[k..m])|] == Stream(leaves[k..m])
  {
    StreamSplit(leaves, k, m);
    var a, b := Stream(leaves[k..m]), Stream(leaves[m..]);
    assert a + b <= input[at..];
    assert input[at..][..|a|] == a && input[at..][|a|..] == input[at + |a|..];
  }

  lemma PrintsFields(fs: Fields, leaves: seq<string>, k: nat, tab: nat)
    requires fs.Field? && tab > 0
    ensures PrintItems(FillFields(fs, leaves, k, tab, "0"))
            == Entry(fs.name, fs.shape, leaves, k, tab)
               + (if fs.rest.End? then "" else "," + PrintItems(FillFields(fs.rest, leaves, k + Taken(fs.name, fs.shape), tab, "0")))
  {
    hide PrintTag;
    hide Print;
    hide Break;
    hide FillValue;
    hide TagOf;
    var items := FillFields(fs, leaves, k, tab, "0");
    assert PrintItem(items) == Entry(fs.name, fs.shape, leaves, k, tab) + "";
    assert items.rest.Nil? <==> fs.rest.End? by {
      assert items.rest == FillFields(fs.rest, leaves, k + Taken(fs.name, fs.shape), tab, "0");
    }
  }

  function Size(s: Shape): (r: nat) {
    match s
    case Slot => 1
    case Branch(_, fields) => 1 + FieldsSize(fields)
  }

  function FieldsSize(fs: Fields): (r: nat) {
    match fs
    case End => 0
    case Field(_, s, rest) => Size(s) + FieldsSize(rest)
  }

  ghost predicate LeavesPlain(leaves: seq<string>) {
    forall i :: 0 <= i < |leaves| ==> NoNul(leaves[i])
  }

  // ---------- Texts and rows of the builder's steps ----------

  lemma EntryStart(info: seq<Row>, i: nat, name: string, s: Shape)
    requires RowsAt(info, i, EntryRows(name, s))
    ensures i < |info| && info[i].name == name
    ensures name == "" ==> RowsAt(info, i, Rows(s)) && EntryRows(name, s) == Rows(s)
  {
    hide Rows;
    var rows := EntryRows(name, s);
    FirstRow(s);
    assert info[i] == info[i..i + |rows|][0];
    if name == "" {
      assert [] + Rows(s) == Rows(s);
    }
  }

  lemma FirstRow(s: Shape)
    ensures Rows(s)[0].name == "" && (s.Slot? ==> Rows(s) == [Row("", String, 0)])
    ensures s.Branch? ==> Rows(s)[0].kind == Object || Rows(s)[0].kind == Array
  {
  }

  lemma EntryText(name: string, s: Shape, leaves: seq<string>, k: nat, tab: nat)
    ensures Entry(name, s, leaves, k, tab)
            == (if tab != 0 then "\n" + Tabs(tab) else "") + (PrintTag(TagOf(name, s, tab)) + Print(FillValue(name, s, leaves, k, tab, "0")))
    ensures name == "" && s.Branch? ==>
              PrintTag(TagOf(name, s, tab)) + Print(FillValue(name, s, leaves, k, tab, "0")) == Print(Fill(s, leaves, k, tab, "0"))
              && Taken(name, s) == TakenFields(s.fields)
  {
    hide Print;
    hide Fill;
    if name == "" && s.Branch? {
      assert "" + Print(Fill(s, leaves, k, tab, "0")) == Print(Fill(s, leaves, k, tab, "0"));
    }
  }

  lemma NamedRows(info: seq<Row>, i: nat, name: string, s: Shape)
    requires name != "" && RowsAt(info, i, EntryRows(name, s))
    ensures i + 1 < |info| && info[i] == Row(name, String, 1) && RowsAt(info, i + 1, EntryRows("", s))
    ensures |EntryRows(name, s)| == 1 + |Rows(s)| && |EntryRows("", s)| == |Rows(s)|
    ensures if s.Branch? then info[i + 1].kind == Object || info[i + 1].kind == Array
            else info[i + 1].kind == String && |Rows(s)| == 1
  {
    hide Rows;
    FirstRow(s);
    RowsSplit(info, i, [Row(name, String, 1)], Rows(s));
    assert info[i..i + 1][0] == info[i];
    assert info[i + 1] == info[i + 1..i + 1 + |Rows(s)|][0];
    assert [] + Rows(s) == Rows(s);
  }

  lemma NamedText(name: string, s: Shape, leaves: seq<string>, k: nat, tab: nat)
    requires name != "" && tab > 0
    ensures PrintTag(TagOf(name, s, tab)) + Print(FillValue(name, s, leaves, k, tab, "0"))
            == ("\"" + name + "\":") + (if s.Branch? then Entry("", s, leaves, k, tab)
                                        else if name == DATA then "0" else LeafAt(leaves, k))
    ensures s.Branch? ==> Taken(name, s) == Taken("", s)
    ensures s.Slot? ==> Taken(name, s) == if name == DATA then 0 else 1
  {
    hide Fill;
    hide Break;
    if s.Branch? {
      var v := Fill(s, leaves, k, tab, "0");
    }
  }

  lemma NothingTaken(leaves: seq<string>, k: nat)
    requires k <= |leaves|
    ensures Stream(leaves[k..k + 0]) == ""
  {
  }

  lemma OneLeaf(input: string, at: nat, leaves: seq<string>, k: nat)
    requires Ahead(input, at, leaves, k) && k < |leaves|
    ensures at <= |input| && leaves[k] + "\0" <= input[at..] && Stream(leaves[k..k + 1]) == leaves[k] + "\0"
  {
    AheadNext(input, at, leaves, k, k + 1);
    var one := leaves[k..k + 1];
    assert one == [leaves[k]] && one[1..] == [];
    assert Stream(one) == leaves[k] + "\0";
  }

  lemma BranchText(s: Shape, leaves: seq<string>, k: nat, tab: nat)
    requires s.Branch?
    ensures Print(Fill(s, leaves, k, tab, "0"))
            == [if s.isArray then '[' else '{'] + PrintItems(FillFields(s.fields, leaves, k, tab + 1, "0"))
               + "\n" + Tabs(tab) + [if s.isArray then ']' else '}']
  {
    hide FillFields;
    hide PrintItems;
    var items := FillFields(s.fields, leaves, k, tab + 1, "0");
    assert Print(Fill(s, leaves, k, tab, "0"))
        == (if s.isArray then "[" else "{") + PrintItems(items) + Break(tab) + (if s.isArray then "]" else "}");
  }

  lemma BranchRows(info: seq<Row>, i: nat, s: Shape)
    requires s.Branch? && RowsAt(info, i, Rows(s))
    ensures i < |info| && info[i] == Row("", if s.isArray then Array else Object, FieldCount(s.fields))
    ensures RowsAt(info, i + 1, FieldRows(s.fields)) && |Rows(s)| == 1 + |FieldRows(s.fields)|
  {
    hide FieldRows;
    hide FieldCount;
    var head := [Row("", if s.isArray then Array else Object, FieldCount(s.fields))];
    RowsSplit(info, i, head, FieldRows(s.fields));
    assert info[i..i + 1][0] == info[i];
  }

  lemma StreamRange(leaves: seq<string>, k: nat, m: nat, n: nat)
    requires k <= m <= n <= |leaves|
    ensures Stream(leaves[k..n]) == Stream(leaves[k..m]) + Stream(leaves[m..n])
  {
    assert leaves[k..n] == leaves[k..m] + leaves[m..n];
    StreamConcat(leaves[k..m], leaves[m..n]);
  }

  class Builder {
    var decodedI: nat
    var infoI: nat
    var inI: nat

    constructor ()
      ensures decodedI == 0 && infoI == 0 && inI == 0
    {
      decodedI, infoI, inI := 0, 0, 0;
    }

    ghost function Written(decoded: array<char>): (r: string)
      requires decodedI <= decoded.Length
      reads this, decoded
    {
      decoded[..decodedI]
    }

    method PutChar(c: char, decoded: array<char>)
      requires decodedI < decoded.Length
      modifies this`decodedI, decoded
      ensures decodedI == old(decodedI) + 1 && Written(decoded) == old(Written(decoded)) + [c]
    {
      decoded[decodedI] := c;
      decodedI := decodedI + 1;
    }

    /** Copies a name, which ends at its NUL. */
    method PutName(name: string, decoded: array<char>)
      requires NoNul(name) && decodedI + |name| <= decoded.Length
      modifies this`decodedI, decoded
      ensures decodedI == old(decodedI) + |name| && Written(decoded) == old(Written(decoded)) + name
    {
      var src := name + "\0";
      var i := 0;
      while src[i] != '\0'
        invariant i <= |name| && decodedI == old(decodedI) + i
        invariant Written(decoded) == old(Written(decoded)) + name[..i]
        decreases |name| - i
      {
        PutChar(src[i], decoded);
        i := i + 1;
      }
      assert name[..i] == name;
    }

    /** Copies the next leaf of the input and skips its NUL. */
    method PutLeaf(input: string, decoded: array<char>, ghost leaf: string)
      requires NoNul(leaf) && inI <= |input| && leaf + "\0" <= input[inI..] && decodedI + |leaf| <= decoded.Length
      modifies this`decodedI, this`inI, decoded
      ensures decodedI == old(decodedI) + |leaf| && Written(decoded) == old(Written(decoded)) + leaf
      ensures inI == old(inI) + |leaf| + 1
    {
      var i := inI;
      ghost var n := 0;
      assert forall m :: 0 <= m <= |leaf| ==> input[inI..][m] == (leaf + "\0")[m];
      while input[i] != '\0'
        invariant n <= |leaf| && i == inI + n && decodedI == old(decodedI) + n && inI == old(inI)
        invariant Written(decoded) == old(Written(decoded)) + leaf[..n]
        decreases |leaf| - n
      {
        assert input[i] == input[inI..][n] == leaf[n];
        PutChar(input[i], decoded);
        n := n + 1;
        i := i + 1;
      }
      assert n == |leaf| && leaf[..n] == leaf;
      inI := i + 1;
    }

    method PutTabs(n: nat, decoded: array<char>)
      requires decodedI + n <= decoded.Length
      modifies this`decodedI, decoded
      ensures decodedI == old(decodedI) + n && Written(decoded) == old(Written(decoded)) + Tabs(n)
    {
      var i := 0;
      while i < n
        invariant i <= n && decodedI == old(decodedI) + i
        invariant Written(decoded) == old(Written(decoded)) + Tabs(i)
      {
        PutChar('\t', decoded);
        assert Tabs(i) + "\t" == Tabs(i + 1);
        i := i + 1;
      }
    }

    /** Builds one entry of the table and everything below it. An object at the root also reports the
        length of the text and where the data start in the input, and resets the cursors. */
    method BuildDecoded(input: string, info: seq<Row>, decoded: array<char>, tab: nat,
                        ghost name: string, ghost s: Shape, ghost leaves: seq<string>, ghost k: nat)
      returns (size: nat, dataAt: nat)
      requires Good(s) && NoNul(name) && (s.Slot? ==> name != "") && (tab == 0 ==> name == "") && LeavesPlain(leaves)
      requires RowsAt(info, infoI, EntryRows(name, s))
      requires Ahead(input, inI, leaves, k) && k + Taken(name, s) <= |leaves|
      requires decodedI + |Entry(name, s, leaves, k, tab)| <= decoded.Length
      modifies this, decoded
      ensures var n := old(decodedI) + |Entry(name, s, leaves, k, tab)|;
              var m := old(inI) + |Stream(leaves[k..k + Taken(name, s)])|;
              && decoded[..n] == old(Written(decoded)) + Entry(name, s, leaves, k, tab)
              && if tab == 0 && !s.isArray then size == n && dataAt == m && decodedI == infoI == inI == 0
                 else decodedI == n && inI == m && infoI + 1 == old(infoI) + |EntryRows(name, s)|
      decreases Size(s), if name == "" then 2 else 4
    {
      hide Print;
      hide PrintTag;
      hide Stream;
      hide Entry;
      hide EntryRows;
      hide FillValue;
      hide TagOf;
      hide Fill;
      hide Rows;
      hide Taken;
      hide StringOk;
      size, dataAt := 0, 0;
      EntryText(name, s, leaves, k, tab);
      EntryStart(info, infoI, name, s);
      ghost var w, n := Written(decoded), decodedI + |Entry(name, s, leaves, k, tab)|;
      if tab != 0 {
        PutChar('\n', decoded);
        PutTabs(tab, decoded);
      }
      var isObject := info[infoI].kind == Object;
      if info[infoI].name != "" {
        BuildNamed(input, info, decoded, tab, name, s, leaves, k);
      } else {
        BranchRows(info, infoI, s);
        BuildBranch(input, info, decoded, tab, s, leaves, k);
      }
      assert decodedI == n && Written(decoded) == w + Entry(name, s, leaves, k, tab);
      if tab == 0 && isObject {
        size, dataAt := decodedI, inI;
        decodedI, infoI, inI := 0, 0, 0;
      }
    }

    /** A named entry: the name, a colon, and a leaf or a bracket. */
    method BuildNamed(input: string, info: seq<Row>, decoded: array<char>, tab: nat,
                      ghost name: string, ghost s: Shape, ghost leaves: seq<string>, ghost k: nat)
      requires Good(s) && NoNul(name) && name != "" && tab > 0 && LeavesPlain(leaves)
      requires RowsAt(info, infoI, EntryRows(name, s))
      requires Ahead(input, inI, leaves, k) && k + Taken(name, s) <= |leaves|
      requires decodedI + |PrintTag(TagOf(name, s, tab)) + Print(FillValue(name, s, leaves, k, tab, "0"))| <= decoded.Length
      modifies this, decoded
      ensures var text := PrintTag(TagOf(name, s, tab)) + Print(FillValue(name, s, leaves, k, tab, "0"));
              decodedI == old(decodedI) + |text| && Written(decoded) == old(Written(decoded)) + text
      ensures inI == old(inI) + |Stream(leaves[k..k + Taken(name, s)])|
      ensures infoI + 1 == old(infoI) + |EntryRows(name, s)|
      decreases Size(s), 3
    {
      hide Stream;
      hide Break;
      hide Print;
      hide PrintTag;
      hide FillValue;
      hide TagOf;
      hide Entry;
      hide EntryRows;
      hide Rows;
      hide Taken;
      hide StringOk;
      hide Ahead;
      NamedRows(info, infoI, name, s);
      NamedText(name, s, leaves, k, tab);
      ghost var w, head := Written(decoded), "\"" + name + "\":";
      PutHead(info[infoI].name, decoded);
      if info[infoI + 1].kind == Object || info[infoI + 1].kind == Array {
        infoI := infoI + 1;
        var _, _ := BuildDecoded(input, info, decoded, tab, "", s, leaves, k);
        assert Written(decoded) == (w + head) + Entry("", s, leaves, k, tab);
        assert (w + head) + Entry("", s, leaves, k, tab) == w + (head + Entry("", s, leaves, k, tab));
      } else {
        if info[infoI].name == "Data" {
          PutChar('0', decoded);
          NothingTaken(leaves, k);
          assert (w + head) + "0" == w + (head + "0");
        } else {
          OneLeaf(input, inI, leaves, k);
          PutLeaf(input, decoded, leaves[k]);
          assert (w + head) + leaves[k] == w + (head + leaves[k]);
        }
        infoI := infoI + 1;
      }
    }

    method PutHead(name: string, decoded: array<char>)
      requires NoNul(name) && decodedI + |name| + 3 <= decoded.Length
      modifies this`decodedI, decoded
      ensures decodedI == old(decodedI) + |name| + 3
      ensures Written(decoded) == old(Written(decoded)) + ("\"" + name + "\":")
    {
      PutChar('\"', decoded);
      PutName(name, decoded);
      PutChar('\"', decoded);
      PutChar(':', decoded);
    }

    /** A bracket and its entries. */
    method BuildBranch(input: string, info: seq<Row>, decoded: array<char>, tab: nat,
                       ghost s: Shape, ghost leaves: seq<string>, ghost k: nat)
      requires s.Branch? && Good(s) && LeavesPlain(leaves)
      requires RowsAt(info, infoI, Rows(s))
      requires Ahead(input, inI, leaves, k) && k + TakenFields(s.fields) <= |leaves|
      requires decodedI + |Print(Fill(s, leaves, k, tab, "0"))| <= decoded.Length
      modifies this, decoded
      ensures var text := Print(Fill(s, leaves, k, tab, "0"));
              decodedI == old(decodedI) + |text| && Written(decoded) == old(Written(decoded)) + text
      ensures inI == old(inI) + |Stream(leaves[k..k + TakenFields(s.fields)])|
      ensures infoI + 1 == old(infoI) + |Rows(s)|
      decreases Size(s), 1
    {
      hide Good;
      hide RowsAt;
      hide Ahead;
      hide LeavesPlain;
      hide Rows;
      hide Fill;
      hide FieldCount;
      hide Print;
      hide PrintItems;
      hide Stream;
      hide Break;
      hide FillFields;
      hide FieldRows;
      BranchText(s, leaves, k, tab);
      BranchRows(info, infoI, s);
      var son := info[infoI].sons;
      var isArray := info[infoI].kind == Array;
      ghost var all := PrintItems(FillFields(s.fields, leaves, k, tab + 1, "0"));
      PutChar(if isArray then '[' else '{', decoded);
      BuildSons(input, info, decoded, tab, son, s, leaves, k);
      PutChar('\n', decoded);
      PutTabs(tab, decoded);
      PutChar(if isArray then ']' else '}', decoded);
    }

    /** The entries between the brackets. */
    method BuildSons(input: string, info: seq<Row>, decoded: array<char>, tab: nat, son: nat,
                     ghost s: Shape, ghost leaves: seq<string>, ghost k: nat)
      requires s.Branch? && Good(s) && LeavesPlain(leaves) && son == FieldCount(s.fields)
      requires RowsAt(info, infoI + 1, FieldRows(s.fields))
      requires Ahead(input, inI, leaves, k) && k + TakenFields(s.fields) <= |leaves|
      requires decodedI + |PrintItems(FillFields(s.fields, leaves, k, tab + 1, "0"))| <= decoded.Length
      modifies this, decoded
      ensures var text := PrintItems(FillFields(s.fields, leaves, k, tab + 1, "0"));
              decodedI == old(decodedI) + |text| && Written(decoded) == old(Written(decoded)) + text
      ensures inI == old(inI) + |Stream(leaves[k..k + TakenFields(s.fields)])|
      ensures infoI == old(infoI) + |FieldRows(s.fields)|
      decreases Size(s), 0
    {
      hide PrintItems;
      hide Stream;
      hide EntryRows;
      hide FillFields;
      hide StringOk;
      hide Ahead;
      hide RowsAt;
      hide Taken;
      ghost var fs, kk := s.fields, k;
      ghost var whole := Written(decoded) + PrintItems(FillFields(fs, leaves, k, tab + 1, "0"));
      NothingTaken(leaves, k);
      var i := 0;
      while i < son
        invariant i <= son && FieldCount(fs) == son - i
        invariant GoodFields(fs, s.isArray) && FieldsSize(fs) <= FieldsSize(s.fields)
        invariant RowsAt(info, infoI + 1, FieldRows(fs))
        invariant infoI + |FieldRows(fs)| == old(infoI) + |FieldRows(s.fields)|
        invariant k <= kk && kk + TakenFields(fs) == k + TakenFields(s.fields)
        invariant Ahead(input, inI, leaves, kk) && inI == old(inI) + |Stream(leaves[k..kk])|
        invariant decodedI <= decoded.Length && |whole| <= decoded.Length
        invariant Written(decoded) + PrintItems(FillFields(fs, leaves, kk, tab + 1, "0")) == whole
      {
        ghost var next := kk + Taken(fs.name, fs.shape);
        StreamRange(leaves, k, kk, next);
        BuildSon(input, info, decoded, tab, i == son - 1, fs, s.isArray, leaves, kk);
        fs, kk := fs.rest, next;
        i := i + 1;
      }
      assert fs.End?;
      NoText(leaves, kk, tab + 1);
    }

    /** One entry, with a comma after it unless it is the last. */
    method BuildSon(input: string, info: seq<Row>, decoded: array<char>, tab: nat, last: bool,
                    ghost fs: Fields, ghost isArray: bool, ghost leaves: seq<string>, ghost k: nat)
      requires fs.Field? && last == fs.rest.End? && GoodFields(fs, isArray) && LeavesPlain(leaves)
      requires RowsAt(info, infoI + 1, FieldRows(fs))
      requires Ahead(input, inI, leaves, k) && k + Taken(fs.name, fs.shape) <= |leaves|
      requires decodedI + |PrintItems(FillFields(fs, leaves, k, tab + 1, "0"))| <= decoded.Length
      modifies this, decoded
      ensures var next := k + Taken(fs.name, fs.shape);
              && decodedI <= decoded.Length
              && Written(decoded) + PrintItems(FillFields(fs.rest, leaves, next, tab + 1, "0"))
                 == old(Written(decoded)) + PrintItems(FillFields(fs, leaves, k, tab + 1, "0"))
              && Ahead(input, inI, leaves, next) && inI == old(inI) + |Stream(leaves[k..next])|
      ensures RowsAt(info, infoI + 1, FieldRows(fs.rest)) && infoI + |FieldRows(fs.rest)| == old(infoI) + |FieldRows(fs)|
      decreases FieldsSize(fs), 5
    {
      hide PrintItems;
      hide Stream;
      hide Entry;
      hide EntryRows;
      hide FillFields;
      hide StringOk;
      hide Ahead;
      hide RowsAt;
      hide Taken;
      ghost var next := k + Taken(fs.name, fs.shape);
      PrintsFields(fs, leaves, k, tab + 1);
      RowsSplit(info, infoI + 1, EntryRows(fs.name, fs.shape), FieldRows(fs.rest));
      AheadNext(input, inI, leaves, k, next);
      infoI := infoI + 1;
      ghost var w, entry := Written(decoded), Entry(fs.name, fs.shape, leaves, k, tab + 1);
      var _, _ := BuildDecoded(input, info, decoded, tab + 1, fs.name, fs.shape, leaves, k);
      ghost var rest := PrintItems(FillFields(fs.rest, leaves, next, tab + 1, "0"));
      if !last {
        PutChar(',', decoded);
      } else {
        NoText(leaves, next, tab + 1);
      }
    }
  }

  lemma NoText(leaves: seq<string>, k: nat, tab: nat)
    ensures PrintItems(FillFields(End, leaves, k, tab, "0")) == ""
  {
  }

  // ---------- Decoding and encoding ----------

  /** The bytes of the input after the leaves, up to the NUL. */
  method ReadData(input: string, dataAt: nat, ghost data: string) returns (value: string)
    requires NoNul(data) && dataAt <= |input| && data + "\0" <= input[dataAt..]
    ensures value == data
  {
    value := "";
    var i := 0;
    assert forall m :: 0 <= m <= |data| ==> input[dataAt..][m] == (data + "\0")[m];
    while input[dataAt + i] != '\0'
      invariant i <= |data| && value == data[..i]
      decreases |data| - i
    {
      assert input[dataAt + i] == input[dataAt..][i] == data[i];
      value := value + [input[dataAt + i]];
      i := i + 1;
    }
  }

  lemma LastOfStream(data: string)
    ensures Stream([data]) == data + "\0"
  {
    assert [data][1..] == [];
  }

  lemma PrefixParts(a: string, b: string, s: string)
    requires a + b <= s
    ensures a <= s && |a| <= |s| && b <= s[|a|..]
  {
    assert (a + b)[..|a|] == a && (a + b)[|a|..] == b;
  }

  lemma DataAhead(input: string, leaves: seq<string>, data: string)
    requires Stream(leaves + [data]) <= input
    ensures Ahead(input, 0, leaves, 0)
    ensures |Stream(leaves)| <= |input| && data + "\0" <= input[|Stream(leaves)|..]
  {
    hide Stream;
    StreamConcat(leaves, [data]);
    LastOfStream(data);
    assert leaves[0..] == leaves;
    assert input[0..] == input;
    PrefixParts(Stream(leaves), data + "\0", input);
  }

  lemma RootEntry(s: Shape, leaves: seq<string>)
    requires s.Branch?
    ensures Entry("", s, leaves, 0, 0) == Print(Fill(s, leaves, 0, 0, "0"))
    ensures EntryRows("", s) == Rows(s) && Taken("", s) == TakenFields(s.fields)
  {
    hide Print;
    assert "" + "" + Print(Fill(s, leaves, 0, 0, "0")) == Print(Fill(s, leaves, 0, 0, "0"));
    assert [] + Rows(s) == Rows(s);
  }

  lemma LeavesNoNul(leaves: seq<string>)
    requires LeavesOk(leaves)
    ensures LeavesPlain(leaves)
  {
  }

  /** What decoding a stream leaves. */
  function Document(leaves: seq<string>, data: string): (v: Value) {
    TemplateGood();
    Decoded(TEMPLATE, leaves, data)
  }

  /** Decodes a stream of legal atoms: builds the document of the template around them, tokenizes it,
      and overwrites the text that looking Data up leads to. */
  method Decode(input: string, stray: Kind, blank: Token, ghost leaves: seq<string>, ghost data: string)
    returns (json: JsonData)
    requires LeavesOk(leaves) && |leaves| == 8 && NoNul(data) && Stream(leaves + [data]) <= input
    requires |Print(Built(TEMPLATE, leaves))| < MAX_CONTENT && |Print(Document(leaves, data))| < MAX_CONTENT
    ensures json.Terminated() && 0 <= json.tokenSize <= MAX_TOKENS
    ensures json.Table() == Printed("", Document(leaves, data), "") && Inside(json.Table())
    ensures EncodedFrom(json.Table(), 0) == Stream(leaves + [if DATA in leaves then "0" else data])
  {
    hide Print;
    hide Toks;
    hide Run;
    hide Resolve;
    hide LeavesOk;
    hide Built;
    hide Decoded;
    hide DataToken;
    hide EncodedFrom;
    hide Stream;
    hide Good;
    hide DataLast;
    hide ObjectsOnly;
    hide Rows;
    hide TakenFields;
    hide NoNul;
    hide Splice;
    hide Shift;
    hide StrLen;
    hide LeavesPlain;
    hide Ahead;
    TableIsTemplate();
    TemplateGood();
    DataAhead(input, leaves, data);
    LeavesNoNul(leaves);
    BuiltTokenizes(TEMPLATE, leaves);
    DecodeThenEncode(TEMPLATE, leaves, data);
    BuiltNoNul(leaves);
    var decoded := new char[MAX_CONTENT](_ => '\0');
    var size, dataAt := Build(input, decoded, leaves);
    json := new JsonData(decoded[..size], blank);
    json.InitToken(stray);
    var value := ReadData(input, dataAt, data);
    SetData(json, value, Built(TEMPLATE, leaves), Document(leaves, data), DataToken(TEMPLATE, leaves));
  }

  lemma BuiltNoNul(leaves: seq<string>)
    requires LeavesOk(leaves) && |leaves| == 8
    ensures NoNul(Print(Built(TEMPLATE, leaves)))
  {
    hide Print;
    hide LeavesOk;
    hide Fill;
    hide Good;
    hide TakenFields;
    TableIsTemplate();
    TemplateGood();
    ZeroOk();
    FillNoNul(TEMPLATE, leaves, 0, 0, "0");
  }

  /** Overwrites token `j` of a built document. */
  method SetData(json: JsonData, value: string, ghost built: Value, ghost changed: Value, ghost j: nat)
    requires json.Valid() && NoNul(value) && j < json.tokenSize && json.Table() == Printed("", built, "")
    requires Resolve([DATA], Span(json.tokens[0]), json.Table()) == Place(Span(json.tokens[j]))
    requires SetToken(json.Table(), j, value) == Printed("", changed, "")
    requires |Print(changed)| < MAX_CONTENT
    modifies json, json.content, json.tokens
    ensures json.Terminated() && json.tokenSize == old(json.tokenSize) && json.Table() == Printed("", changed, "")
  {
    hide Print;
    hide Toks;
    hide Resolve;
    hide Splice;
    hide Shift;
    assert "" + Print(changed) + "" == Print(changed);
    json.SetSingleValue(value, [DATA]);
  }

  /** For the template the round trip is exact: encoding gives a stream of legal atoms back if and only
      if none of the eight in front of the data reads Data, or the data read 0. */
  lemma TemplateRoundTripExact(leaves: seq<string>, data: string)
    requires LeavesOk(leaves) && |leaves| == 8
    ensures var doc := Printed("", Document(leaves, data), "");
            Inside(doc) && (EncodedFrom(doc, 0) == Stream(leaves + [data]) <==> DATA !in leaves || data == "0")
  {
    hide Print;
    hide Toks;
    hide Run;
    hide Resolve;
    hide LeavesOk;
    hide Built;
    hide Decoded;
    hide DataToken;
    hide EncodedFrom;
    hide Stream;
    hide Good;
    hide DataLast;
    hide ObjectsOnly;
    hide Rows;
    hide TakenFields;
    TableIsTemplate();
    TemplateGood();
    DecodeThenEncode(TEMPLATE, leaves, data);
    RoundTripExact(TEMPLATE, leaves, data);
  }

  /** It does fail: with Data for the magic number the key behind it is overwritten, and what is
      encoded ends in the 0 the document was built with. */
  lemma MagicNumberData(data: string)
    requires data != "0"
    ensures var leaves := [DATA, "0", "0", "0", "0", "0", "0", "0"];
            var doc := Printed("", Document(leaves, data), "");
            LeavesOk(leaves) && Inside(doc) && EncodedFrom(doc, 0) == Stream(leaves + ["0"]) != Stream(leaves + [data])
  {
    hide Print;
    hide Toks;
    hide Run;
    hide Resolve;
    hide Built;
    hide Decoded;
    hide DataToken;
    hide EncodedFrom;
    hide Stream;
    hide Good;
    hide DataLast;
    hide ObjectsOnly;
    hide Rows;
    hide TakenFields;
    var leaves := [DATA, "0", "0", "0", "0", "0", "0", "0"];
    ZeroOk();
    DataOk();
    TableIsTemplate();
    TemplateGood();
    DecodeThenEncode(TEMPLATE, leaves, data);
    LastLeafTells(leaves, "0", data);
  }

  lemma DataOk()
    ensures AtomOk(DATA)
  {
  }

  /** The document of the template around the leaves, with 0 for the data. */
  method Build(input: string, decoded: array<char>, ghost leaves: seq<string>) returns (size: nat, dataAt: nat)
    requires LeavesPlain(leaves) && |leaves| == 8 && Ahead(input, 0, leaves, 0)
    requires |Print(Built(TEMPLATE, leaves))| <= decoded.Length
    modifies decoded
    ensures size <= decoded.Length && decoded[..size] == Print(Built(TEMPLATE, leaves))
    ensures dataAt == |Stream(leaves)|
  {
    hide Entry;
    hide EntryRows;
    hide Taken;
    hide TakenFields;
    hide LeavesPlain;
    hide Print;
    hide Fill;
    hide Stream;
    hide Rows;
    hide Good;
    TableIsTemplate();
    TemplateGood();
    RootEntry(TEMPLATE, leaves);
    assert TABLE[0..0 + |TABLE|] == TABLE;
    var b := new Builder();
    size, dataAt := b.BuildDecoded(input, TABLE, decoded, 0, "", TEMPLATE, leaves, 0);
    assert leaves[0..8] == leaves;
  }

  /** Encodes a document: every text token without children, each with a NUL. */
  method Encode(json: JsonData) returns (encoded: string)
    requires json.Valid() && 0 <= json.tokenSize
    ensures encoded == EncodedFrom(json.Table(), 0)
  {
    hide EncodedFrom;
    ghost var doc := json.Table();
    ghost var all := EncodedFrom(doc, 0);
    encoded := "";
    var i := 0;
    while i < json.tokenSize
      invariant 0 <= i <= json.tokenSize && encoded + EncodedFrom(doc, i) == all
    {
      EncodedStep(doc, i, encoded);
      var t := json.tokens[i];
      if t.size == 0 && (t.kind == String || t.kind == Primitive) {
        assert TextOf(doc.text, t) == json.content[t.start..t.end];
        encoded := encoded + (json.content[t.start..t.end] + "\0");
      }
      i := i + 1;
    }
    EncodedEnd(doc, encoded);
  }

  lemma EncodedStep(doc: Doc, i: nat, done: string)
    requires Inside(doc) && i < |doc.tokens|
    ensures var t := doc.tokens[i];
            done + EncodedFrom(doc, i)
            == (if t.size == 0 && !t.IsContainer() then done + (TextOf(doc.text, t) + "\0") else done) + EncodedFrom(doc, i + 1)
  {
  }

  lemma EncodedEnd(doc: Doc, done: string)
    requires Inside(doc)
    ensures done + EncodedFrom(doc, |doc.tokens|) == done
  {
  }

  // ---------- As text ----------

  /** One line of the header. */
  function Line(name: string, leaf: string): (r: string) {
    "\n\t\t\t\"" + name + "\":" + leaf
  }

  function HeaderText(leaves: seq<string>): (r: string)
    requires |leaves| == 8
  {
    Line("Version", leaves[1]) + ("," + (Line("Data_Len", leaves[2]) + ("," + (Line("H_Len", leaves[3]) + ("," +
    (Line("IP_Src", leaves[4]) + ("," + (Line("IP_Des", leaves[5]) + ("," + (Line("Header_Checksum", leaves[6]) + ("," +
    Line("Flag", leaves[7]))))))))))))
  }

  lemma Breaks()
    ensures Break(0) == "\n" && Break(1) == "\n\t" && Break(2) == "\n\t\t" && Break(3) == "\n\t\t\t"
  {
  }

  /** A named leaf and what follows it. */
  lemma SlotText(name: string, rest: Fields, leaves: seq<string>, k: nat, tab: nat)
    requires name != ""
    ensures PrintItems(FillFields(Plain(name, rest), leaves, k, tab, "0"))
            == Break(tab) + ("\"" + name + "\":") + (if name == DATA then "0" else LeafAt(leaves, k))
               + (if rest.End? then "" else "," + PrintItems(FillFields(rest, leaves, k + (if name == DATA then 0 else 1), tab, "0")))
  {
    hide PrintItems;
    hide Break;
    FillFieldsIs(Plain(name, rest), leaves, k, tab, "0");
    var items := FillFields(Plain(name, rest), leaves, k, tab, "0");
    ItemThenRest(items);
  }

  /** A named branch and what follows it. */
  lemma BranchItemText(name: string, s: Shape, rest: Fields, leaves: seq<string>, k: nat, tab: nat)
    requires name != "" && s.Branch? && !s.isArray
    ensures PrintItems(FillFields(Field(name, s, rest), leaves, k, tab, "0"))
            == Break(tab) + ("\"" + name + "\":" + Break(tab)) + ("{" + PrintItems(FillFields(s.fields, leaves, k, tab + 1, "0")) + Break(tab) + "}")
               + (if rest.End? then "" else "," + PrintItems(FillFields(rest, leaves, k + TakenFields(s.fields), tab, "0")))
  {
    hide PrintItems;
    hide Break;
    FillFieldsIs(Field(name, s, rest), leaves, k, tab, "0");
    var items := FillFields(Field(name, s, rest), leaves, k, tab, "0");
    ItemThenRest(items);
  }

  lemma OneLine(name: string, rest: Fields, leaves: seq<string>, k: nat)
    requires name != "" && name != DATA && k < |leaves|
    ensures PrintItems(FillFields(Plain(name, rest), leaves, k, 3, "0"))
            == if rest.End? then Line(name, leaves[k]) else Line(name, leaves[k]) + ("," + PrintItems(FillFields(rest, leaves, k + 1, 3, "0")))
  {
    hide PrintItems;
    hide FillFields;
    hide Break;
    Breaks();
    SlotText(name, rest, leaves, k, 3);
  }

  lemma HeaderLines(leaves: seq<string>)
    requires |leaves| == 8
    ensures PrintItems(FillFields(HEADER.fields, leaves, 1, 3, "0")) == HeaderText(leaves)
  {
    hide PrintItems;
    hide FillFields;
    hide Line;
    hide Plain;
    var f7 := Plain("Flag", End);
    var f6 := Plain("Header_Checksum", f7);
    var f5 := Plain("IP_Des", f6);
    var f4 := Plain("IP_Src", f5);
    var f3 := Plain("H_Len", f4);
    var f2 := Plain("Data_Len", f3);
    PlainIsField("Flag", End);
    PlainIsField("Header_Checksum", f7);
    PlainIsField("IP_Des", f6);
    PlainIsField("IP_Src", f5);
    PlainIsField("H_Len", f4);
    PlainIsField("Data_Len", f3);
    OneLine("Flag", End, leaves, 7);
    OneLine("Header_Checksum", f7, leaves, 6);
    OneLine("IP_Des", f6, leaves, 5);
    OneLine("IP_Src", f5, leaves, 4);
    OneLine("H_Len", f4, leaves, 3);
    OneLine("Data_Len", f3, leaves, 2);
    OneLine("Version", f2, leaves, 1);
  }

  lemma PlainIsField(name: string, rest: Fields)
    ensures Plain(name, rest).Field?
  {
  }

  lemma SegmentText(leaves: seq<string>)
    requires |leaves| == 8
    ensures PrintItems(FillFields(SEGMENT.fields, leaves, 1, 2, "0"))
            == "\n\t\t" + ("\"" + "Header" + "\":" + "\n\t\t") + ("{" + HeaderText(leaves) + "\n\t\t" + "}")
               + ("," + ("\n\t\t" + ("\"" + "Data" + "\":") + "0" + ""))
  {
    hide PrintItems;
    hide FillFields;
    hide HeaderText;
    hide Break;
    hide Plain;
    hide TakenFields;
    HeaderLines(leaves);
    HeaderRows();
    Breaks();
    PlainIsField("Data", End);
    SlotText("Data", End, leaves, 8, 2);
    BranchItemText("Header", HEADER, Plain("Data", End), leaves, 1, 2);
  }

  lemma UdpText(leaves: seq<string>, segment: string)
    requires segment == PrintItems(FillFields(SEGMENT.fields, leaves, 1, 2, "0"))
    ensures PrintItems(FillFields(Field("UDP Segment", SEGMENT, End), leaves, 1, 1, "0"))
            == "\n\t" + ("\"" + "UDP Segment" + "\":" + "\n\t") + ("{" + segment + "\n\t" + "}") + ""
  {
    hide PrintItems;
    hide FillFields;
    hide Break;
    hide Plain;
    hide TakenFields;
    Breaks();
    BranchItemText("UDP Segment", SEGMENT, End, leaves, 1, 1);
  }

  lemma RootText(leaves: seq<string>, udp: string)
    requires |leaves| == 8 && udp == PrintItems(FillFields(Field("UDP Segment", SEGMENT, End), leaves, 1, 1, "0"))
    ensures Print(Built(TEMPLATE, leaves))
            == "{" + ("\n\t" + ("\"" + "magic number" + "\":") + leaves[0] + ("," + udp)) + "\n" + "}"
  {
    hide PrintItems;
    hide FillFields;
    hide Break;
    hide Print;
    hide Fill;
    Breaks();
    SlotText("magic number", Field("UDP Segment", SEGMENT, End), leaves, 0, 1);
    BranchText(TEMPLATE, leaves, 0, 0);
  }

  /** The document built from a stream, character by character. */
  lemma BuiltText(leaves: seq<string>)
    requires |leaves| == 8
    ensures Print(Built(TEMPLATE, leaves))
            == "{\n\t\"magic number\":" + (leaves[0] + (",\n\t\"UDP Segment\":\n\t{\n\t\t\"Header\":\n\t\t{"
               + (HeaderText(leaves) + "\n\t\t},\n\t\t\"Data\":0\n\t}\n}")))
  {
    hide PrintItems;
    hide FillFields;
    hide HeaderText;
    hide Built;
    hide Print;
    hide Plain;
    SegmentText(leaves);
    var segment := PrintItems(FillFields(SEGMENT.fields, leaves, 1, 2, "0"));
    UdpText(leaves, segment);
    RootText(leaves, PrintItems(FillFields(Field("UDP Segment", SEGMENT, End), leaves, 1, 1, "0")));
    Glued(leaves[0], HeaderText(leaves));
  }

  lemma Glued(leaf: string, header: string)
    ensures var data := "\n\t\t" + ("\"" + "Data" + "\":") + "0" + "";
            var segment := "\n\t\t" + ("\"" + "Header" + "\":" + "\n\t\t") + ("{" + header + "\n\t\t" + "}") + ("," + data);
            var udp := "\n\t" + ("\"" + "UDP Segment" + "\":" + "\n\t") + ("{" + segment + "\n\t" + "}") + "";
            var all := "\n\t" + ("\"" + "magic number" + "\":") + leaf + ("," + udp);
            "{" + all + "\n" + "}"
            == "{\n\t\"magic number\":" + (leaf + (",\n\t\"UDP Segment\":\n\t{\n\t\t\"Header\":\n\t\t{" + (header + "\n\t\t},\n\t\t\"Data\":0\n\t}\n}")))
  {
    var data := "\n\t\t" + ("\"" + "Data" + "\":") + "0" + "";
    var segment := "\n\t\t" + ("\"" + "Header" + "\":" + "\n\t\t") + ("{" + header + "\n\t\t" + "}") + ("," + data);
    var udp := "\n\t" + ("\"" + "UDP Segment" + "\":" + "\n\t") + ("{" + segment + "\n\t" + "}") + "";
    hide UDP_LINE;
    hide HEADER_LINE;
    hide DATA_LINE;
    DataGlued();
    SegmentGlued(header, data);
    UdpGlued(segment);
    AllGlued(leaf, udp);
    Reordered(leaf, UDP_LINE, HEADER_LINE, header, "\n\t\t},", data, "\n\t}");
    HeadGlued();
    TailGlued();
  }

  const DATA_LINE := "\n\t\t\"Data\":0"
  const UDP_LINE := "\n\t\"UDP Segment\":\n\t{"
  const HEADER_LINE := "\n\t\t\"Header\":\n\t\t{"

  lemma DataGlued()
    ensures "\n\t\t" + ("\"" + "Data" + "\":") + "0" + "" == DATA_LINE
  {
  }

  lemma SegmentGlued(header: string, data: string)
    ensures "\n\t\t" + ("\"" + "Header" + "\":" + "\n\t\t") + ("{" + header + "\n\t\t" + "}") + ("," + data)
            == HEADER_LINE + (header + ("\n\t\t}," + data))
  {
  }

  lemma UdpGlued(segment: string)
    ensures "\n\t" + ("\"" + "UDP Segment" + "\":" + "\n\t") + ("{" + segment + "\n\t" + "}") + "" == UDP_LINE + (segment + "\n\t}")
  {
  }

  lemma AllGlued(leaf: string, udp: string)
    ensures "{" + ("\n\t" + ("\"" + "magic number" + "\":") + leaf + ("," + udp)) + "\n" + "}"
            == "{\n\t\"magic number\":" + (leaf + ("," + udp + "\n}"))
  {
  }

  lemma Reordered(leaf: string, u: string, h: string, header: string, x: string, data: string, y: string)
    ensures leaf + ("," + (u + ((h + (header + (x + data))) + y)) + "\n}") == leaf + (("," + u + h) + (header + (x + data + y + "\n}")))
  {
  }

  lemma HeadGlued()
    ensures "," + UDP_LINE + HEADER_LINE == ",\n\t\"UDP Segment\":\n\t{\n\t\t\"Header\":\n\t\t{"
  {
  }

  lemma TailGlued()
    ensures "\n\t\t}," + DATA_LINE + "\n\t}" + "\n}" == "\n\t\t},\n\t\t\"Data\":0\n\t}\n}"
  {
  }
}
