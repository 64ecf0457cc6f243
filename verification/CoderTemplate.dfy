/**
 The template coder: a fixed table of rows in preorder says what document to build around a stream
 of leaf texts, and encoding a document gives its leaf texts back as a stream.

 A shape is the tree a table is the preorder of.
 */
module CoderTemplate {
  import opened Jsmn
  import opened JsonTree
  import opened JsonEdit
  import opened JsonLookup
  import opened JsonFile

  datatype Shape = Slot | Branch(isArray: bool, fields: Fields)

  datatype Fields = End | Field(name: string, shape: Shape, rest: Fields)

  /** One row of the table. */
  datatype Row = Row(name: string, kind: Kind, sons: nat)

  const DATA := "Data"

  // ---------- Tables ----------

  function FieldCount(fs: Fields): (r: nat) {
    match fs
    case End => 0
    case Field(_, _, rest) => 1 + FieldCount(rest)
  }

  function Rows(s: Shape): (r: seq<Row>)
    ensures r != []
    decreases s, 0
  {
    match s
    case Slot => [Row("", String, 0)]
    case Branch(isArray, fields) => [Row("", if isArray then Array else Object, FieldCount(fields))] + FieldRows(fields)
  }

  /** A named field has a row of its own in front of its value. */
  function EntryRows(name: string, s: Shape): (r: seq<Row>)
    decreases s, 1
  {
    (if name == "" then [] else [Row(name, String, 1)]) + Rows(s)
  }

  function FieldRows(fs: Fields): (r: seq<Row>)
    decreases fs
  {
    match fs
    case End => []
    case Field(name, s, rest) => EntryRows(name, s) + FieldRows(rest)
  }

  /** Fields of objects are named; elements of arrays are not, and hold no leaf. */
  predicate Good(s: Shape) {
    s.Slot? || GoodFields(s.fields, s.isArray)
  }

  predicate GoodFields(fs: Fields, isArray: bool) {
    match fs
    case End => true
    case Field(name, s, rest) =>
      && (if isArray then name == "" && s.Branch? else name != "" && StringOk(name) && NoNul(name))
      && Good(s) && GoodFields(rest, isArray)
  }

  // ---------- The document a shape and its leaves stand for ----------

  function Tabs(n: nat): (r: string) {
    seq(n, _ => '\t')
  }

  function Break(n: nat): (r: string) {
    "\n" + Tabs(n)
  }

  function LeafAt(leaves: seq<string>, k: nat): (r: string) {
    if k < |leaves| then leaves[k] else ""
  }

  /** Leaves an entry takes from the stream: a slot named Data takes none. */
  function Taken(name: string, s: Shape): (r: nat)
    decreases s, 1
  {
    if s.Slot? then (if name == DATA then 0 else 1) else TakenFields(s.fields)
  }

  function TakenFields(fs: Fields): (r: nat)
    decreases fs
  {
    match fs
    case End => 0
    case Field(name, s, rest) => Taken(name, s) + TakenFields(rest)
  }

  /** The document of a branch whose leaves start at the k-th, `tab` levels deep; `data` stands in
      the slot named Data. */
  function Fill(s: Shape, leaves: seq<string>, k: nat, tab: nat, data: string): (r: Value)
    requires s.Branch?
    decreases s, 0
  {
    Node(s.isArray, FillFields(s.fields, leaves, k, tab + 1, data), Break(tab))
  }

  function FillFields(fs: Fields, leaves: seq<string>, k: nat, tab: nat, data: string): (r: Items)
    decreases fs
  {
    match fs
    case End => Nil
    case Field(name, s, rest) =>
      Item(Break(tab), TagOf(name, s, tab), FillValue(name, s, leaves, k, tab, data), "",
           FillFields(rest, leaves, k + Taken(name, s), tab, data))
  }

  function TagOf(name: string, s: Shape, tab: nat): (r: Tag) {
    if name == "" then NoKey else Key(name, "", if s.Slot? then "" else Break(tab))
  }

  function FillValue(name: string, s: Shape, leaves: seq<string>, k: nat, tab: nat, data: string): (r: Value)
    decreases s, 1
  {
    if s.Slot? then Leaf(false, if name == DATA then data else LeafAt(leaves, k))
    else Fill(s, leaves, k, tab, data)
  }

  // ---------- Legal documents ----------

  lemma BreakIsSpace(n: nat)
    ensures Spaces(Break(n))
  {
  }

  predicate LeavesOk(leaves: seq<string>) {
    forall i :: 0 <= i < |leaves| ==> AtomOk(leaves[i])
  }

  lemma {:induction false} FillOk(s: Shape, leaves: seq<string>, k: nat, tab: nat, data: string)
    requires s.Branch? && Good(s) && LeavesOk(leaves) && AtomOk(data) && k + TakenFields(s.fields) <= |leaves|
    ensures Ok(Fill(s, leaves, k, tab, data))
    decreases s
  {
    BreakIsSpace(tab);
    FillFieldsOk(s.fields, s.isArray, leaves, k, tab + 1, data);
  }

  lemma {:induction false} FillFieldsOk(fs: Fields, isArray: bool, leaves: seq<string>, k: nat, tab: nat, data: string)
    requires GoodFields(fs, isArray) && LeavesOk(leaves) && AtomOk(data) && k + TakenFields(fs) <= |leaves|
    ensures ItemsOk(FillFields(fs, leaves, k, tab, data))
    decreases fs
  {
    hide AtomOk;
    hide StringOk;
    hide Spaces;
    hide Break;
    if fs.Field? {
      BreakIsSpace(tab);
      SpacesNothing();
      FillFieldsOk(fs.rest, isArray, leaves, k + Taken(fs.name, fs.shape), tab, data);
      if fs.shape.Branch? {
        FillOk(fs.shape, leaves, k, tab, data);
      }
    }
  }

  lemma {:induction false} FillNoNul(s: Shape, leaves: seq<string>, k: nat, tab: nat, data: string)
    requires s.Branch? && Good(s) && LeavesOk(leaves) && AtomOk(data) && k + TakenFields(s.fields) <= |leaves|
    ensures NoNul(Print(Fill(s, leaves, k, tab, data)))
    decreases s
  {
    hide AtomOk;
    hide LeavesOk;
    hide StringOk;
    hide PrintItems;
    FillFieldsNoNul(s.fields, s.isArray, leaves, k, tab + 1, data);
  }

  lemma {:induction false} FillFieldsNoNul(fs: Fields, isArray: bool, leaves: seq<string>, k: nat, tab: nat, data: string)
    requires GoodFields(fs, isArray) && LeavesOk(leaves) && AtomOk(data) && k + TakenFields(fs) <= |leaves|
    ensures NoNul(PrintItems(FillFields(fs, leaves, k, tab, data)))
    decreases fs
  {
    hide StringOk;
    hide Print;
    hide PrintTag;
    hide PrintItems;
    hide Fill;
    hide TagOf;
    hide Break;
    hide AtomOk;
    hide LeavesOk;
    if fs.Field? {
      FillFieldsNoNul(fs.rest, isArray, leaves, k + Taken(fs.name, fs.shape), tab, data);
      if fs.shape.Branch? {
        FillNoNul(fs.shape, leaves, k, tab, data);
      } else {
        LeafNoNul(fs.name, leaves, k, data);
      }
      var v := FillValue(fs.name, fs.shape, leaves, k, tab, data);
      assert NoNul(Print(v));
      TagNoNul(fs.name, fs.shape, tab);
      ItemNoNul(FillFields(fs, leaves, k, tab, data));
    } else {
      EndNoNul();
    }
  }

  lemma EndNoNul()
    ensures NoNul(PrintItems(Nil))
  {
  }

  lemma TagNoNul(name: string, s: Shape, tab: nat)
    requires NoNul(name)
    ensures NoNul(PrintTag(TagOf(name, s, tab))) && NoNul(Break(tab))
  {
  }

  lemma LeafNoNul(name: string, leaves: seq<string>, k: nat, data: string)
    requires LeavesOk(leaves) && AtomOk(data) && k + Taken(name, Slot) <= |leaves|
    ensures NoNul(Print(Leaf(false, if name == DATA then data else LeafAt(leaves, k))))
  {
  }

  lemma ItemNoNul(items: Items)
    requires items.Item? && NoNul(items.pre) && NoNul(PrintTag(items.tag)) && NoNul(Print(items.value)) && items.post == ""
    requires NoNul(PrintItems(items.rest))
    ensures NoNul(PrintItems(items))
  {
    hide PrintTag;
    hide Print;
  }

  lemma SpacesNothing()
    ensures Spaces("")
  {
  }

  /** One row, one token. */
  lemma {:induction false} RowPerToken(s: Shape, leaves: seq<string>, k: nat, tab: nat, data: string)
    requires s.Branch? && Good(s)
    ensures TokCount(Fill(s, leaves, k, tab, data)) == |Rows(s)|
    decreases s
  {
    RowPerFieldToken(s.fields, s.isArray, leaves, k, tab + 1, data);
  }

  lemma {:induction false} RowPerFieldToken(fs: Fields, isArray: bool, leaves: seq<string>, k: nat, tab: nat, data: string)
    requires GoodFields(fs, isArray)
    ensures ItemCount(FillFields(fs, leaves, k, tab, data)) == |FieldRows(fs)|
    decreases fs
  {
    hide StringOk;
    hide NoNul;
    hide Break;
    hide Fill;
    hide Rows;
    if fs.Field? {
      RowsOfField(fs, isArray, leaves, k, tab, data);
      RowPerFieldToken(fs.rest, isArray, leaves, k + Taken(fs.name, fs.shape), tab, data);
      if fs.shape.Branch? {
        RowPerToken(fs.shape, leaves, k, tab, data);
      }
    }
  }

  lemma RowsOfField(fs: Fields, isArray: bool, leaves: seq<string>, k: nat, tab: nat, data: string)
    requires GoodFields(fs, isArray) && fs.Field?
    ensures Good(fs.shape) && GoodFields(fs.rest, isArray)
    ensures |FieldRows(fs)| == (if fs.name == "" then 0 else 1) + |Rows(fs.shape)| + |FieldRows(fs.rest)|
    ensures TagCount(TagOf(fs.name, fs.shape, tab)) == if fs.name == "" then 0 else 1
    ensures fs.shape.Slot? ==>
              |Rows(fs.shape)| == 1 && TokCount(FillValue(fs.name, fs.shape, leaves, k, tab, data)) == 1
  {
    hide StringOk;
    hide NoNul;
    hide Break;
  }

  // ---------- The slot named Data ----------

  /** No field is named Data. */
  predicate NoData(s: Shape) {
    s.Slot? || NoDataIn(s.fields)
  }

  predicate NoDataIn(fs: Fields) {
    match fs
    case End => true
    case Field(name, s, rest) => name != DATA && NoData(s) && NoDataIn(rest)
  }

  /** The last leaf, and nothing else, is named Data. */
  predicate DataLast(s: Shape) {
    s.Branch? && DataLastIn(s.fields)
  }

  predicate DataLastIn(fs: Fields) {
    match fs
    case End => false
    case Field(name, s, rest) =>
      if rest.End? then (if s.Slot? then name == DATA else name != DATA && DataLast(s))
      else name != DATA && NoData(s) && DataLastIn(rest)
  }

  /** Overwriting the last text of a document filled with one data text fills it with the other. */
  lemma {:induction false} ReplaceLast(s: Shape, leaves: seq<string>, k: nat, tab: nat, data: string, text: string)
    requires Good(s) && DataLast(s)
    ensures var v := Fill(s, leaves, k, tab, data);
            var i := TokCount(v) - 1;
            && i > 0 && IsText(v, i) && CutAt(v, i).text == data
            && Replace(v, i, text) == Fill(s, leaves, k, tab, text)
            && (AtomOk(text) ==> Fits(v, i, text))
    decreases s
  {
    hide AtomOk;
    ReplaceLastIn(s.fields, s.isArray, leaves, k, tab + 1, data, text);
  }

  lemma {:induction false} ReplaceLastIn(fs: Fields, isArray: bool, leaves: seq<string>, k: nat, tab: nat, data: string, text: string)
    requires GoodFields(fs, isArray) && DataLastIn(fs)
    ensures var items := FillFields(fs, leaves, k, tab, data);
            var i := ItemCount(items) - 1;
            && i >= 0 && IsItemText(items, i) && CutItems(items, i).text == data
            && ReplaceItems(items, i, text) == FillFields(fs, leaves, k, tab, text)
            && (AtomOk(text) ==> ItemFits(items, i, text))
    decreases fs
  {
    hide *;
    FillFieldsIs(fs, leaves, k, tab, data);
    FillFieldsIs(fs, leaves, k, tab, text);
    LastField(fs, isArray);
    var items := FillFields(fs, leaves, k, tab, data);
    if fs.rest.End? {
      if fs.shape.Branch? {
        ReplaceLast(fs.shape, leaves, k, tab, data, text);
      } else {
        ReplaceLeaf(data, text);
      }
      LastInValue(items, text);
    } else {
      ReplaceLastIn(fs.rest, isArray, leaves, k + Taken(fs.name, fs.shape), tab, data, text);
      SameWithoutData(fs.name, fs.shape, leaves, k, tab, data, text);
      LastInRest(items, text);
    }
  }

  /** The parts of the items of a list of fields. */
  lemma FillFieldsIs(fs: Fields, leaves: seq<string>, k: nat, tab: nat, data: string)
    ensures var items := FillFields(fs, leaves, k, tab, data);
            if fs.End? then items == Nil
            else (fs.rest.End? <==> items.rest == Nil) && items == Item(Break(tab), TagOf(fs.name, fs.shape, tab), FillValue(fs.name, fs.shape, leaves, k, tab, data), "",
                               FillFields(fs.rest, leaves, k + Taken(fs.name, fs.shape), tab, data))
    ensures fs.Field? ==>
              var tag, v := TagOf(fs.name, fs.shape, tab), FillValue(fs.name, fs.shape, leaves, k, tab, data);
              && (if fs.name == "" then tag.NoKey? else tag.Key? && tag.text == fs.name)
              && v == if fs.shape.Branch? then Fill(fs.shape, leaves, k, tab, data)
                      else Leaf(false, if fs.name == DATA then data else LeafAt(leaves, k))
  {
    if fs.Field? {
      var rest := FillFields(fs.rest, leaves, k + Taken(fs.name, fs.shape), tab, data);
    }
  }

  /** What being the last field, or not, says. */
  lemma LastField(fs: Fields, isArray: bool)
    requires GoodFields(fs, isArray) && DataLastIn(fs)
    ensures fs.Field? && (fs.name == "" ==> isArray)
    ensures fs.rest.End? ==>
              if fs.shape.Slot? then fs.name == DATA != "" && TakenFields(fs) == 0
              else fs.name != DATA && Good(fs.shape) && DataLast(fs.shape) && TakenFields(fs) == TakenFields(fs.shape.fields)
    ensures !fs.rest.End? ==>
              && fs.name != DATA && Good(fs.shape) && NoData(fs.shape) && GoodFields(fs.rest, isArray) && DataLastIn(fs.rest)
              && TakenFields(fs) == Taken(fs.name, fs.shape) + TakenFields(fs.rest)
  {
    hide StringOk;
    hide NoNul;
  }

  lemma ReplaceLeaf(data: string, text: string)
    ensures var v := Leaf(false, data);
            TokCount(v) == 1 && IsText(v, 0) && CutAt(v, 0).text == data && Replace(v, 0, text) == Leaf(false, text)
    ensures AtomOk(text) ==> Fits(Leaf(false, data), 0, text)
  {
  }

  /** The last token of a list is that of its last value. */
  lemma LastInValue(items: Items, text: string)
    requires items.Item? && items.rest.Nil? && TokCount(items.value) > 0 && IsText(items.value, TokCount(items.value) - 1)
    ensures var (i, j) := (TokCount(items.value) - 1, ItemCount(items) - 1);
            && j >= 0 && IsItemText(items, j) && CutItems(items, j).text == CutAt(items.value, i).text
            && ReplaceItems(items, j, text) == items.(value := Replace(items.value, i, text))
            && (Fits(items.value, i, text) ==> ItemFits(items, j, text))
  {
    hide CutAt;
    hide Replace;
    hide IsText;
    hide Fits;
    hide Print;
    hide PrintItem;
    hide PrintTag;
    hide TokCount;
    assert ItemCount(items.rest) == 0;
  }

  lemma LastInRest(items: Items, text: string)
    requires items.Item? && ItemCount(items.rest) > 0 && IsItemText(items.rest, ItemCount(items.rest) - 1)
    ensures var (i, j) := (ItemCount(items.rest) - 1, ItemCount(items) - 1);
            && j >= 0 && IsItemText(items, j) && CutItems(items, j).text == CutItems(items.rest, i).text
            && ReplaceItems(items, j, text) == items.(rest := ReplaceItems(items.rest, i, text))
            && (ItemFits(items.rest, i, text) ==> ItemFits(items, j, text))
  {
    hide CutAt;
    hide Replace;
    hide IsText;
    hide Fits;
    hide Print;
    hide PrintItem;
    hide PrintItems;
    hide PrintTag;
    hide TokCount;
  }

  /** Without the slot the data text does not matter. */
  lemma {:induction false} SameWithoutData(name: string, s: Shape, leaves: seq<string>, k: nat, tab: nat, data: string, text: string)
    requires name != DATA && NoData(s)
    ensures FillValue(name, s, leaves, k, tab, data) == FillValue(name, s, leaves, k, tab, text)
    decreases s, 1
  {
    if s.Branch? {
      SameFieldsWithoutData(s.fields, leaves, k, tab + 1, data, text);
    }
  }

  lemma {:induction false} SameFieldsWithoutData(fs: Fields, leaves: seq<string>, k: nat, tab: nat, data: string, text: string)
    requires NoDataIn(fs)
    ensures FillFields(fs, leaves, k, tab, data) == FillFields(fs, leaves, k, tab, text)
    decreases fs
  {
    if fs.Field? {
      SameWithoutData(fs.name, fs.shape, leaves, k, tab, data, text);
      SameFieldsWithoutData(fs.rest, leaves, k + Taken(fs.name, fs.shape), tab, data, text);
    }
  }

  // ---------- The leaves of a document ----------

  /** The texts of the leaves in preorder. */
  function LeafTexts(v: Value): (r: seq<string>) {
    match v
    case Leaf(_, text) => [text]
    case Node(_, items, _) => ItemLeafTexts(items)
  }

  function ItemLeafTexts(items: Items): (r: seq<string>) {
    match items
    case Nil => []
    case Item(_, _, value, _, rest) => LeafTexts(value) + ItemLeafTexts(rest)
  }

  lemma {:induction false} LeavesWithoutData(name: string, s: Shape, leaves: seq<string>, k: nat, tab: nat, data: string)
    requires name != DATA && NoData(s) && k + Taken(name, s) <= |leaves|
    ensures LeafTexts(FillValue(name, s, leaves, k, tab, data)) == leaves[k..k + Taken(name, s)]
    decreases s, 1
  {
    if s.Branch? {
      FieldLeavesWithoutData(s.fields, leaves, k, tab + 1, data);
    }
  }

  lemma {:induction false} FieldLeavesWithoutData(fs: Fields, leaves: seq<string>, k: nat, tab: nat, data: string)
    requires NoDataIn(fs) && k + TakenFields(fs) <= |leaves|
    ensures ItemLeafTexts(FillFields(fs, leaves, k, tab, data)) == leaves[k..k + TakenFields(fs)]
    decreases fs
  {
    if fs.Field? {
      hide Break;
      var n := Taken(fs.name, fs.shape);
      LeavesWithoutData(fs.name, fs.shape, leaves, k, tab, data);
      FieldLeavesWithoutData(fs.rest, leaves, k + n, tab, data);
    }
  }

  /** A filled document has its leaves in order, and the data text last. */
  lemma {:induction false} LeavesOfFill(s: Shape, leaves: seq<string>, k: nat, tab: nat, data: string)
    requires DataLast(s) && k + TakenFields(s.fields) <= |leaves|
    ensures LeafTexts(Fill(s, leaves, k, tab, data)) == leaves[k..k + TakenFields(s.fields)] + [data]
    decreases s
  {
    LeavesOfFields(s.fields, leaves, k, tab + 1, data);
  }

  lemma {:induction false} LeavesOfFields(fs: Fields, leaves: seq<string>, k: nat, tab: nat, data: string)
    requires DataLastIn(fs) && k + TakenFields(fs) <= |leaves|
    ensures ItemLeafTexts(FillFields(fs, leaves, k, tab, data)) == leaves[k..k + TakenFields(fs)] + [data]
    decreases fs
  {
    hide Break;
    var n := Taken(fs.name, fs.shape);
    if fs.rest.End? {
      if fs.shape.Branch? {
        LeavesOfFill(fs.shape, leaves, k, tab, data);
      }
      assert ItemLeafTexts(FillFields(fs.rest, leaves, k + n, tab, data)) == [];
    } else {
      LeavesWithoutData(fs.name, fs.shape, leaves, k, tab, data);
      LeavesOfFields(fs.rest, leaves, k + n, tab, data);
    }
  }

  // ---------- Looking the slot up ----------

  /** A value without the slot mentions Data exactly when one of its leaves reads so. */
  lemma {:induction false} DataMentioned(name: string, s: Shape, leaves: seq<string>, k: nat, tab: nat, data: string)
    requires name != DATA && NoData(s) && k + Taken(name, s) <= |leaves|
    ensures Mentions(FillValue(name, s, leaves, k, tab, data), DATA) <==> DATA in leaves[k..k + Taken(name, s)]
    decreases s, 1
  {
    if s.Branch? {
      DataMentionedIn(s.fields, leaves, k, tab + 1, data);
    }
  }

  lemma {:induction false} DataMentionedIn(fs: Fields, leaves: seq<string>, k: nat, tab: nat, data: string)
    requires NoDataIn(fs) && k + TakenFields(fs) <= |leaves|
    ensures ItemsMention(FillFields(fs, leaves, k, tab, data), DATA) <==> DATA in leaves[k..k + TakenFields(fs)]
    decreases fs
  {
    hide Break;
    hide NoData;
    hide FillValue;
    hide Mentions;
    hide Taken;
    if fs.Field? {
      var n, m := Taken(fs.name, fs.shape), TakenFields(fs);
      DataMentioned(fs.name, fs.shape, leaves, k, tab, data);
      DataMentionedIn(fs.rest, leaves, k + n, tab, data);
      assert leaves[k..k + m] == leaves[k..k + n] + leaves[k + n..k + m];
    }
  }

  /** With no leaf in front that reads Data, the key of the slot is the first text that does: the
      token before the last. */
  lemma {:induction false} SlotIsFirst(s: Shape, leaves: seq<string>, k: nat, tab: nat, data: string)
    requires Good(s) && DataLast(s) && k + TakenFields(s.fields) <= |leaves| && DATA !in leaves[k..k + TakenFields(s.fields)]
    ensures var v := Fill(s, leaves, k, tab, data); Mentions(v, DATA) && FirstRead(v, DATA) == TokCount(v) - 2
    decreases s
  {
    SlotIsFirstIn(s.fields, s.isArray, leaves, k, tab + 1, data);
  }

  lemma {:induction false} SlotIsFirstIn(fs: Fields, isArray: bool, leaves: seq<string>, k: nat, tab: nat, data: string)
    requires GoodFields(fs, isArray) && DataLastIn(fs) && k + TakenFields(fs) <= |leaves|
    requires DATA !in leaves[k..k + TakenFields(fs)]
    ensures var items := FillFields(fs, leaves, k, tab, data);
            ItemsMention(items, DATA) && FirstItemRead(items, DATA) == ItemCount(items) - 2
    decreases fs
  {
    hide *;
    FillFieldsIs(fs, leaves, k, tab, data);
    LastField(fs, isArray);
    var items := FillFields(fs, leaves, k, tab, data);
    var n, m := Taken(fs.name, fs.shape), TakenFields(fs);
    if fs.rest.End? {
      EndOfItems(items);
      if fs.shape.Branch? {
        SlotIsFirst(fs.shape, leaves, k, tab, data);
        FirstInItem(items, DATA);
      }
    } else {
      assert leaves[k..k + m] == leaves[k..k + n] + leaves[k + n..k + m];
      DataMentioned(fs.name, fs.shape, leaves, k, tab, data);
      SlotIsFirstIn(fs.rest, isArray, leaves, k + n, tab, data);
      FirstInItem(items, DATA);
    }
  }

  lemma EndOfItems(items: Items)
    requires items.Item? && items.rest.Nil?
    ensures ItemCount(items) == TagCount(items.tag) + TokCount(items.value)
    ensures items.tag.Key? && items.tag.text == DATA && items.value.Leaf? ==>
              ItemsMention(items, DATA) && FirstItemRead(items, DATA) == 0 && ItemCount(items) == 2
  {
    assert ItemCount(items.rest) == 0;
  }

  /** Where the first text that reads the key is, if that is not the item's own key. */
  lemma FirstInItem(items: Items, key: string)
    requires items.Item? && (items.tag.Key? ==> items.tag.text != key)
    ensures ItemsMention(items, key) == (Mentions(items.value, key) || ItemsMention(items.rest, key))
    ensures Mentions(items.value, key) ==> FirstItemRead(items, key) == TagCount(items.tag) + FirstRead(items.value, key)
    ensures !Mentions(items.value, key) && ItemsMention(items.rest, key) ==>
              FirstItemRead(items, key) == TagCount(items.tag) + TokCount(items.value) + FirstItemRead(items.rest, key)
    ensures ItemCount(items) == TagCount(items.tag) + TokCount(items.value) + ItemCount(items.rest)
  {
    hide Mentions;
    hide FirstRead;
    hide TokCount;
  }

  /** Looking Data up in a built document leads behind the first text that reads so. */
  lemma DataLookup(s: Shape, leaves: seq<string>, data: string, j: nat)
    requires s.Branch? && !s.isArray
    requires var v := Fill(s, leaves, 0, 0, data); Mentions(v, DATA) && j == FirstRead(v, DATA) + 1 < TokCount(v)
    ensures var v := Fill(s, leaves, 0, 0, data);
            var doc := Printed("", v, "");
            && Inside(doc) && |doc.tokens| == TokCount(v)
            && Resolve([DATA], Span(doc.tokens[0]), doc) == Place(Span(doc.tokens[j]))
  {
    hide Print;
    hide Toks;
    hide Search;
    hide Fill;
    hide Mentions;
    hide FirstRead;
    var v := Fill(s, leaves, 0, 0, data);
    PrintedInside("", v, "");
    ToksLength(v, 0);
    RootSub("", v, "");
    FillIsNode(s, leaves, data);
    SearchIsFirstRead(Printed("", v, ""), 0, v, 0, DATA);
    assert [DATA][1..] == [];
  }

  lemma FillIsNode(s: Shape, leaves: seq<string>, data: string)
    requires s.Branch?
    ensures Fill(s, leaves, 0, 0, data).Node? && Fill(s, leaves, 0, 0, data).isArray == s.isArray
  {
  }

  // ---------- A leaf that reads Data ----------

  predicate ObjectsOnly(s: Shape) {
    s.Slot? || (!s.isArray && ObjectsOnlyIn(s.fields))
  }

  predicate ObjectsOnlyIn(fs: Fields) {
    fs.End? || (ObjectsOnly(fs.shape) && ObjectsOnlyIn(fs.rest))
  }

  /** Is the k-th token of `v`, in preorder, a non-empty key? */
  predicate IsKey(v: Value, k: nat) {
    v.Node? && k > 0 && IsItemKey(v.items, k - 1)
  }

  predicate IsItemKey(items: Items, k: nat) {
    match items
    case Nil => false
    case Item(_, tag, value, _, rest) =>
      var t := TagCount(tag);
      if k < t then tag.text != ""
      else if k < t + TokCount(value) then IsKey(value, k - t)
      else IsItemKey(rest, k - t - TokCount(value))
  }

  /** Overwriting a key keeps all leaves. */
  lemma {:induction false} KeyReplaced(v: Value, k: nat, text: string)
    requires IsKey(v, k)
    ensures IsText(v, k) && CutAt(v, k).text != "" && LeafTexts(Replace(v, k, text)) == LeafTexts(v)
    ensures Replace(v, k, text).Node? && k < TokCount(v)
  {
    ItemKeyReplaced(v.items, k - 1, text);
  }

  lemma {:induction false} ItemKeyReplaced(items: Items, k: nat, text: string)
    requires IsItemKey(items, k)
    ensures IsItemText(items, k) && CutItems(items, k).text != "" && k < ItemCount(items)
    ensures ItemLeafTexts(ReplaceItems(items, k, text)) == ItemLeafTexts(items)
  {
    hide Print;
    hide PrintItem;
    hide PrintItems;
    hide PrintTag;
    var t := TagCount(items.tag);
    if t <= k {
      if k < t + TokCount(items.value) {
        KeyReplaced(items.value, k - t, text);
      } else {
        ItemKeyReplaced(items.rest, k - t - TokCount(items.value), text);
      }
    }
  }

  /** The token behind the first text that reads Data: a key, unless that text is the last token. */
  lemma {:induction false} KeyIsNext(name: string, s: Shape, leaves: seq<string>, k: nat, tab: nat, data: string)
    requires name != DATA && NoData(s) && Good(s) && ObjectsOnly(s)
    requires Mentions(FillValue(name, s, leaves, k, tab, data), DATA)
    ensures var v := FillValue(name, s, leaves, k, tab, data);
            var j := FirstRead(v, DATA) + 1;
            j == TokCount(v) || IsKey(v, j)
    decreases s, 1
  {
    if s.Branch? {
      KeyIsNextIn(s.fields, leaves, k, tab + 1, data);
    }
  }

  lemma {:induction false} KeyIsNextIn(fs: Fields, leaves: seq<string>, k: nat, tab: nat, data: string)
    requires NoDataIn(fs) && GoodFields(fs, false) && ObjectsOnlyIn(fs)
    requires ItemsMention(FillFields(fs, leaves, k, tab, data), DATA)
    ensures var items := FillFields(fs, leaves, k, tab, data);
            var j := FirstItemRead(items, DATA) + 1;
            j == ItemCount(items) || IsItemKey(items, j)
    decreases fs
  {
    hide Break;
    hide StringOk;
    var items := FillFields(fs, leaves, k, tab, data);
    if Mentions(items.value, DATA) {
      KeyIsNext(fs.name, fs.shape, leaves, k, tab, data);
      FirstIsKey(fs.rest, leaves, k + Taken(fs.name, fs.shape), tab, data);
    } else {
      KeyIsNextIn(fs.rest, leaves, k + Taken(fs.name, fs.shape), tab, data);
    }
  }

  lemma FirstIsKey(fs: Fields, leaves: seq<string>, k: nat, tab: nat, data: string)
    requires GoodFields(fs, false)
    ensures var items := FillFields(fs, leaves, k, tab, data);
            if fs.End? then ItemCount(items) == 0 else IsItemKey(items, 0)
  {
    hide Break;
    hide StringOk;
    hide Good;
  }

  /** A leaf that reads Data comes before the slot, and a key behind it. */
  lemma {:induction false} LeafIsFirst(s: Shape, leaves: seq<string>, k: nat, tab: nat, data: string)
    requires Good(s) && DataLast(s) && ObjectsOnly(s)
    requires k + TakenFields(s.fields) <= |leaves| && DATA in leaves[k..k + TakenFields(s.fields)]
    ensures var v := Fill(s, leaves, k, tab, data); Mentions(v, DATA) && IsKey(v, FirstRead(v, DATA) + 1)
    decreases s
  {
    LeafIsFirstIn(s.fields, leaves, k, tab + 1, data);
  }

  lemma {:induction false} LeafIsFirstIn(fs: Fields, leaves: seq<string>, k: nat, tab: nat, data: string)
    requires GoodFields(fs, false) && DataLastIn(fs) && ObjectsOnlyIn(fs)
    requires k + TakenFields(fs) <= |leaves| && DATA in leaves[k..k + TakenFields(fs)]
    ensures var items := FillFields(fs, leaves, k, tab, data);
            ItemsMention(items, DATA) && IsItemKey(items, FirstItemRead(items, DATA) + 1)
    decreases fs
  {
    hide *;
    FillFieldsIs(fs, leaves, k, tab, data);
    LastField(fs, false);
    ObjectsOnlyParts(fs);
    var items := FillFields(fs, leaves, k, tab, data);
    var n, m := Taken(fs.name, fs.shape), TakenFields(fs);
    if fs.rest.End? {
      LeafIsFirst(fs.shape, leaves, k, tab, data);
      KeyInValue(items);
    } else {
      assert leaves[k..k + m] == leaves[k..k + n] + leaves[k + n..k + m];
      DataMentioned(fs.name, fs.shape, leaves, k, tab, data);
      if Mentions(items.value, DATA) {
        KeyIsNext(fs.name, fs.shape, leaves, k, tab, data);
        FirstIsKey(fs.rest, leaves, k + n, tab, data);
        KeyInValue(items);
      } else {
        LeafIsFirstIn(fs.rest, leaves, k + n, tab, data);
        KeyInRest(items);
      }
    }
  }

  lemma ObjectsOnlyParts(fs: Fields)
    requires ObjectsOnlyIn(fs) && fs.Field?
    ensures ObjectsOnly(fs.shape) && ObjectsOnlyIn(fs.rest)
  {
  }

  lemma KeyInValue(items: Items)
    requires items.Item? && (items.tag.Key? ==> items.tag.text != DATA) && Mentions(items.value, DATA)
    requires var j := FirstRead(items.value, DATA) + 1;
             IsKey(items.value, j) || (j == TokCount(items.value) && IsItemKey(items.rest, 0))
    ensures ItemsMention(items, DATA) && IsItemKey(items, FirstItemRead(items, DATA) + 1)
  {
    var j := FirstRead(items.value, DATA) + 1;
    if IsKey(items.value, j) {
      KeyReplaced(items.value, j, "");
    }
  }

  lemma KeyInRest(items: Items)
    requires items.Item? && (items.tag.Key? ==> items.tag.text != DATA) && !Mentions(items.value, DATA)
    requires ItemsMention(items.rest, DATA) && IsItemKey(items.rest, FirstItemRead(items.rest, DATA) + 1)
    ensures ItemsMention(items, DATA) && IsItemKey(items, FirstItemRead(items, DATA) + 1)
  {
  }

  /** Data is always mentioned: the slot has that name. */
  lemma {:induction false} DataIsMentioned(s: Shape, leaves: seq<string>, k: nat, tab: nat, data: string)
    requires DataLast(s)
    ensures Mentions(Fill(s, leaves, k, tab, data), DATA)
    decreases s
  {
    DataIsMentionedIn(s.fields, leaves, k, tab + 1, data);
  }

  lemma {:induction false} DataIsMentionedIn(fs: Fields, leaves: seq<string>, k: nat, tab: nat, data: string)
    requires DataLastIn(fs)
    ensures ItemsMention(FillFields(fs, leaves, k, tab, data), DATA)
    decreases fs
  {
    hide Break;
    if !fs.rest.End? {
      DataIsMentionedIn(fs.rest, leaves, k + Taken(fs.name, fs.shape), tab, data);
    } else if fs.shape.Branch? {
      DataIsMentioned(fs.shape, leaves, k, tab, data);
    }
  }
}
