/**
 The coder: building a document from the template table and a stream of leaf texts, and encoding a
 document back to the stream.
 */
module Coder {
  import opened Jsmn
  import opened JsonTree
  import opened JsonEdit
  import opened JsonLookup
  import opened JsonFile
  import opened CoderTemplate

  // ---------- Streams ----------

  /** Leaf texts, each ended by a NUL. */
  function Stream(leaves: seq<string>): (r: string) {
    if leaves == [] then "" else leaves[0] + "\0" + Stream(leaves[1..])
  }

  lemma {:induction false} StreamConcat(a: seq<string>, b: seq<string>)
    ensures Stream(a + b) == Stream(a) + Stream(b)
  {
    if a == [] {
      assert a + b == b;
    } else {
      assert (a + b)[1..] == a[1..] + b;
      StreamConcat(a[1..], b);
    }
  }

  /** Two leaves, character by character. */
  lemma TwoLeaves(a: string, b: string)
    ensures Stream([a, b]) == a + "\0" + b + "\0"
  {
    assert [a, b][1..] == [b] && [b][1..] == [];
    assert Stream([b]) == b + "\0";
  }

  lemma StreamSplit(leaves: seq<string>, k: nat, m: nat)
    requires k <= m <= |leaves|
    ensures Stream(leaves[k..]) == Stream(leaves[k..m]) + Stream(leaves[m..])
  {
    assert leaves[k..] == leaves[k..m] + leaves[m..];
    StreamConcat(leaves[k..m], leaves[m..]);
  }

  // ---------- Encoding ----------

  /** What the encoding loop writes from token `i` on: every text token without children. */
  function EncodedFrom(doc: Doc, i: nat): (r: string)
    requires Inside(doc) && i <= |doc.tokens|
    decreases |doc.tokens| - i
  {
    if i == |doc.tokens| then ""
    else
      var t := doc.tokens[i];
      (if t.size == 0 && !t.IsContainer() then TextOf(doc.text, t) + "\0" else "") + EncodedFrom(doc, i + 1)
  }

  lemma {:induction false} EncodeSub(doc: Doc, k: nat, v: Value, q: nat)
    requires Inside(doc) && Sub(doc, k, v, q) && k + TokCount(v) <= |doc.tokens|
    ensures EncodedFrom(doc, k) == Stream(LeafTexts(v)) + EncodedFrom(doc, k + TokCount(v))
    decreases v
  {
    hide Print;
    hide PrintItems;
    hide ItemToks;
    match v
    case Leaf(_, text) =>
      LeafToken(doc, k, v, q);
      assert Stream([text]) == text + "\0" by { assert [text][1..] == []; }
      assert doc.tokens[k..k + 1] == Toks(v, q);
      assert doc.tokens[k] == Toks(v, q)[0];
    case Node(_, items, _) =>
      NodeItems(doc, k, v, q);
      EncodeItems(doc, k + 1, items, q + 1);
  }

  lemma {:induction false} EncodeItems(doc: Doc, k: nat, items: Items, p: nat)
    requires Inside(doc) && ItemsSub(doc, k, items, p) && k + ItemCount(items) <= |doc.tokens|
    ensures EncodedFrom(doc, k) == Stream(ItemLeafTexts(items)) + EncodedFrom(doc, k + ItemCount(items))
    decreases items
  {
    hide Print;
    hide PrintItem;
    hide PrintItems;
    hide PrintTag;
    hide Toks;
    hide ItemToks;
    hide Sub;
    hide ItemsSub;
    hide EncodedFrom;
    hide Stream;
    hide LeafTexts;
    if items.Nil? {
      EmptyStream();
    } else {
      var t, n := TagCount(items.tag), TokCount(items.value);
      KeyIsPassed(doc, k, items, p);
      ItemValue(doc, k, items, p);
      EncodeSub(doc, k + t, items.value, p + |items.pre| + |PrintTag(items.tag)|);
      StreamConcat(LeafTexts(items.value), ItemLeafTexts(items.rest));
      if items.rest.Item? {
        ItemsRest(doc, k, items, p);
        EncodeItems(doc, k + t + n, items.rest, p + |PrintItem(items)| + 1);
      } else {
        EmptyStream();
      }
    }
  }

  lemma EmptyStream()
    ensures Stream([]) == ""
  {
  }

  lemma KeyIsPassed(doc: Doc, k: nat, items: Items, p: nat)
    requires Inside(doc) && items.Item? && ItemsSub(doc, k, items, p)
    ensures k + TagCount(items.tag) <= |doc.tokens|
    ensures EncodedFrom(doc, k) == EncodedFrom(doc, k + TagCount(items.tag))
  {
    hide Print;
    hide PrintItems;
    hide Toks;
    hide ItemToks;
    if items.tag.Key? {
      ItemTag(doc, k, items, p);
    }
  }

  /** Encoding a document gives the stream of its leaves. */
  lemma EncodeIsLeaves(v: Value)
    ensures var doc := Printed("", v, ""); Inside(doc) && EncodedFrom(doc, 0) == Stream(LeafTexts(v))
  {
    hide Print;
    hide Toks;
    hide Sub;
    var doc := Printed("", v, "");
    PrintedInside("", v, "");
    RootSub("", v, "");
    ToksLength(v, 0);
    EncodeSub(doc, 0, v, 0);
    assert Stream(LeafTexts(v)) + "" == Stream(LeafTexts(v));
  }

  // ---------- Round trip ----------

  /** The document built around the leaves of a stream, with 0 for the data. */
  function Built(s: Shape, leaves: seq<string>): (v: Value)
    requires s.Branch?
    ensures v.Node?
  {
    Fill(s, leaves, 0, 0, "0")
  }

  /** Index of the token behind the first text that reads Data. */
  function DataToken(s: Shape, leaves: seq<string>): (j: nat)
    requires DataLast(s)
    ensures Mentions(Built(s, leaves), DATA) && 0 < j <= TokCount(Built(s, leaves))
  {
    DataIsMentioned(s, leaves, 0, 0, "0");
    FirstRead(Built(s, leaves), DATA) + 1
  }

  /** What decoding leaves: that text overwritten by the data. */
  function Decoded(s: Shape, leaves: seq<string>, data: string): (v: Value)
    requires DataLast(s)
  {
    Replace(Built(s, leaves), DataToken(s, leaves), data)
  }

  /** A built document tokenizes, with one token per row. */
  lemma BuiltTokenizes(s: Shape, leaves: seq<string>)
    requires s.Branch? && Good(s) && |Rows(s)| <= MAX_TOKENS
    requires LeavesOk(leaves) && TakenFields(s.fields) <= |leaves|
    ensures var built := Built(s, leaves);
            var doc := Printed("", built, "");
            var n := |doc.tokens|;
            && doc.text == Print(built) && n == TokCount(built)
            && Run(doc.text, MAX_TOKENS, START) == (Count(n), State(|doc.text|, doc.tokens, -1, n))
  {
    hide Print;
    hide Toks;
    hide Run;
    hide Fill;
    hide AtomOk;
    hide LeavesOk;
    var built := Built(s, leaves);
    ZeroOk();
    FillOk(s, leaves, 0, 0, "0");
    RowPerToken(s, leaves, 0, 0, "0");
    ToksLength(built, 0);
    ParsingUndoesPrinting("", built, "", MAX_TOKENS);
    assert "" + Print(built) + "" == Print(built);
  }

  /** Looking Data up leads to a text that can be overwritten, and which one. */
  lemma DataPlace(s: Shape, leaves: seq<string>, data: string)
    requires Good(s) && DataLast(s) && LeavesOk(leaves) && |leaves| == TakenFields(s.fields)
    requires ObjectsOnly(s) || DATA !in leaves
    ensures var v, j := Built(s, leaves), DataToken(s, leaves);
            && j < TokCount(v) && IsText(v, j) && CutAt(v, j).text != ""
            && (DATA !in leaves ==> Decoded(s, leaves, data) == Fill(s, leaves, 0, 0, data))
            && LeafTexts(Decoded(s, leaves, data)) == leaves + [if DATA in leaves then "0" else data]
  {
    hide Print;
    hide Fill;
    hide LeavesOk;
    hide LeafTexts;
    hide Replace;
    hide CutAt;
    hide IsText;
    hide IsKey;
    assert leaves[0..0 + |leaves|] == leaves;
    if DATA in leaves {
      LeafIsFirst(s, leaves, 0, 0, "0");
      KeyReplaced(Built(s, leaves), DataToken(s, leaves), data);
      LeavesOfFill(s, leaves, 0, 0, "0");
    } else {
      SlotIsFirst(s, leaves, 0, 0, "0");
      ReplaceLast(s, leaves, 0, 0, "0", data);
      LeavesOfFill(s, leaves, 0, 0, data);
    }
  }

  /** Decoding a stream builds the document around its leaves with 0 for the data, and overwrites the
      text the lookup of Data leads to by the last leaf. Encoding the result gives the leaves and the
      data, but 0 for the data if a leaf in front reads Data. */
  lemma DecodeThenEncode(s: Shape, leaves: seq<string>, data: string)
    requires Good(s) && DataLast(s) && !s.isArray && |Rows(s)| <= MAX_TOKENS
    requires LeavesOk(leaves) && |leaves| == TakenFields(s.fields)
    requires ObjectsOnly(s) || DATA !in leaves
    ensures var doc := Printed("", Built(s, leaves), "");
            var j, n := DataToken(s, leaves), |doc.tokens|;
            && j < n && Run(doc.text, MAX_TOKENS, START) == (Count(n), State(|doc.text|, doc.tokens, -1, n))
            && Inside(doc) && Resolve([DATA], Span(doc.tokens[0]), doc) == Place(Span(doc.tokens[j]))
            && var changed := SetToken(doc, j, data);
               && changed == Printed("", Decoded(s, leaves, data), "") && Inside(changed)
               && EncodedFrom(changed, 0) == Stream(leaves + [if DATA in leaves then "0" else data])
  {
    hide Print;
    hide Toks;
    hide Run;
    hide Resolve;
    hide LeavesOk;
    hide Built;
    hide CutAt;
    hide IsText;
    hide EncodedFrom;
    hide Stream;
    hide Decoded;
    hide DataToken;
    BuiltTokenizes(s, leaves);
    DataPlace(s, leaves, data);
    DataResolves(s, leaves);
    SetTokenOfBuilt(s, leaves, data);
    EncodeIsLeaves(Decoded(s, leaves, data));
  }

  lemma DataResolves(s: Shape, leaves: seq<string>)
    requires DataLast(s) && !s.isArray && DataToken(s, leaves) < TokCount(Built(s, leaves))
    ensures var doc := Printed("", Built(s, leaves), "");
            var j := DataToken(s, leaves);
            && Inside(doc) && j < |doc.tokens|
            && Resolve([DATA], Span(doc.tokens[0]), doc) == Place(Span(doc.tokens[j]))
  {
    hide Print;
    hide Toks;
    hide Resolve;
    hide Fill;
    DataLookup(s, leaves, "0", DataToken(s, leaves));
  }

  lemma SetTokenOfBuilt(s: Shape, leaves: seq<string>, data: string)
    requires DataLast(s)
    requires var v, j := Built(s, leaves), DataToken(s, leaves); j < TokCount(v) && IsText(v, j) && CutAt(v, j).text != ""
    ensures var doc := Printed("", Built(s, leaves), "");
            var j := DataToken(s, leaves);
            && j < |doc.tokens| && Inside(doc) && SetToken(doc, j, data) == Printed("", Decoded(s, leaves, data), "")
  {
    hide Print;
    hide Toks;
    hide Fill;
    hide CutAt;
    hide IsText;
    hide Replace;
    var built := Built(s, leaves);
    ToksLength(built, 0);
    PrintedInside("", built, "");
    SetTokenIsReplace("", built, "", DataToken(s, leaves), data);
  }

  /** So the round trip is exact: encoding gives the stream back if and only if no leaf in front of
      the data reads Data, or the data read 0. */
  lemma RoundTripExact(s: Shape, leaves: seq<string>, data: string)
    requires Good(s) && DataLast(s) && ObjectsOnly(s) && |Rows(s)| <= MAX_TOKENS
    requires LeavesOk(leaves) && |leaves| == TakenFields(s.fields)
    ensures var doc := Printed("", Built(s, leaves), "");
            var j := DataToken(s, leaves);
            && j < |doc.tokens| && Inside(doc) && Inside(SetToken(doc, j, data))
            && (EncodedFrom(SetToken(doc, j, data), 0) == Stream(leaves + [data]) <==> DATA !in leaves || data == "0")
  {
    hide Print;
    hide Toks;
    hide Run;
    hide Resolve;
    hide LeavesOk;
    hide Built;
    hide EncodedFrom;
    hide Stream;
    hide Decoded;
    hide DataToken;
    DecodeThenEncode(s, leaves, data);
    LastLeafTells(leaves, "0", data);
  }

  /** Streams that differ in the last leaf differ. */
  lemma LastLeafTells(leaves: seq<string>, a: string, b: string)
    ensures Stream(leaves + [a]) == Stream(leaves + [b]) <==> a == b
  {
    StreamConcat(leaves, [a]);
    StreamConcat(leaves, [b]);
    assert [a][1..] == [] && [b][1..] == [];
    var u, v := Stream(leaves + [a]), Stream(leaves + [b]);
    if u == v {
      assert u[|Stream(leaves)|..|u| - 1] == a && v[|Stream(leaves)|..|v| - 1] == b;
    }
  }

  lemma ZeroOk()
    ensures AtomOk("0")
  {
  }
}
