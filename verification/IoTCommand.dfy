/**
 Commands of the IoT protocol: a fixed JSON template whose three leaves are overwritten in place
 to encode, and looked up to decode.
 */
module IoTCommand {
  import opened Jsmn
  import opened JsonTree
  import opened JsonEdit
  import opened JsonLookup
  import opened JsonPath
  import opened JsonFile
  import JsmnStack

  datatype Type = NoType | ReadRequest | ReadResponse | Write | Management

  const COMMAND_CHAR_SIZE := 10
  const MAX_VALUE_SIZE := 100
  const EMPTY := "{\"IOTCMD\":{\"Type\":None,\"ID\":0,\"Value\":0}}"

  function TypeText(t: Type): (r: string) {
    match t
    case ReadRequest => "Req"
    case ReadResponse => "Res"
    case Write => "Wri"
    case Management => "Man"
    case NoType => "None"
  }

  function Body(t: string, id: string, key: string, value: string): (r: Items) {
    Item("", Key("Type", "", ""), Leaf(false, t), "",
         Item("", Key("ID", "", ""), Leaf(false, id), "",
              Item("", Key(key, "", ""), Leaf(false, value), "", Nil)))
  }

  function Inner(t: string, id: string, key: string, value: string): (r: Value) {
    Node(false, Body(t, id, key, value), "")
  }

  /** The document of a command; `key` is the name of its last field. */
  function Tree(t: string, id: string, key: string, value: string): (r: Value) {
    Node(false, Item("", Key("IOTCMD", "", ""), Inner(t, id, key, value), "", Nil), "")
  }

  const TYPE_PATH := ["IOTCMD", "Type"]
  const ID_PATH := ["IOTCMD", "ID"]
  const VALUE_PATH := ["IOTCMD", "Value"]

  /** One key with an atom. */
  lemma FieldText(key: string, value: string, rest: Items)
    ensures var items := Item("", Key(key, "", ""), Leaf(false, value), "", rest);
            PrintItems(items) == "\"" + key + "\":" + value + (if rest.Nil? then "" else "," + PrintItems(rest))
  {
    hide PrintItems;
    var items := Item("", Key(key, "", ""), Leaf(false, value), "", rest);
    assert PrintTag(items.tag) == "\"" + key + "\":";
    assert PrintItem(items) == "\"" + key + "\":" + value;
    ItemThenRest(items);
  }

  const TYPE_TEXT := "\"Type\":None"
  const ID_TEXT := "\"ID\":0"
  const VALUE_TEXT := "\"Value\":0"

  lemma BodyText()
    ensures PrintItems(Body("None", "0", "Value", "0")) == TYPE_TEXT + ("," + (ID_TEXT + ("," + VALUE_TEXT)))
  {
    hide PrintItems;
    var items := Body("None", "0", "Value", "0");
    FieldText("Type", "None", items.rest);
    FieldText("ID", "0", items.rest.rest);
    FieldText("Value", "0", Nil);
    FieldTexts();
  }

  lemma FieldTexts()
    ensures "\"" + "Type" + "\":" + "None" == TYPE_TEXT
    ensures "\"" + "ID" + "\":" + "0" == ID_TEXT
    ensures "\"" + "Value" + "\":" + "0" + "" == VALUE_TEXT
  {
  }

  /** The template is the command document with blank fields. */
  lemma TemplateText()
    ensures Print(Tree("None", "0", "Value", "0")) == EMPTY
  {
    hide *;
    var body := Body("None", "0", "Value", "0");
    var inner := Inner("None", "0", "Value", "0");
    BodyText();
    BlankTree();
    PrintNode(body);
    RootText(inner);
    PrintNode(Item("", Key("IOTCMD", "", ""), inner, "", Nil));
    BodyParts();
    EmptyParts();
  }

  lemma BlankTree()
    ensures var inner := Inner("None", "0", "Value", "0");
            && inner == Node(false, Body("None", "0", "Value", "0"), "")
            && Tree("None", "0", "Value", "0") == Node(false, Item("", Key("IOTCMD", "", ""), inner, "", Nil), "")
  {
  }

  const BODY_TEXT := "\"Type\":None,\"ID\":0,\"Value\":0"

  lemma BodyParts()
    ensures BODY_TEXT == TYPE_TEXT + ("," + (ID_TEXT + ("," + VALUE_TEXT)))
  {
  }

  lemma EmptyParts()
    ensures EMPTY == "{" + ("\"IOTCMD\":" + ("{" + BODY_TEXT + "}")) + "}"
  {
  }

  lemma RootText(inner: Value)
    ensures PrintItems(Item("", Key("IOTCMD", "", ""), inner, "", Nil)) == "\"IOTCMD\":" + Print(inner)
  {
    hide Print;
    hide PrintItems;
    ItemThenRest(Item("", Key("IOTCMD", "", ""), inner, "", Nil));
  }

  lemma PrintNode(items: Items)
    ensures Print(Node(false, items, "")) == "{" + PrintItems(items) + "}"
  {
  }

  /** Two keys: the first leads to the inner object. */
  lemma WalkInner(t: string, id: string, key: string, value: string, field: string)
    requires WalkStep(Inner(t, id, key, value), field).Some?
    ensures var root, inner := Tree(t, id, key, value), Inner(t, id, key, value);
            var w := WalkStep(inner, field).value;
            && Walk(root, ["IOTCMD", field]) == Some(w)
            && (StepOk(inner, field) ==> PathOk(root, ["IOTCMD", field]))
            && WalkIndex(root, ["IOTCMD", field]) == 2 + StepIndex(inner, field)
  {
    hide Inner;
    hide StepIndex;
    var root, inner := Tree(t, id, key, value), Inner(t, id, key, value);
    var w := WalkStep(inner, field).value;
    var path := ["IOTCMD", field];
    assert path[1..] == [field] && [field][1..] == [];
    RootStep(t, id, key, value);
    assert Walk(w, []) == Some(w) && WalkIndex(w, []) == 0 && PathOk(w, []);
    assert Walk(inner, [field]) == Some(w);
    assert WalkIndex(inner, [field]) == StepIndex(inner, field);
    assert StepOk(inner, field) ==> PathOk(inner, [field]);
  }

  lemma RootStep(t: string, id: string, key: string, value: string)
    ensures var root := Tree(t, id, key, value);
            WalkStep(root, "IOTCMD") == Some(Inner(t, id, key, value)) && StepOk(root, "IOTCMD") && StepIndex(root, "IOTCMD") == 2
  {
  }

  lemma TypeField(t: string, id: string, key: string, value: string)
    ensures var root := Tree(t, id, key, value);
            PathOk(root, TYPE_PATH) && Walk(root, TYPE_PATH) == Some(Leaf(false, t)) && WalkIndex(root, TYPE_PATH) == 4
  {
    var inner := Inner(t, id, key, value);
    assert WalkStep(inner, "Type") == Some(Leaf(false, t)) && StepOk(inner, "Type") && StepIndex(inner, "Type") == 2;
    WalkInner(t, id, key, value, "Type");
  }

  lemma IdField(t: string, id: string, key: string, value: string)
    requires t != "ID"
    ensures var root := Tree(t, id, key, value);
            PathOk(root, ID_PATH) && Walk(root, ID_PATH) == Some(Leaf(false, id)) && WalkIndex(root, ID_PATH) == 6
  {
    var inner := Inner(t, id, key, value);
    var rest := Body(t, id, key, value).rest;
    assert FindKey(rest, "ID") == Some(Leaf(false, id)) && KeyAt(rest, "ID") == 0 && Unshadowed(rest, "ID");
    assert WalkStep(inner, "ID") == Some(Leaf(false, id)) && StepOk(inner, "ID") && StepIndex(inner, "ID") == 4;
    WalkInner(t, id, key, value, "ID");
  }

  lemma ValueField(t: string, id: string, value: string)
    requires t != "Value" && id != "Value"
    ensures var root := Tree(t, id, "Value", value);
            PathOk(root, VALUE_PATH) && Walk(root, VALUE_PATH) == Some(Leaf(false, value)) && WalkIndex(root, VALUE_PATH) == 8
  {
    var inner, leaf := Inner(t, id, "Value", value), Leaf(false, value);
    var rest := Body(t, id, "Value", value).rest;
    var last := rest.rest;
    assert FindKey(last, "Value") == Some(leaf) && KeyAt(last, "Value") == 0 && Unshadowed(last, "Value");
    assert FindKey(rest, "Value") == Some(leaf) && KeyAt(rest, "Value") == 2 && Unshadowed(rest, "Value");
    assert WalkStep(inner, "Value") == Some(leaf) && StepOk(inner, "Value") && StepIndex(inner, "Value") == 6;
    WalkInner(t, id, "Value", value, "Value");
  }

  lemma ReplaceInBody(t: string, id: string, key: string, value: string, text: string)
    ensures var items := Body(t, id, key, value);
            && ItemCount(items) == 6
            && ReplaceItems(items, 1, text) == Body(text, id, key, value)
            && ReplaceItems(items, 3, text) == Body(t, text, key, value)
            && ReplaceItems(items, 4, text) == Body(t, id, text, value)
            && ReplaceItems(items, 5, text) == Body(t, id, key, text)
  {
    var rest := Body(t, id, key, value).rest;
    var last := rest.rest;
    assert ItemCount(last) == 2 && ItemCount(rest) == 4;
    assert ReplaceItems(last, 0, text) == Item("", Key(text, "", ""), Leaf(false, value), "", Nil);
    assert ReplaceItems(last, 1, text) == Item("", Key(key, "", ""), Leaf(false, text), "", Nil);
    assert ReplaceItems(rest, 1, text) == rest.(value := Leaf(false, text));
    assert ReplaceItems(rest, 2, text) == rest.(rest := ReplaceItems(last, 0, text));
    assert ReplaceItems(rest, 3, text) == rest.(rest := ReplaceItems(last, 1, text));
  }

  lemma ReplaceInTree(t: string, id: string, key: string, value: string, k: nat, text: string)
    requires 2 < k <= 8
    ensures Replace(Tree(t, id, key, value), k, text)
         == Tree(t, id, key, value).(items := Tree(t, id, key, value).items.(
              value := Inner(t, id, key, value).(items := ReplaceItems(Body(t, id, key, value), k - 3, text))))
  {
    hide Body;
    ReplaceInBody(t, id, key, value, text);
    var inner := Inner(t, id, key, value);
    assert TokCount(inner) == 7;
    assert Replace(inner, k - 2, text) == inner.(items := ReplaceItems(Body(t, id, key, value), k - 3, text));
  }

  lemma ReplaceFields(t: string, id: string, key: string, value: string, text: string)
    ensures Replace(Tree(t, id, key, value), 4, text) == Tree(text, id, key, value)
    ensures Replace(Tree(t, id, key, value), 6, text) == Tree(t, text, key, value)
    ensures Replace(Tree(t, id, key, value), 7, text) == Tree(t, id, text, value)
    ensures Replace(Tree(t, id, key, value), 8, text) == Tree(t, id, key, text)
  {
    hide Body;
    hide Replace;
    hide ReplaceItems;
    ReplaceInBody(t, id, key, value, text);
    ReplaceInTree(t, id, key, value, 4, text);
    ReplaceInTree(t, id, key, value, 6, text);
    ReplaceInTree(t, id, key, value, 7, text);
    ReplaceInTree(t, id, key, value, 8, text);
  }

  lemma NineTokens(t: string, id: string, key: string, value: string)
    ensures TokCount(Tree(t, id, key, value)) == 9
  {
    ReplaceInBody(t, id, key, value, "");
    assert TokCount(Inner(t, id, key, value)) == 7;
    assert ItemCount(Tree(t, id, key, value).items) == 8;
  }

  lemma BodyLength(t: string, id: string, key: string, value: string)
    ensures |PrintItems(Body(t, id, key, value))| == 17 + |t| + |id| + |key| + |value|
  {
    hide PrintItems;
    var items := Body(t, id, key, value);
    FieldText("Type", t, items.rest);
    FieldText("ID", id, items.rest.rest);
    FieldText(key, value, Nil);
  }

  lemma TreeLength(t: string, id: string, key: string, value: string)
    ensures |Print(Tree(t, id, key, value))| == 30 + |t| + |id| + |key| + |value|
  {
    hide PrintItems;
    hide Print;
    hide Body;
    var inner := Inner(t, id, key, value);
    BodyLength(t, id, key, value);
    PrintNode(Body(t, id, key, value));
    RootText(inner);
    PrintNode(Item("", Key("IOTCMD", "", ""), inner, "", Nil));
  }

  // ---------- Looking "Value" up when the ID is "Value" ----------

  /** Then the scan stops at the ID itself and lands on the key of the last field. */
  lemma ValueLookupShadowed(doc: Doc, q: nat, t: string, value: string, key: string)
    requires t != "Value" && Inside(doc) && Sub(doc, 2, Inner(t, "Value", key, value), q)
    ensures |doc.tokens| > 7 && Search("Value", Span(doc.tokens[2]), doc, 0) == Hit(7)
    ensures !doc.tokens[7].IsContainer() && TextOf(doc.text, doc.tokens[7]) == key
  {
    hide ItemsSub;
    hide Print;
    hide PrintTag;
    hide PrintItem;
    hide PrintItems;
    hide Toks;
    hide ItemToks;
    hide Search;
    var inner := Inner(t, "Value", key, value);
    var items := inner.items;
    NodeItems(doc, 2, inner, q);
    var p := q + 1 + |PrintItem(items)| + 1;
    ItemsRest(doc, 3, items, q + 1);
    ItemsRest(doc, 5, items.rest, p);
    ItemTag(doc, 7, items.rest.rest, p + |PrintItem(items.rest)| + 1);
    FirstValue(t, key, value);
    SearchIsFirstRead(doc, 2, inner, q, "Value");
  }

  /** The first text that reads "Value" is then the ID. */
  lemma FirstValue(t: string, key: string, value: string)
    requires t != "Value"
    ensures var inner := Inner(t, "Value", key, value); Mentions(inner, "Value") && FirstRead(inner, "Value") == 4
  {
    var items := Body(t, "Value", key, value);
    assert FirstItemRead(items.rest, "Value") == 1;
    assert FirstItemRead(items, "Value") == 3;
  }

  /** The inner object is token 2 of the document. */
  lemma InnerSub(t: string, id: string, key: string, value: string) returns (q: nat)
    ensures var root := Tree(t, id, key, value);
            var doc := Printed("", root, "");
            && Inside(doc) && |doc.tokens| == 9 && Sub(doc, 2, Inner(t, id, key, value), q)
            && Search("IOTCMD", Span(doc.tokens[0]), doc, 0) == Hit(2)
  {
    hide Print;
    hide Toks;
    hide Inner;
    hide Search;
    hide Sub;
    hide StepIndex;
    hide StepOk;
    hide WalkStep;
    var root := Tree(t, id, key, value);
    var doc := Printed("", root, "");
    NineTokens(t, id, key, value);
    ToksLength(root, 0);
    PrintedInside("", root, "");
    RootSub("", root, "");
    RootStep(t, id, key, value);
    var i, p := FollowStep(doc, 0, root, 0, "IOTCMD");
    q := p;
  }

  lemma TwoKeys(field: string, doc: Doc, r: Range, i: nat, j: nat)
    requires Inside(doc) && Search("IOTCMD", r, doc, 0) == Hit(i) && Search(field, Span(doc.tokens[i]), doc, 0) == Hit(j)
    ensures Resolve(["IOTCMD", field], r, doc) == Place(Span(doc.tokens[j]))
    ensures Result(["IOTCMD", field], r, doc) == Some(TextOf(doc.text, doc.tokens[j]))
  {
    hide Search;
    var path := ["IOTCMD", field];
    assert path[1..] == [field] && [field][1..] == [];
    assert Resolve([field], Span(doc.tokens[i]), doc) == Place(Span(doc.tokens[j]));
  }

  lemma ShadowedResult(t: string, key: string, value: string)
    requires t != "Value"
    ensures var doc := Printed("", Tree(t, "Value", key, value), "");
            && Inside(doc) && |doc.tokens| == 9
            && Resolve(VALUE_PATH, Span(doc.tokens[0]), doc) == Place(Span(doc.tokens[7]))
            && Result(VALUE_PATH, Span(doc.tokens[0]), doc) == Some(key)
  {
    hide Print;
    hide Toks;
    hide Inner;
    hide Search;
    hide Resolve;
    hide Result;
    hide Sub;
    var doc := Printed("", Tree(t, "Value", key, value), "");
    var q := InnerSub(t, "Value", key, value);
    ValueLookupShadowed(doc, q, t, value, key);
    TwoKeys("Value", doc, Span(doc.tokens[0]), 2, 7);
  }

  lemma CutAtKey(t: string, id: string, key: string, value: string)
    ensures var root := Tree(t, id, key, value); IsText(root, 7) && CutAt(root, 7).text == key
  {
    var items := Body(t, id, key, value);
    ReplaceInBody(t, id, key, value, "");
    assert IsItemText(items.rest.rest, 0) && CutItems(items.rest.rest, 0).text == key;
    assert IsItemText(items.rest, 2) && CutItems(items.rest, 2).text == key;
    assert IsItemText(items, 4) && CutItems(items, 4).text == key;
    assert TokCount(Inner(t, id, key, value)) == 7;
    assert IsText(Inner(t, id, key, value), 5) && CutAt(Inner(t, id, key, value), 5).text == key;
  }

  // ---------- Encoding ----------

  /** The document a command is encoded to. An ID that reads "Value" makes the last step find
      the ID instead of the last key, so that the key is overwritten and its value stays 0. */
  function Encoded(kind: Type, id: string, value: string): (r: Value) {
    if id == "Value" then Tree(TypeText(kind), id, value, "0") else Tree(TypeText(kind), id, "Value", value)
  }

  /** A printed document in a buffer, with its table in step. */
  ghost predicate Holds(json: JsonData, root: Value)
    reads json, json.content, json.tokens
  {
    json.Valid() && json.tokenSize == 9 && json.Table() == Printed("", root, "")
  }

  /** Looking `path` up leads to token `k`, which is a non-empty string, atom or key. */
  ghost predicate LeadsTo(root: Value, path: seq<string>, k: nat) {
    var doc := Printed("", root, "");
    && Inside(doc) && k < |doc.tokens| == 9 && IsText(root, k) && CutAt(root, k).text != ""
    && Resolve(path, Span(doc.tokens[0]), doc) == Place(Span(doc.tokens[k]))
  }

  method SetField(json: JsonData, path: seq<string>, text: string, ghost root: Value, ghost k: nat)
    requires root.Node? && Holds(json, root) && LeadsTo(root, path, k)
    requires NoNul(text) && |Print(Replace(root, k, text))| < MAX_CONTENT
    modifies json, json.content, json.tokens
    ensures Holds(json, Replace(root, k, text)) && json.contentSize == |json.Text()|
  {
    hide Print;
    hide Toks;
    hide Replace;
    hide Resolve;
    hide IsText;
    hide CutAt;
    SetTokenIsReplace("", root, "", k, text);
    PrintedInside("", Replace(root, k, text), "");
    RootEnd(root, 0);
    ReplaceIsNode(root, k, text);
    RootEnd(Replace(root, k, text), 0);
    json.SetSingleValue(text, path);
  }

  /** A field whose path is open leads to its leaf. */
  lemma FieldLeads(t: string, id: string, key: string, value: string, path: seq<string>)
    requires var root := Tree(t, id, key, value);
             PathOk(root, path) && Walk(root, path).Some? && Walk(root, path).value.Leaf? && Walk(root, path).value.text != ""
    ensures LeadsTo(Tree(t, id, key, value), path, WalkIndex(Tree(t, id, key, value), path))
  {
    hide Print;
    hide Toks;
    hide Resolve;
    hide Replace;
    hide PathOk;
    hide Walk;
    hide WalkIndex;
    hide Body;
    hide CutAt;
    hide IsText;
    var root := Tree(t, id, key, value);
    SetThenGet("", root, path, "");
    ReplaceAtPath(root, path, "");
    ToksLength(root, 0);
    NineTokens(t, id, key, value);
  }

  lemma KeyLeads(t: string, value: string)
    requires t != "Value"
    ensures LeadsTo(Tree(t, "Value", "Value", value), VALUE_PATH, 7)
  {
    hide Print;
    hide Toks;
    hide Resolve;
    hide Body;
    hide CutAt;
    hide IsText;
    ShadowedResult(t, "Value", value);
    CutAtKey(t, "Value", "Value", value);
  }

  lemma FixedTextsOk(kind: Type)
    ensures AtomOk(TypeText(kind)) && StringOk("Type") && StringOk("ID") && StringOk("IOTCMD")
  {
    assert StringOk("D") && StringOk("ID");
    assert StringOk("pe") && StringOk("Type");
    assert StringOk("MD") && StringOk("TCMD") && StringOk("IOTCMD");
  }

  lemma ValueTextOk()
    ensures AtomOk("0") && StringOk("Value")
  {
    assert StringOk("e") && StringOk("ue");
    assert StringOk("lue") && StringOk("alue");
  }

  lemma TreeOk(kind: Type, id: string, key: string, value: string)
    requires AtomOk(id) && StringOk(key) && AtomOk(value)
    ensures Ok(Tree(TypeText(kind), id, key, value))
  {
    hide AtomOk;
    hide StringOk;
    FixedTextsOk(kind);
    var items := Body(TypeText(kind), id, key, value);
    assert ItemsOk(items.rest.rest);
    assert ItemsOk(items.rest);
    assert ItemsOk(items);
    assert Ok(Inner(TypeText(kind), id, key, value));
  }

  class Command {
    var kind: Type
    var id: string
    var value: string

    constructor ()
      ensures kind == NoType && id == "" && value == ""
    {
      kind, id, value := NoType, "", "";
    }

    /** The two character fields of the structure, each with room for its NUL. */
    ghost predicate Valid()
      reads this
    {
      && |id| < COMMAND_CHAR_SIZE && NoNul(id)
      && |value| < COMMAND_CHAR_SIZE && NoNul(value)
    }

    /** Fills the template in place. The length returned counts the NUL. */
    method Encode(stray: Kind, blank: Token) returns (buffer: string, length: int)
      requires Valid()
      ensures kind.NoType? ==> length == -1
      ensures !kind.NoType? ==> buffer == Print(Encoded(kind, id, value)) && length == |buffer| + 1
    {
      hide Print;
      hide Toks;
      hide StrLen;
      hide Inside;
      buffer := "";
      if kind.NoType? {
        return buffer, -1;
      }
      var json := Blank(stray, blank);
      var t := TypeText(kind);
      Fill(json, t, id, value);
      var size := json.Length();
      buffer := json.content[..size];
      assert buffer == Print(Encoded(kind, id, value)) by { EmptyEnds(Print(Encoded(kind, id, value))); }
      length := json.contentSize + 1;
    }
  
    /** Looks the three fields up. An unknown type text leaves the type alone; a field that is
        not found is read as the empty text. */
    method Decode(buffer: string, stray: Kind, blank: Token)
      requires |buffer| < MAX_CONTENT && NoNul(buffer) && Readable(buffer)
      modifies this
      ensures id == Field(buffer, "ID") && value == Field(buffer, "Value")
      ensures kind == match TypeOf(Field(buffer, "Type")) case Some(t) => t case None => old(kind)
    {
      hide Run;
      hide Result;
      hide Resolve;
      hide StrLen;
      var json := new JsonData(buffer, blank);
      json.InitToken(stray);
      ParsedInside(buffer);
      var text := FieldFrom(json, buffer, "Type");
      match TypeOf(text) {
        case Some(t) => kind := t;
        case None =>
      }
      id := FieldFrom(json, buffer, "ID");
      value := FieldFrom(json, buffer, "Value");
    }
  }

  function TypeOf(text: string): (r: Option<Type>) {
    if text == "Req" then Some(ReadRequest)
    else if text == "Res" then Some(ReadResponse)
    else if text == "Wri" then Some(Write)
    else if text == "Man" then Some(Management)
    else None
  }

  // ---------- Decoding ----------

  /** A buffer's text with its tokens; a text that does not tokenize has none. */
  function Parsed(buffer: string): (r: Doc) {
    var (code, st) := Run(buffer, MAX_TOKENS, START);
    Doc(buffer, if code.Count? then st.tokens else [])
  }

  lemma ParsedInside(buffer: string)
    ensures Inside(Parsed(buffer)) && |Parsed(buffer).tokens| <= MAX_TOKENS
  {
    hide Run;
    JsmnStack.SuccessShape(buffer, MAX_TOKENS);
    JsmnStack.TokensFit(buffer, MAX_TOKENS);
  }

  /** Text found under IOTCMD and `name`, empty when there is none. */
  function Field(buffer: string, name: string): (r: string) {
    ParsedInside(buffer);
    var doc := Parsed(buffer);
    if doc.tokens == [] then ""
    else match Result(["IOTCMD", name], Span(doc.tokens[0]), doc) case Some(s) => s case None => ""
  }

  /** The lookups stay inside the table, and what they find fits the fields of the command. */
  ghost predicate Readable(buffer: string) {
    ParsedInside(buffer);
    var doc := Parsed(buffer);
    && (doc.tokens != [] ==>
          var r := Span(doc.tokens[0]);
          && Resolve(["IOTCMD", "Type"], r, doc).Place?
          && Resolve(["IOTCMD", "ID"], r, doc).Place?
          && Resolve(["IOTCMD", "Value"], r, doc).Place?)
    && |Field(buffer, "Type")| < MAX_VALUE_SIZE
    && |Field(buffer, "ID")| < COMMAND_CHAR_SIZE && |Field(buffer, "Value")| < COMMAND_CHAR_SIZE
  }

  /** With no tokens nothing is found, wherever the lookup starts. */
  lemma {:induction false} NothingFound(keys: seq<string>, r: Range, doc: Doc)
    requires doc.tokens == []
    ensures Inside(doc) && Resolve(keys, r, doc).Place? && Result(keys, r, doc) == None
    decreases |keys|
  {
    if keys != [] {
      NothingFound(keys[1..], r, doc);
    }
  }

  method FieldFrom(json: JsonData, ghost buffer: string, name: string) returns (text: string)
    requires json.Valid() && Inside(Parsed(buffer)) && json.Table() == Parsed(buffer)
    requires Parsed(buffer).tokens != [] ==> Resolve(["IOTCMD", name], Span(Parsed(buffer).tokens[0]), Parsed(buffer)).Place?
    ensures text == Field(buffer, name)
  {
    if json.tokenSize <= 0 {
      NothingFound(["IOTCMD", name], Span(json.tokens[0]), json.Table());
    }
    var r := json.GetValue(["IOTCMD", name]);
    text := match r case Some(s) => s case None => "";
  }

  lemma EmptyEnds(s: string)
    ensures "" + s + "" == s
  {
  }

  /** The template in a buffer, tokenized. */
  method Blank(stray: Kind, blank: Token) returns (json: JsonData)
    ensures fresh(json) && fresh(json.content) && fresh(json.tokens)
    ensures Holds(json, Tree("None", "0", "Value", "0"))
  {
    hide Run;
    hide Print;
    hide Toks;
    hide Tree;
    var root := Tree("None", "0", "Value", "0");
    json := new JsonData(EMPTY, blank);
    json.InitToken(stray);
    TemplateText();
    ValueTextOk();
    TreeOk(NoType, "0", "Value", "0");
    NineTokens("None", "0", "Value", "0");
    ToksLength(root, 0);
    ParsingUndoesPrinting("", root, "", MAX_TOKENS);
    EmptyEnds(EMPTY);
  }

  /** Overwrites the type, the ID and the value, in that order. */
  method Fill(json: JsonData, t: string, id: string, value: string)
    requires Holds(json, Tree("None", "0", "Value", "0"))
    requires t != "ID" && t != "Value" && t != "" && |t| < 10 && NoNul(t)
    requires |id| < COMMAND_CHAR_SIZE && NoNul(id) && |value| < COMMAND_CHAR_SIZE && NoNul(value)
    modifies json, json.content, json.tokens
    ensures Holds(json, if id == "Value" then Tree(t, id, value, "0") else Tree(t, id, "Value", value))
    ensures json.contentSize == |json.Text()|
  {
    hide Print;
    hide Toks;
    hide Replace;
    hide Resolve;
    hide PathOk;
    hide Walk;
    hide WalkIndex;
    hide LeadsTo;
    hide Inner;
    TypeField("None", "0", "Value", "0");
    FieldLeads("None", "0", "Value", "0", TYPE_PATH);
    ReplaceFields("None", "0", "Value", "0", t);
    TreeLength(t, "0", "Value", "0");
    SetField(json, ["IOTCMD", "Type"], t, Tree("None", "0", "Value", "0"), 4);
    IdField(t, "0", "Value", "0");
    FieldLeads(t, "0", "Value", "0", ID_PATH);
    ReplaceFields(t, "0", "Value", "0", id);
    TreeLength(t, id, "Value", "0");
    SetField(json, ["IOTCMD", "ID"], id, Tree(t, "0", "Value", "0"), 6);
    ReplaceFields(t, id, "Value", "0", value);
    if id == "Value" {
      KeyLeads(t, "0");
      TreeLength(t, id, value, "0");
      SetField(json, ["IOTCMD", "Value"], value, Tree(t, id, "Value", "0"), 7);
    } else {
      ValueField(t, id, "0");
      FieldLeads(t, id, "Value", "0", VALUE_PATH);
      TreeLength(t, id, "Value", value);
      SetField(json, ["IOTCMD", "Value"], value, Tree(t, id, "Value", "0"), 8);
    }
  }

  // ---------- Round trip ----------

  lemma EncodedParses(kind: Type, id: string, key: string, value: string)
    requires AtomOk(id) && StringOk(key) && AtomOk(value)
    ensures var root := Tree(TypeText(kind), id, key, value);
            Parsed(Print(root)) == Printed("", root, "") && Parsed(Print(root)).tokens != []
  {
    hide Run;
    hide Print;
    hide Toks;
    hide AtomOk;
    hide StringOk;
    hide Inner;
    var root := Tree(TypeText(kind), id, key, value);
    TreeOk(kind, id, key, value);
    NineTokens(TypeText(kind), id, key, value);
    ToksLength(root, 0);
    ParsingUndoesPrinting("", root, "", MAX_TOKENS);
    EmptyEnds(Print(root));
  }

  lemma FieldIs(kind: Type, id: string, key: string, value: string, name: string)
    requires AtomOk(id) && StringOk(key) && AtomOk(value)
    requires PathOk(Tree(TypeText(kind), id, key, value), ["IOTCMD", name])
    ensures var w := Walk(Tree(TypeText(kind), id, key, value), ["IOTCMD", name]);
            w.Some? && Field(Print(Tree(TypeText(kind), id, key, value)), name) == SourceText(w.value)
  {
    hide Run;
    hide Print;
    hide Toks;
    hide AtomOk;
    hide StringOk;
    hide Inner;
    hide Parsed;
    hide PathOk;
    hide Walk;
    hide SourceText;
    EncodedParses(kind, id, key, value);
    GetValueAgreesWithTree("", Tree(TypeText(kind), id, key, value), "", ["IOTCMD", name]);
  }

  lemma TypeRoundTrip(kind: Type, id: string, key: string, value: string)
    requires AtomOk(id) && StringOk(key) && AtomOk(value)
    ensures Field(Print(Tree(TypeText(kind), id, key, value)), "Type") == TypeText(kind)
  {
    hide Field;
    hide Print;
    TypeField(TypeText(kind), id, key, value);
    FieldIs(kind, id, key, value, "Type");
  }

  lemma IdRoundTrip(kind: Type, id: string, key: string, value: string)
    requires AtomOk(id) && StringOk(key) && AtomOk(value)
    ensures Field(Print(Tree(TypeText(kind), id, key, value)), "ID") == id
  {
    hide Field;
    hide Print;
    IdField(TypeText(kind), id, key, value);
    FieldIs(kind, id, key, value, "ID");
  }

  lemma ValueRoundTrip(kind: Type, id: string, value: string)
    requires AtomOk(id) && AtomOk(value) && id != "Value"
    ensures Field(Print(Tree(TypeText(kind), id, "Value", value)), "Value") == value
  {
    hide Field;
    hide Print;
    ValueTextOk();
    ValueField(TypeText(kind), id, value);
    FieldIs(kind, id, "Value", value, "Value");
  }

  lemma ShadowedRoundTrip(kind: Type, value: string)
    requires AtomOk(value) && StringOk(value)
    ensures Field(Print(Tree(TypeText(kind), "Value", value, "0")), "Value") == value
  {
    hide Print;
    hide Toks;
    hide AtomOk;
    hide StringOk;
    hide Inner;
    hide Parsed;
    hide Result;
    ValueAtomOk();
    EncodedParses(kind, "Value", value, "0");
    ShadowedResult(TypeText(kind), value, "0");
  }

  lemma ValueAtomOk()
    ensures AtomOk("Value") && AtomOk("0")
  {
  }

  // ---------- When the ID reads "Value" and the value is no string body ----------

  /** The closing quote is found behind `v` only if `v` is a legal string body. */
  lemma {:induction false} QuoteBehind(js: string, p: nat, v: string)
    requires At(js, p, v) && NoNul(v) && QuoteEnd(js, p) == p + |v|
    ensures StringOk(v)
    decreases |v|
  {
    if v != "" {
      AtIndex(js, p, v, 0);
      var k := if v[0] == '\\' then 2 else 1;
      if |v| >= k {
        assert v == v[..k] + v[k..];
        AtSplit(js, p, v[..k], v[k..]);
        QuoteBehind(js, p + k, v[k..]);
      }
    }
  }

  /** What a later run leaves of the tokens it starts with. */
  ghost predicate Keeps(a: State, b: State) {
    && |a.tokens| <= |b.tokens|
    && (forall i :: 0 <= i < |a.tokens| ==>
          var (t, u) := (a.tokens[i], b.tokens[i]);
          && u.kind == t.kind && u.start == t.start
          && (if t.end == -1 then u.end == -1 || u.end > a.pos else u.end == t.end))
  }

  lemma StepKeeps(js: string, cap: nat, st: State)
    requires st.Valid() && st.pos < |js| && Step(js, cap, st).Go?
    ensures Keeps(st, Step(js, cap, st).next)
  {
  }

  lemma {:induction false} RunKeeps(js: string, cap: nat, st: State)
    requires st.Valid()
    ensures Keeps(st, Run(js, cap, st).1)
    decreases |js| - st.pos
  {
    if !AtEnd(js, st) && Step(js, cap, st).Go? {
      hide Step;
      StepKeeps(js, cap, st);
      RunKeeps(js, cap, Step(js, cap, st).next);
    }
  }

  const ROOT_TAG := Key("IOTCMD", "", "")

  function TypeItem(t: string): (r: Items) {
    Item("", Key("Type", "", ""), Leaf(false, t), "", Nil)
  }

  function IdItem(): (r: Items) {
    Item("", Key("ID", "", ""), Leaf(false, "Value"), "", Nil)
  }

  /** The text up to the last key, in pieces. */
  ghost predicate Front(js: string, t: string) {
    && |t| == 3 && |js| > 33
    && js[0] == '{' && At(js, 1, PrintTag(ROOT_TAG)) && js[10] == '{'
    && At(js, 11, PrintItem(TypeItem(t))) && js[21] == ','
    && At(js, 22, PrintItem(IdItem())) && js[32] == ','
  }

  function InnerOpen(): (r: State) {
    State(11, [Token(Object, 0, -1, 1), Token(String, 2, 8, 1), Token(Object, 10, -1, 0)], 2, 3)
  }

  function TypeRead(): (r: State) {
    State(22, [Token(Object, 0, -1, 1), Token(String, 2, 8, 1), Token(Object, 10, -1, 1),
               Token(String, 12, 16, 1), Token(Primitive, 18, 21, 0)], 2, 5)
  }

  function IdRead(): (r: State) {
    State(33, [Token(Object, 0, -1, 1), Token(String, 2, 8, 1), Token(Object, 10, -1, 2),
               Token(String, 12, 16, 1), Token(Primitive, 18, 21, 0),
               Token(String, 23, 25, 1), Token(Primitive, 27, 32, 0)], 2, 7)
  }

  lemma RunToInner(js: string, cap: nat, t: string)
    requires Front(js, t) && cap >= 7
    ensures Run(js, cap, START) == Run(js, cap, InnerOpen())
  {
    hide AtomOk;
    hide StringOk;
    hide LastOpen;
    hide Run;
    FixedTextsOk(NoType);
    var st1 := Opened(START, false);
    var st2 := AfterTag(st1, ROOT_TAG);
    RunOpen(js, cap, START, '{');
    RunTag(js, cap, st1, ROOT_TAG);
    TagTextLength();
    assert st2 == State(10, [Token(Object, 0, -1, 1), Token(String, 2, 8, 0)], 1, 2);
    RunOpen(js, cap, st2, '{');
    assert Opened(st2, false) == InnerOpen();
  }

  lemma TagTextLength()
    ensures |PrintTag(ROOT_TAG)| == 9
  {
  }

  lemma TypeItemIs(t: string)
    requires |t| == 3 && AtomOk(t)
    ensures ItemsOk(TypeItem(t)) && |PrintItem(TypeItem(t))| == 10
    ensures OneItemToks(TypeItem(t), 11) == [Token(String, 12, 16, 1), Token(Primitive, 18, 21, 0)]
  {
    FixedTextsOk(NoType);
    assert Print(Leaf(false, t)) == t;
  }

  lemma IdItemIs()
    ensures ItemsOk(IdItem()) && |PrintItem(IdItem())| == 10
    ensures OneItemToks(IdItem(), 22) == [Token(String, 23, 25, 1), Token(Primitive, 27, 32, 0)]
  {
    FixedTextsOk(NoType);
    ValueAtomOk();
    assert Print(Leaf(false, "Value")) == "Value";
  }

  lemma RunItemAndComma(js: string, cap: nat, st: State, items: Items, next: State)
    requires items.Item? && ItemsOk(items) && st.super == 2 && Innermost(st, 2) && st.tokens[2].kind == Object
    requires |st.tokens| + |OneItemToks(items, st.pos)| <= cap
    requires At(js, st.pos, PrintItem(items)) && st.pos + |PrintItem(items)| < |js| && js[st.pos + |PrintItem(items)|] == ','
    requires next == State(st.pos + |PrintItem(items)| + 1, AddSize(st.tokens, 2, 1) + OneItemToks(items, st.pos), 2,
                           st.count + |OneItemToks(items, st.pos)|)
    ensures Run(js, cap, st) == Run(js, cap, next)
  {
    hide Run;
    hide PrintItem;
    hide OneItemToks;
    hide AddSize;
    hide AfterItem;
    var st2 := AfterItem(st, items);
    RunItem(js, cap, st, items);
    AfterItemFacts(st, items);
    RunComma(js, cap, st2, 2);
  }

  lemma InnerIsInnermost()
    ensures Innermost(InnerOpen(), 2) && Innermost(TypeRead(), 2)
  {
    LastOpenIsLast(InnerOpen().tokens, 2);
    LastOpenIsLast(TypeRead().tokens, 2);
  }

  /** The tokenizer's state at the last key, whatever follows it. */
  lemma RunToLastKey(js: string, cap: nat, t: string)
    requires Front(js, t) && AtomOk(t) && cap >= 7
    ensures Run(js, cap, START) == Run(js, cap, IdRead())
  {
    hide Run;
    hide PrintItem;
    hide OneItemToks;
    hide ItemsOk;
    hide LastOpen;
    hide AtomOk;
    RunToInner(js, cap, t);
    InnerIsInnermost();
    TypeItemIs(t);
    IdItemIs();
    RunItemAndComma(js, cap, InnerOpen(), TypeItem(t), TypeRead());
    RunItemAndComma(js, cap, TypeRead(), IdItem(), IdRead());
  }

  // ---------- Reading the value back in that case ----------

  lemma PieceAt(js: string, p: nat, a: string, b: string, c: string)
    requires At(js, p, a + b + c)
    ensures p + |a| + |b| <= |js| && js[p + |a|..p + |a| + |b|] == b
  {
    assert a + b + c == a + (b + c);
    AtSplit(js, p, a, b + c);
    AtSplit(js, p + |a|, b, c);
  }

  lemma TagTexts(t: string)
    ensures PrintTag(ROOT_TAG) == "\"" + "IOTCMD" + "\":"
    ensures PrintItem(TypeItem(t)) == "\"" + "Type" + ("\":" + t)
    ensures PrintItem(TypeItem(t)) == "\"Type\":" + t + ""
    ensures PrintItem(IdItem()) == "\"" + "ID" + "\":Value"
    ensures PrintItem(IdItem()) == "\"ID\":" + "Value" + ""
  {
  }

  lemma FrontTexts(js: string, t: string)
    requires Front(js, t)
    ensures js[2..8] == "IOTCMD" && js[12..16] == "Type" && js[18..21] == t && js[23..25] == "ID" && js[27..32] == "Value"
  {
    hide At;
    hide PrintItem;
    hide PrintTag;
    TagTexts(t);
    PieceAt(js, 1, "\"", "IOTCMD", "\":");
    PieceAt(js, 11, "\"", "Type", "\":" + t);
    PieceAt(js, 11, "\"Type\":", t, "");
    PieceAt(js, 22, "\"", "ID", "\":Value");
    PieceAt(js, 22, "\"ID\":", "Value", "");
  }

  /** The first seven tokens of a finished table over such a text. */
  ghost predicate FrontTokens(doc: Doc, t: string) {
    && Inside(doc) && |doc.tokens| >= 8 && |doc.text| > 33 && |t| == 3
    && doc.tokens[0].kind == Object && doc.tokens[0].start == 0 && doc.tokens[0].end > 33
    && doc.tokens[1].kind == String && Span(doc.tokens[1]) == Range(2, 8)
    && doc.tokens[2].kind == Object && doc.tokens[2].start == 10 && doc.tokens[2].end > 33
    && doc.tokens[3].kind == String && Span(doc.tokens[3]) == Range(12, 16)
    && doc.tokens[4].kind == Primitive && Span(doc.tokens[4]) == Range(18, 21)
    && doc.tokens[5].kind == String && Span(doc.tokens[5]) == Range(23, 25)
    && doc.tokens[6].kind == Primitive && Span(doc.tokens[6]) == Range(27, 32)
  }

  lemma KeptFront(doc: Doc, t: string)
    requires Inside(doc) && |doc.tokens| >= 8 && |doc.text| > 33 && |t| == 3
    requires Keeps(IdRead(), State(0, doc.tokens, -1, 0))
    ensures FrontTokens(doc, t)
  {
    var a, b := IdRead(), State(0, doc.tokens, -1, 0);
    assert b.tokens[0].start == a.tokens[0].start && b.tokens[1].start == a.tokens[1].start && b.tokens[2].start == a.tokens[2].start;
    assert b.tokens[3].start == a.tokens[3].start && b.tokens[4].start == a.tokens[4].start;
    assert b.tokens[5].start == a.tokens[5].start && b.tokens[6].start == a.tokens[6].start;
  }

  lemma SearchRoot(doc: Doc, t: string)
    requires FrontTokens(doc, t) && doc.text[2..8] == "IOTCMD"
    ensures Search("IOTCMD", Span(doc.tokens[0]), doc, 0) == Hit(2)
  {
    hide Search;
    var r := Span(doc.tokens[0]);
    SkipTo("IOTCMD", r, doc, 0, 1);
    SearchHere("IOTCMD", r, doc, 1);
  }

  lemma SearchInner(doc: Doc, t: string)
    requires FrontTokens(doc, t) && doc.text[27..32] == "Value"
    requires doc.text[12..16] == "Type" && doc.text[18..21] == t && doc.text[23..25] == "ID"
    ensures Search("Value", Span(doc.tokens[2]), doc, 0) == Hit(7)
  {
    hide Search;
    var r := Span(doc.tokens[2]);
    SkipTo("Value", r, doc, 0, 6);
    SearchHere("Value", r, doc, 6);
  }

  /** Then the value looked up is the text of token 7. */
  lemma LastKeyFound(js: string, t: string, doc: Doc)
    requires Front(js, t) && Inside(doc) && doc.text == js && |doc.tokens| >= 8
    requires Keeps(IdRead(), State(0, doc.tokens, -1, 0))
    ensures Result(VALUE_PATH, Span(doc.tokens[0]), doc) == Some(TextOf(js, doc.tokens[7]))
  {
    hide Result;
    hide Resolve;
    hide Search;
    hide PrintItem;
    hide Keeps;
    FrontTexts(js, t);
    KeptFront(doc, t);
    SearchRoot(doc, t);
    SearchInner(doc, t);
    TwoKeys("Value", doc, Span(doc.tokens[0]), 2, 7);
  }

  /** If the text behind the last key's quote is no string body, what is looked up under "Value"
      is not that text: either the buffer does not tokenize, or the key ends early. */
  lemma BrokenKey(js: string, t: string, value: string)
    requires Front(js, t) && AtomOk(t) && AtomOk(value) && !StringOk(value)
    requires js[33] == '\"' && At(js, 34, value)
    ensures Field(js, "Value") != value
  {
    hide Run;
    hide Result;
    hide Front;
    hide FrontTokens;
    hide StringOk;
    hide AtomOk;
    ParsedInside(js);
    RunToLastKey(js, MAX_TOKENS, t);
    var e := QuoteEnd(js, 34);
    NotNulAtom(value);
    if e == 34 + |value| {
      QuoteBehind(js, 34, value);
      assert false;
    }
    if e == -1 {
      RunBroken(js, IdRead());
    } else {
      var st := Add(MAX_TOKENS, IdRead(), Token(String, 34, e, 0), e + 1, 2).next;
      RunKey(js, e, st);
      RunKeeps(js, MAX_TOKENS, st);
      KeepsThrough(st, Run(js, MAX_TOKENS, START).1);
      if Parsed(js).tokens != [] {
        LastKeyFound(js, t, Parsed(js));
      }
    }
  }

  lemma NotNulAtom(v: string)
    requires AtomOk(v)
    ensures NoNul(v) && v != ""
  {
  }

  lemma RunBroken(js: string, st: State)
    requires st.Valid() && st.pos < |js| && js[st.pos] == '\"' && QuoteEnd(js, st.pos + 1) == -1
    ensures Run(js, MAX_TOKENS, st).0 == Part
  {
  }

  lemma RunKey(js: string, e: nat, st: State)
    requires |js| > 33 && js[33] == '\"' && QuoteEnd(js, 34) == e
    requires st == Add(MAX_TOKENS, IdRead(), Token(String, 34, e, 0), e + 1, 2).next
    ensures st.Valid() && Run(js, MAX_TOKENS, IdRead()) == Run(js, MAX_TOKENS, st)
  {
  }

  lemma KeepsThrough(st: State, last: State)
    requires st.pos >= 34 && |st.tokens| == 8 && Keeps(st, last)
    requires st.tokens == Bump(IdRead().tokens, 2) + [st.tokens[7]] && st.tokens[7].end != -1
    ensures Keeps(IdRead(), State(0, last.tokens, -1, 0)) && |last.tokens| >= 8
    ensures last.tokens[7].start == st.tokens[7].start && last.tokens[7].end == st.tokens[7].end
  {
    var a, b := IdRead(), Bump(IdRead().tokens, 2);
    forall i | 0 <= i < 7
      ensures st.tokens[i] == b[i] && b[i].kind == a.tokens[i].kind && b[i].start == a.tokens[i].start && b[i].end == a.tokens[i].end
    {
    }
  }

  lemma ShadowedText(t: string, value: string)
    ensures PrintItems(Body(t, "Value", value, "0"))
         == PrintItem(TypeItem(t)) + ("," + (PrintItem(IdItem()) + ("," + ("\"" + (value + "\":0")))))
  {
    hide PrintItems;
    hide PrintItem;
    TagTexts(t);
    var items := Body(t, "Value", value, "0");
    FieldText("Type", t, items.rest);
    FieldText("ID", "Value", items.rest.rest);
    FieldText(value, "0", Nil);
    var last := "\"" + (value + "\":0");
    assert PrintItems(items.rest.rest) == last;
    assert PrintItems(items.rest) == PrintItem(IdItem()) + ("," + last);
    assert PrintItems(items) == PrintItem(TypeItem(t)) + ("," + PrintItems(items.rest));
  }

  /** The encoded text has the expected front, then the value as the last key. */
  lemma ShadowedFront(t: string, value: string)
    requires |t| == 3 && AtomOk(t)
    ensures var js := Print(Tree(t, "Value", value, "0"));
            Front(js, t) && js[33] == '\"' && At(js, 34, value)
  {
    hide Print;
    hide PrintItems;
    hide PrintItem;
    hide PrintTag;
    hide AtomOk;
    var inner := Inner(t, "Value", value, "0");
    var js := Print(Tree(t, "Value", value, "0"));
    TypeItemIs(t);
    IdItemIs();
    TagTextLength();
    TreeLength(t, "Value", value, "0");
    ShadowedText(t, value);
    PrintNode(Body(t, "Value", value, "0"));
    RootPieces(inner);
    var last := "\"" + (value + "\":0");
    var ids := PrintItem(IdItem()) + ("," + last);
    var body := PrintItem(TypeItem(t)) + ("," + ids);
    assert js == "{" + (PrintTag(ROOT_TAG) + ("{" + (body + "}}")));
    assert At(js, 0, js);
    CharAt(js, 0, '{', PrintTag(ROOT_TAG) + ("{" + (body + "}}")));
    AtSplit(js, 1, PrintTag(ROOT_TAG), "{" + (body + "}}"));
    CharAt(js, 10, '{', body + "}}");
    AtSplit(js, 11, body, "}}");
    AtSplit(js, 11, PrintItem(TypeItem(t)), "," + ids);
    CharAt(js, 21, ',', ids);
    AtSplit(js, 22, PrintItem(IdItem()), "," + last);
    CharAt(js, 32, ',', last);
    CharAt(js, 33, '\"', value + "\":0");
    AtSplit(js, 34, value, "\":0");
  }

  lemma CharAt(js: string, p: nat, c: char, rest: string)
    requires At(js, p, [c] + rest)
    ensures p < |js| && js[p] == c && At(js, p + 1, rest)
  {
    AtSplit(js, p, [c], rest);
    AtIndex(js, p, [c] + rest, 0);
  }

  lemma RootPieces(inner: Value)
    ensures Print(Node(false, Item("", ROOT_TAG, inner, "", Nil), "")) == "{" + (PrintTag(ROOT_TAG) + (Print(inner) + "}"))
  {
    hide Print;
    hide PrintItems;
    hide PrintTag;
    var items := Item("", ROOT_TAG, inner, "", Nil);
    PrintNode(items);
    ItemThenRest(items);
    assert PrintItem(items) == PrintTag(ROOT_TAG) + Print(inner);
  }

  /** Decoding an encoded command gives the command back exactly when the ID is not "Value", or
      it is but the value is a legal string body. */
  lemma CommandRoundTrip(kind: Type, id: string, value: string)
    requires !kind.NoType? && AtomOk(id) && AtomOk(value)
    ensures var buffer := Print(Encoded(kind, id, value));
            (TypeOf(Field(buffer, "Type")) == Some(kind) && Field(buffer, "ID") == id && Field(buffer, "Value") == value)
            <==> (id != "Value" || StringOk(value))
  {
    hide Print;
    hide Field;
    hide AtomOk;
    hide StringOk;
    hide Tree;
    ValueTextOk();
    if id != "Value" {
      TypeRoundTrip(kind, id, "Value", value);
      IdRoundTrip(kind, id, "Value", value);
      ValueRoundTrip(kind, id, value);
    } else if StringOk(value) {
      TypeRoundTrip(kind, "Value", value, "0");
      IdRoundTrip(kind, "Value", value, "0");
      ShadowedRoundTrip(kind, value);
    } else {
      FixedTextsOk(kind);
      ShadowedFront(TypeText(kind), value);
      BrokenKey(Print(Encoded(kind, id, value)), TypeText(kind), value);
    }
  }

  /** An encoded command with short fields is one that decoding can read. */
  lemma EncodedReadable(kind: Type, id: string, value: string)
    requires !kind.NoType? && AtomOk(id) && AtomOk(value) && (id != "Value" || StringOk(value))
    requires |id| < COMMAND_CHAR_SIZE && |value| < COMMAND_CHAR_SIZE
    ensures Readable(Print(Encoded(kind, id, value)))
  {
    hide Print;
    hide Toks;
    hide Field;
    hide AtomOk;
    hide StringOk;
    hide Inner;
    hide Resolve;
    hide PathOk;
    hide Walk;
    hide Parsed;
    var t := TypeText(kind);
    ValueTextOk();
    CommandRoundTrip(kind, id, value);
    if id != "Value" {
      EncodedParses(kind, id, "Value", value);
      FieldReached(t, id, "Value", value, "Type");
      FieldReached(t, id, "Value", value, "ID");
      FieldReached(t, id, "Value", value, "Value");
    } else {
      EncodedParses(kind, id, value, "0");
      FieldReached(t, id, value, "0", "Type");
      FieldReached(t, id, value, "0", "ID");
      ShadowedResult(t, value, "0");
    }
  }

  lemma FieldReached(t: string, id: string, key: string, value: string, name: string)
    requires t != "ID" && t != "Value" && (name == "Type" || name == "ID" || (name == key == "Value" && id != "Value"))
    ensures var doc := Printed("", Tree(t, id, key, value), "");
            Inside(doc) && doc.tokens != [] && Resolve(["IOTCMD", name], Span(doc.tokens[0]), doc).Place?
  {
    hide Print;
    hide Toks;
    hide Inner;
    hide Resolve;
    hide PathOk;
    hide Walk;
    if name == "Type" {
      TypeField(t, id, key, value);
    } else if name == "ID" {
      IdField(t, id, key, value);
    } else {
      ValueField(t, id, value);
    }
    LookupAgreesWithTree("", Tree(t, id, key, value), "", ["IOTCMD", name]);
  }

  // ---------- As text ----------

  /** An encoded command, character by character. */
  lemma CommandText(kind: Type, id: string, value: string)
    requires !kind.NoType? && id != "Value"
    ensures var t := if kind == ReadRequest then "Req" else if kind == ReadResponse then "Res" else if kind == Write then "Wri" else "Man";
            Print(Encoded(kind, id, value))
            == "{\"IOTCMD\":{\"Type\":" + t + ",\"ID\":" + id + ",\"Value\":" + value + "}}"
  {
    hide Print;
    hide PrintItems;
    hide Inner;
    hide Body;
    var t := TypeText(kind);
    FilledBody(t, id, value);
    FilledTree(t, id, value);
    PrintNode(Body(t, id, "Value", value));
    RootText(Inner(t, id, "Value", value));
    PrintNode(Item("", Key("IOTCMD", "", ""), Inner(t, id, "Value", value), "", Nil));
    Flattened(t, id, value);
  }

  lemma FilledTree(t: string, id: string, value: string)
    ensures var inner := Inner(t, id, "Value", value);
            && inner == Node(false, Body(t, id, "Value", value), "")
            && Tree(t, id, "Value", value) == Node(false, Item("", Key("IOTCMD", "", ""), inner, "", Nil), "")
  {
  }

  lemma FilledBody(t: string, id: string, value: string)
    ensures PrintItems(Body(t, id, "Value", value))
            == "\"" + "Type" + "\":" + t + ("," + ("\"" + "ID" + "\":" + id + ("," + ("\"" + "Value" + "\":" + value + ""))))
  {
    hide PrintItems;
    var items := Body(t, id, "Value", value);
    FieldText("Type", t, items.rest);
    FieldText("ID", id, items.rest.rest);
    FieldText("Value", value, Nil);
  }

  lemma Flattened(t: string, id: string, value: string)
    ensures "{" + ("\"IOTCMD\":" + ("{" + ("\"" + "Type" + "\":" + t + ("," + ("\"" + "ID" + "\":" + id + ("," + ("\"" + "Value" + "\":" + value + ""))))) + "}")) + "}"
            == "{\"IOTCMD\":{\"Type\":" + t + ",\"ID\":" + id + ",\"Value\":" + value + "}}"
  {
  }

  /** The four type texts, and no other, are types. */
  lemma TypeTexts(text: string)
    ensures TypeOf("Req") == Some(ReadRequest) && TypeOf("Res") == Some(ReadResponse)
    ensures TypeOf("Wri") == Some(Write) && TypeOf("Man") == Some(Management)
    ensures TypeOf(text) == None <==> text !in {"Req", "Res", "Wri", "Man"}
  {
  }
}
