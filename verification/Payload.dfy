/**
 What the manager reads from the data of a package addressed to it: a registration, a command, or
 nothing it knows.
 */
module Payload {
  import opened Jsmn
  import opened JsonTree
  import opened JsonEdit
  import opened JsonLookup
  import opened JsonFile
  import JsmnStack
  import C = IoTCommand
  import opened Package

  const TEMP_STR_LEN := 50
  const TEMP_BUFFER_SIZE := 200

  // ---------- Bytes and characters ----------

  function Chars(s: seq<Byte>): (t: string)
    ensures |t| == |s|
  {
    seq(|s|, i requires 0 <= i < |s| => s[i] as char)
  }

  function Bytes(t: string): (s: seq<Byte>)
    ensures |s| == |t|
  {
    seq(|t|, i requires 0 <= i < |t| => (t[i] as int) % 256)
  }

  /** Characters of one byte, none of them NUL. */
  predicate Plain(t: string) {
    forall i :: 0 <= i < |t| ==> 0 < t[i] as int < 256
  }

  lemma CharsInjective(a: seq<Byte>, b: seq<Byte>)
    requires Chars(a) == Chars(b)
    ensures a == b
  {
    forall i | 0 <= i < |a|
      ensures a[i] == b[i]
    {
      assert Chars(a)[i] == Chars(b)[i];
    }
  }

  lemma CharsOfBytes(t: string)
    requires Plain(t)
    ensures Chars(Bytes(t)) == t && NoZero(Bytes(t))
  {
  }

  // ---------- Reading ----------

  /** `Unreadable` marks data on which the source reads unset memory or writes past a buffer: no NUL
      or too many bytes, fewer than two tokens, a name or a field too long for its buffer, a lookup
      that leaves the table, and a registration that does not tokenize or has no device id. */
  datatype Management = Record(devId: string, group: string, desc: string)
                      | Cmd(kind: C.Type, id: string, value: string)
                      | Unknown
                      | Unreadable

  /** The text of the data, up to its first NUL. */
  function Content(data: seq<Byte>): (r: string) {
    Chars(Field(data))
  }

  /** A NUL in the data, and room for it in the content buffer. */
  predicate Bounded(data: seq<Byte>) {
    |data| <= MAX_CONTENT && |Field(data)| < |data|
  }

  /** The data are read by the name in the second token, which the tokenizer may have left although it
      failed later. A command that does not tokenize has no type and empty fields. */
  ghost function ReadManagement(data: seq<Byte>): (m: Management) {
    var text := Content(data);
    var (code, st) := Run(text, MAX_TOKENS, START);
    JsmnStack.TokensStarted(text, MAX_TOKENS);
    C.ParsedInside(text);
    if !Bounded(data) || |st.tokens| < 2 || |Pattern(text, st.tokens[1])| >= TEMP_STR_LEN then Unreadable
    else if Pattern(text, st.tokens[1]) == "IOTDEV" then
      if code.Count? then ReadRecord(C.Parsed(text)) else Unreadable
    else if Pattern(text, st.tokens[1]) == "IOTCMD" then
      if C.Readable(text) then
        Cmd(match C.TypeOf(C.Field(text, "Type")) case Some(k) => k case None => C.NoType,
            C.Field(text, "ID"), C.Field(text, "Value"))
      else Unreadable
    else Unknown
  }

  const DEVICE_ID := ["IOTDEV", "DeviceID"]
  const FUNCTION_GROUP := ["IOTDEV", "FunctionGroup"]

  /** The same buffer takes both fields, so a missing group leaves the device id in it. */
  function ReadRecord(doc: Doc): (r: Management)
    requires Inside(doc) && doc.tokens != []
  {
    var r := Span(doc.tokens[0]);
    if !Resolve(DEVICE_ID, r, doc).Place? || !Resolve(FUNCTION_GROUP, r, doc).Place? then Unreadable
    else match Result(DEVICE_ID, r, doc)
      case None => Unreadable
      case Some(id) =>
        var group := match Result(FUNCTION_GROUP, r, doc) case Some(g) => g case None => id;
        if |id| >= TEMP_BUFFER_SIZE || |group| >= TEMP_BUFFER_SIZE then Unreadable
        else Record(id, group, doc.text)
  }

  // ---------- Reading undoes writing ----------

  lemma ContentOf(text: string, junk: seq<Byte>)
    requires Plain(text)
    ensures var data := Bytes(text) + [0] + junk; Content(data) == text && |Field(data)| < |data|
  {
    CharsOfBytes(text);
    FieldThen(Bytes(text), junk);
  }

  /** The data of a command package: the text and its NUL. */
  function CommandData(kind: C.Type, id: string, value: string): (r: seq<Byte>) {
    Bytes(Print(C.Encoded(kind, id, value))) + [0]
  }

  lemma FieldPlain(key: string, value: string, rest: Items)
    requires Plain(key) && Plain(value) && Plain(PrintItems(rest))
    ensures Plain(PrintItems(Item("", Key(key, "", ""), Leaf(false, value), "", rest)))
  {
    hide PrintItems;
    C.FieldText(key, value, rest);
  }

  lemma AtomPlain(t: string)
    requires AtomOk(t)
    ensures Plain(t)
  {
  }

  lemma TreePlain(t: string, id: string, key: string, value: string)
    requires Plain(t) && Plain(id) && Plain(key) && Plain(value)
    ensures Plain(Print(C.Tree(t, id, key, value)))
  {
    hide PrintItems;
    hide Print;
    var items := C.Body(t, id, key, value);
    NilPlain();
    FieldPlain(key, value, Nil);
    FieldPlain("ID", id, items.rest.rest);
    FieldPlain("Type", t, items.rest);
    C.PrintNode(items);
    C.RootText(C.Inner(t, id, key, value));
    C.PrintNode(Item("", Key("IOTCMD", "", ""), C.Inner(t, id, key, value), "", Nil));
  }

  lemma NilPlain()
    ensures Plain(PrintItems(Nil))
  {
  }

  /** A command package with legal short fields is read as the command it was made from. */
  lemma CommandIsRead(kind: C.Type, id: string, value: string)
    requires !kind.NoType? && AtomOk(id) && AtomOk(value) && id != "Value"
    requires |id| < C.COMMAND_CHAR_SIZE && |value| < C.COMMAND_CHAR_SIZE
    ensures ReadManagement(CommandData(kind, id, value)) == Cmd(kind, id, value)
  {
    hide Print;
    hide Toks;
    hide AtomOk;
    hide StringOk;
    hide C.Field;
    hide C.Inner;
    hide C.Readable;
    hide Field;
    var t := C.TypeText(kind);
    var root := C.Tree(t, id, "Value", value);
    var text := Print(root);
    C.ValueTextOk();
    AtomPlain(id);
    AtomPlain(value);
    TreePlain(t, id, "Value", value);
    ContentOf(text, []);
    assert CommandData(kind, id, value) == Bytes(text) + [0] + [];
    C.CommandRoundTrip(kind, id, value);
    C.EncodedReadable(kind, id, value);
    C.EncodedParses(kind, id, "Value", value);
    C.TreeLength(t, id, "Value", value);
    FirstKey("", root, "");
  }

  /** The second token of a document with a key at the front of its root object is that key. */
  lemma FirstKey(before: string, root: Value, after: string)
    requires root.Node? && root.items.Item? && root.items.tag.Key?
    ensures var doc := Printed(before, root, after);
            Inside(doc) && |doc.tokens| > 1 && TextOf(doc.text, doc.tokens[1]) == root.items.tag.text
  {
    hide Print;
    hide PrintItems;
    hide Toks;
    hide ItemToks;
    var doc := Printed(before, root, after);
    PrintedInside(before, root, after);
    RootSub(before, root, after);
    NodeItems(doc, 0, root, |before|);
    ItemTag(doc, 1, root.items, |before| + 1);
  }

  /** A registration document, with any spacing and any further fields, is read as its device id and
      function group. */
  lemma RegistrationIsRead(before: string, root: Value, after: string, junk: seq<Byte>)
    requires Spaces(before) && Spaces(after) && Ok(root) && |Toks(root, |before|)| <= 128
    requires root.Node? && root.items.Item? && root.items.tag.Key? && root.items.tag.text == "IOTDEV"
    requires PathOk(root, ["IOTDEV", "DeviceID"]) && PathOk(root, ["IOTDEV", "FunctionGroup"])
    requires var text := before + Print(root) + after; Plain(text) && |text| + 1 + |junk| <= 1024
    ensures Walk(root, ["IOTDEV", "DeviceID"]).Some? && Walk(root, ["IOTDEV", "FunctionGroup"]).Some?
    ensures var text := before + Print(root) + after;
            var id, group := SourceText(Walk(root, ["IOTDEV", "DeviceID"]).value), SourceText(Walk(root, ["IOTDEV", "FunctionGroup"]).value);
            |id| < 200 && |group| < 200 ==>
              ReadManagement(Bytes(text) + [0] + junk) == Record(id, group, text)
  {
    hide Print;
    hide Toks;
    hide Run;
    hide PathOk;
    hide Walk;
    hide Resolve;
    hide Result;
    hide SourceText;
    hide Field;
    var text := before + Print(root) + after;
    ContentOf(text, junk);
    ParsingUndoesPrinting(before, root, after, MAX_TOKENS);
    assert C.Parsed(text) == Printed(before, root, after);
    FirstKey(before, root, after);
    LookupAgreesWithTree(before, root, after, DEVICE_ID);
    LookupAgreesWithTree(before, root, after, FUNCTION_GROUP);
    GetValueAgreesWithTree(before, root, after, DEVICE_ID);
    GetValueAgreesWithTree(before, root, after, FUNCTION_GROUP);
  }

  /** The group field keeps what the buffer held before, the device id, if the document names none. */
  lemma RegistrationWithoutGroup(before: string, root: Value, after: string, junk: seq<Byte>)
    requires Spaces(before) && Spaces(after) && Ok(root) && |Toks(root, |before|)| <= 128
    requires root.Node? && !root.isArray && root.items.Item? && root.items.tag.Key? && root.items.tag.text == "IOTDEV"
    requires PathOk(root, ["IOTDEV", "DeviceID"])
    requires var inner := root.items.value; inner.Node? && !inner.isArray && !Mentions(inner, "FunctionGroup")
    requires var text := before + Print(root) + after; Plain(text) && |text| + 1 + |junk| <= 1024
    ensures Walk(root, ["IOTDEV", "DeviceID"]).Some?
    ensures var text := before + Print(root) + after;
            var id := SourceText(Walk(root, ["IOTDEV", "DeviceID"]).value);
            |id| < 200 ==> ReadManagement(Bytes(text) + [0] + junk) == Record(id, id, text)
  {
    hide Print;
    hide Toks;
    hide Run;
    hide PathOk;
    hide Walk;
    hide Resolve;
    hide Result;
    hide SourceText;
    hide Field;
    hide Mentions;
    var text := before + Print(root) + after;
    ContentOf(text, junk);
    ParsingUndoesPrinting(before, root, after, MAX_TOKENS);
    assert C.Parsed(text) == Printed(before, root, after);
    FirstKey(before, root, after);
    LookupAgreesWithTree(before, root, after, DEVICE_ID);
    GetValueAgreesWithTree(before, root, after, DEVICE_ID);
    GroupMissing(before, root, after);
  }

  lemma GroupMissing(before: string, root: Value, after: string)
    requires root.Node? && !root.isArray && root.items.Item? && root.items.tag.Key? && root.items.tag.text == "IOTDEV"
    requires var inner := root.items.value; inner.Node? && !inner.isArray && !Mentions(inner, "FunctionGroup")
    ensures var doc := Printed(before, root, after);
            && Inside(doc) && doc.tokens != [] && Resolve(FUNCTION_GROUP, Span(doc.tokens[0]), doc).Place?
            && Result(FUNCTION_GROUP, Span(doc.tokens[0]), doc) == None
  {
    hide Print;
    hide Toks;
    hide Search;
    hide Sub;
    hide Mentions;
    var doc := Printed(before, root, after);
    PrintedInside(before, root, after);
    RootSub(before, root, after);
    var i, p := FollowStep(doc, 0, root, |before|, "IOTDEV");
    SearchIsFirstRead(doc, i, root.items.value, p, "FunctionGroup");
    assert FUNCTION_GROUP[1..] == ["FunctionGroup"] && ["FunctionGroup"][1..] == [];
  }

  /** A document with any other first key is none the manager knows. */
  lemma OtherDocument(before: string, root: Value, after: string, junk: seq<Byte>)
    requires Spaces(before) && Spaces(after) && Ok(root) && |Toks(root, |before|)| <= 128
    requires root.Node? && root.items.Item? && root.items.tag.Key? && |root.items.tag.text| < 50
    requires root.items.tag.text != "IOTDEV" && root.items.tag.text != "IOTCMD"
    requires var text := before + Print(root) + after; Plain(text) && |text| + 1 + |junk| <= 1024
    ensures ReadManagement(Bytes(before + Print(root) + after) + [0] + junk) == Unknown
  {
    hide Print;
    hide Toks;
    hide Run;
    hide Field;
    var text := before + Print(root) + after;
    ContentOf(text, junk);
    ParsingUndoesPrinting(before, root, after, MAX_TOKENS);
    FirstKey(before, root, after);
  }

  // ---------- Data that do not tokenize ----------

  /** A root object's front up to its first key. */
  function Opening(before: string, gap: string, name: string): (r: string) {
    before + "{" + gap + "\"" + name + "\""
  }

  /** A name that has been read stays read, whatever follows and however the run ends. */
  lemma NameStays(before: string, gap: string, name: string, rest: string, cap: nat)
    requires Spaces(before) && Spaces(gap) && StringOk(name) && cap >= 2
    ensures var text := Opening(before, gap, name) + rest;
            var st := Run(text, cap, START).1;
            && |st.tokens| >= 2 && 0 <= st.tokens[1].start <= st.tokens[1].end <= |text|
            && Pattern(text, st.tokens[1]) == name
  {
    hide Run;
    hide Spaces;
    hide StringOk;
    hide At;
    hide Opening;
    var text := Opening(before, gap, name) + rest;
    OpeningText(before, gap, name, rest);
    RunSpaces(text, cap, START, before);
    var st1 := START.(pos := |before|);
    RunOpen(text, cap, st1, '{');
    var st2 := Opened(st1, false);
    RunSpaces(text, cap, st2, gap);
    var st3 := st2.(pos := |before| + 1 + |gap|);
    RunString(text, cap, st3, name);
    var st4 := After(st3, Leaf(true, name));
    NameRead(st3, name);
    C.RunKeeps(text, cap, st4);
  }

  lemma NameRead(st: State, name: string)
    requires st.Valid() && |st.tokens| == 1
    ensures var ts := After(st, Leaf(true, name)).tokens;
            |ts| == 2 && ts[1] == Token(String, st.pos + 1, st.pos + 1 + |name|, 0)
  {
  }

  lemma OpeningText(before: string, gap: string, name: string, rest: string)
    ensures var text := Opening(before, gap, name) + rest;
            var q := |before| + 1 + |gap|;
            && At(text, 0, before) && |before| < |text| && text[|before|] == '{' && At(text, |before| + 1, gap)
            && At(text, q, "\"" + name + "\"") && q + 1 + |name| <= |text| && text[q + 1..q + 1 + |name|] == name
  {
    var text := Opening(before, gap, name) + rest;
    var key := "\"" + name + "\"";
    assert text == before + ("{" + (gap + (key + rest)));
    assert text[|before| + 1..] == gap + (key + rest);
    assert text[|before| + 1 + |gap|..] == key + rest;
  }

  /** Such data are read by their name alone: a command has no type, a registration reads unset
      memory, and any other name is none the manager knows. */
  lemma BrokenByName(before: string, gap: string, name: string, rest: string, junk: seq<Byte>)
    requires Spaces(before) && Spaces(gap) && StringOk(name) && |name| < TEMP_STR_LEN
    requires var text := Opening(before, gap, name) + rest;
             Plain(text) && |text| + 1 + |junk| <= MAX_CONTENT && !Run(text, MAX_TOKENS, START).0.Count?
    ensures var text := Opening(before, gap, name) + rest;
            ReadManagement(Bytes(text) + [0] + junk)
            == if name == "IOTCMD" then Cmd(C.NoType, "", "") else if name == "IOTDEV" then Unreadable else Unknown
  {
    hide Run;
    hide Field;
    hide StringOk;
    hide Spaces;
    hide Opening;
    var text := Opening(before, gap, name) + rest;
    ContentOf(text, junk);
    NameStays(before, gap, name, rest, MAX_TOKENS);
    NothingReadable(text);
  }

  lemma NothingReadable(text: string)
    requires !Run(text, MAX_TOKENS, START).0.Count?
    ensures C.Readable(text) && forall name :: C.Field(text, name) == ""
  {
    hide Run;
    C.ParsedInside(text);
    C.NothingFound(["IOTCMD", "Type"], Range(0, 0), C.Parsed(text));
  }

  /** Data that do not tokenize are never a registration and never carry a management command. */
  lemma UntokenizedIsNothing(data: seq<Byte>)
    requires !Run(Content(data), MAX_TOKENS, START).0.Count?
    ensures ReadManagement(data) in {Unreadable, Unknown, Cmd(C.NoType, "", "")}
  {
    hide Run;
    hide Content;
    NothingReadable(Content(data));
  }

  /** A command cut off behind its second bracket does not tokenize. */
  lemma CutOffCommand()
    ensures Run("{\"IOTCMD\":{", MAX_TOKENS, START).0.Part?
    ensures ReadManagement(Bytes("{\"IOTCMD\":{") + [0]) == Cmd(C.NoType, "", "")
  {
    hide Run;
    hide StringOk;
    hide ReadManagement;
    hide Spaces;
    hide LastOpen;
    var text := "{\"IOTCMD\":{";
    C.FixedTextsOk(C.NoType);
    SpacesNothing();
    C.TagTextLength();
    assert text[1..10] == PrintTag(C.ROOT_TAG);
    RunOpen(text, MAX_TOKENS, START, '{');
    var st1 := Opened(START, false);
    RunTag(text, MAX_TOKENS, st1, C.ROOT_TAG);
    var st2 := AfterTag(st1, C.ROOT_TAG);
    RunOpen(text, MAX_TOKENS, st2, '{');
    StaysOpen(text, MAX_TOKENS, Opened(st2, false), 2);
    assert text == Opening("", "", "IOTCMD") + ":{";
    BrokenByName("", "", "IOTCMD", ":{", []);
    assert Bytes(text) + [0] + [] == Bytes(text) + [0];
  }

  lemma SpacesNothing()
    ensures Spaces("")
  {
  }

  /** The text ends while a bracket is open. */
  lemma StaysOpen(text: string, cap: nat, st: State, c: nat)
    requires Innermost(st, c) && st.pos == |text|
    ensures Run(text, cap, st).0.Part?
  {
  }
}
