/**
 Concrete syntax trees of JSON texts, whitespace included, how they print, the token table
 each one stands for, and the proof that tokenizing a printed tree gives exactly that table.

 Objects and arrays share one constructor: an item may carry a key or not, in either kind of
 bracket. The tokenizer does not care, so the theorems cover more than well-formed JSON.
 */
module JsonTree {
  import opened Jsmn

  datatype Value =
    | Leaf(quoted: bool, text: string)
    | Node(isArray: bool, items: Items, pad: string)

  datatype Items =
    | Nil
    | Item(pre: string, tag: Tag, value: Value, post: string, rest: Items)

  datatype Tag =
    | NoKey
    | Key(text: string, gap1: string, gap2: string)

  // ---------- Printing ----------

  function PrintTag(l: Tag): (r: string) {
    match l
    case NoKey => ""
    case Key(text, gap1, gap2) => "\"" + text + "\"" + gap1 + ":" + gap2
  }

  function Print(v: Value): (r: string)
    decreases v, 2
  {
    match v
    case Leaf(quoted, text) => if quoted then "\"" + text + "\"" else text
    case Node(isArray, items, pad) =>
      (if isArray then "[" else "{") + PrintItems(items) + pad + (if isArray then "]" else "}")
  }

  function PrintItems(items: Items): (r: string)
    decreases items, 1
  {
    match items
    case Nil => ""
    case Item(pre, tag, value, post, rest) =>
      PrintItem(items) + (if rest.Nil? then "" else "," + PrintItems(rest))
  }

  /** The first item, without the comma after it. */
  function PrintItem(items: Items): (r: string)
    requires items.Item?
    decreases items, 0
  {
    items.pre + PrintTag(items.tag) + Print(items.value) + items.post
  }

  // ---------- Well-formedness ----------

  predicate Spaces(ws: string) {
    forall i :: 0 <= i < |ws| ==> IsSpace(ws[i])
  }

  /** A string body: no NUL, no quote that a backslash does not skip, no dangling backslash. */
  predicate StringOk(t: string) {
    if t == "" then true
    else if t[0] == '\"' || t[0] == '\0' then false
    else if t[0] == '\\' then |t| >= 2 && StringOk(t[2..])
    else StringOk(t[1..])
  }

  /** An unquoted atom: printable, no delimiter, and nothing special in front. */
  predicate AtomOk(t: string) {
    && t != ""
    && t[0] != '{' && t[0] != '[' && t[0] != '\"' && t[0] != ':'
    && (forall i :: 0 <= i < |t| ==> IsPrintable(t[i]) && !IsDelimiter(t[i]))
  }

  predicate TagOk(l: Tag) {
    l.Key? ==> StringOk(l.text) && Spaces(l.gap1) && Spaces(l.gap2)
  }

  predicate Ok(v: Value) {
    match v
    case Leaf(quoted, text) => if quoted then StringOk(text) else AtomOk(text)
    case Node(_, items, pad) => ItemsOk(items) && Spaces(pad)
  }

  predicate ItemsOk(items: Items) {
    match items
    case Nil => true
    case Item(pre, tag, value, post, rest) =>
      Spaces(pre) && TagOk(tag) && Ok(value) && Spaces(post) && ItemsOk(rest)
  }

  // ---------- The token table ----------

  function Length(items: Items): (r: nat) {
    match items
    case Nil => 0
    case Item(_, _, _, _, rest) => 1 + Length(rest)
  }

  function TagToks(l: Tag, p: int): (r: seq<Token>) {
    match l
    case NoKey => []
    case Key(text, _, _) => [Token(String, p + 1, p + 1 + |text|, 1)]
  }

  /** The tokens of `v` printed from position `p` on, in preorder. The size of an object or
      array is its number of items, of a key 1, of any other string or atom 0. */
  function Toks(v: Value, p: int): (r: seq<Token>)
    decreases v, 2
  {
    match v
    case Leaf(quoted, text) =>
      if quoted then [Token(String, p + 1, p + 1 + |text|, 0)] else [Token(Primitive, p, p + |text|, 0)]
    case Node(isArray, items, _) =>
      [Token(if isArray then Array else Object, p, p + |Print(v)|, Length(items))] + ItemToks(items, p + 1)
  }

  function ItemToks(items: Items, p: int): (r: seq<Token>)
    decreases items, 1
  {
    match items
    case Nil => []
    case Item(pre, tag, value, post, rest) =>
      OneItemToks(items, p) + ItemToks(rest, p + |PrintItem(items)| + 1)
  }

  function OneItemToks(items: Items, p: int): (r: seq<Token>)
    requires items.Item?
    decreases items, 0
  {
    var q := p + |items.pre|;
    TagToks(items.tag, q) + Toks(items.value, q + |PrintTag(items.tag)|)
  }

  // ---------- Texts at positions ----------

  ghost predicate At(js: string, p: nat, t: string) {
    p + |t| <= |js| && js[p..p + |t|] == t
  }

  lemma AtSplit(js: string, p: nat, a: string, b: string)
    requires At(js, p, a + b)
    ensures At(js, p, a) && At(js, p + |a|, b)
  {
    var w := js[p..p + |a + b|];
    assert w[..|a|] == a && w[|a|..] == b;
  }

  lemma AtIndex(js: string, p: nat, t: string, i: nat)
    requires At(js, p, t) && i < |t|
    ensures js[p + i] == t[i]
  {
    assert js[p..p + |t|][i] == t[i];
  }

  lemma {:induction false} RunSpaces(js: string, cap: nat, st: State, ws: string)
    requires st.Valid() && Spaces(ws) && At(js, st.pos, ws)
    ensures Run(js, cap, st) == Run(js, cap, st.(pos := st.pos + |ws|))
    decreases |ws|
  {
    if ws != "" {
      AtIndex(js, st.pos, ws, 0);
      AtSplit(js, st.pos, ws[..1], ws[1..]) by { assert ws == ws[..1] + ws[1..]; }
      RunSpaces(js, cap, st.(pos := st.pos + 1), ws[1..]);
    }
  }

  lemma {:induction false} QuoteEndAt(js: string, p: nat, t: string)
    requires StringOk(t) && At(js, p, t + "\"")
    ensures QuoteEnd(js, p) == p + |t|
    decreases |t|
  {
    AtIndex(js, p, t + "\"", 0);
    if t != "" {
      var k := if t[0] == '\\' then 2 else 1;
      assert t + "\"" == t[..k] + (t[k..] + "\"");
      AtSplit(js, p, t[..k], t[k..] + "\"");
      QuoteEndAt(js, p + k, t[k..]);
    }
  }

  /** An atom may stop here. */
  predicate Stops(js: string, p: nat) {
    p == |js| || (p < |js| && (js[p] == '\0' || IsDelimiter(js[p])))
  }

  lemma {:induction false} AtomEndAt(js: string, p: nat, t: string)
    requires At(js, p, t) && Stops(js, p + |t|)
    requires forall i :: 0 <= i < |t| ==> IsPrintable(t[i]) && !IsDelimiter(t[i])
    ensures AtomEnd(js, p) == p + |t|
    decreases |t|
  {
    if t != "" {
      AtIndex(js, p, t, 0);
      AtSplit(js, p, t[..1], t[1..]) by { assert t == t[..1] + t[1..]; }
      AtomEndAt(js, p + 1, t[1..]);
    }
  }

  // ---------- Token table lemmas ----------

  ghost predicate AllClosed(ts: seq<Token>) {
    forall i :: 0 <= i < |ts| ==> !ts[i].IsOpen()
  }

  lemma {:induction false} ToksClosed(v: Value, p: nat)
    ensures AllClosed(Toks(v, p)) && Toks(v, p) != []
  {
    match v
    case Leaf(_, _) =>
    case Node(_, items, _) => ItemToksClosed(items, p + 1);
  }

  lemma {:induction false} ItemToksClosed(items: Items, p: nat)
    ensures AllClosed(ItemToks(items, p))
    ensures items.Item? ==> AllClosed(OneItemToks(items, p))
  {
    hide Print;
    hide PrintItem;
    hide PrintTag;
    hide Toks;
    match items
    case Nil =>
    case Item(pre, tag, value, post, rest) =>
      ToksClosed(value, p + |pre| + |PrintTag(tag)|);
      ItemToksClosed(rest, p + |PrintItem(items)| + 1);
  }

  lemma LastOpenAppend(ts: seq<Token>, us: seq<Token>)
    requires AllClosed(us)
    ensures LastOpen(ts + us) == LastOpen(ts)
  {
    LastOpenIsLast(ts + us, LastOpen(ts));
  }

  function AddSize(ts: seq<Token>, i: nat, k: nat): (r: seq<Token>)
    requires i < |ts|
    ensures |r| == |ts|
  {
    ts[i := ts[i].(size := ts[i].size + k)]
  }

  // ---------- Parsing undoes printing ----------

  /** Where a printed value takes the tokenizer. A bracket pair leaves the enclosing open
      bracket as the superior token; a scalar leaves the superior token alone. */
  function After(st: State, v: Value): (r: State)
    requires st.Valid()
    ensures r.Valid() && r.pos == st.pos + |Print(v)| && |r.tokens| == |st.tokens| + |Toks(v, st.pos)|
  {
    var ts := Bump(st.tokens, st.super) + Toks(v, st.pos);
    State(st.pos + |Print(v)|, ts, if v.Leaf? then st.super else LastOpen(st.tokens), st.count + |Toks(v, st.pos)|)
  }

  lemma RunString(js: string, cap: nat, st: State, text: string)
    requires st.Valid() && StringOk(text) && At(js, st.pos, "\"" + text + "\"") && |st.tokens| < cap
    ensures Run(js, cap, st) == Run(js, cap, After(st, Leaf(true, text)))
  {
    hide StringOk;
    hide QuoteEnd;
    hide LastOpen;
    AtIndex(js, st.pos, "\"" + text + "\"", 0);
    assert "\"" + text + "\"" == "\"" + (text + "\"");
    AtSplit(js, st.pos, "\"", text + "\"");
    QuoteEndAt(js, st.pos + 1, text);
  }

  lemma RunAtom(js: string, cap: nat, st: State, text: string)
    requires st.Valid() && AtomOk(text) && At(js, st.pos, text) && |st.tokens| < cap
    requires Stops(js, st.pos + |text|)
    ensures Run(js, cap, st) == Run(js, cap, After(st, Leaf(false, text)))
  {
    AtIndex(js, st.pos, text, 0);
    AtomEndAt(js, st.pos, text);
  }

  /** `c` is the innermost open bracket. */
  ghost predicate Innermost(st: State, c: nat) {
    st.Valid() && c < |st.tokens| && LastOpen(st.tokens) == c
  }

  /** The state after the closing bracket of `c`, its items' tokens appended. */
  function Closed(ts: seq<Token>, c: nat, n: nat, own: seq<Token>, end: nat, count: nat): (r: State)
    requires c < |ts|
  {
    var base := SetEnd(AddSize(ts, c, n), c, end);
    State(end, base + own, LastOpen(base), count)
  }

  lemma RunClose(js: string, cap: nat, st: State, c: nat, pad: string, close: char)
    requires Innermost(st, c) && Spaces(pad) && (close == '}' || close == ']')
    requires st.tokens[c].kind == Closing(close) && At(js, st.pos, pad + [close])
    ensures Run(js, cap, st) == Run(js, cap, Closed(st.tokens, c, 0, [], st.pos + |pad| + 1, st.count))
  {
    hide Run;
    hide Closed;
    AtSplit(js, st.pos, pad, [close]);
    RunSpaces(js, cap, st, pad);
    CloseHere(js, cap, st.(pos := st.pos + |pad|), c, close);
  }

  lemma CloseHere(js: string, cap: nat, st: State, c: nat, close: char)
    requires Innermost(st, c) && (close == '}' || close == ']')
    requires st.tokens[c].kind == Closing(close) && At(js, st.pos, [close])
    ensures Run(js, cap, st) == Run(js, cap, Closed(st.tokens, c, 0, [], st.pos + 1, st.count))
  {
    AtIndex(js, st.pos, [close], 0);
    var ts := SetEnd(st.tokens, c, st.pos + 1);
    assert ts + [] == ts;
    assert AddSize(st.tokens, c, 0) == st.tokens;
  }

  /** Appending the first item's tokens before closing is the same as counting it at the end. */
  lemma ClosedAfterItem(ts: seq<Token>, c: nat, own: seq<Token>, n: nat, more: seq<Token>, end: nat, count: nat)
    requires c < |ts| && AllClosed(own)
    ensures Closed(AddSize(ts, c, 1) + own, c, n, more, end, count) == Closed(ts, c, n + 1, own + more, end, count)
  {
    var base := SetEnd(AddSize(ts, c, n + 1), c, end);
    var base1 := SetEnd(AddSize(AddSize(ts, c, 1) + own, c, n), c, end);
    assert base1 == base + own;
    assert base + own + more == base + (own + more);
    LastOpenAppend(base, own);
  }

  lemma RunColon(js: string, cap: nat, st: State)
    requires st.Valid() && st.pos < |js| && js[st.pos] == ':'
    ensures Run(js, cap, st) == Run(js, cap, st.(pos := st.pos + 1, super := |st.tokens| - 1))
  {
  }

  lemma KeyText(tag: Tag)
    requires tag.Key?
    ensures Print(Leaf(true, tag.text)) == "\"" + tag.text + "\""
    ensures PrintTag(tag) == Print(Leaf(true, tag.text)) + (tag.gap1 + (":" + tag.gap2))
  {
  }

  /** A colon with whitespace around it makes the last token the super token. */
  lemma RunGaps(js: string, cap: nat, st: State, gap1: string, gap2: string)
    requires st.Valid() && Spaces(gap1) && Spaces(gap2) && At(js, st.pos, gap1 + (":" + gap2))
    ensures Run(js, cap, st)
            == Run(js, cap, st.(pos := st.pos + |gap1| + 1 + |gap2|, super := |st.tokens| - 1))
  {
    hide Run;
    hide Spaces;
    AtSplit(js, st.pos, gap1, ":" + gap2);
    RunSpaces(js, cap, st, gap1);
    var st2 := st.(pos := st.pos + |gap1|);
    AtIndex(js, st2.pos, ":" + gap2, 0);
    AtSplit(js, st2.pos, ":", gap2);
    RunColon(js, cap, st2);
    RunSpaces(js, cap, st2.(pos := st2.pos + 1, super := |st2.tokens| - 1), gap2);
  }

  lemma AfterKey(st: State, tag: Tag)
    requires st.Valid() && tag.Key?
    ensures var st1 := After(st, Leaf(true, tag.text));
            st1.(pos := st1.pos + |tag.gap1| + 1 + |tag.gap2|, super := |st1.tokens| - 1) == AfterTag(st, tag)
  {
  }

  lemma NoKeyAfter(st: State, tag: Tag)
    requires st.Valid() && tag.NoKey?
    ensures AfterTag(st, tag) == st
  {
  }

  lemma RunKey(js: string, cap: nat, st: State, tag: Tag)
    requires st.Valid() && tag.Key? && TagOk(tag) && At(js, st.pos, PrintTag(tag)) && |st.tokens| < cap
    ensures Run(js, cap, st) == Run(js, cap, AfterTag(st, tag))
  {
    hide Run;
    hide Print;
    hide PrintTag;
    hide After;
    hide AfterTag;
    hide At;
    hide StringOk;
    hide Spaces;
    hide Toks;
    var t := Leaf(true, tag.text);
    KeyText(tag);
    AtSplit(js, st.pos, Print(t), tag.gap1 + (":" + tag.gap2));
    RunString(js, cap, st, tag.text);
    RunGaps(js, cap, After(st, t), tag.gap1, tag.gap2);
    AfterKey(st, tag);
  }

  lemma RunTag(js: string, cap: nat, st: State, tag: Tag)
    requires st.Valid() && TagOk(tag) && At(js, st.pos, PrintTag(tag)) && (tag.Key? ==> |st.tokens| < cap)
    ensures Run(js, cap, st) == Run(js, cap, AfterTag(st, tag))
  {
    hide Run;
    hide PrintTag;
    hide AfterTag;
    if tag.Key? {
      RunKey(js, cap, st, tag);
    } else {
      NoKeyAfter(st, tag);
    }
  }

  function AfterTag(st: State, tag: Tag): (r: State)
    requires st.Valid()
    ensures r.Valid() && r.pos == st.pos + |PrintTag(tag)| && |r.tokens| == |st.tokens| + |TagToks(tag, st.pos)|
  {
    match tag
    case NoKey => st
    case Key(text, _, _) =>
      State(st.pos + |PrintTag(tag)|,
            Bump(st.tokens, st.super) + [Token(String, st.pos + 1, st.pos + 1 + |text|, 0)],
            |st.tokens|, st.count + 1)
  }

  /** After an item the innermost bracket has one more child, and the item's tokens follow. */
  function AfterItem(st: State, items: Items): (r: State)
    requires st.Valid() && st.super >= 0 && items.Item?
    ensures r.Valid() && r.pos == st.pos + |PrintItem(items)|
    ensures |r.tokens| == |st.tokens| + |OneItemToks(items, st.pos)|
  {
    var own := OneItemToks(items, st.pos);
    State(st.pos + |PrintItem(items)|, AddSize(st.tokens, st.super, 1) + own,
          if items.value.Leaf? && items.tag.Key? then |st.tokens| else st.super,
          st.count + |own|)
  }

  lemma StopsAtSpaces(js: string, p: nat, ws: string)
    requires Spaces(ws) && At(js, p, ws) && Stops(js, p + |ws|)
    ensures Stops(js, p)
  {
    if ws != "" {
      AtIndex(js, p, ws, 0);
    }
  }

  /** Where the parts of a printed item lie. */
  lemma ItemPlaces(js: string, p: nat, items: Items)
    requires items.Item? && At(js, p, PrintItem(items))
    ensures var Item(pre, tag, value, post, _) := items;
            var q := p + |pre|;
            var r := q + |PrintTag(tag)|;
            var s := r + |Print(value)|;
            && At(js, p, pre) && At(js, q, PrintTag(tag)) && At(js, r, Print(value)) && At(js, s, post)
            && s + |post| == p + |PrintItem(items)|
  {
    hide Print;
    hide PrintTag;
    var Item(pre, tag, value, post, _) := items;
    assert PrintItem(items) == pre + (PrintTag(tag) + (Print(value) + post));
    AtSplit(js, p, pre, PrintTag(tag) + (Print(value) + post));
    AtSplit(js, p + |pre|, PrintTag(tag), Print(value) + post);
    AtSplit(js, p + |pre| + |PrintTag(tag)|, Print(value), post);
  }

  lemma {:induction false} RunItem(js: string, cap: nat, st: State, items: Items)
    requires items.Item? && ItemsOk(items) && st.super >= 0 && Innermost(st, st.super)
    requires At(js, st.pos, PrintItem(items)) && Stops(js, st.pos + |PrintItem(items)|)
    requires |st.tokens| + |OneItemToks(items, st.pos)| <= cap
    ensures Run(js, cap, st) == Run(js, cap, AfterItem(st, items))
    ensures Innermost(AfterItem(st, items), st.super)
    decreases items, 0
  {
    hide Run;
    hide Print;
    hide PrintItem;
    hide PrintTag;
    hide Toks;
    hide Ok;
    hide LastOpen;
    hide After;
    hide AfterTag;
    hide AfterItem;
    var Item(pre, tag, value, post, _) := items;
    ItemPlaces(js, st.pos, items);
    var st1 := st.(pos := st.pos + |pre|);
    var st2 := AfterTag(st1, tag);
    var st3 := After(st2, value);
    ToksNonempty(value, st2.pos);
    StopsAtSpaces(js, st3.pos, post);
    RunSpaces(js, cap, st, pre);
    RunTag(js, cap, st1, tag);
    RunValue(js, cap, st2, value);
    RunSpaces(js, cap, st3, post);
    AfterItemIs(st, items);
  }

  lemma ToksNonempty(v: Value, p: int)
    ensures |Toks(v, p)| > 0
  {
  }

  /** Tag and value together: the states along the item compose to AfterItem. */
  lemma AfterItemIs(st: State, items: Items)
    requires items.Item? && st.super >= 0 && Innermost(st, st.super)
    ensures var st2 := AfterTag(st.(pos := st.pos + |items.pre|), items.tag);
            var st3 := After(st2, items.value);
            st3.(pos := st3.pos + |items.post|) == AfterItem(st, items)
    ensures Innermost(AfterItem(st, items), st.super)
  {
    hide Print;
    hide PrintTag;
    hide Toks;
    hide LastOpen;
    var st1 := st.(pos := st.pos + |items.pre|);
    var st2 := AfterTag(st1, items.tag);
    var b := AddSize(st.tokens, st.super, 1);
    assert b == Bump(st.tokens, st.super);
    assert Bump(st2.tokens, st2.super) == b + TagToks(items.tag, st1.pos);
    ItemToksClosed(items, st.pos);
    assert After(st2, items.value).tokens == b + OneItemToks(items, st.pos);
    BumpKeepsLastOpen(st.tokens, st.super);
    LastOpenAppend(b, OneItemToks(items, st.pos));
    if items.tag.Key? {
      LastOpenAppend(b, [Token(String, st1.pos + 1, st1.pos + 1 + |items.tag.text|, 0)]);
    }
  }

  /** What the rest of the proof needs to know about the state after an item. */
  lemma AfterItemFacts(st: State, items: Items)
    requires items.Item? && st.super >= 0 && Innermost(st, st.super)
    ensures var r := AfterItem(st, items);
            && r.tokens == AddSize(st.tokens, st.super, 1) + OneItemToks(items, st.pos)
            && r.tokens[st.super].kind == st.tokens[st.super].kind
            && r.super >= 0 && (r.super == st.super || !r.tokens[r.super].IsContainer())
            && r.count == st.count + |OneItemToks(items, st.pos)|
            && AllClosed(OneItemToks(items, st.pos))
  {
    hide Print;
    hide PrintItem;
    hide PrintTag;
    hide Toks;
    hide LastOpen;
    ItemToksClosed(items, st.pos);
  }

  /** The state after a bracket's remaining items, padding and closing character. */
  function Finished(st: State, items: Items, pad: string): (r: State)
    requires st.Valid() && st.super >= 0
  {
    var own := ItemToks(items, st.pos);
    Closed(st.tokens, st.super, Length(items), own, st.pos + |PrintItems(items)| + |pad| + 1, st.count + |own|)
  }

  /** Finishing after one item and a comma is finishing all of them. */
  lemma FinishedAfterItem(st: State, items: Items, pad: string)
    requires items.Item? && items.rest.Item? && st.super >= 0 && Innermost(st, st.super)
    ensures var st3 := AfterItem(st, items).(super := st.super);
            Finished(st3.(pos := st3.pos + 1), items.rest, pad) == Finished(st, items, pad)
  {
    hide Print;
    hide PrintItem;
    hide OneItemToks;
    hide LastOpen;
    hide Closed;
    hide AddSize;
    AfterItemFacts(st, items);
    var own := OneItemToks(items, st.pos);
    var q := st.pos + |PrintItem(items)| + 1;
    var more := ItemToks(items.rest, q);
    ClosedAfterItem(st.tokens, st.super, own, Length(items.rest), more,
                    q + |PrintItems(items.rest)| + |pad| + 1, st.count + |own| + |more|);
  }

  lemma FinishedLast(st: State, items: Items, pad: string)
    requires items.Item? && items.rest.Nil? && st.super >= 0 && Innermost(st, st.super)
    ensures var st2 := AfterItem(st, items);
            Closed(st2.tokens, st.super, 0, [], st2.pos + |pad| + 1, st2.count) == Finished(st, items, pad)
  {
    hide Print;
    hide PrintItem;
    hide OneItemToks;
    hide LastOpen;
    hide Closed;
    hide AddSize;
    AfterItemFacts(st, items);
    var own := OneItemToks(items, st.pos);
    assert PrintItems(items) == PrintItem(items);
    assert own + [] == own && ItemToks(items, st.pos) == own;
    assert Length(items) == 1;
    ClosedAfterItem(st.tokens, st.super, own, 0, [], st.pos + |PrintItem(items)| + |pad| + 1, st.count + |own|);
  }

  /** Where the first of the printed items lies, and what comes after it. */
  lemma ItemsPlaces(js: string, p: nat, items: Items, tail: string)
    requires items.Item? && tail != "" && At(js, p, PrintItems(items) + tail)
    ensures var q := p + |PrintItem(items)|;
            && At(js, p, PrintItem(items)) && q < |js|
            && (items.rest.Nil? ==> At(js, q, tail) && js[q] == tail[0])
            && (items.rest.Item? ==> js[q] == ',' && At(js, q + 1, PrintItems(items.rest) + tail))
  {
    hide PrintItem;
    hide PrintItems;
    var one := PrintItem(items);
    ItemThenRest(items);
    if items.rest.Nil? {
      assert one + "" == one;
      AtSplit(js, p, one, tail);
      AtIndex(js, p + |one|, tail, 0);
    } else {
      var more := PrintItems(items.rest) + tail;
      CommaThen(one, PrintItems(items.rest), tail);
      AtSplit(js, p, one, "," + more);
      AtIndex(js, p + |one|, "," + more, 0);
      AtSplit(js, p + |one|, ",", more);
    }
  }

  lemma ItemThenRest(items: Items)
    requires items.Item?
    ensures PrintItems(items) == PrintItem(items) + (if items.rest.Nil? then "" else "," + PrintItems(items.rest))
  {
  }

  lemma CommaThen(one: string, rest: string, tail: string)
    ensures (one + ("," + rest)) + tail == one + ("," + (rest + tail))
  {
  }

  lemma {:induction false} RunItems(js: string, cap: nat, st: State, items: Items, pad: string, close: char)
    requires ItemsOk(items) && Spaces(pad) && (close == '}' || close == ']')
    requires st.super >= 0 && Innermost(st, st.super) && st.tokens[st.super].kind == Closing(close)
    requires At(js, st.pos, PrintItems(items) + (pad + [close]))
    requires |st.tokens| + |ItemToks(items, st.pos)| <= cap
    ensures Run(js, cap, st) == Run(js, cap, Finished(st, items, pad))
    decreases items, 1
  {
    hide Run;
    hide PrintItem;
    hide PrintItems;
    hide OneItemToks;
    hide LastOpen;
    hide Closed;
    hide AddSize;
    hide AfterItem;
    var c, tail := st.super, pad + [close];
    if items.Nil? {
      assert PrintItems(items) + tail == tail by { EmptyItems(items); }
      RunClose(js, cap, st, c, pad, close);
      EmptyItems(items);
    } else {
      var st2 := AfterItem(st, items);
      ItemsPlaces(js, st.pos, items, tail);
      AfterItemFacts(st, items);
      RunItem(js, cap, st, items);
      if items.rest.Nil? {
        RunClose(js, cap, st2, c, pad, close);
        FinishedLast(st, items, pad);
      } else {
        RunComma(js, cap, st2, c);
        RunItems(js, cap, st2.(pos := st2.pos + 1, super := c), items.rest, pad, close);
        FinishedAfterItem(st, items, pad);
      }
    }
  }

  lemma EmptyItems(items: Items)
    requires items.Nil?
    ensures PrintItems(items) == ""
  {
  }

  /** A comma makes the innermost bracket the superior token again. */
  lemma RunComma(js: string, cap: nat, st: State, c: nat)
    requires Innermost(st, c) && st.tokens[c].IsContainer()
    requires st.super == c || (st.super >= 0 && !st.tokens[st.super].IsContainer())
    requires st.pos < |js| && js[st.pos] == ','
    ensures Run(js, cap, st) == Run(js, cap, st.(pos := st.pos + 1, super := c))
  {
  }

  /** Running the tokenizer over a printed value, from any state, adds exactly its tokens. */
  lemma {:induction false} RunValue(js: string, cap: nat, st: State, v: Value)
    requires st.Valid() && Ok(v) && At(js, st.pos, Print(v))
    requires |st.tokens| + |Toks(v, st.pos)| <= cap
    requires v.Node? || v.quoted || Stops(js, st.pos + |Print(v)|)
    ensures Run(js, cap, st) == Run(js, cap, After(st, v))
    decreases v, 2
  {
    hide Run;
    match v
    case Leaf(quoted, text) =>
      if quoted {
        RunString(js, cap, st, text);
      } else {
        RunAtom(js, cap, st, text);
      }
    case Node(_, _, _) => RunNode(js, cap, st, v);
  }

  lemma {:induction false} RunNode(js: string, cap: nat, st: State, v: Value)
    requires st.Valid() && v.Node? && Ok(v) && At(js, st.pos, Print(v))
    requires |st.tokens| + |Toks(v, st.pos)| <= cap
    ensures Run(js, cap, st) == Run(js, cap, After(st, v))
    decreases v, 1
  {
    hide Run;
    hide PrintItems;
    hide ItemToks;
    hide LastOpen;
    hide ItemsOk;
    var Node(isArray, items, pad) := v;
    var open, close := if isArray then '[' else '{', if isArray then ']' else '}';
    var body := PrintItems(items) + (pad + [close]);
    assert Print(v) == [open] + body;
    AtSplit(js, st.pos, [open], body);
    AtIndex(js, st.pos, [open], 0);
    RunOpen(js, cap, st, open);
    RunItems(js, cap, Opened(st, isArray), items, pad, close);
    FinishedNode(st, v);
  }

  function Opened(st: State, isArray: bool): (r: State)
    requires st.Valid()
    ensures Innermost(r, |st.tokens|)
  {
    State(st.pos + 1, Bump(st.tokens, st.super) + [Token(if isArray then Array else Object, st.pos, -1, 0)],
          |st.tokens|, st.count + 1)
  }

  lemma RunOpen(js: string, cap: nat, st: State, open: char)
    requires st.Valid() && (open == '[' || open == '{') && |st.tokens| < cap
    requires st.pos < |js| && js[st.pos] == open
    ensures Run(js, cap, st) == Run(js, cap, Opened(st, open == '['))
  {
  }

  lemma FinishedNode(st: State, v: Value)
    requires st.Valid() && v.Node?
    ensures Finished(Opened(st, v.isArray), v.items, v.pad) == After(st, v)
  {
    hide PrintItems;
    hide ItemToks;
    hide LastOpen;
    var b := Bump(st.tokens, st.super);
    var own := ItemToks(v.items, st.pos + 1);
    var n := |st.tokens|;
    var head := Token(if v.isArray then Array else Object, st.pos, st.pos + |Print(v)|, Length(v.items));
    var base := SetEnd(AddSize(Opened(st, v.isArray).tokens, n, Length(v.items)), n, st.pos + |Print(v)|);
    assert base == b + [head];
    assert base + own == b + ([head] + own);
    LastOpenAppend(b, [head]);
    BumpKeepsLastOpen(st.tokens, st.super);
  }

  lemma RunAtEnd(js: string, cap: nat, st: State)
    requires st.Valid() && AtEnd(js, st) && AllClosed(st.tokens)
    ensures Run(js, cap, st) == (Count(st.count), st)
  {
    LastOpenIsLast(st.tokens, -1);
  }

  lemma RunDocument(js: string, before: string, v: Value, after: string, cap: nat)
    requires Spaces(before) && Spaces(after) && Ok(v) && |Toks(v, |before|)| <= cap
    requires At(js, 0, before) && At(js, |before|, Print(v)) && At(js, |before| + |Print(v)|, after)
    requires |js| == |before| + |Print(v)| + |after|
    ensures var n := |Toks(v, |before|)|;
            Run(js, cap, START) == (Count(n), State(|js|, Toks(v, |before|), -1, n))
  {
    hide Run;
    hide Print;
    hide Toks;
    hide Ok;
    hide LastOpen;
    var st := START.(pos := |before|);
    var last := After(st, v);
    var end := State(|js|, Toks(v, |before|), -1, |Toks(v, |before|)|);
    assert LastOpen([]) == -1;
    assert [] + Toks(v, |before|) == Toks(v, |before|);
    assert last.(pos := |js|) == end;
    StopsAtSpaces(js, |before| + |Print(v)|, after);
    ToksClosed(v, |before|);
    RunSpaces(js, cap, START, before);
    RunValue(js, cap, st, v);
    RunSpaces(js, cap, last, after);
    RunAtEnd(js, cap, end);
  }

  /** Tokenizing a printed tree, with any whitespace around it, succeeds with its node count and
      leaves exactly its tokens. */
  lemma ParsingUndoesPrinting(before: string, v: Value, after: string, cap: nat)
    requires Spaces(before) && Spaces(after) && Ok(v) && |Toks(v, |before|)| <= cap
    ensures var js := before + Print(v) + after;
            var n := |Toks(v, |before|)|;
            Run(js, cap, START) == (Count(n), State(|js|, Toks(v, |before|), -1, n))
  {
    hide Run;
    hide Print;
    hide Toks;
    RunDocument(before + Print(v) + after, before, v, after, cap);
  }
}
