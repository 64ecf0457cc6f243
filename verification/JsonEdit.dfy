/**
 Overwriting one string, atom or key inside a tokenized text: the new text is spliced in and
 the offsets of the existing tokens are shifted, instead of tokenizing again.

 Main result: the shifted table is the table a fresh tokenization of the new text gives.
 */
module JsonEdit {
  import opened Jsmn
  import opened JsonTree

  datatype Range = Range(start: int, end: int)

  function Span(t: Token): (r: Range) {
    Range(t.start, t.end)
  }

  // ---------- What the source does ----------

  /** The text with the characters in `r` replaced. An empty range is never replaced: the copy
      loop only looks at the value while it is inside the range. */
  function Splice(text: string, r: Range, value: string): (f: string)
    requires 0 <= r.start <= r.end <= |text|
  {
    if r.start == r.end then text else text[..r.start] + value + text[r.end..]
  }

  function ShiftToken(t: Token, at: int, shift: int): (r: Token) {
    Token(t.kind,
          if t.start > at then t.start + shift else t.start,
          if t.end >= at then t.end + shift else t.end,
          t.size)
  }

  function Shift(ts: seq<Token>, at: int, shift: int): (r: seq<Token>)
    ensures |r| == |ts|
    ensures forall i :: 0 <= i < |ts| ==> r[i] == ShiftToken(ts[i], at, shift)
  {
    seq(|ts|, i requires 0 <= i < |ts| => ShiftToken(ts[i], at, shift))
  }

  // ---------- The same change on trees ----------

  /** How many tokens a value has. */
  function TokCount(v: Value): (r: nat) {
    match v
    case Leaf(_, _) => 1
    case Node(_, items, _) => 1 + ItemCount(items)
  }

  function TagCount(tag: Tag): (r: nat) {
    if tag.Key? then 1 else 0
  }

  function ItemCount(items: Items): (r: nat) {
    match items
    case Nil => 0
    case Item(_, tag, value, _, rest) => TagCount(tag) + TokCount(value) + ItemCount(rest)
  }

  /** The tree with the text of its k-th token, in preorder, replaced. */
  function Replace(v: Value, k: nat, text: string): (r: Value) {
    match v
    case Leaf(quoted, _) => if k == 0 then Leaf(quoted, text) else v
    case Node(isArray, items, pad) => if k == 0 then v else Node(isArray, ReplaceItems(items, k - 1, text), pad)
  }

  function ReplaceItems(items: Items, k: nat, text: string): (r: Items) {
    match items
    case Nil => Nil
    case Item(pre, tag, value, post, rest) =>
      var t := TagCount(tag);
      if k < t then Item(pre, Key(text, tag.gap1, tag.gap2), value, post, rest)
      else if k < t + TokCount(value) then Item(pre, tag, Replace(value, k - t, text), post, rest)
      else Item(pre, tag, value, post, ReplaceItems(rest, k - t - TokCount(value), text))
  }

  /** May the k-th token of `v` carry this text? An object or array may not. */
  predicate Fits(v: Value, k: nat, text: string) {
    match v
    case Leaf(quoted, _) => k == 0 && (if quoted then StringOk(text) else AtomOk(text))
    case Node(_, items, _) => k > 0 && ItemFits(items, k - 1, text)
  }

  predicate ItemFits(items: Items, k: nat, text: string) {
    match items
    case Nil => false
    case Item(_, tag, value, _, rest) =>
      var t := TagCount(tag);
      if k < t then StringOk(text)
      else if k < t + TokCount(value) then Fits(value, k - t, text)
      else ItemFits(rest, k - t - TokCount(value), text)
  }

  lemma {:induction false} ReplaceOk(v: Value, k: nat, text: string)
    requires Ok(v) && Fits(v, k, text)
    ensures Ok(Replace(v, k, text))
  {
    if v.Node? {
      ReplaceItemsOk(v.items, k - 1, text);
    }
  }

  lemma {:induction false} ReplaceItemsOk(items: Items, k: nat, text: string)
    requires ItemsOk(items) && ItemFits(items, k, text)
    ensures ItemsOk(ReplaceItems(items, k, text)) && ReplaceItems(items, k, text).Item?
    ensures Length(ReplaceItems(items, k, text)) == Length(items)
  {
    match items
    case Item(_, tag, value, _, rest) =>
      var t := TagCount(tag);
      if t <= k < t + TokCount(value) {
        ReplaceOk(value, k - t, text);
      } else if t <= k {
        ReplaceItemsOk(rest, k - t - TokCount(value), text);
      }
  }

  lemma {:induction false} ToksLength(v: Value, p: int)
    ensures |Toks(v, p)| == TokCount(v)
  {
    match v
    case Leaf(_, _) =>
    case Node(_, items, _) => ItemToksLength(items, p + 1);
  }

  lemma {:induction false} ItemToksLength(items: Items, p: int)
    ensures |ItemToks(items, p)| == ItemCount(items)
    ensures items.Item? ==> |OneItemToks(items, p)| == TagCount(items.tag) + TokCount(items.value)
  {
    match items
    case Nil =>
    case Item(pre, tag, value, post, rest) =>
      ToksLength(value, p + |pre| + |PrintTag(tag)|);
      ItemToksLength(rest, p + |PrintItem(items)| + 1);
  }

  // ---------- Shifting whole subtrees ----------

  ghost predicate Within(ts: seq<Token>, lo: int, hi: int) {
    forall i :: 0 <= i < |ts| ==> lo <= ts[i].start <= ts[i].end <= hi
  }

  /** The tokens of a list are those of its first item's key and value and of the others. */
  lemma ItemToksParts(items: Items, p: int)
    requires items.Item?
    ensures var q := p + |items.pre|;
            && OneItemToks(items, p) == TagToks(items.tag, q) + Toks(items.value, q + |PrintTag(items.tag)|)
            && ItemToks(items, p) == OneItemToks(items, p) + ItemToks(items.rest, p + |PrintItem(items)| + 1)
    ensures |TagToks(items.tag, p + |items.pre|)| == TagCount(items.tag)
  {
    hide Toks;
    hide Print;
    hide PrintItem;
    hide PrintTag;
  }

  lemma {:induction false} ToksWithin(v: Value, p: int)
    ensures Within(Toks(v, p), p, p + |Print(v)|)
    decreases v, 2
  {
    hide PrintItems;
    hide ItemToks;
    match v
    case Leaf(_, _) =>
    case Node(isArray, items, pad) =>
      ItemToksWithin(items, p + 1);
  }

  lemma {:induction false} ItemToksWithin(items: Items, p: int)
    ensures Within(ItemToks(items, p), p, p + |PrintItems(items)|)
    decreases items, 1
  {
    hide OneItemToks;
    hide PrintItem;
    match items
    case Nil =>
    case Item(pre, tag, value, post, rest) =>
      OneItemWithin(items, p);
      ItemToksWithin(rest, p + |PrintItem(items)| + 1);
      if rest.Nil? {
        assert ItemToks(items, p) == OneItemToks(items, p);
      }
  }

  lemma {:induction false} OneItemWithin(items: Items, p: int)
    requires items.Item?
    ensures Within(OneItemToks(items, p), p, p + |PrintItem(items)|)
    decreases items, 0
  {
    hide Print;
    hide Toks;
    ToksWithin(items.value, p + |items.pre| + |PrintTag(items.tag)|);
  }

  function Move(ts: seq<Token>, d: int): (r: seq<Token>)
    ensures |r| == |ts|
  {
    seq(|ts|, i requires 0 <= i < |ts| => ts[i].(start := ts[i].start + d, end := ts[i].end + d))
  }

  lemma MoveConcat(a: seq<Token>, b: seq<Token>, d: int)
    ensures Move(a + b, d) == Move(a, d) + Move(b, d)
  {
  }

  lemma {:induction false} ToksMove(v: Value, p: int, d: int)
    ensures Toks(v, p + d) == Move(Toks(v, p), d)
  {
    match v
    case Leaf(_, _) =>
    case Node(isArray, items, _) =>
      ItemToksMove(items, p + 1, d);
      var head := Token(if isArray then Array else Object, p, p + |Print(v)|, Length(items));
      MoveConcat([head], ItemToks(items, p + 1), d);
      assert (p + 1) + d == (p + d) + 1;
  }

  lemma {:induction false} ItemToksMove(items: Items, p: int, d: int)
    ensures ItemToks(items, p + d) == Move(ItemToks(items, p), d)
  {
    match items
    case Nil =>
    case Item(pre, tag, value, post, rest) =>
      hide Print;
      hide PrintItem;
      hide Toks;
      var q := p + |pre|;
      var r := p + |PrintItem(items)| + 1;
      ToksMove(value, q + |PrintTag(tag)|, d);
      ItemToksMove(rest, r, d);
      assert p + d + |pre| + |PrintTag(tag)| == q + |PrintTag(tag)| + d;
      assert p + d + |PrintItem(items)| + 1 == r + d;
      MoveConcat(TagToks(tag, q), Toks(value, q + |PrintTag(tag)|), d);
      MoveConcat(OneItemToks(items, p), ItemToks(rest, r), d);
      assert TagToks(tag, p + d + |pre|) == Move(TagToks(tag, q), d);
  }

  // ---------- Cutting a printed tree at one of its texts ----------

  datatype Cut = Cut(before: string, text: string, behind: string)

  /** Is the k-th token of `v` a string, an atom or a key? */
  predicate IsText(v: Value, k: nat) {
    match v
    case Leaf(_, _) => k == 0
    case Node(_, items, _) => k > 0 && IsItemText(items, k - 1)
  }

  predicate IsItemText(items: Items, k: nat) {
    match items
    case Nil => false
    case Item(_, tag, value, _, rest) =>
      var t := TagCount(tag);
      if k < t then true
      else if k < t + TokCount(value) then IsText(value, k - t)
      else IsItemText(rest, k - t - TokCount(value))
  }

  function Join(c: Cut): (r: string) {
    c.before + c.text + c.behind
  }

  function Wrap(a: string, c: Cut, b: string): (r: Cut) {
    Cut(a + c.before, c.text, c.behind + b)
  }

  lemma JoinWrap(a: string, c: Cut, b: string)
    ensures a + Join(c) + b == Join(Wrap(a, c, b))
  {
  }

  lemma Assoc(a: string, b: string, c: string)
    ensures (a + b) + c == a + (b + c)
  {
  }

  function CutAt(v: Value, k: nat): (r: Cut)
    requires IsText(v, k)
  {
    match v
    case Leaf(quoted, text) => if quoted then Cut("\"", text, "\"") else Cut("", text, "")
    case Node(isArray, items, pad) =>
      Wrap(if isArray then "[" else "{", CutItems(items, k - 1), pad + (if isArray then "]" else "}"))
  }

  function Separated(items: Items): (r: string) {
    if items.Nil? then "" else "," + PrintItems(items)
  }

  function CutItems(items: Items, k: nat): (r: Cut)
    requires IsItemText(items, k)
  {
    var Item(pre, tag, value, post, rest) := items;
    var t := TagCount(tag);
    if k < t then Wrap(pre, CutTag(tag), Print(value) + post + Separated(rest))
    else if k < t + TokCount(value) then
      Wrap(pre + PrintTag(tag), CutAt(value, k - t), post + Separated(rest))
    else Wrap(PrintItem(items) + ",", CutItems(rest, k - t - TokCount(value)), "")
  }

  function CutTag(tag: Tag): (r: Cut)
    requires tag.Key?
  {
    Cut("\"", tag.text, "\"" + tag.gap1 + ":" + tag.gap2)
  }

  /** Printing the tree, or the tree with its k-th text replaced, around the same cut. */
  lemma {:induction false} CutPrints(v: Value, k: nat, text: string)
    requires IsText(v, k)
    ensures Print(v) == Join(CutAt(v, k))
    ensures Print(Replace(v, k, text)) == Join(CutAt(v, k).(text := text))
  {
    if v.Node? {
      hide PrintItems;
      hide CutItems;
      hide ReplaceItems;
      CutItemsPrint(v.items, k - 1, text);
      var c := CutItems(v.items, k - 1);
      var open, close := if v.isArray then "[" else "{", if v.isArray then "]" else "}";
      Assoc(open + PrintItems(v.items), v.pad, close);
      Assoc(open + PrintItems(ReplaceItems(v.items, k - 1, text)), v.pad, close);
      JoinWrap(open, c, v.pad + close);
      JoinWrap(open, c.(text := text), v.pad + close);
    }
  }

  /** The first item when its own tag or value holds the text. */
  lemma ItemParts(items: Items)
    requires items.Item?
    ensures var Item(pre, tag, value, post, rest) := items;
            && PrintItems(items) == pre + PrintTag(tag) + Print(value) + (post + Separated(rest))
            && PrintItems(items) == pre + PrintTag(tag) + (Print(value) + post + Separated(rest))
            && (rest.Item? ==> PrintItems(items) == PrintItem(items) + "," + PrintItems(rest) + "")
  {
    hide Print;
    hide PrintTag;
    var Item(pre, tag, value, post, rest) := items;
    Assoc(pre + PrintTag(tag) + Print(value), post, Separated(rest));
    Assoc(pre + PrintTag(tag), Print(value), post + Separated(rest));
    Assoc(Print(value), post, Separated(rest));
    assert PrintItems(items) == PrintItem(items) + Separated(rest);
    if rest.Item? {
      Assoc(PrintItem(items), ",", PrintItems(rest));
    }
  }

  lemma TagParts(tag: Tag, text: string)
    requires tag.Key?
    ensures PrintTag(tag) == Join(CutTag(tag))
    ensures PrintTag(tag.(text := text)) == Join(CutTag(tag).(text := text))
  {
  }

  lemma {:induction false} CutItemsPrint(items: Items, k: nat, text: string)
    requires IsItemText(items, k)
    ensures PrintItems(items) == Join(CutItems(items, k))
    ensures PrintItems(ReplaceItems(items, k, text)) == Join(CutItems(items, k).(text := text))
  {
    hide Print;
    hide PrintItems;
    hide PrintItem;
    hide PrintTag;
    hide CutTag;
    hide CutAt;
    hide Join;
    hide Replace;
    var Item(pre, tag, value, post, rest) := items;
    var t := TagCount(tag);
    var changed := ReplaceItems(items, k, text);
    ItemParts(items);
    ItemParts(changed);
    if k < t {
      TagParts(tag, text);
      JoinWrap(pre, CutTag(tag), Print(value) + post + Separated(rest));
      JoinWrap(pre, CutTag(tag).(text := text), Print(value) + post + Separated(rest));
    } else if k < t + TokCount(value) {
      var c := CutAt(value, k - t);
      CutPrints(value, k - t, text);
      JoinWrap(pre + PrintTag(tag), c, post + Separated(rest));
      JoinWrap(pre + PrintTag(tag), c.(text := text), post + Separated(rest));
    } else {
      var j := k - t - TokCount(value);
      var c := CutItems(rest, j);
      CutItemsPrint(rest, j, text);
      SameItem(items, changed);
      JoinWrap(PrintItem(items) + ",", c, "");
      JoinWrap(PrintItem(items) + ",", c.(text := text), "");
    }
  }

  lemma SameItem(a: Items, b: Items)
    requires a.Item? && b.Item? && a.pre == b.pre && a.tag == b.tag && a.value == b.value && a.post == b.post
    ensures PrintItem(a) == PrintItem(b)
  {
  }

  // ---------- Shifting equals tokenizing again ----------

  /** The k-th token spans exactly the text at the cut. */
  lemma {:induction false} CutToken(v: Value, p: int, k: nat)
    requires IsText(v, k)
    ensures k < |Toks(v, p)|
    ensures var c := CutAt(v, k);
            var t := Toks(v, p)[k];
            !t.IsContainer() && Span(t) == Range(p + |c.before|, p + |c.before| + |c.text|)
  {
    if v.Node? {
      hide CutItems;
      CutItemToken(v.items, p + 1, k - 1);
    }
  }

  lemma {:induction false} CutItemToken(items: Items, p: int, k: nat)
    requires IsItemText(items, k)
    ensures k < |ItemToks(items, p)|
    ensures var c := CutItems(items, k);
            var t := ItemToks(items, p)[k];
            !t.IsContainer() && Span(t) == Range(p + |c.before|, p + |c.before| + |c.text|)
  {
    hide Print;
    hide PrintItem;
    hide PrintItems;
    hide PrintTag;
    hide CutAt;
    hide Toks;
    hide ItemToks;
    hide OneItemToks;
    var Item(pre, tag, value, post, rest) := items;
    var t := TagCount(tag);
    var r := p + |pre| + |PrintTag(tag)|;
    ToksLength(value, r);
    ItemToksParts(items, p);
    if k < t {
    } else if k < t + TokCount(value) {
      CutToken(value, r, k - t);
    } else {
      CutItemToken(rest, p + |PrintItem(items)| + 1, k - t - TokCount(value));
    }
  }

  lemma {:induction false} ReplaceShifts(v: Value, p: int, k: nat, text: string)
    requires IsText(v, k)
    ensures var c := CutAt(v, k);
            Toks(Replace(v, k, text), p) == Shift(Toks(v, p), p + |c.before|, |text| - |c.text|)
  {
    hide Print;
    hide PrintItems;
    hide CutItems;
    hide ReplaceItems;
    hide ItemToks;
    if v.Node? {
      var isArray, items := v.isArray, v.items;
      var c := CutAt(v, k);
      var at, d := p + |c.before|, |text| - |c.text|;
      assert at == p + 1 + |CutItems(items, k - 1).before|;
      CutPrints(v, k, text);
      ReplaceItemsShift(items, p + 1, k - 1, text);
      ReplaceKeepsLength(items, k - 1, text);
    }
  }

  lemma {:induction false} ReplaceKeepsLength(items: Items, k: nat, text: string)
    ensures Length(ReplaceItems(items, k, text)) == Length(items)
  {
    if items.Item? {
      var j := k - TagCount(items.tag) - TokCount(items.value);
      if j >= 0 {
        ReplaceKeepsLength(items.rest, j, text);
      }
    }
  }

  /** Tokens of the remaining items, which start after the change, all move. */
  lemma RestMoves(rest: Items, p: int, at: int, d: int)
    requires at < p
    ensures ItemToks(rest, p + d) == Shift(ItemToks(rest, p), at, d)
  {
    hide ItemToks;
    ItemToksWithin(rest, p);
    ItemToksMove(rest, p, d);
  }

  lemma ValueMoves(v: Value, p: int, at: int, d: int)
    requires at < p
    ensures Toks(v, p + d) == Shift(Toks(v, p), at, d)
  {
    hide Toks;
    ToksWithin(v, p);
    ToksMove(v, p, d);
  }

  /** An item's own tokens and the rest of the table shift independently. */
  lemma ItemShifts(items: Items, changed: Items, p: int, at: int, d: int)
    requires items.Item? && changed.Item?
    requires OneItemToks(changed, p) == Shift(OneItemToks(items, p), at, d)
    requires ItemToks(changed.rest, p + |PrintItem(changed)| + 1) == Shift(ItemToks(items.rest, p + |PrintItem(items)| + 1), at, d)
    ensures ItemToks(changed, p) == Shift(ItemToks(items, p), at, d)
  {
    hide PrintItem;
    hide OneItemToks;
    hide Shift;
  }

  lemma {:induction false} ReplaceItemsShift(items: Items, p: int, k: nat, text: string)
    requires IsItemText(items, k)
    ensures var c := CutItems(items, k);
            ItemToks(ReplaceItems(items, k, text), p) == Shift(ItemToks(items, p), p + |c.before|, |text| - |c.text|)
  {
    hide Print;
    hide PrintTag;
    hide ItemToks;
    hide OneItemToks;
    hide Shift;
    var t := TagCount(items.tag);
    var changed := ReplaceItems(items, k, text);
    var c := CutItems(items, k);
    var at, d := p + |c.before|, |text| - |c.text|;
    var next := p + |PrintItem(items)| + 1;
    if k < t {
      TagReplaceShifts(items, p, k, text);
      RestMoves(items.rest, next, at, d);
      ItemShifts(items, changed, p, at, d);
    } else if k < t + TokCount(items.value) {
      ReplaceShifts(items.value, p + |items.pre| + |PrintTag(items.tag)|, k - t, text);
      ValueReplaceShifts(items, p, k, text);
      RestMoves(items.rest, next, at, d);
      ItemShifts(items, changed, p, at, d);
    } else {
      var j := k - t - TokCount(items.value);
      ReplaceItemsShift(items.rest, next, j, text);
      RestReplaceShifts(items, p, k, text);
      ItemShifts(items, changed, p, at, d);
    }
  }

  /** Replacing the key of the first item. */
  lemma TagReplaceShifts(items: Items, p: int, k: nat, text: string)
    requires items.Item? && k < TagCount(items.tag)
    ensures var c := CutItems(items, k);
            var changed := ReplaceItems(items, k, text);
            var at, d := p + |c.before|, |text| - |c.text|;
            && at < p + |PrintItem(items)| && |PrintItem(changed)| == |PrintItem(items)| + d
            && OneItemToks(changed, p) == Shift(OneItemToks(items, p), at, d)
  {
    hide Print;
    hide Toks;
    var c := CutItems(items, k);
    var at, d := p + |c.before|, |text| - |c.text|;
    var q := p + |items.pre|;
    var r := q + |PrintTag(items.tag)|;
    var changed := ReplaceItems(items, k, text);
    assert q + |PrintTag(changed.tag)| == r + d;
    ValueMoves(items.value, r, at, d);
    assert TagToks(changed.tag, q) == Shift(TagToks(items.tag, q), at, d);
  }

  /** Replacing a text inside the value of the first item. */
  lemma ValueReplaceShifts(items: Items, p: int, k: nat, text: string)
    requires items.Item? && TagCount(items.tag) <= k < TagCount(items.tag) + TokCount(items.value)
    requires IsItemText(items, k)
    requires var j := k - TagCount(items.tag);
             var v := CutAt(items.value, j);
             var r := p + |items.pre| + |PrintTag(items.tag)|;
             Toks(Replace(items.value, j, text), r) == Shift(Toks(items.value, r), r + |v.before|, |text| - |v.text|)
    ensures var c := CutItems(items, k);
            var changed := ReplaceItems(items, k, text);
            var at, d := p + |c.before|, |text| - |c.text|;
            && at <= p + |PrintItem(items)| && |PrintItem(changed)| == |PrintItem(items)| + d
            && OneItemToks(changed, p) == Shift(OneItemToks(items, p), at, d)
  {
    hide Print;
    hide Toks;
    hide CutAt;
    var j := k - TagCount(items.tag);
    var c := CutItems(items, k);
    var at, d := p + |c.before|, |text| - |c.text|;
    var q := p + |items.pre|;
    var r := q + |PrintTag(items.tag)|;
    CutPrints(items.value, j, text);
    assert TagToks(items.tag, q) == Shift(TagToks(items.tag, q), at, d);
  }

  /** The first item when the replaced text lies in a later one. */
  lemma RestReplaceShifts(items: Items, p: int, k: nat, text: string)
    requires items.Item? && k >= TagCount(items.tag) + TokCount(items.value) && IsItemText(items, k)
    ensures var c := CutItems(items, k);
            var changed := ReplaceItems(items, k, text);
            var at, d := p + |c.before|, |text| - |c.text|;
            && PrintItem(changed) == PrintItem(items)
            && OneItemToks(changed, p) == Shift(OneItemToks(items, p), at, d)
  {
    hide Print;
    hide Toks;
    hide OneItemToks;
    var c := CutItems(items, k);
    OneItemWithin(items, p);
    SameOneItem(items, ReplaceItems(items, k, text), p);
  }

  lemma SameOneItem(a: Items, b: Items, p: int)
    requires a.Item? && b.Item? && a.pre == b.pre && a.tag == b.tag && a.value == b.value && a.post == b.post
    ensures PrintItem(a) == PrintItem(b) && OneItemToks(a, p) == OneItemToks(b, p)
  {
  }

  /** A text and its token table. */
  datatype Doc = Doc(text: string, tokens: seq<Token>)

  /** Overwrite the span of token `k`: splice the text, shift the tokens. */
  function SetToken(doc: Doc, k: nat, value: string): (r: Doc)
    requires k < |doc.tokens| && 0 <= doc.tokens[k].start <= doc.tokens[k].end <= |doc.text|
  {
    var r := Span(doc.tokens[k]);
    var text := Splice(doc.text, r, value);
    Doc(text, Shift(doc.tokens, r.start, |text| - doc.tokens[0].end))
  }

  lemma {:induction false} FitsIsText(v: Value, k: nat, text: string)
    requires Fits(v, k, text)
    ensures IsText(v, k)
  {
    if v.Node? {
      FitsItemIsText(v.items, k - 1, text);
    }
  }

  lemma {:induction false} FitsItemIsText(items: Items, k: nat, text: string)
    requires ItemFits(items, k, text)
    ensures IsItemText(items, k)
  {
    var t := TagCount(items.tag);
    if t <= k < t + TokCount(items.value) {
      FitsIsText(items.value, k - t, text);
    } else if t <= k {
      FitsItemIsText(items.rest, k - t - TokCount(items.value), text);
    }
  }

  function Printed(before: string, root: Value, after: string): (r: Doc) {
    Doc(before + Print(root) + after, Toks(root, |before|))
  }

  lemma SpliceCut(before: string, c: Cut, after: string, value: string)
    requires c.text != ""
    ensures var r := Range(|before| + |c.before|, |before| + |c.before| + |c.text|);
            && r.end <= |before + Join(c) + after|
            && Splice(before + Join(c) + after, r, value) == before + Join(c.(text := value)) + after
  {
    var doc := before + Join(c) + after;
    var s := |before| + |c.before|;
    assert doc[..s] == before + c.before;
    assert doc[s + |c.text|..] == c.behind + after;
    assert (before + c.before) + value + (c.behind + after) == before + Join(c.(text := value)) + after;
  }

  lemma ShiftAmount(root: Value, k: nat, value: string, p: nat, at: int, extra: int)
    requires root.Node? && IsText(root, k) && extra != 0
    requires at == p + |CutAt(root, k).before|
    ensures Shift(Toks(root, p), at, |value| - |CutAt(root, k).text| + extra) != Toks(Replace(root, k, value), p)
  {
    hide CutAt;
    CutPrints(root, k, value);
    var head := Toks(root, p)[0];
    assert head.end == p + |Print(root)|;
    assert Toks(Replace(root, k, value), p)[0].end == p + |Print(Replace(root, k, value))|;
  }

  /** Overwriting a non-empty text of a document printed from a tree, whose root is an object or
      an array, gives the printed changed tree. The shifted table is that tree's table exactly
      when nothing follows the root. */
  lemma SetTokenIsReplace(before: string, root: Value, after: string, k: nat, value: string)
    requires root.Node? && IsText(root, k) && CutAt(root, k).text != ""
    ensures k < |Toks(root, |before|)|
    ensures var t := Printed(before, root, after).tokens[k]; 0 <= t.start <= t.end <= |Printed(before, root, after).text|
    ensures SetToken(Printed(before, root, after), k, value).text == Printed(before, Replace(root, k, value), after).text
    ensures SetToken(Printed(before, root, after), k, value) == Printed(before, Replace(root, k, value), after)
            <==> after == ""
  {
    hide Print;
    hide Toks;
    hide CutAt;
    hide Shift;
    hide Join;
    hide Splice;
    var p, c := |before|, CutAt(root, k);
    CutToken(root, p, k);
    CutPrints(root, k, value);
    SpliceCut(before, c, after, value);
    ReplaceShifts(root, p, k, value);
    RootEnd(root, p);
    JoinLength(c, value);
    if after != "" {
      ShiftAmount(root, k, value, p, p + |c.before|, |after|);
    }
  }

  lemma RootEnd(root: Value, p: nat)
    requires root.Node?
    ensures Toks(root, p) != [] && Toks(root, p)[0].end == p + |Print(root)|
  {
  }

  lemma JoinLength(c: Cut, value: string)
    ensures |Join(c.(text := value))| == |Join(c)| + |value| - |c.text|
  {
  }

  /** The incremental index equals a fresh tokenization of the new text. */
  lemma EditEqualsReparse(before: string, root: Value, k: nat, value: string, cap: nat)
    requires Spaces(before) && root.Node? && Ok(root) && Fits(root, k, value) && |Toks(root, |before|)| <= cap
    requires IsText(root, k) && CutAt(root, k).text != ""
    ensures k < |Toks(root, |before|)|
    ensures var t := Toks(root, |before|)[k]; 0 <= t.start <= t.end <= |Printed(before, root, "").text|
    ensures var doc := SetToken(Printed(before, root, ""), k, value);
            var n := |Toks(root, |before|)|;
            Run(doc.text, cap, START) == (Count(n), State(|doc.text|, doc.tokens, -1, n))
  {
    hide Print;
    hide Toks;
    hide CutAt;
    hide Run;
    hide Ok;
    var newRoot := Replace(root, k, value);
    SetTokenIsReplace(before, root, "", k, value);
    ReplaceOk(root, k, value);
    ReplaceShifts(root, |before|, k, value);
    ParsingUndoesPrinting(before, newRoot, "", cap);
  }

  datatype Edit = Edit(index: nat, value: string)

  function EditTree(root: Value, edits: seq<Edit>): (r: Value)
    decreases |edits|
  {
    if edits == [] then root else EditTree(Replace(root, edits[0].index, edits[0].value), edits[1..])
  }

  /** Every edit hits a non-empty text and puts a legal non-empty one there. */
  predicate EditsOk(root: Value, edits: seq<Edit>)
    decreases |edits|
  {
    edits == [] ||
    (var e := edits[0];
     && Fits(root, e.index, e.value) && e.value != ""
     && IsText(root, e.index) && CutAt(root, e.index).text != ""
     && EditsOk(Replace(root, e.index, e.value), edits[1..]))
  }

  /** The document after the edits, each done by splicing and shifting. */
  ghost predicate Edited(doc: Doc, edits: seq<Edit>, result: Doc)
    decreases |edits|
  {
    if edits == [] then result == doc
    else
      var (k, value) := (edits[0].index, edits[0].value);
      && k < |doc.tokens| && 0 <= doc.tokens[k].start <= doc.tokens[k].end <= |doc.text|
      && Edited(SetToken(doc, k, value), edits[1..], result)
  }

  /** Any number of edits keeps the table in step with the text. */
  lemma {:induction false} EditsStayIndexed(before: string, root: Value, edits: seq<Edit>)
    requires root.Node? && EditsOk(root, edits)
    ensures Edited(Printed(before, root, ""), edits, Printed(before, EditTree(root, edits), ""))
    decreases |edits|
  {
    if edits != [] {
      hide Print;
      hide Toks;
      hide CutAt;
      hide IsText;
      hide Fits;
      hide Replace;
      var e := edits[0];
      SetTokenIsReplace(before, root, "", e.index, e.value);
      ReplaceIsNode(root, e.index, e.value);
      EditsStayIndexed(before, Replace(root, e.index, e.value), edits[1..]);
    }
  }

  /** Edits keep the tree legal and its number of tokens. */
  lemma {:induction false} EditsKeepOk(root: Value, edits: seq<Edit>, p: int)
    requires root.Node? && Ok(root) && EditsOk(root, edits)
    ensures var changed := EditTree(root, edits);
            changed.Node? && Ok(changed) && |Toks(changed, p)| == |Toks(root, p)|
    decreases |edits|
  {
    hide Toks;
    hide CutAt;
    hide IsText;
    hide Fits;
    hide Ok;
    hide Replace;
    if edits != [] {
      var e := edits[0];
      ReplaceOk(root, e.index, e.value);
      ReplaceIsNode(root, e.index, e.value);
      ReplaceShifts(root, p, e.index, e.value);
      EditsKeepOk(Replace(root, e.index, e.value), edits[1..], p);
    }
  }

  /** After any number of edits, each done by splicing and shifting, the table is the one a fresh
      tokenization of the text gives, and the root ends where the text ends. */
  lemma EditsEqualReparse(before: string, root: Value, edits: seq<Edit>, cap: nat)
    requires Spaces(before) && root.Node? && Ok(root) && EditsOk(root, edits) && |Toks(root, |before|)| <= cap
    ensures var doc := Printed(before, EditTree(root, edits), "");
            var n := |Toks(root, |before|)|;
            && Edited(Printed(before, root, ""), edits, doc)
            && Run(doc.text, cap, START) == (Count(n), State(|doc.text|, doc.tokens, -1, n))
            && doc.tokens != [] && doc.tokens[0].end == |doc.text|
  {
    hide Print;
    hide Toks;
    hide Run;
    hide Ok;
    hide Edited;
    var changed := EditTree(root, edits);
    EditsStayIndexed(before, root, edits);
    EditsKeepOk(root, edits, |before|);
    ParsingUndoesPrinting(before, changed, "", cap);
    RootEnd(changed, |before|);
  }

  lemma ReplaceIsNode(root: Value, k: nat, value: string)
    requires root.Node?
    ensures Replace(root, k, value).Node?
  {
  }
}
