/**
 Finding a value by a path of keys and array indices, by scanning the token table.

 The source does not walk the tree: at each step it takes the first string or atom in the
 current range whose text is the key, and moves to the token after it. The theorems say when
 that is the value a walk of the tree reaches.
 */
module JsonLookup {
  import opened Jsmn
  import opened JsonTree
  import opened JsonEdit

  // ---------- What the source does ----------

  /** `Wild`: the source would read past the tokens that were filled in. */
  datatype Found = Hit(index: nat) | Missing | Wild

  ghost predicate Inside(doc: Doc) {
    forall i :: 0 <= i < |doc.tokens| ==>
      0 <= doc.tokens[i].start <= doc.tokens[i].end <= |doc.text|
  }

  function TextOf(text: string, t: Token): (r: string)
    requires 0 <= t.start <= t.end <= |text|
  {
    text[t.start..t.end]
  }

  /** The array index a pattern denotes: each character minus '0', as decimal digits. */
  function Number(pattern: string): (r: int) {
    if pattern == "" then 0
    else 10 * Number(pattern[..|pattern| - 1]) + (pattern[|pattern| - 1] as int - '0' as int)
  }

  function Digit(d: nat): (c: char)
    requires d < 10
    ensures c as int == 48 + d
  {
    "0123456789"[d]
  }

  /** A number in decimal digits. */
  function Shown(n: nat): (s: string) {
    (if n < 10 then "" else Shown(n / 10)) + [Digit(n % 10)]
  }

  lemma {:induction false} NumberIsShown(n: nat)
    ensures Number(Shown(n)) == n
  {
    hide Number;
    hide Digit;
    if n >= 10 {
      NumberIsShown(n / 10);
    }
    NumberSnoc(if n < 10 then "" else Shown(n / 10), Digit(n % 10));
    NumberOfNothing();
  }

  lemma NumberOfNothing()
    ensures Number("") == 0
  {
  }

  lemma NumberSnoc(p: string, c: char)
    ensures Number(p + [c]) == 10 * Number(p) + (c as int - 48)
  {
    assert (p + [c])[..|p|] == p;
  }

  /** First token from `j` on that starts after `end`. */
  function NextAfter(ts: seq<Token>, j: nat, end: int): (r: nat)
    requires j <= |ts|
    ensures j <= r <= |ts|
    ensures j < |ts| && ts[j].start <= end ==> j < r
    decreases |ts| - j
  {
    if j == |ts| || ts[j].start > end then j else NextAfter(ts, j + 1, end)
  }

  /** Token of the k-th sibling counted from token `j`, or -1 if the scan runs off the table. */
  function Nth(ts: seq<Token>, j: nat, k: int): (r: int)
    requires j <= |ts| && forall i :: 0 <= i < |ts| ==> ts[i].start <= ts[i].end
    ensures r == -1 || j <= r < |ts|
    decreases |ts| - j
  {
    if j == |ts| then -1
    else if k == 0 then j
    else Nth(ts, NextAfter(ts, j, ts[j].end), k - 1)
  }

  /** The scan from token `i` on. */
  function Search(pattern: string, r: Range, doc: Doc, i: nat): (f: Found)
    requires Inside(doc) && i <= |doc.tokens|
    ensures f.Hit? ==> f.index < |doc.tokens|
    decreases |doc.tokens| - i
  {
    if i == |doc.tokens| then Missing
    else
      var t := doc.tokens[i];
      if t.start < r.start || t.end > r.end then Search(pattern, r, doc, i + 1)
      else if !t.IsContainer() then
        if TextOf(doc.text, t) == pattern then
          if i + 1 < |doc.tokens| then Hit(i + 1) else Wild
        else Search(pattern, r, doc, i + 1)
      else if t.kind == Array && t.start == r.start then
        var e := Nth(doc.tokens, i + 1, Number(pattern));
        if e == -1 then Wild else Hit(e)
      else Search(pattern, r, doc, i + 1)
  }

  datatype Reached = Place(range: Range) | Off

  /** One step per key. A key that is not found leaves the range where it was. */
  function Resolve(keys: seq<string>, r: Range, doc: Doc): (f: Reached)
    requires Inside(doc)
    decreases |keys|
  {
    if keys == [] then Place(r)
    else
      match Search(keys[0], r, doc, 0)
      case Hit(i) => Resolve(keys[1..], Span(doc.tokens[i]), doc)
      case Missing => Resolve(keys[1..], r, doc)
      case Wild => Off
  }

  // ---------- Walking the tree ----------

  datatype Option<T> = None | Some(value: T)

  /** Value of the first item with this key. */
  function FindKey(items: Items, key: string): (r: Option<Value>) {
    match items
    case Nil => None
    case Item(_, tag, value, _, rest) =>
      if tag.Key? && tag.text == key then Some(value) else FindKey(rest, key)
  }

  function FindIndex(items: Items, k: int): (r: Option<Value>) {
    match items
    case Nil => None
    case Item(_, _, value, _, rest) => if k == 0 then Some(value) else FindIndex(rest, k - 1)
  }

  function WalkStep(v: Value, key: string): (r: Option<Value>) {
    match v
    case Leaf(_, _) => None
    case Node(isArray, items, _) => if isArray then FindIndex(items, Number(key)) else FindKey(items, key)
  }

  function Walk(v: Value, path: seq<string>): (r: Option<Value>)
    decreases |path|
  {
    if path == [] then Some(v)
    else
      match WalkStep(v, path[0])
      case None => None
      case Some(w) => Walk(w, path[1..])
  }

  /** The source text of a value; a string's without its quotes. */
  function SourceText(v: Value): (r: string) {
    if v.Leaf? then v.text else Print(v)
  }

  /** Is there a string, atom or key with this text in the value? */
  predicate Mentions(v: Value, key: string) {
    match v
    case Leaf(_, text) => text == key
    case Node(_, items, _) => ItemsMention(items, key)
  }

  predicate ItemsMention(items: Items, key: string) {
    match items
    case Nil => false
    case Item(_, tag, value, _, rest) =>
      (tag.Key? && tag.text == key) || Mentions(value, key) || ItemsMention(rest, key)
  }

  /** The key occurs first, in preorder, as the key of an item of this list. */
  predicate Unshadowed(items: Items, key: string) {
    match items
    case Nil => false
    case Item(_, tag, value, _, rest) =>
      (tag.Key? && tag.text == key) || (!Mentions(value, key) && Unshadowed(rest, key))
  }

  predicate NoTags(items: Items) {
    match items
    case Nil => true
    case Item(_, tag, _, _, rest) => tag.NoKey? && NoTags(rest)
  }

  predicate StepOk(v: Value, key: string) {
    match v
    case Leaf(_, _) => false
    case Node(isArray, items, _) =>
      if isArray then NoTags(items) && 0 <= Number(key) < Length(items) else Unshadowed(items, key)
  }

  predicate PathOk(v: Value, path: seq<string>)
    decreases |path|
  {
    path == [] || (StepOk(v, path[0]) && WalkStep(v, path[0]).Some? && PathOk(WalkStep(v, path[0]).value, path[1..]))
  }

  // ---------- Subtrees inside the table ----------

  /** Tokens k..k+n lie in lo..hi; earlier ones start before, later ones after. */
  ghost predicate Apart(ts: seq<Token>, k: nat, n: nat, lo: int, hi: int) {
    && k + n <= |ts|
    && (forall j :: 0 <= j < k ==> ts[j].start < lo)
    && (forall j :: k + n <= j < |ts| ==> ts[j].start > hi)
  }

  /** `v` is printed at `q` in the text, and its tokens are in the table from index `k` on. */
  ghost predicate Sub(doc: Doc, k: nat, v: Value, q: nat) {
    && Apart(doc.tokens, k, TokCount(v), q, q + |Print(v)|)
    && doc.tokens[k..k + TokCount(v)] == Toks(v, q)
    && At(doc.text, q, Print(v))
  }

  ghost predicate ItemsSub(doc: Doc, k: nat, items: Items, p: nat) {
    && Apart(doc.tokens, k, ItemCount(items), p, p + |PrintItems(items)|)
    && doc.tokens[k..k + ItemCount(items)] == ItemToks(items, p)
    && At(doc.text, p, PrintItems(items))
  }

  lemma RootSub(before: string, root: Value, after: string)
    ensures Sub(Printed(before, root, after), 0, root, |before|)
  {
    hide Print;
    hide Toks;
    ToksLength(root, |before|);
    var doc := Printed(before, root, after);
    assert doc.text[|before|..|before| + |Print(root)|] == Print(root);
    assert doc.tokens[0..TokCount(root)] == Toks(root, |before|);
  }

  lemma NodeText(v: Value)
    requires v.Node?
    ensures var open, close := if v.isArray then "[" else "{", if v.isArray then "]" else "}";
            Print(v) == open + (PrintItems(v.items) + (v.pad + close))
  {
    hide PrintItems;
  }

  /** The items of a bracket. */
  lemma NodeItems(doc: Doc, k: nat, v: Value, q: nat)
    requires v.Node? && Sub(doc, k, v, q)
    ensures doc.tokens[k] == Toks(v, q)[0]
    ensures ItemsSub(doc, k + 1, v.items, q + 1)
  {
    hide Print;
    hide PrintItems;
    hide ItemToks;
    hide Length;
    hide At;
    var n := ItemCount(v.items);
    ItemToksLength(v.items, q + 1);
    var w := doc.tokens[k..k + n + 1];
    assert w == Toks(v, q);
    assert w[1..] == doc.tokens[k + 1..k + 1 + n];
    assert doc.tokens[k] == w[0];
    var open, close := if v.isArray then "[" else "{", if v.isArray then "]" else "}";
    NodeText(v);
    AtSplit(doc.text, q, open, PrintItems(v.items) + (v.pad + close));
    AtSplit(doc.text, q + 1, PrintItems(v.items), v.pad + close);
    assert doc.tokens[k].start < q + 1;
  }

  lemma SliceSplit(ts: seq<Token>, k: nat, a: seq<Token>, b: seq<Token>)
    requires k + |a| + |b| <= |ts| && ts[k..k + |a| + |b|] == a + b
    ensures ts[k..k + |a|] == a && ts[k + |a|..k + |a| + |b|] == b
  {
    var w := ts[k..k + |a| + |b|];
    assert w[..|a|] == a && w[|a|..] == b;
  }

  lemma SliceAt(ts: seq<Token>, k: nat, a: seq<Token>, i: nat)
    requires k + |a| <= |ts| && ts[k..k + |a|] == a && i < |a|
    ensures ts[k + i] == a[i]
  {
    assert ts[k..k + |a|][i] == ts[k + i];
  }

  /** Where the text of the first item and of the others is. */
  lemma ItemsText(text: string, p: nat, items: Items)
    requires items.Item? && At(text, p, PrintItems(items))
    ensures At(text, p, PrintItem(items))
    ensures items.rest.Item? ==> At(text, p + |PrintItem(items)| + 1, PrintItems(items.rest))
    ensures |PrintItems(items)| == |PrintItem(items)| + |Separated(items.rest)|
  {
    hide PrintItem;
    hide PrintItems;
    hide At;
    var one, more := PrintItem(items), Separated(items.rest);
    ItemThenRest(items);
    AtSplit(text, p, one, more);
    if items.rest.Item? {
      AtSplit(text, p + |one|, ",", PrintItems(items.rest));
    }
  }

  /** The tokens of the first item, split into its key's and its value's, and of the others. */
  lemma ItemsTokens(doc: Doc, k: nat, items: Items, p: nat)
    requires items.Item? && ItemsSub(doc, k, items, p)
    ensures var t, n := TagCount(items.tag), TokCount(items.value);
            var r := p + |items.pre| + |PrintTag(items.tag)|;
            && k + t + n + ItemCount(items.rest) <= |doc.tokens|
            && doc.tokens[k..k + t] == TagToks(items.tag, p + |items.pre|)
            && doc.tokens[k + t..k + t + n] == Toks(items.value, r)
            && doc.tokens[k..k + t + n] == OneItemToks(items, p)
            && doc.tokens[k + t + n..k + t + n + ItemCount(items.rest)] == ItemToks(items.rest, p + |PrintItem(items)| + 1)
  {
    hide Print;
    hide PrintItem;
    hide PrintItems;
    hide PrintTag;
    hide Toks;
    hide ItemToks;
    hide OneItemToks;
    hide TagToks;
    hide At;
    var tag := TagToks(items.tag, p + |items.pre|);
    var val := Toks(items.value, p + |items.pre| + |PrintTag(items.tag)|);
    var more := ItemToks(items.rest, p + |PrintItem(items)| + 1);
    ItemToksLength(items, p);
    ToksLength(items.value, p + |items.pre| + |PrintTag(items.tag)|);
    ItemToksLength(items.rest, p + |PrintItem(items)| + 1);
    ItemToksParts(items, p);
    SliceSplit(doc.tokens, k, tag + val, more);
    SliceSplit(doc.tokens, k, tag, val);
  }

  /** Later tokens start behind the value. */
  lemma BehindValue(doc: Doc, k: nat, items: Items, p: nat, j: nat)
    requires items.Item? && ItemsSub(doc, k, items, p) && k + TagCount(items.tag) + TokCount(items.value) <= j < |doc.tokens|
    ensures doc.tokens[j].start > p + |items.pre| + |PrintTag(items.tag)| + |Print(items.value)|
  {
    hide Print;
    hide PrintItem;
    hide PrintItems;
    hide PrintTag;
    hide Toks;
    hide ItemToks;
    hide OneItemToks;
    hide TagToks;
    hide At;
    var m, next := k + TagCount(items.tag) + TokCount(items.value), p + |PrintItem(items)| + 1;
    ItemsTokens(doc, k, items, p);
    ItemLengths(items);
    if j < m + ItemCount(items.rest) {
      ItemToksWithin(items.rest, next);
      ItemToksLength(items.rest, next);
      SliceAt(doc.tokens, m, ItemToks(items.rest, next), j - m);
    }
  }

  lemma ItemLengths(items: Items)
    requires items.Item?
    ensures |PrintItem(items)| == |items.pre| + |PrintTag(items.tag)| + |Print(items.value)| + |items.post|
    ensures |PrintItems(items)| >= |PrintItem(items)|
  {
    hide PrintTag;
    hide Print;
    ItemThenRest(items);
  }

  /** The value of the first item. */
  lemma ItemValue(doc: Doc, k: nat, items: Items, p: nat)
    requires items.Item? && ItemsSub(doc, k, items, p)
    ensures Sub(doc, k + TagCount(items.tag), items.value, p + |items.pre| + |PrintTag(items.tag)|)
  {
    hide PrintItem;
    hide At;
    hide Print;
    hide PrintTag;
    hide PrintItems;
    hide Toks;
    hide ItemToks;
    hide OneItemToks;
    var ts, t, n := doc.tokens, TagCount(items.tag), TokCount(items.value);
    var r := p + |items.pre| + |PrintTag(items.tag)|;
    ItemsText(doc.text, p, items);
    ItemPlaces(doc.text, p, items);
    ItemsTokens(doc, k, items, p);
    forall j | k + t + n <= j < |ts|
      ensures ts[j].start > r + |Print(items.value)|
    {
      BehindValue(doc, k, items, p, j);
    }
    if t == 1 {
      TagStart(items.tag, p + |items.pre|);
      SliceAt(ts, k, TagToks(items.tag, p + |items.pre|), 0);
    }
  }

  lemma TagStart(tag: Tag, q: int)
    requires tag.Key?
    ensures TagToks(tag, q) == [Token(String, q + 1, q + 1 + |tag.text|, 1)]
    ensures q + 1 + |tag.text| < q + |PrintTag(tag)|
  {
  }

  /** The items after the first. */
  lemma ItemsRest(doc: Doc, k: nat, items: Items, p: nat)
    requires items.Item? && items.rest.Item? && ItemsSub(doc, k, items, p)
    ensures ItemsSub(doc, k + TagCount(items.tag) + TokCount(items.value), items.rest, p + |PrintItem(items)| + 1)
  {
    hide At;
    hide PrintTag;
    hide TagToks;
    hide PrintItem;
    hide PrintItems;
    hide Toks;
    hide ItemToks;
    hide OneItemToks;
    var ts, m := doc.tokens, k + TagCount(items.tag) + TokCount(items.value);
    var own := OneItemToks(items, p);
    ItemsText(doc.text, p, items);
    ItemsTokens(doc, k, items, p);
    OneItemWithin(items, p);
    ItemToksLength(items, p);
    forall j | 0 <= j < m
      ensures ts[j].start < p + |PrintItem(items)| + 1
    {
      if k <= j {
        SliceAt(ts, k, own, j - k);
      }
    }
  }

  /** The key of the first item: its token and its text. */
  lemma ItemTag(doc: Doc, k: nat, items: Items, p: nat)
    requires items.Item? && items.tag.Key? && ItemsSub(doc, k, items, p)
    ensures var s := p + |items.pre| + 1;
            && k < |doc.tokens|
            && doc.tokens[k] == Token(String, s, s + |items.tag.text|, 1)
            && At(doc.text, s, items.tag.text)
  {
    hide Print;
    hide PrintItems;
    hide Toks;
    hide ItemToks;
    hide OneItemToks;
    var tag := items.tag;
    var q := p + |items.pre|;
    ItemsText(doc.text, p, items);
    ItemPlaces(doc.text, p, items);
    ItemsTokens(doc, k, items, p);
    SliceAt(doc.tokens, k, TagToks(tag, q), 0);
    var tail := "\"" + tag.gap1 + ":" + tag.gap2;
    assert PrintTag(tag) == "\"" + (tag.text + tail);
    AtSplit(doc.text, q, "\"", tag.text + tail);
    AtSplit(doc.text, q + 1, tag.text, tail);
  }

  /** A string or atom: its token and its text. */
  lemma LeafToken(doc: Doc, k: nat, v: Value, q: nat)
    requires v.Leaf? && Sub(doc, k, v, q)
    ensures k < |doc.tokens| && !doc.tokens[k].IsContainer()
    ensures 0 <= doc.tokens[k].start <= doc.tokens[k].end <= |doc.text|
    ensures TextOf(doc.text, doc.tokens[k]) == v.text
  {
    SliceAt(doc.tokens, k, Toks(v, q), 0);
    if v.quoted {
      assert Print(v) == "\"" + (v.text + "\"");
      AtSplit(doc.text, q, "\"", v.text + "\"");
      AtSplit(doc.text, q + 1, v.text, "\"");
    }
  }

  // ---------- The scan over a subtree ----------

  /** Token `i` does not stop the scan. */
  ghost predicate Passed(pattern: string, r: Range, doc: Doc, i: nat)
    requires Inside(doc) && i < |doc.tokens|
  {
    var t := doc.tokens[i];
    || t.start < r.start || t.end > r.end
    || (if t.IsContainer() then !(t.kind == Array && t.start == r.start) else TextOf(doc.text, t) != pattern)
  }

  lemma {:induction false} SkipTo(pattern: string, r: Range, doc: Doc, i: nat, j: nat)
    requires Inside(doc) && i <= j <= |doc.tokens|
    requires forall m :: i <= m < j ==> Passed(pattern, r, doc, m)
    ensures Search(pattern, r, doc, i) == Search(pattern, r, doc, j)
    decreases j - i
  {
    if i < j {
      assert Passed(pattern, r, doc, i);
      SkipTo(pattern, r, doc, i + 1, j);
    }
  }

  /** A value that does not mention the key is passed over. */
  lemma {:induction false} NoMention(doc: Doc, k: nat, v: Value, q: nat, r: Range, key: string)
    requires Inside(doc) && Sub(doc, k, v, q) && !Mentions(v, key) && r.start < q
    ensures forall m :: k <= m < k + TokCount(v) ==> Passed(key, r, doc, m)
    decreases v, 2
  {
    match v
    case Leaf(_, _) => LeafToken(doc, k, v, q);
    case Node(_, items, _) =>
      NodeItems(doc, k, v, q);
      NoItemMention(doc, k + 1, items, q + 1, r, key);
  }

  lemma {:induction false} NoItemMention(doc: Doc, k: nat, items: Items, p: nat, r: Range, key: string)
    requires Inside(doc) && ItemsSub(doc, k, items, p) && !ItemsMention(items, key) && r.start < p
    ensures forall m :: k <= m < k + ItemCount(items) ==> Passed(key, r, doc, m)
    decreases items, 1
  {
    if items.Item? {
      hide Print;
      hide PrintItems;
      hide PrintItem;
      hide Toks;
      hide ItemToks;
      var t, n := TagCount(items.tag), TokCount(items.value);
      ItemFirst(doc, k, items, p, r, key);
      if items.rest.Item? {
        ItemsRest(doc, k, items, p);
        NoItemMention(doc, k + t + n, items.rest, p + |PrintItem(items)| + 1, r, key);
      }
    }
  }

  /** An item whose key and value are other texts is passed over. */
  lemma {:induction false} ItemFirst(doc: Doc, k: nat, items: Items, p: nat, r: Range, key: string)
    requires items.Item? && Inside(doc) && ItemsSub(doc, k, items, p) && r.start < p
    requires items.tag.Key? ==> items.tag.text != key
    requires !Mentions(items.value, key)
    ensures k + TagCount(items.tag) + TokCount(items.value) <= |doc.tokens|
    ensures forall m :: k <= m < k + TagCount(items.tag) + TokCount(items.value) ==> Passed(key, r, doc, m)
    decreases items, 0
  {
    hide ItemsSub;
    hide Print;
    hide PrintItem;
    hide PrintTag;
    hide PrintItems;
    hide Toks;
    hide ItemToks;
    hide Mentions;
    var t := TagCount(items.tag);
    ItemValue(doc, k, items, p);
    NoMention(doc, k + t, items.value, p + |items.pre| + |PrintTag(items.tag)|, r, key);
    if t == 1 {
      ItemTag(doc, k, items, p);
    }
  }

  /** Index of the first item's key token with this text, counted from the list's first token. */
  function KeyAt(items: Items, key: string): (r: nat)
    requires FindKey(items, key).Some?
  {
    if items.tag.Key? && items.tag.text == key then 0
    else TagCount(items.tag) + TokCount(items.value) + KeyAt(items.rest, key)
  }

  lemma {:induction false} UnshadowedFound(items: Items, key: string)
    requires Unshadowed(items, key)
    ensures FindKey(items, key).Some?
  {
    if !(items.tag.Key? && items.tag.text == key) {
      UnshadowedFound(items.rest, key);
    }
  }

  /** A text token inside lo..hi that reads `key`. */
  ghost predicate Reads(doc: Doc, i: nat, key: string, lo: int, hi: int)
    requires Inside(doc)
  {
    && i < |doc.tokens| && !doc.tokens[i].IsContainer() && TextOf(doc.text, doc.tokens[i]) == key
    && lo <= doc.tokens[i].start && doc.tokens[i].end <= hi
  }

  lemma TagReads(doc: Doc, k: nat, items: Items, p: nat)
    requires Inside(doc) && items.Item? && items.tag.Key? && ItemsSub(doc, k, items, p)
    ensures Reads(doc, k, items.tag.text, p, p + |PrintItem(items)|)
  {
    hide Print;
    hide PrintItems;
    hide Toks;
    hide ItemToks;
    ItemTag(doc, k, items, p);
    TagStart(items.tag, p + |items.pre|);
  }

  /** The value of the item that has the key. */
  lemma {:induction false} KeySub(doc: Doc, k: nat, items: Items, p: nat, key: string) returns (q: nat)
    requires ItemsSub(doc, k, items, p) && FindKey(items, key).Some?
    ensures Sub(doc, k + KeyAt(items, key) + 1, FindKey(items, key).value, q)
    decreases items
  {
    hide Print;
    hide PrintTag;
    hide PrintItem;
    hide PrintItems;
    hide Toks;
    hide ItemToks;
    hide ItemsSub;
    hide Sub;
    if items.tag.Key? && items.tag.text == key {
      q := p + |items.pre| + |PrintTag(items.tag)|;
      ItemValue(doc, k, items, p);
    } else {
      ItemsRest(doc, k, items, p);
      q := KeySub(doc, k + TagCount(items.tag) + TokCount(items.value), items.rest, p + |PrintItem(items)| + 1, key);
    }
  }

  // ---------- Array elements ----------

  /** Index of the n-th item's first token, counted from the list's first token. */
  function ElementAt(items: Items, n: int): (r: nat) {
    if items.Nil? || n == 0 then 0
    else TagCount(items.tag) + TokCount(items.value) + ElementAt(items.rest, n - 1)
  }

  lemma {:induction false} NextAfterIs(ts: seq<Token>, j: nat, m: nat, end: int)
    requires j <= m <= |ts| && (m < |ts| ==> ts[m].start > end)
    requires forall i :: j <= i < m ==> ts[i].start <= end
    ensures NextAfter(ts, j, end) == m
    decreases m - j
  {
    if j < m {
      NextAfterIs(ts, j + 1, m, end);
    }
  }

  /** The scan for the next sibling skips exactly the tokens of the value. */
  lemma NextSibling(doc: Doc, k: nat, v: Value, q: nat)
    requires Sub(doc, k, v, q)
    ensures k < |doc.tokens| && NextAfter(doc.tokens, k, doc.tokens[k].end) == k + TokCount(v)
  {
    hide Print;
    ToksLength(v, q);
    ToksWithin(v, q);
    FirstToken(v, q);
    var ts, own := doc.tokens, Toks(v, q);
    SliceAt(ts, k, own, 0);
    forall i | k <= i < k + |own|
      ensures ts[i].start <= ts[k].end
    {
      SliceAt(ts, k, own, i - k);
    }
    NextAfterIs(ts, k, k + TokCount(v), ts[k].end);
  }

  /** The first token of a value ends last. */
  lemma FirstToken(v: Value, q: int)
    ensures |Toks(v, q)| > 0
    ensures forall i :: 0 <= i < |Toks(v, q)| ==> Toks(v, q)[i].start <= Toks(v, q)[0].end
  {
    hide Print;
    hide ItemToks;
    ToksWithin(v, q);
  }

  lemma {:induction false} NthItem(doc: Doc, k: nat, items: Items, p: nat, n: int) returns (i: nat, q: nat)
    requires Inside(doc) && ItemsSub(doc, k, items, p) && NoTags(items) && 0 <= n < Length(items)
    ensures FindIndex(items, n).Some? && Nth(doc.tokens, k, n) == i && Sub(doc, i, FindIndex(items, n).value, q)
    ensures i == k + ElementAt(items, n)
    decreases items
  {
    hide Print;
    hide PrintItem;
    hide PrintItems;
    hide Toks;
    hide ItemToks;
    hide NextAfter;
    ItemValue(doc, k, items, p);
    q := p + |items.pre| + |PrintTag(items.tag)|;
    NextSibling(doc, k, items.value, q);
    if n == 0 {
      i := k;
    } else {
      ItemsRest(doc, k, items, p);
      i, q := NthItem(doc, k + TokCount(items.value), items.rest, p + |PrintItem(items)| + 1, n - 1);
    }
  }

  // ---------- The first text that reads the key ----------

  /** Its index, in preorder. */
  function FirstRead(v: Value, key: string): (j: nat)
    requires Mentions(v, key)
    ensures j < TokCount(v)
  {
    match v
    case Leaf(_, _) => 0
    case Node(_, items, _) => 1 + FirstItemRead(items, key)
  }

  function FirstItemRead(items: Items, key: string): (j: nat)
    requires ItemsMention(items, key)
    ensures j < ItemCount(items)
  {
    if items.tag.Key? && items.tag.text == key then 0
    else if Mentions(items.value, key) then TagCount(items.tag) + FirstRead(items.value, key)
    else TagCount(items.tag) + TokCount(items.value) + FirstItemRead(items.rest, key)
  }

  /** The scan passes what is in front of it, and it reads the key. */
  lemma {:induction false} ReadsFirst(doc: Doc, k: nat, v: Value, q: nat, r: Range, key: string)
    requires Inside(doc) && Sub(doc, k, v, q) && Mentions(v, key) && r.start < q
    ensures Reads(doc, k + FirstRead(v, key), key, q, q + |Print(v)|)
    ensures forall m :: k <= m < k + FirstRead(v, key) ==> Passed(key, r, doc, m)
    decreases v, 1
  {
    hide Print;
    hide Toks;
    hide ItemToks;
    hide PrintItems;
    match v
    case Leaf(_, _) => LeafReads(doc, k, v, q);
    case Node(_, items, _) =>
      NodeItems(doc, k, v, q);
      AroundNode(doc, k, v, q);
      PrintNodeLength(v);
      ItemReadsFirst(doc, k + 1, items, q + 1, r, key);
  }

  lemma LeafReads(doc: Doc, k: nat, v: Value, q: nat)
    requires Inside(doc) && v.Leaf? && Sub(doc, k, v, q)
    ensures Reads(doc, k, v.text, q, q + |Print(v)|)
  {
    LeafToken(doc, k, v, q);
    SliceAt(doc.tokens, k, Toks(v, q), 0);
  }

  lemma {:induction false} ItemReadsFirst(doc: Doc, k: nat, items: Items, p: nat, r: Range, key: string)
    requires Inside(doc) && ItemsSub(doc, k, items, p) && ItemsMention(items, key) && r.start < p
    ensures Reads(doc, k + FirstItemRead(items, key), key, p, p + |PrintItems(items)|)
    ensures forall m :: k <= m < k + FirstItemRead(items, key) ==> Passed(key, r, doc, m)
    decreases items, 0
  {
    hide Print;
    hide PrintTag;
    hide PrintItem;
    hide PrintItems;
    hide Toks;
    hide ItemToks;
    hide ItemsSub;
    hide Sub;
    hide Mentions;
    hide FirstRead;
    var t, q := TagCount(items.tag), p + |items.pre| + |PrintTag(items.tag)|;
    ItemLengths(items);
    if items.tag.Key? {
      TagReads(doc, k, items, p);
    }
    if items.tag.Key? && items.tag.text == key {
    } else if Mentions(items.value, key) {
      ItemValue(doc, k, items, p);
      ReadsFirst(doc, k + t, items.value, q, r, key);
    } else {
      ItemFirst(doc, k, items, p, r, key);
      ItemsRest(doc, k, items, p);
      LaterLength(items);
      ItemReadsFirst(doc, k + t + TokCount(items.value), items.rest, p + |PrintItem(items)| + 1, r, key);
    }
  }

  lemma LaterLength(items: Items)
    requires items.Item? && items.rest.Item?
    ensures |PrintItems(items)| == |PrintItem(items)| + 1 + |PrintItems(items.rest)|
  {
    hide PrintItem;
    hide PrintItems;
    ItemThenRest(items);
  }

  /** The tokens before a subtree are out of its range; those inside start after its bracket. */
  lemma AroundNode(doc: Doc, k: nat, v: Value, q: nat)
    requires v.Node? && Sub(doc, k, v, q)
    ensures k < |doc.tokens| && Span(doc.tokens[k]) == Range(q, q + |Print(v)|)
    ensures doc.tokens[k].kind == if v.isArray then Array else Object
    ensures forall m :: 0 <= m < k ==> doc.tokens[m].start < q
    ensures forall m :: k < m < |doc.tokens| ==> doc.tokens[m].start > q
  {
    hide Print;
    hide ItemToks;
    hide PrintItems;
    NodeItems(doc, k, v, q);
    var own := ItemToks(v.items, q + 1);
    ItemToksWithin(v.items, q + 1);
    ItemToksLength(v.items, q + 1);
    forall m | k < m < |doc.tokens|
      ensures doc.tokens[m].start > q
    {
      if m < k + 1 + |own| {
        SliceAt(doc.tokens, k + 1, own, m - k - 1);
      }
    }
  }

  /** One step inside an object, exactly: it lands behind the first text, in preorder, that reads the
      key, whatever that text is, leaves the table if that is the last token, and finds nothing if
      there is none. */
  lemma SearchIsFirstRead(doc: Doc, k: nat, v: Value, q: nat, key: string)
    requires Inside(doc) && v.Node? && !v.isArray && Sub(doc, k, v, q)
    ensures k < |doc.tokens|
    ensures Search(key, Span(doc.tokens[k]), doc, 0)
            == if !Mentions(v, key) then Missing
               else if k + FirstRead(v, key) + 1 < |doc.tokens| then Hit(k + FirstRead(v, key) + 1) else Wild
  {
    hide ItemsSub;
    hide PrintItems;
    hide Print;
    hide Toks;
    hide ItemToks;
    hide Search;
    hide ItemsMention;
    hide FirstItemRead;
    AroundNode(doc, k, v, q);
    NodeItems(doc, k, v, q);
    PrintNodeLength(v);
    var r := Range(q, q + |Print(v)|);
    if Mentions(v, key) {
      var j := k + FirstRead(v, key);
      ItemReadsFirst(doc, k + 1, v.items, q + 1, r, key);
      SkipTo(key, r, doc, 0, j);
      SearchHere(key, r, doc, j);
    } else {
      NoItemMention(doc, k + 1, v.items, q + 1, r, key);
      SkipTo(key, r, doc, 0, |doc.tokens|);
      NothingToSearch(key, r, doc);
    }
  }

  lemma NothingToSearch(key: string, r: Range, doc: Doc)
    requires Inside(doc)
    ensures Search(key, r, doc, |doc.tokens|) == Missing
  {
  }

  /** A key is the first text that reads so exactly when it is unshadowed. */
  lemma {:induction false} UnshadowedIsFirst(items: Items, key: string)
    requires FindKey(items, key).Some?
    ensures ItemsMention(items, key) && (Unshadowed(items, key) <==> FirstItemRead(items, key) == KeyAt(items, key))
    ensures KeyAt(items, key) + 1 < ItemCount(items)
  {
    if !(items.tag.Key? && items.tag.text == key) {
      UnshadowedIsFirst(items.rest, key);
    }
  }

  /** One key step inside an object lands on the key's value exactly when nothing earlier in the
      object, in preorder, reads the same. */
  lemma KeyStepExact(doc: Doc, k: nat, v: Value, q: nat, key: string)
    requires Inside(doc) && v.Node? && !v.isArray && Sub(doc, k, v, q) && FindKey(v.items, key).Some?
    ensures k < |doc.tokens|
    ensures Search(key, Span(doc.tokens[k]), doc, 0) == Hit(k + 1 + KeyAt(v.items, key) + 1)
            <==> Unshadowed(v.items, key)
  {
    hide Print;
    hide Toks;
    hide Search;
    hide KeyAt;
    hide Unshadowed;
    hide FirstItemRead;
    SearchIsFirstRead(doc, k, v, q, key);
    UnshadowedIsFirst(v.items, key);
  }

  lemma PrintNodeLength(v: Value)
    requires v.Node?
    ensures |Print(v)| == |PrintItems(v.items)| + |v.pad| + 2
  {
  }

  lemma SearchHere(pattern: string, r: Range, doc: Doc, n: nat)
    requires Inside(doc) && Reads(doc, n, pattern, r.start, r.end)
    ensures Search(pattern, r, doc, n) == if n + 1 < |doc.tokens| then Hit(n + 1) else Wild
  {
  }

  // ---------- Paths ----------

  /** Index, in preorder, of the token the step leads to. */
  function StepIndex(v: Value, key: string): (r: nat)
    requires v.Node? && (v.isArray || FindKey(v.items, key).Some?)
  {
    if v.isArray then 1 + ElementAt(v.items, Number(key)) else 1 + KeyAt(v.items, key) + 1
  }

  /** Index, in preorder, of the first token of the value the path leads to. */
  function WalkIndex(v: Value, path: seq<string>): (r: nat)
    requires Walk(v, path).Some?
    decreases |path|
  {
    if path == [] then 0
    else StepIndex(v, path[0]) + WalkIndex(WalkStep(v, path[0]).value, path[1..])
  }

  lemma ArrayStep(doc: Doc, k: nat, v: Value, q: nat, key: string) returns (i: nat, p: nat)
    requires Inside(doc) && v.Node? && v.isArray && Sub(doc, k, v, q) && StepOk(v, key)
    ensures k < |doc.tokens| && WalkStep(v, key).Some?
    ensures Search(key, Span(doc.tokens[k]), doc, 0) == Hit(i) && Sub(doc, i, WalkStep(v, key).value, p)
    ensures i == k + StepIndex(v, key)
  {
    hide Print;
    hide Toks;
    hide Search;
    hide Nth;
    AroundNode(doc, k, v, q);
    NodeItems(doc, k, v, q);
    i, p := NthItem(doc, k + 1, v.items, q + 1, Number(key));
    var r := Range(q, q + |Print(v)|);
    SkipTo(key, r, doc, 0, k);
    SearchArray(key, r, doc, k);
  }

  lemma SearchArray(pattern: string, r: Range, doc: Doc, k: nat)
    requires Inside(doc) && k < |doc.tokens| && Span(doc.tokens[k]) == r && doc.tokens[k].kind == Array
    ensures var e := Nth(doc.tokens, k + 1, Number(pattern));
            Search(pattern, r, doc, k) == if e == -1 then Wild else Hit(e)
  {
  }

  lemma ObjectStep(doc: Doc, k: nat, v: Value, q: nat, key: string) returns (i: nat, p: nat)
    requires Inside(doc) && v.Node? && !v.isArray && Sub(doc, k, v, q) && StepOk(v, key)
    ensures k < |doc.tokens| && WalkStep(v, key).Some?
    ensures Search(key, Span(doc.tokens[k]), doc, 0) == Hit(i) && Sub(doc, i, WalkStep(v, key).value, p)
    ensures i == k + StepIndex(v, key)
  {
    hide Inside;
    hide Sub;
    hide ItemsSub;
    hide KeyAt;
    hide FindKey;
    hide Unshadowed;
    hide PrintItems;
    hide Print;
    hide Toks;
    hide Search;
    UnshadowedFound(v.items, key);
    KeyStepExact(doc, k, v, q, key);
    NodeItems(doc, k, v, q);
    i := k + 1 + KeyAt(v.items, key) + 1;
    p := KeySub(doc, k + 1, v.items, q + 1, key);
  }

  /** Resolving a path from a subtree ends on the subtree that a walk of the tree reaches. */
  lemma {:induction false} PathFollowsTree(doc: Doc, k: nat, v: Value, q: nat, path: seq<string>)
    returns (i: nat, p: nat)
    requires Inside(doc) && Sub(doc, k, v, q) && k < |doc.tokens| && PathOk(v, path)
    ensures Walk(v, path).Some? && Sub(doc, i, Walk(v, path).value, p) && i < |doc.tokens|
    ensures i == k + WalkIndex(v, path)
    ensures Resolve(path, Span(doc.tokens[k]), doc) == Place(Span(doc.tokens[i]))
    decreases |path|
  {
    if path == [] {
      return k, q;
    }
    hide Search;
    hide Sub;
    hide StepOk;
    hide WalkStep;
    var key := path[0];
    var w := WalkStep(v, key).value;
    var j, s := FollowStep(doc, k, v, q, key);
    i, p := PathFollowsTree(doc, j, w, s, path[1..]);
  }

  lemma FollowStep(doc: Doc, k: nat, v: Value, q: nat, key: string) returns (i: nat, p: nat)
    requires Inside(doc) && Sub(doc, k, v, q) && StepOk(v, key)
    ensures k < |doc.tokens| && WalkStep(v, key).Some?
    ensures Search(key, Span(doc.tokens[k]), doc, 0) == Hit(i) && Sub(doc, i, WalkStep(v, key).value, p)
    ensures i == k + StepIndex(v, key)
    ensures i < |doc.tokens| && i == k + StepIndex(v, key)
  {
    hide Search;
    hide Sub;
    if v.isArray {
      i, p := ArrayStep(doc, k, v, q, key);
    } else {
      i, p := ObjectStep(doc, k, v, q, key);
    }
  }

  /** The span of a subtree's first token holds its source text. */
  lemma SpanHoldsText(doc: Doc, k: nat, v: Value, q: nat)
    requires Inside(doc) && Sub(doc, k, v, q)
    ensures k < |doc.tokens| && TextOf(doc.text, doc.tokens[k]) == SourceText(v)
  {
    if v.Leaf? {
      LeafToken(doc, k, v, q);
    } else {
      hide Print;
      hide Toks;
      AroundNode(doc, k, v, q);
    }
  }

  lemma PrintedInside(before: string, root: Value, after: string)
    ensures Inside(Printed(before, root, after))
  {
    hide Print;
    hide Toks;
    ToksWithin(root, |before|);
  }

  /** Looking a path up in a printed document gives the source text of the value the path leads to. */
  lemma LookupAgreesWithTree(before: string, root: Value, after: string, path: seq<string>)
    requires PathOk(root, path)
    ensures var doc := Printed(before, root, after);
            && Inside(doc) && doc.tokens != [] && Walk(root, path).Some?
            && var r := Resolve(path, Span(doc.tokens[0]), doc);
               && r.Place? && 0 <= r.range.start <= r.range.end <= |doc.text|
               && doc.text[r.range.start..r.range.end] == SourceText(Walk(root, path).value)
  {
    hide Sub;
    hide Resolve;
    hide Print;
    hide Toks;
    hide PathOk;
    hide Walk;
    var doc := Printed(before, root, after);
    PrintedInside(before, root, after);
    RootSub(before, root, after);
    ToksNonempty(root, |before|);
    var i, p := PathFollowsTree(doc, 0, root, |before|, path);
    SpanHoldsText(doc, i, Walk(root, path).value, p);
  }
}
