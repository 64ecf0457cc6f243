/**
 Overwriting the string or atom a path leads to: the result is the printed tree with that leaf
 changed, its table is in step, and looking the same path up again gives the new text.
 */
module JsonPath {
  import opened Jsmn
  import opened JsonTree
  import opened JsonEdit
  import opened JsonLookup

  predicate Legal(v: Value, text: string) {
    v.Leaf? && if v.quoted then StringOk(text) else AtomOk(text)
  }

  /** The k-th token of the list is the w-th token of the value `key` leads to. */
  lemma {:induction false} KeyedText(items: Items, key: string, w: nat, text: string)
    requires FindKey(items, key).Some? && w < TokCount(FindKey(items, key).value)
    requires IsText(FindKey(items, key).value, w)
    ensures var v, k := FindKey(items, key).value, KeyAt(items, key) + 1 + w;
            && IsItemText(items, k)
            && CutItems(items, k).text == CutAt(v, w).text
            && (Fits(v, w, text) ==> ItemFits(items, k, text))
            && FindKey(ReplaceItems(items, k, text), key) == Some(Replace(v, w, text))
            && (Unshadowed(items, key) ==> Unshadowed(ReplaceItems(items, k, text), key))
  {
    if !(items.tag.Key? && items.tag.text == key) {
      KeyedText(items.rest, key, w, text);
    }
  }

  lemma {:induction false} ElementText(items: Items, n: int, w: nat, text: string)
    requires NoTags(items) && FindIndex(items, n).Some? && w < TokCount(FindIndex(items, n).value)
    requires IsText(FindIndex(items, n).value, w)
    ensures var v, k := FindIndex(items, n).value, ElementAt(items, n) + w;
            && IsItemText(items, k)
            && CutItems(items, k).text == CutAt(v, w).text
            && (Fits(v, w, text) ==> ItemFits(items, k, text))
            && FindIndex(ReplaceItems(items, k, text), n) == Some(Replace(v, w, text))
            && NoTags(ReplaceItems(items, k, text))
  {
    if n != 0 {
      ElementText(items.rest, n - 1, w, text);
    }
  }

  lemma {:induction false} TextBound(v: Value, k: nat)
    requires IsText(v, k)
    ensures k < TokCount(v)
  {
    if v.Node? {
      ItemTextBound(v.items, k - 1);
    }
  }

  lemma {:induction false} ItemTextBound(items: Items, k: nat)
    requires IsItemText(items, k)
    ensures k < ItemCount(items)
  {
    var j := k - TagCount(items.tag) - TokCount(items.value);
    if j >= 0 {
      ItemTextBound(items.rest, j);
    }
  }

  lemma StepText(v: Value, key: string, w: nat, text: string)
    requires StepOk(v, key) && WalkStep(v, key).Some? && IsText(WalkStep(v, key).value, w)
    ensures var u, k := WalkStep(v, key).value, StepIndex(v, key) + w;
            && IsText(v, k) && CutAt(v, k).text == CutAt(u, w).text
            && (Fits(u, w, text) ==> Fits(v, k, text))
            && StepOk(Replace(v, k, text), key)
            && WalkStep(Replace(v, k, text), key) == Some(Replace(u, w, text))
  {
    TextBound(WalkStep(v, key).value, w);
    if v.isArray {
      ElementText(v.items, Number(key), w, text);
      ReplaceKeepsLength(v.items, StepIndex(v, key) + w - 1, text);
    } else {
      KeyedText(v.items, key, w, text);
    }
  }

  /** The leaf a path leads to, replaced in the tree: the same path leads to the new text. */
  lemma {:induction false} ReplaceAtPath(v: Value, path: seq<string>, text: string)
    requires PathOk(v, path) && Walk(v, path).Some? && Walk(v, path).value.Leaf?
    ensures var leaf, k := Walk(v, path).value, WalkIndex(v, path);
            && IsText(v, k) && CutAt(v, k).text == leaf.text
            && (Legal(leaf, text) ==> Fits(v, k, text))
            && PathOk(Replace(v, k, text), path)
            && Walk(Replace(v, k, text), path) == Some(leaf.(text := text))
    decreases |path|
  {
    if path != [] {
      hide StepOk;
      hide WalkStep;
      hide CutAt;
      hide Replace;
      hide IsText;
      hide Fits;
      hide StepIndex;
      var u := WalkStep(v, path[0]).value;
      ReplaceAtPath(u, path[1..], text);
      StepText(v, path[0], WalkIndex(u, path[1..]), text);
    }
  }

  /** Overwriting the non-empty leaf at a path, then looking the path up, gives the new text. */
  lemma SetThenGet(before: string, root: Value, path: seq<string>, text: string)
    requires root.Node? && PathOk(root, path) && Walk(root, path).Some? && Walk(root, path).value.Leaf?
    requires Walk(root, path).value.text != ""
    ensures var doc := Printed(before, root, "");
            var k := WalkIndex(root, path);
            var changed := Printed(before, Replace(root, k, text), "");
            && Inside(doc) && doc.tokens != [] && k < |doc.tokens|
            && Resolve(path, Span(doc.tokens[0]), doc) == Place(Span(doc.tokens[k]))
            && SetToken(doc, k, text) == changed
            && Inside(changed) && changed.tokens != []
            && var r := Resolve(path, Span(changed.tokens[0]), changed);
               && r.Place? && 0 <= r.range.start <= r.range.end <= |changed.text|
               && changed.text[r.range.start..r.range.end] == text
  {
    hide Sub;
    hide Resolve;
    hide Print;
    hide Toks;
    hide PathOk;
    hide Walk;
    hide WalkIndex;
    hide Replace;
    hide CutAt;
    hide IsText;
    var doc := Printed(before, root, "");
    var k := WalkIndex(root, path);
    ReplaceAtPath(root, path, text);
    PrintedInside(before, root, "");
    RootSub(before, root, "");
    ToksNonempty(root, |before|);
    var i, p := PathFollowsTree(doc, 0, root, |before|, path);
    SetTokenIsReplace(before, root, "", k, text);
    LookupAgreesWithTree(before, Replace(root, k, text), "", path);
  }
}
