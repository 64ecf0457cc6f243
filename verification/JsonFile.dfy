/**
 The editable JSON buffer: a fixed character buffer holding a NUL-terminated text, a fixed token
 table, and the operations that look values up and overwrite them in place.
 */
module JsonFile {
  import opened Jsmn
  import JsmnStack
  import opened JsonTree
  import opened JsonEdit
  import opened JsonLookup

  const MAX_TOKENS := 128
  const MAX_CONTENT := 1024

  /** strlen: characters before the first NUL, or all of them. */
  function StrLen(s: seq<char>): (n: nat)
    ensures n <= |s| && (n < |s| ==> s[n] == '\0')
    ensures forall i :: 0 <= i < n ==> s[i] != '\0'
  {
    if s == [] || s[0] == '\0' then 0 else 1 + StrLen(s[1..])
  }

  lemma {:induction false} StrLenIs(s: seq<char>, n: nat)
    requires n < |s| && s[n] == '\0' && forall i :: 0 <= i < n ==> s[i] != '\0'
    ensures StrLen(s) == n
  {
    if n != 0 {
      StrLenIs(s[1..], n - 1);
    }
  }

  predicate NoNul(s: string) {
    forall i :: 0 <= i < |s| ==> s[i] != '\0'
  }

  function CodeValue(code: Code): (r: int) {
    match code
    case Count(n) => n
    case NoMem => -1
    case Inval => -2
    case Part => -3
  }

  /** What getPatteren copies for a token; nothing for an open one. */
  function Pattern(text: string, t: Token): (r: string)
    requires 0 <= t.start && t.end <= |text|
  {
    if t.end < t.start then "" else text[t.start..t.end]
  }

  /** What get_jsfile_value leaves in its result buffer; None is a buffer left alone. */
  function Result(keys: seq<string>, r: Range, doc: Doc): (f: Option<string>)
    requires Inside(doc)
    decreases |keys|
  {
    if keys == [] then None
    else
      match Search(keys[0], r, doc, 0)
      case Wild => None
      case Missing => Result(keys[1..], r, doc)
      case Hit(i) =>
        if |keys| == 1 then Some(TextOf(doc.text, doc.tokens[i]))
        else Result(keys[1..], Span(doc.tokens[i]), doc)
  }

  /** Is `i`, `v` a point the copy loop passes: `i` in the text, `v` in the new value? */
  predicate Copying(text: string, r: Range, value: string, i: nat, v: nat)
    requires 0 <= r.start <= r.end <= |text|
  {
    && i <= |text| && v <= |value|
    && (i < r.start ==> v == 0)
    && (r.start < i < r.end ==> false)
    && (r.start < r.end <= i ==> v == |value|)
    && (r.start == r.end ==> v == 0)
  }

  /** What the copy loop has written by then. */
  function Copied(text: string, r: Range, value: string, i: nat, v: nat): (f: string)
    requires 0 <= r.start <= r.end <= |text| && Copying(text, r, value, i, v)
  {
    if r.start == r.end || i < r.start then text[..i]
    else if i < r.end then text[..r.start] + value[..v]
    else text[..r.start] + value + text[r.end..i]
  }

  lemma CopiedLength(text: string, r: Range, value: string, i: nat, v: nat)
    requires 0 <= r.start <= r.end <= |text| && Copying(text, r, value, i, v)
    ensures |Copied(text, r, value, i, v)| <= |Splice(text, r, value)|
    ensures i == |text| && (r.end <= i || i < r.start) && !(r.start <= i < r.end) ==> Copied(text, r, value, i, v) == Splice(text, r, value)
    ensures r.start <= i < r.end && v < |value| ==> |Copied(text, r, value, i, v)| < |Splice(text, r, value)|
  {
  }

  lemma CopiedText(text: string, r: Range, value: string, i: nat, v: nat)
    requires 0 <= r.start <= r.end <= |text| && Copying(text, r, value, i, v)
    requires i < |text| && (i < r.start || i >= r.end)
    ensures Copying(text, r, value, i + 1, v)
    ensures Copied(text, r, value, i + 1, v) == Copied(text, r, value, i, v) + [text[i]]
  {
  }

  lemma CopiedValue(text: string, r: Range, value: string, i: nat, v: nat)
    requires 0 <= r.start <= r.end <= |text| && Copying(text, r, value, i, v)
    requires r.start <= i < r.end && v < |value|
    ensures Copying(text, r, value, i, v + 1)
    ensures Copied(text, r, value, i, v + 1) == Copied(text, r, value, i, v) + [value[v]]
  {
  }

  lemma NoKeys(keys: seq<string>, r: Range, doc: Doc)
    requires Inside(doc)
    ensures keys[0..] == keys && (keys == [] ==> Result(keys, r, doc) == None)
  {
  }

  lemma SpanText(doc: Doc, i: nat)
    requires Inside(doc) && i < |doc.tokens|
    ensures var r := Span(doc.tokens[i]);
            0 <= r.start <= r.end <= |doc.text| && TextOf(doc.text, doc.tokens[i]) == doc.text[r.start..r.end]
  {
  }

  /** The first step of a lookup that stays inside the table. */
  lemma OneKey(keys: seq<string>, r: Range, doc: Doc)
    requires Inside(doc) && keys != [] && Resolve(keys, r, doc).Place?
    ensures var f := Search(keys[0], r, doc, 0);
            && !f.Wild?
            && (f.Missing? ==> Resolve(keys[1..], r, doc).Place? && Result(keys, r, doc) == Result(keys[1..], r, doc))
            && (f.Hit? ==>
                  var t := doc.tokens[f.index];
                  && Resolve(keys[1..], Span(t), doc).Place?
                  && (|keys| == 1 ==> Result(keys, r, doc) == Some(TextOf(doc.text, t)))
                  && (|keys| > 1 ==> Result(keys, r, doc) == Result(keys[1..], Span(t), doc)))
  {
  }

  /** The result of a lookup along a path of the tree. */
  lemma {:induction false} ResultFollowsTree(doc: Doc, k: nat, v: Value, q: nat, path: seq<string>)
    requires Inside(doc) && Sub(doc, k, v, q) && k < |doc.tokens| && PathOk(v, path) && path != []
    ensures Walk(v, path).Some? && Result(path, Span(doc.tokens[k]), doc) == Some(SourceText(Walk(v, path).value))
    decreases |path|
  {
    hide Search;
    hide Sub;
    hide StepOk;
    hide WalkStep;
    hide SourceText;
    var w := WalkStep(v, path[0]).value;
    var i, p := FollowStep(doc, k, v, q, path[0]);
    if |path| == 1 {
      SpanHoldsText(doc, i, w, p);
      assert Walk(w, path[1..]) == Some(w);
    } else {
      ResultFollowsTree(doc, i, w, p, path[1..]);
    }
  }

  /** get_jsfile_value on a printed document gives the source text of the value a walk of the
      tree reaches, whenever every key on the way is met first as that key. */
  lemma GetValueAgreesWithTree(before: string, root: Value, after: string, path: seq<string>)
    requires PathOk(root, path) && path != []
    ensures var doc := Printed(before, root, after);
            && Inside(doc) && doc.tokens != [] && Walk(root, path).Some?
            && Result(path, Span(doc.tokens[0]), doc) == Some(SourceText(Walk(root, path).value))
  {
    hide Sub;
    hide Result;
    hide Print;
    hide Toks;
    hide PathOk;
    hide Walk;
    hide SourceText;
    PrintedInside(before, root, after);
    RootSub(before, root, after);
    ToksNonempty(root, |before|);
    ResultFollowsTree(Printed(before, root, after), 0, root, |before|, path);
  }

  /** A key that no text in the document reads is passed over: the next key is looked up where it
      would have been. */
  lemma MissingKeyIsSkipped(before: string, root: Value, after: string, path: seq<string>)
    requires root.Node? && !root.isArray && path != [] && !Mentions(root, path[0])
    ensures var doc := Printed(before, root, after);
            && Inside(doc) && doc.tokens != []
            && var r := Span(doc.tokens[0]);
               Resolve(path, r, doc) == Resolve(path[1..], r, doc) && Result(path, r, doc) == Result(path[1..], r, doc)
  {
    hide Print;
    hide Toks;
    hide Search;
    hide Sub;
    hide Mentions;
    PrintedInside(before, root, after);
    RootSub(before, root, after);
    SearchIsFirstRead(Printed(before, root, after), 0, root, |before|, path[0]);
  }

  class JsonData {
    const content: array<char>
    const tokens: array<Token>
    var tokenSize: int
    var contentSize: int

    ghost predicate Terminated()
      reads content
    {
      content.Length == MAX_CONTENT && tokens.Length == MAX_TOKENS && StrLen(content[..]) < MAX_CONTENT
    }

    ghost function Text(): (t: string)
      reads content
      ensures NoNul(t)
    {
      content[..StrLen(content[..])]
    }

    /** The text and the filled part of the token table; empty after a failed parse. */
    ghost function Table(): (r: Doc)
      requires tokenSize <= tokens.Length
      reads this, content, tokens
    {
      Doc(Text(), if tokenSize < 0 then [] else tokens[..tokenSize])
    }

    ghost predicate Valid()
      reads this, content, tokens
    {
      Terminated() && tokenSize <= MAX_TOKENS && Inside(Table())
    }

    /** A buffer with the text copied in and nothing tokenized yet. */
    constructor (text: string, blank: Token)
      requires |text| < MAX_CONTENT && NoNul(text)
      ensures Terminated() && Text() == text && fresh(content) && fresh(tokens)
      ensures tokenSize == 0 && contentSize == 0
    {
      content := new char[MAX_CONTENT](i => if 0 <= i < |text| then text[i] else '\0');
      tokens := new Token[MAX_TOKENS](i => blank);
      tokenSize, contentSize := 0, 0;
      new;
      StrLenIs(content[..], |text|);
    }

    method Length() returns (n: nat)
      requires Terminated()
      ensures n == StrLen(content[..])
    {
      n := 0;
      while content[n] != '\0'
        invariant n <= StrLen(content[..])
        decreases MAX_CONTENT - n
      {
        n := n + 1;
      }
      StrLenIs(content[..], n);
    }

    /** Tokenizes the text. The code and the tokens left, after an error too, are those of a run over
        the text. */
    method InitToken(stray: Kind)
      requires Terminated()
      modifies this, tokens
      ensures Valid() && Text() == old(Text()) && contentSize == |Text()|
      ensures var (code, st) := Run(Text(), MAX_TOKENS, START);
              && tokenSize == CodeValue(code) && (code.Count? ==> Table() == Doc(Text(), st.tokens))
              && |st.tokens| <= MAX_TOKENS && tokens[..|st.tokens|] == st.tokens
              && (code == NoMem ==> tokenSize == -1) && (code == Inval ==> tokenSize == -2) && (code == Part ==> tokenSize == -3)
    {
      contentSize := Length();
      var p := new Parser();
      var js := content[..contentSize];
      assert p.Abs(tokens, 0) == START;
      assert Grounded(START);
      var code := p.Parse(js, tokens, stray);
      JsmnStack.SuccessShape(js, MAX_TOKENS);
      match code {
        case Count(n) => tokenSize := n;
        case NoMem => tokenSize := -1;
        case Inval => tokenSize := -2;
        case Part => tokenSize := -3;
      }
    }

    method GetPattern(t: Token) returns (result: string)
      requires Terminated() && 0 <= t.start <= |Text()| && t.end <= |Text()|
      ensures result == Pattern(Text(), t)
    {
      result := "";
      var i: int := t.start;
      while i < t.end
        invariant t.start <= i <= |Text()| && (i <= t.end || i == t.start)
        invariant result == content[t.start..i]
      {
        result := result + [content[i]];
        i := i + 1;
      }
    }

    /** Decimal value of a pattern. */
    static method Decode(pattern: string) returns (n: int)
      ensures n == Number(pattern)
    {
      n := 0;
      var i := 0;
      while i < |pattern|
        invariant i <= |pattern| && n == Number(pattern[..i])
      {
        assert pattern[..i + 1][..i] == pattern[..i];
        n := n * 10;
        n := n + (pattern[i] as int - '0' as int);
        i := i + 1;
      }
      assert pattern[..|pattern|] == pattern;
    }

    /** Walks from token `first` over `target` siblings. */
    method Element(first: nat, target: int) returns (tok: nat)
      requires Valid() && 0 <= first <= tokenSize && Nth(tokens[..tokenSize], first, target) != -1
      ensures tok == Nth(tokens[..tokenSize], first, target)
    {
      tok := first;
      var at := 0;
      ghost var ts := tokens[..tokenSize];
      while at != target
        invariant tok <= tokenSize && Nth(ts, tok, target - at) == Nth(ts, first, target)
        decreases tokenSize - tok
      {
        var end := tokens[tok].end;
        ghost var here := tok;
        while tokens[tok].start <= end
          invariant here <= tok < tokenSize
          invariant NextAfter(ts, here, end) == NextAfter(ts, tok, end)
          invariant NextAfter(ts, tok, end) < |ts|
          decreases tokenSize - tok
        {
          tok := tok + 1;
        }
        at := at + 1;
      }
    }

    /** One lookup step; -1 when nothing in the range matches, and then the range is kept. */
    method SearchInRange(pattern: string, r: Range) returns (hit: int, newRange: Range)
      requires Valid() && !Search(pattern, r, Table(), 0).Wild?
      ensures match Search(pattern, r, Table(), 0)
              case Hit(i) => hit == i && newRange == Span(tokens[i])
              case Missing => hit == -1 && newRange == r
              case Wild => false
    {
      hide StrLen;
      ghost var doc := Table();
      var i := 0;
      while i < tokenSize
        invariant 0 <= i && (i <= tokenSize || tokenSize < 0)
        invariant i <= |Table().tokens|
        invariant Search(pattern, r, Table(), i) == Search(pattern, r, Table(), 0)
      {
        var t := tokens[i];
        assert doc.tokens[i] == t && TextOf(doc.text, t) == content[t.start..t.end];
        if t.start < r.start || t.end > r.end {
        } else if t.kind == String || t.kind == Primitive {
          if content[t.start..t.end] == pattern {
            return i + 1, Span(tokens[i + 1]);
          }
        } else if t.kind == Array && t.start == r.start {
          var target := Decode(pattern);
          var e := Element(i + 1, target);
          return e, Span(tokens[e]);
        }
        i := i + 1;
      }
      return -1, r;
    }

    /** Looks a path up. Only the last key's step writes the result buffer. */
    method GetValue(keys: seq<string>) returns (result: Option<string>)
      requires Valid() && Resolve(keys, Span(tokens[0]), Table()).Place?
      ensures result == Result(keys, Span(tokens[0]), Table())
    {
      hide StrLen;
      hide Result;
      hide Resolve;
      hide Search;
      result := None;
      var range := Span(tokens[0]);
      ghost var doc := Table();
      ghost var all := Result(keys, range, doc);
      var i := 0;
      NoKeys(keys, range, doc);
      while i < |keys|
        invariant i <= |keys| && Resolve(keys[i..], range, doc).Place?
        invariant i < |keys| ==> result == None && Result(keys[i..], range, doc) == all
        invariant i == |keys| ==> result == all
      {
        OneKey(keys[i..], range, doc);
        assert keys[i..][1..] == keys[i + 1..];
        var hit, found := SearchInRange(keys[i], range);
        if i == |keys| - 1 {
          NoKeys(keys[i + 1..], range, doc);
          if hit != -1 {
            SpanText(doc, hit);
            assert doc.text[found.start..found.end] == content[found.start..found.end];
            result := Some(content[found.start..found.end]);
          }
        }
        range := found;
        i := i + 1;
      }
    }

    /** Writes the text with the range replaced, and its NUL, into `temp`. */
    method CopySpliced(temp: array<char>, r: Range, value: string) returns (n: nat)
      requires Terminated() && temp != content && NoNul(value)
      requires 0 <= r.start <= r.end <= |Text()| && |Splice(Text(), r, value)| < temp.Length
      modifies temp
      ensures n == |Splice(Text(), r, value)| && temp[..n + 1] == Splice(Text(), r, value) + ['\0']
    {
      hide StrLen;
      hide Splice;
      var i, i2, v := 0, 0, 0;
      ghost var text := Text();
      while true
        invariant Text() == text && Copying(text, r, value, i, v)
        invariant i2 == |Copied(text, r, value, i, v)| <= |Splice(text, r, value)|
        invariant temp[..i2] == Copied(text, r, value, i, v)
        decreases |text| - i, |value| - v
      {
        CopiedLength(text, r, value, i, v);
        if i < r.start || i >= r.end {
          temp[i2] := content[i];
          if content[i] == '\0' {
            break;
          }
          CopiedText(text, r, value, i, v);
          assert content[i] == text[i];
          i := i + 1;
          i2 := i2 + 1;
        } else if v == |value| {
          i := r.end;
        } else {
          temp[i2] := value[v];
          CopiedValue(text, r, value, i, v);
          i2 := i2 + 1;
          v := v + 1;
        }
        CopiedLength(text, r, value, i, v);
      }
      n := i2;
    }

    /** Copies a NUL-terminated text back over the content. */
    method PutBack(temp: array<char>, ghost n: nat)
      requires content.Length == MAX_CONTENT && n < MAX_CONTENT && n < temp.Length && temp != content
      requires NoNul(temp[..n]) && temp[n] == '\0'
      modifies content
      ensures StrLen(content[..]) == n && content[..n] == temp[..n]
    {
      var i := 0;
      while temp[i] != '\0'
        invariant i <= n && content[..i] == temp[..i]
        decreases n - i
      {
        content[i] := temp[i];
        i := i + 1;
      }
      content[i] := '\0';
      StrLenIs(content[..], n);
    }

    /** Replaces the range in the content, by way of a temporary buffer. */
    method Overwrite(r: Range, value: string) returns (n: nat)
      requires Terminated() && NoNul(value)
      requires 0 <= r.start <= r.end <= |Text()| && |Splice(Text(), r, value)| < MAX_CONTENT
      modifies content
      ensures Terminated() && Text() == Splice(old(Text()), r, value) && n == |Text()|
    {
      var temp := new char[MAX_CONTENT](_ => '\0');
      n := CopySpliced(temp, r, value);
      ghost var text := Splice(Text(), r, value);
      assert temp[..n + 1][..n] == text && temp[..n + 1][n] == '\0';
      assert temp[..n] == text;
      PutBack(temp, n);
    }

    /** Moves the token offsets at and behind the change. */
    method ShiftTokens(at: int, shift: int)
      requires 0 <= tokenSize <= tokens.Length
      modifies tokens
      ensures tokens[..tokenSize] == Shift(old(tokens[..tokenSize]), at, shift)
    {
      ghost var was := tokens[..tokenSize];
      var i := 0;
      while i < tokenSize
        invariant 0 <= i <= tokenSize
        invariant forall k :: 0 <= k < i ==> tokens[k] == ShiftToken(was[k], at, shift)
        invariant forall k :: i <= k < tokenSize ==> tokens[k] == was[k]
      {
        if tokens[i].start > at {
          tokens[i] := tokens[i].(start := tokens[i].start + shift);
        }
        if tokens[i].end >= at {
          tokens[i] := tokens[i].(end := tokens[i].end + shift);
        }
        i := i + 1;
      }
    }

    /** Finds the range the keys lead to; a key that is not found leaves it where it was. */
    method Locate(keys: seq<string>) returns (range: Range)
      requires Valid() && Resolve(keys, Span(tokens[0]), Table()).Place?
      ensures Place(range) == Resolve(keys, Span(tokens[0]), Table())
    {
      range := Span(tokens[0]);
      ghost var doc := Table();
      ghost var all := Resolve(keys, range, doc);
      var i := 0;
      while i < |keys|
        invariant i <= |keys| && Resolve(keys[i..], range, doc) == all
      {
        assert keys[i..][1..] == keys[i + 1..];
        var hit, found := SearchInRange(keys[i], range);
        range := found;
        i := i + 1;
      }
    }

    /** Overwrites what the keys lead to: the text is spliced and the table shifted. */
    method SetSingleValue(value: string, keys: seq<string>)
      requires Valid() && 0 < tokenSize && NoNul(value)
      requires var p := Resolve(keys, Span(tokens[0]), Table());
               && p.Place? && 0 <= p.range.start <= p.range.end <= |Text()|
               && |Splice(Text(), p.range, value)| < MAX_CONTENT
      modifies this, content, tokens
      ensures Terminated() && tokenSize == old(tokenSize) && contentSize == tokens[0].end
      ensures var r := old(Resolve(keys, Span(tokens[0]), Table())).range;
              var text := Splice(old(Text()), r, value);
              Table() == Doc(text, Shift(old(Table()).tokens, r.start, |text| - old(tokens[0].end)))
    {
      hide StrLen;
      hide Splice;
      hide Shift;
      hide Resolve;
      hide Search;
      var range := Locate(keys);
      var n := Overwrite(range, value);
      ShiftTokens(range.start, n - tokens[0].end);
      contentSize := tokens[0].end;
    }
  }
}
