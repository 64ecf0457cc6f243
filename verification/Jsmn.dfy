/**
 The JSON tokenizer: one pass over the text, no stack. Open brackets are found by
 scanning the token table backwards.

 `Step`/`Run` say what one character, and a whole text, do to the parser's state.
 `Parser.Parse` is the imperative tokenizer, proved to compute `Run`.
 */
module Jsmn {

  datatype Kind = Primitive | Object | Array | String

  datatype Token = Token(kind: Kind, start: int, end: int, size: nat)
  {
    /** An object or array whose closing bracket has not been met yet. */
    predicate IsOpen() {
      start != -1 && end == -1
    }

    predicate IsContainer() {
      kind.Object? || kind.Array?
    }
  }

  /** What jsmn_parse returns: a token count or one of its three error codes. */
  datatype Code = Count(n: nat) | NoMem | Inval | Part

  /** `tokens` is the allocated prefix of the token table, so toknext is its length. */
  datatype State = State(pos: nat, tokens: seq<Token>, super: int, count: nat)
  {
    predicate Valid() {
      -1 <= super < |tokens|
    }
  }

  datatype Move = Go(next: State) | Stop(code: Code)

  const START := State(0, [], -1, 0)

  predicate IsSpace(c: char) {
    c == '\t' || c == '\r' || c == '\n' || c == ' '
  }

  /** Characters that end an unquoted atom. A colon does not. */
  predicate IsDelimiter(c: char) {
    IsSpace(c) || c == ',' || c == ']' || c == '}'
  }

  predicate IsPrintable(c: char) {
    32 <= c as int < 127
  }

  /** Where the atom that covers position `p` ends, or -1 at an unprintable character. */
  function AtomEnd(js: string, p: nat): (e: int)
    requires p <= |js|
    ensures e == -1 || p <= e <= |js|
    decreases |js| - p
  {
    if p == |js| || js[p] == '\0' || IsDelimiter(js[p]) then p
    else if !IsPrintable(js[p]) then -1
    else AtomEnd(js, p + 1)
  }

  /** Position of the quote that closes a string whose body is read from `p`, or -1.
      A backslash skips the character after it, whatever that is. */
  function QuoteEnd(js: string, p: nat): (e: int)
    requires p <= |js|
    ensures e == -1 || p <= e < |js|
    decreases |js| - p
  {
    if p == |js| || js[p] == '\0' then -1
    else if js[p] == '\"' then p
    else if js[p] == '\\' && p + 1 < |js| then QuoteEnd(js, p + 2)
    else QuoteEnd(js, p + 1)
  }

  /** Index of the last open token, or -1. */
  function LastOpen(ts: seq<Token>): (i: int)
    ensures -1 <= i < |ts|
    ensures i != -1 ==> ts[i].IsOpen()
    ensures forall j :: i < j < |ts| ==> !ts[j].IsOpen()
  {
    if ts == [] then -1
    else if ts[|ts| - 1].IsOpen() then |ts| - 1
    else LastOpen(ts[..|ts| - 1])
  }

  /** One more child for token `i`; nothing happens at top level, where `i` is -1. */
  function Bump(ts: seq<Token>, i: int): (r: seq<Token>)
    requires -1 <= i < |ts|
    ensures |r| == |ts|
  {
    if i == -1 then ts else ts[i := ts[i].(size := ts[i].size + 1)]
  }

  function SetEnd(ts: seq<Token>, i: nat, end: int): (r: seq<Token>)
    requires i < |ts|
    ensures |r| == |ts|
  {
    ts[i := ts[i].(end := end)]
  }

  function Closing(c: char): (r: Kind) {
    if c == '}' then Object else Array
  }

  /** Append a token and count it as a child of `super`. */
  function Add(cap: nat, st: State, t: Token, next: nat, super: int): (m: Move)
    requires st.Valid() && -1 <= super <= |st.tokens|
    ensures m.Go? ==> m.next.pos == next && m.next.Valid()
  {
    if |st.tokens| >= cap then Stop(NoMem)
    else Go(State(next, Bump(st.tokens, st.super) + [t], super, st.count + 1))
  }

  function Close(st: State, kind: Kind): (m: Move)
    requires st.Valid()
    ensures m.Go? ==> m.next.pos == st.pos + 1 && m.next.Valid()
  {
    var i := LastOpen(st.tokens);
    if i == -1 || st.tokens[i].kind != kind then Stop(Inval)
    else
      var ts := SetEnd(st.tokens, i, st.pos + 1);
      Go(State(st.pos + 1, ts, LastOpen(ts), st.count))
  }

  function Comma(st: State): (m: Move)
    requires st.Valid()
    ensures m.Go? && m.next.pos == st.pos + 1 && m.next.Valid()
  {
    var i := LastOpen(st.tokens);
    if st.super != -1 && !st.tokens[st.super].IsContainer() && i != -1 then
      Go(st.(pos := st.pos + 1, super := i))
    else
      Go(st.(pos := st.pos + 1))
  }

  /** What the character at `st.pos` does. */
  function Step(js: string, cap: nat, st: State): (m: Move)
    requires st.pos < |js| && st.Valid()
    ensures m.Go? ==> st.pos < m.next.pos <= |js| && m.next.Valid()
  {
    var c := js[st.pos];
    if c == '{' || c == '[' then
      Add(cap, st, Token(if c == '{' then Object else Array, st.pos, -1, 0), st.pos + 1, |st.tokens|)
    else if c == '}' || c == ']' then
      Close(st, Closing(c))
    else if c == '\"' then
      var e := QuoteEnd(js, st.pos + 1);
      if e == -1 then Stop(Part)
      else Add(cap, st, Token(String, st.pos + 1, e, 0), e + 1, st.super)
    else if IsSpace(c) then
      Go(st.(pos := st.pos + 1))
    else if c == ':' then
      Go(st.(pos := st.pos + 1, super := |st.tokens| - 1))
    else if c == ',' then
      Comma(st)
    else
      var e := AtomEnd(js, st.pos);
      if e == -1 then Stop(Inval)
      else if e == st.pos then Go(st.(pos := st.pos + 1)) // only at a NUL, which Run never steps on
      else Add(cap, st, Token(Primitive, st.pos, e, 0), e, st.super)
  }

  predicate AtEnd(js: string, st: State) {
    st.pos >= |js| || js[st.pos] == '\0'
  }

  function Verdict(st: State): (r: Code) {
    if LastOpen(st.tokens) != -1 then Part else Count(st.count)
  }

  /** The whole run from `st`: the code returned and the state left behind. */
  function Run(js: string, cap: nat, st: State): (r: (Code, State))
    requires st.Valid()
    decreases |js| - st.pos
  {
    if AtEnd(js, st) then (Verdict(st), st)
    else
      match Step(js, cap, st)
      case Stop(code) => (code, st)
      case Go(next) => Run(js, cap, next)
  }

  // ---------- The imperative tokenizer ----------

  /** With no superior token there is no open token either. */
  ghost predicate Grounded(st: State) {
    && st.Valid()
    && (st.super == -1 ==> LastOpen(st.tokens) == -1)
    && (forall i :: 0 <= i < |st.tokens| && st.tokens[i].IsOpen() ==> st.tokens[i].IsContainer())
    && (forall i :: 0 <= i < |st.tokens| ==> st.tokens[i].start != -1)
  }

  lemma LastOpenIsLast(ts: seq<Token>, i: int)
    requires -1 <= i < |ts|
    requires i != -1 ==> ts[i].IsOpen()
    requires forall j :: i < j < |ts| ==> !ts[j].IsOpen()
    ensures LastOpen(ts) == i
  {
  }

  lemma BumpKeepsLastOpen(ts: seq<Token>, i: int)
    requires -1 <= i < |ts|
    ensures LastOpen(Bump(ts, i)) == LastOpen(ts)
  {
    LastOpenIsLast(Bump(ts, i), LastOpen(ts));
  }

  lemma StepKeepsGrounded(js: string, cap: nat, st: State)
    requires st.pos < |js| && Grounded(st) && Step(js, cap, st).Go?
    ensures Grounded(Step(js, cap, st).next)
  {
    var c := js[st.pos];
    if c == '{' || c == '[' {
    } else if c == '}' || c == ']' {
    } else if c == '\"' {
      var e := QuoteEnd(js, st.pos + 1);
    } else if !IsSpace(c) && c != ':' && c != ',' {
      var e := AtomEnd(js, st.pos);
      if e != st.pos {
      }
    }
  }

  class Parser {
    var pos: nat
    var toknext: nat
    var toksuper: int

    constructor ()
      ensures pos == 0 && toknext == 0 && toksuper == -1
    {
      pos, toknext, toksuper := 0, 0, -1;
    }

    ghost predicate Valid(tokens: array<Token>)
      reads this
    {
      toknext <= tokens.Length && -1 <= toksuper < toknext
    }

    ghost function Abs(tokens: array<Token>, count: nat): (r: State)
      requires Valid(tokens)
      reads this, tokens
    {
      State(pos, tokens[..toknext], toksuper, count)
    }

    /** Takes the next free token; -1 stands for the null pointer. */
    method AllocToken(tokens: array<Token>) returns (tok: int)
      requires Valid(tokens)
      modifies this`toknext, tokens
      ensures Valid(tokens)
      ensures old(toknext) >= tokens.Length ==> tok == -1 && toknext == old(toknext) && tokens[..] == old(tokens[..])
      ensures old(toknext) < tokens.Length ==>
                tok == old(toknext) && toknext == old(toknext) + 1
                && tokens[..] == old(tokens[..])[tok := old(tokens[toknext]).(start := -1, end := -1, size := 0)]
    {
      if toknext >= tokens.Length {
        return -1;
      }
      tok := toknext;
      toknext := toknext + 1;
      tokens[tok] := tokens[tok].(start := -1, end := -1, size := 0);
    }

    /** Reads the unquoted atom at pos; on success pos is left on its last character. */
    method ParsePrimitive(js: string, tokens: array<Token>) returns (err: bool, code: Code)
      requires Valid(tokens) && pos < |js|
      requires js[pos] != '\0' && !IsDelimiter(js[pos])
      modifies this`pos, this`toknext, tokens
      ensures Valid(tokens)
      ensures var e := AtomEnd(js, old(pos));
              if e == -1 then err && code == Inval && pos == old(pos) && toknext == old(toknext) && tokens[..] == old(tokens[..])
              else if old(toknext) >= tokens.Length then
                err && code == NoMem && pos == old(pos) && toknext == old(toknext) && tokens[..] == old(tokens[..])
              else
                !err && pos == e - 1 && toknext == old(toknext) + 1
                && tokens[..toknext] == old(tokens[..toknext]) + [Token(Primitive, old(pos), e, 0)]
    {
      code := Part;
      var start := pos;
      while pos < |js| && js[pos] != '\0'
        invariant start <= pos <= |js|
        invariant AtomEnd(js, start) == AtomEnd(js, pos)
        invariant pos == start ==> pos < |js| && js[pos] != '\0' && !IsDelimiter(js[pos])
        invariant toknext == old(toknext) && tokens[..] == old(tokens[..])
      {
        if IsDelimiter(js[pos]) {
          break;
        }
        if js[pos] as int < 32 || js[pos] as int >= 127 {
          pos := start;
          return true, Inval;
        }
        pos := pos + 1;
      }
      var token := AllocToken(tokens);
      if token == -1 {
        pos := start;
        return true, NoMem;
      }
      tokens[token] := Token(Primitive, start, pos, 0);
      pos := pos - 1;
      return false, code;
    }

    /** Reads the string whose opening quote is at pos; on success pos is left on the closing quote. */
    method ParseString(js: string, tokens: array<Token>) returns (err: bool, code: Code)
      requires Valid(tokens) && pos < |js|
      modifies this`pos, this`toknext, tokens
      ensures Valid(tokens)
      ensures var e := QuoteEnd(js, old(pos) + 1);
              if e == -1 then err && code == Part && pos == old(pos) && toknext == old(toknext) && tokens[..] == old(tokens[..])
              else if old(toknext) >= tokens.Length then
                err && code == NoMem && pos == old(pos) && toknext == old(toknext) && tokens[..] == old(tokens[..])
              else
                !err && pos == e && toknext == old(toknext) + 1
                && tokens[..toknext] == old(tokens[..toknext]) + [Token(String, old(pos) + 1, e, 0)]
    {
      code := Part;
      var start := pos;
      pos := pos + 1;
      while pos < |js| && js[pos] != '\0'
        invariant start < pos <= |js|
        invariant QuoteEnd(js, start + 1) == QuoteEnd(js, pos)
        invariant toknext == old(toknext) && tokens[..] == old(tokens[..])
      {
        var c := js[pos];
        if c == '\"' {
          var token := AllocToken(tokens);
          if token == -1 {
            pos := start;
            return true, NoMem;
          }
          tokens[token] := Token(String, start + 1, pos, 0);
          return false, code;
        }
        if c == '\\' && pos + 1 < |js| {
          // The switch that follows in the source looks at the backslash itself, so it always breaks.
          pos := pos + 1;
        }
        pos := pos + 1;
      }
      pos := start;
      return true, Part;
    }

    /** Scans backwards from `from` for a token that is still open. */
    method FindOpen(tokens: array<Token>, from: int) returns (i: int)
      requires -1 <= from < tokens.Length
      ensures i == LastOpen(tokens[..from + 1])
    {
      i := from;
      while i >= 0
        invariant -1 <= i <= from
        invariant LastOpen(tokens[..from + 1]) == LastOpen(tokens[..i + 1])
      {
        if tokens[i].start != -1 && tokens[i].end == -1 {
          return;
        }
        assert tokens[..i + 1][..i] == tokens[..i];
        i := i - 1;
      }
    }

    method BumpSuper(tokens: array<Token>, super: int)
      requires -1 <= super < tokens.Length
      modifies tokens
      ensures tokens[..] == Bump(old(tokens[..]), super)
    {
      if super != -1 {
        tokens[super] := tokens[super].(size := tokens[super].size + 1);
      }
    }

    /** A closing bracket: the nearest open token must be of its kind, and is closed. */
    method CloseBracket(tokens: array<Token>, kind: Kind, ghost count: nat) returns (ok: bool)
      requires Valid(tokens)
      modifies this`toksuper, tokens
      ensures Valid(tokens)
      ensures match Close(old(Abs(tokens, count)), kind)
              case Stop(_) => !ok && Abs(tokens, count) == old(Abs(tokens, count))
              case Go(next) => ok && Abs(tokens, count).(pos := pos + 1) == next
    {
      var i := FindOpen(tokens, toknext - 1);
      if i == -1 || tokens[i].kind != kind {
        return false;
      }
      ghost var ts := tokens[..toknext];
      tokens[i] := tokens[i].(end := pos + 1);
      assert tokens[..toknext] == ts[i := ts[i].(end := pos + 1)];
      toksuper := FindOpen(tokens, i);
      LastOpenIsLast(tokens[..toknext], toksuper);
      return true;
    }

    /** An opening bracket. */
    method OpenBracket(tokens: array<Token>, c: char, ghost count: nat) returns (ok: bool)
      requires Valid(tokens)
      modifies this`toknext, this`toksuper, tokens
      ensures Valid(tokens)
      ensures var kind := if c == '{' then Object else Array;
              match Add(tokens.Length, old(Abs(tokens, count)), Token(kind, pos, -1, 0), pos + 1, old(toknext))
              case Stop(code) => !ok && code == NoMem && Abs(tokens, count) == old(Abs(tokens, count))
              case Go(next) => ok && Abs(tokens, count + 1).(pos := pos + 1) == next
    {
      var token := AllocToken(tokens);
      if token == -1 {
        return false;
      }
      BumpSuper(tokens, toksuper);
      tokens[token] := Token(if c == '{' then Object else Array, pos, -1, tokens[token].size);
      toksuper := toknext - 1;
      return true;
    }

    /** A string or an atom: read it, then count it as a child of the superior token. */
    method Scalar(js: string, tokens: array<Token>, ghost count: nat) returns (err: bool, code: Code)
      requires Valid(tokens) && pos < |js| && js[pos] != '\0'
      requires js[pos] == '\"' || !(IsDelimiter(js[pos]) || js[pos] == ':' || js[pos] == '{' || js[pos] == '[')
      modifies this`pos, this`toknext, tokens
      ensures Valid(tokens)
      ensures match Step(js, tokens.Length, old(Abs(tokens, count)))
              case Stop(c) => err && code == c && Abs(tokens, count) == old(Abs(tokens, count))
              case Go(next) => !err && Abs(tokens, count + 1).(pos := pos + 1) == next
    {
      if js[pos] == '\"' {
        err, code := ParseString(js, tokens);
      } else {
        err, code := ParsePrimitive(js, tokens);
      }
      if !err {
        BumpSuper(tokens, toksuper);
      }
    }

    /** A comma after a value: the nearest open bracket becomes the superior token again. */
    method CommaAt(tokens: array<Token>, stray: Kind, ghost count: nat)
      requires Valid(tokens) && Grounded(Abs(tokens, count))
      modifies this`toksuper
      ensures Valid(tokens)
      ensures Abs(tokens, count).(pos := pos + 1) == Comma(old(Abs(tokens, count))).next
    {
      var kind := if toksuper == -1 then stray else tokens[toksuper].kind;
      if kind != Array && kind != Object {
        var i := FindOpen(tokens, toknext - 1);
        if i != -1 {
          toksuper := i;
        }
      }
    }

    /** The switch on the character at pos, and the move past what it read. */
    method OneChar(js: string, tokens: array<Token>, stray: Kind, count: nat)
      returns (err: bool, code: Code, added: nat)
      requires Valid(tokens) && Grounded(Abs(tokens, count)) && pos < |js| && js[pos] != '\0'
      modifies this, tokens
      ensures Valid(tokens)
      ensures match Step(js, tokens.Length, old(Abs(tokens, count)))
              case Stop(c) => err && code == c && Abs(tokens, count) == old(Abs(tokens, count))
              case Go(next) => !err && Abs(tokens, count + added) == next
    {
      err, code, added := false, Part, 0;
      var c := js[pos];
      if c == '{' || c == '[' {
        var ok := OpenBracket(tokens, c, count);
        if !ok {
          return true, NoMem, 0;
        }
        added := 1;
      } else if c == '}' || c == ']' {
        var ok := CloseBracket(tokens, Closing(c), count);
        if !ok {
          return true, Inval, 0;
        }
      } else if IsSpace(c) {
      } else if c == ':' {
        toksuper := toknext - 1;
      } else if c == ',' {
        CommaAt(tokens, stray, count);
      } else {
        err, code := Scalar(js, tokens, count);
        if err {
          return;
        }
        added := 1;
      }
      pos := pos + 1;
    }

    /** One turn of the loop, in terms of what is left to run. */
    method Turn(js: string, tokens: array<Token>, stray: Kind, count: nat)
      returns (err: bool, code: Code, added: nat)
      requires Valid(tokens) && Grounded(Abs(tokens, count)) && pos < |js| && js[pos] != '\0'
      modifies this, tokens
      ensures Valid(tokens)
      ensures err ==> Run(js, tokens.Length, old(Abs(tokens, count))) == (code, Abs(tokens, count))
      ensures !err ==> old(pos) < pos <= |js| && Grounded(Abs(tokens, count + added))
      ensures !err ==> Run(js, tokens.Length, old(Abs(tokens, count))) == Run(js, tokens.Length, Abs(tokens, count + added))
    {
      ghost var st := Abs(tokens, count);
      if Step(js, tokens.Length, st).Go? {
        StepKeepsGrounded(js, tokens.Length, st);
      }
      err, code, added := OneChar(js, tokens, stray, count);
    }

    /** After the loop: an error if some bracket is still open. */
    method Finish(tokens: array<Token>, count: nat) returns (code: Code)
      requires Valid(tokens)
      ensures code == Verdict(Abs(tokens, count))
    {
      var open := FindOpen(tokens, toknext - 1);
      if open != -1 {
        return Part;
      }
      return Count(count);
    }

    /** Tokenizes `js` into `tokens`. `stray` is the kind field of the memory just before the
        table, which the source reads at a comma met with no superior token. The result is the
        same whatever it holds. */
    method Parse(js: string, tokens: array<Token>, stray: Kind) returns (code: Code)
      requires Valid(tokens) && Grounded(Abs(tokens, 0))
      modifies this, tokens
      ensures Valid(tokens)
      ensures var r := Run(js, tokens.Length, old(Abs(tokens, 0)));
              code == r.0 && r.1 == Abs(tokens, r.1.count)
    {
      hide Step;
      hide Grounded;
      hide LastOpen;
      var count := 0;
      ghost var run := Run(js, tokens.Length, Abs(tokens, 0));
      while pos < |js| && js[pos] != '\0'
        invariant Valid(tokens) && Grounded(Abs(tokens, count))
        invariant run == Run(js, tokens.Length, Abs(tokens, count))
        decreases |js| - pos
      {
        var err, r, added := Turn(js, tokens, stray, count);
        if err {
          return r;
        }
        count := count + added;
      }
      code := Finish(tokens, count);
    }
  }
}
