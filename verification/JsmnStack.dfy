/**
 A reference tokenizer with an explicit bracket stack and explicit parent links, and the proof
 that the stackless tokenizer agrees with it on every text: same code, same tokens, where a
 token's size is the number of tokens that name it as their parent.
 */
module JsmnStack {
  import opened Jsmn

  datatype Entry = Entry(kind: Kind, start: int, end: int, parent: int)
  {
    predicate IsContainer() {
      kind.Object? || kind.Array?
    }
  }

  datatype Stack = Empty | Cons(index: nat, rest: Stack)
  {
    function Top(): (r: int) {
      if Empty? then -1 else index
    }
  }

  /** `stack` holds the indices of the open brackets, innermost on top. */
  datatype RefState = RefState(pos: nat, entries: seq<Entry>, stack: Stack, super: int)

  datatype RefMove = RefGo(next: RefState) | RefStop(code: Code)

  const REF_START := RefState(0, [], Empty, -1)

  function Leaf(cap: nat, rs: RefState, kind: Kind, start: int, end: int, next: nat): (r: RefMove) {
    if |rs.entries| >= cap then RefStop(NoMem)
    else RefGo(RefState(next, rs.entries + [Entry(kind, start, end, rs.super)], rs.stack, rs.super))
  }

  function Push(cap: nat, rs: RefState, kind: Kind): (r: RefMove) {
    if |rs.entries| >= cap then RefStop(NoMem)
    else
      var i := |rs.entries|;
      RefGo(RefState(rs.pos + 1, rs.entries + [Entry(kind, rs.pos, -1, rs.super)], Cons(i, rs.stack), i))
  }

  function EndAt(es: seq<Entry>, i: nat, end: int): (r: seq<Entry>)
    requires i < |es|
    ensures |r| == |es|
  {
    es[i := es[i].(end := end)]
  }

  function Pop(rs: RefState, kind: Kind): (r: RefMove)
    requires rs.stack.Top() < |rs.entries|
  {
    var i := rs.stack.Top();
    if i == -1 || rs.entries[i].kind != kind then RefStop(Inval)
    else
      var es := EndAt(rs.entries, i, rs.pos + 1);
      RefGo(RefState(rs.pos + 1, es, rs.stack.rest, rs.stack.rest.Top()))
  }

  function RefStep(js: string, cap: nat, rs: RefState): (r: RefMove)
    requires rs.pos < |js| && rs.stack.Top() < |rs.entries| && -1 <= rs.super < |rs.entries|
  {
    var c := js[rs.pos];
    if c == '{' || c == '[' then Push(cap, rs, if c == '{' then Object else Array)
    else if c == '}' || c == ']' then Pop(rs, Closing(c))
    else if c == '\"' then
      var e := QuoteEnd(js, rs.pos + 1);
      if e == -1 then RefStop(Part) else Leaf(cap, rs, String, rs.pos + 1, e, e + 1)
    else if c == ':' then
      RefGo(rs.(pos := rs.pos + 1, super := |rs.entries| - 1))
    else if c == ',' then
      var back := rs.super != -1 && !rs.entries[rs.super].IsContainer() && rs.stack.Cons?;
      RefGo(rs.(pos := rs.pos + 1, super := if back then rs.stack.Top() else rs.super))
    else if IsSpace(c) || c == '\0' then
      RefGo(rs.(pos := rs.pos + 1))
    else
      var e := AtomEnd(js, rs.pos);
      if e == -1 then RefStop(Inval) else Leaf(cap, rs, Primitive, rs.pos, e, e)
  }

  /** Everything the reference tokenizer keeps true. */
  ghost predicate Inv(rs: RefState) {
    && rs.stack == OpenIndices(rs.entries)
    && OnlyBracketsOpen(rs.entries)
    && -1 <= rs.super < |rs.entries|
    && ParentsFirst(rs.entries)
    && Placed(rs.entries, rs.pos)
    && StartsIncrease(rs.entries)
    && Laminar(rs.entries)
  }

  /** Indices of the entries without an end, the last one on top. */
  function OpenIndices(es: seq<Entry>): (s: Stack)
    ensures s.Top() < |es|
  {
    if es == [] then Empty
    else if es[|es| - 1].end == -1 then Cons(|es| - 1, OpenIndices(es[..|es| - 1]))
    else OpenIndices(es[..|es| - 1])
  }

  /** Every entry lies before `pos`. */
  ghost predicate Placed(es: seq<Entry>, pos: nat) {
    forall i :: 0 <= i < |es| ==>
      0 <= es[i].start < pos && (es[i].end == -1 || es[i].start <= es[i].end <= pos)
  }

  ghost predicate StartsIncrease(es: seq<Entry>) {
    forall i, j :: 0 <= i < j < |es| ==> es[i].start < es[j].start
  }

  ghost predicate ParentsFirst(es: seq<Entry>) {
    forall j :: 0 <= j < |es| ==> -1 <= es[j].parent < j
  }

  ghost predicate OnlyBracketsOpen(es: seq<Entry>) {
    forall i :: 0 <= i < |es| && es[i].end == -1 ==> es[i].IsContainer()
  }

  /** A closed entry ends before a later one starts, or contains it whole. */
  ghost predicate Laminar(es: seq<Entry>) {
    forall i, j :: 0 <= i < j < |es| && es[i].end != -1 ==>
      es[i].end <= es[j].start || (es[j].end != -1 && es[j].end <= es[i].end)
  }

  function RefRun(js: string, cap: nat, rs: RefState): (r: (Code, RefState))
    requires Inv(rs)
    decreases |js| - rs.pos
  {
    if rs.pos >= |js| || js[rs.pos] == '\0' then
      (if rs.stack.Cons? then Part else Count(|rs.entries|), rs)
    else
      match RefStep(js, cap, rs)
      case RefStop(code) => (code, rs)
      case RefGo(next) =>
        RefStepKeepsInv(js, cap, rs);
        RefRun(js, cap, next)
  }

  // ---------- The invariant ----------

  lemma AppendKeepsSpans(es: seq<Entry>, e: Entry, before: nat, pos: nat)
    requires Placed(es, before) && StartsIncrease(es) && Laminar(es) && before < pos
    requires before <= e.start < pos && (e.end == -1 || e.start <= e.end <= pos)
    ensures Placed(es + [e], pos) && StartsIncrease(es + [e]) && Laminar(es + [e])
  {
  }

  lemma AppendKeepsParents(es: seq<Entry>, e: Entry)
    requires ParentsFirst(es) && OnlyBracketsOpen(es) && -1 <= e.parent < |es| && (e.end == -1 ==> e.IsContainer())
    ensures ParentsFirst(es + [e]) && OnlyBracketsOpen(es + [e])
  {
  }

  lemma AppendKeepsInv(rs: RefState, e: Entry, pos: nat)
    requires Inv(rs) && rs.pos < pos && e.parent == rs.super
    requires rs.pos <= e.start < pos && (e.end == -1 || e.start <= e.end <= pos)
    requires e.end == -1 ==> e.IsContainer()
    ensures
      if e.end == -1 then Inv(RefState(pos, rs.entries + [e], Cons(|rs.entries|, rs.stack), |rs.entries|))
      else Inv(RefState(pos, rs.entries + [e], rs.stack, rs.super))
  {
    hide Placed;
    hide StartsIncrease;
    hide Laminar;
    hide ParentsFirst;
    hide OnlyBracketsOpen;
    assert (rs.entries + [e])[..|rs.entries|] == rs.entries;
    AppendKeepsSpans(rs.entries, e, rs.pos, pos);
    AppendKeepsParents(rs.entries, e);
  }

  /** The innermost open bracket is open, and everything after it is closed. */
  lemma {:induction false} InnermostOpen(es: seq<Entry>)
    ensures var top := OpenIndices(es).Top();
            && top < |es| && (top != -1 ==> es[top].end == -1)
            && (forall j :: top < j < |es| ==> es[j].end != -1)
  {
    if es != [] && es[|es| - 1].end != -1 {
      InnermostOpen(es[..|es| - 1]);
    }
  }

  lemma {:induction false} ClosingPops(es: seq<Entry>, end: nat)
    requires OpenIndices(es).Cons?
    ensures var Cons(i, rest) := OpenIndices(es); OpenIndices(EndAt(es, i, end)) == rest
  {
    var i := OpenIndices(es).index;
    InnermostOpen(es);
    var init := es[..|es| - 1];
    var fs := EndAt(es, i, end);
    if i == |es| - 1 {
      assert fs[..i] == init;
    } else {
      ClosingPops(init, end);
      assert fs[..|es| - 1] == EndAt(init, i, end);
    }
  }

  lemma PopKeepsInv(rs: RefState, kind: Kind)
    requires Inv(rs) && rs.stack.Top() < |rs.entries| && Pop(rs, kind).RefGo?
    ensures Inv(Pop(rs, kind).next)
  {
    var es, i := rs.entries, rs.stack.Top();
    InnermostOpen(es);
    ClosingPops(es, rs.pos + 1);
  }

  lemma LeafKeepsInv(cap: nat, rs: RefState, kind: Kind, start: int, end: int, next: nat)
    requires Inv(rs) && rs.pos <= start <= end <= next && start < next && rs.pos < next
    ensures Leaf(cap, rs, kind, start, end, next).RefGo? ==> Inv(Leaf(cap, rs, kind, start, end, next).next)
  {
    AppendKeepsInv(rs, Entry(kind, start, end, rs.super), next);
  }

  lemma PushKeepsInv(cap: nat, rs: RefState, kind: Kind)
    requires Inv(rs) && (kind.Object? || kind.Array?)
    ensures Push(cap, rs, kind).RefGo? ==> Inv(Push(cap, rs, kind).next)
  {
    AppendKeepsInv(rs, Entry(kind, rs.pos, -1, rs.super), rs.pos + 1);
  }

  lemma MoveKeepsInv(rs: RefState, super: int)
    requires Inv(rs) && -1 <= super < |rs.entries|
    ensures Inv(rs.(pos := rs.pos + 1, super := super))
  {
  }

  lemma RefStepAdvances(js: string, cap: nat, rs: RefState)
    requires rs.pos < |js| && rs.stack.Top() < |rs.entries| && -1 <= rs.super < |rs.entries|
    ensures RefStep(js, cap, rs).RefGo? ==> rs.pos < RefStep(js, cap, rs).next.pos <= |js|
  {
  }

  lemma BracketKeepsInv(js: string, cap: nat, rs: RefState)
    requires rs.pos < |js| && Inv(rs) && js[rs.pos] in "{[}]"
    ensures RefStep(js, cap, rs).RefGo? ==> Inv(RefStep(js, cap, rs).next)
  {
    var c := js[rs.pos];
    if c == '{' || c == '[' {
      PushKeepsInv(cap, rs, if c == '{' then Object else Array);
    } else if Pop(rs, Closing(c)).RefGo? {
      PopKeepsInv(rs, Closing(c));
    }
  }

  lemma LeafStepKeepsInv(js: string, cap: nat, rs: RefState)
    requires rs.pos < |js| && Inv(rs) && js[rs.pos] !in "{[}]:,"
    ensures RefStep(js, cap, rs).RefGo? ==> Inv(RefStep(js, cap, rs).next)
  {
    hide Leaf;
    hide QuoteEnd;
    hide OpenIndices;
    hide OnlyBracketsOpen;
    hide ParentsFirst;
    hide Placed;
    hide StartsIncrease;
    hide Laminar;
    var c := js[rs.pos];
    if c == '\"' {
      var e := QuoteEnd(js, rs.pos + 1);
      if e != -1 {
        LeafKeepsInv(cap, rs, String, rs.pos + 1, e, e + 1);
      }
    } else if IsSpace(c) || c == '\0' {
      MoveKeepsInv(rs, rs.super);
    } else {
      var e := AtomEnd(js, rs.pos);
      if e != -1 {
        LeafKeepsInv(cap, rs, Primitive, rs.pos, e, e);
      }
    }
  }

  lemma RefStepKeepsInv(js: string, cap: nat, rs: RefState)
    requires rs.pos < |js| && Inv(rs)
    ensures RefStep(js, cap, rs).RefGo? ==>
              rs.pos < RefStep(js, cap, rs).next.pos <= |js| && Inv(RefStep(js, cap, rs).next)
  {
    RefStepAdvances(js, cap, rs);
    var c := js[rs.pos];
    if c in "{[}]" {
      BracketKeepsInv(js, cap, rs);
    } else if c == ':' {
      MoveKeepsInv(rs, |rs.entries| - 1);
    } else if c == ',' {
      MoveKeepsInv(rs, RefStep(js, cap, rs).next.super);
    } else {
      LeafStepKeepsInv(js, cap, rs);
    }
  }

  // ---------- Refinement ----------

  /** How many entries name `i` as their parent. */
  function Children(es: seq<Entry>, i: int): (r: nat) {
    if es == [] then 0
    else Children(es[..|es| - 1], i) + (if es[|es| - 1].parent == i then 1 else 0)
  }

  /** The token table the reference entries stand for. */
  function View(es: seq<Entry>): (ts: seq<Token>)
    ensures |ts| == |es|
    ensures forall i :: 0 <= i < |es| ==> ts[i] == Token(es[i].kind, es[i].start, es[i].end, Children(es, i))
  {
    seq(|es|, i requires 0 <= i < |es| => Token(es[i].kind, es[i].start, es[i].end, Children(es, i)))
  }

  function Concrete(rs: RefState): (r: State) {
    State(rs.pos, View(rs.entries), rs.super, |rs.entries|)
  }

  function Lift(m: RefMove): (r: Move) {
    match m
    case RefStop(code) => Stop(code)
    case RefGo(next) => Go(Concrete(next))
  }

  lemma {:induction false} ChildrenOfSame(es: seq<Entry>, fs: seq<Entry>, i: int)
    requires |es| == |fs| && forall j :: 0 <= j < |es| ==> es[j].parent == fs[j].parent
    ensures Children(es, i) == Children(fs, i)
  {
    if es != [] {
      ChildrenOfSame(es[..|es| - 1], fs[..|fs| - 1], i);
    }
  }

  lemma {:induction false} NoChildren(es: seq<Entry>, i: int)
    requires forall j :: 0 <= j < |es| ==> es[j].parent < i
    ensures Children(es, i) == 0
  {
    if es != [] {
      NoChildren(es[..|es| - 1], i);
    }
  }

  lemma ViewAppend(es: seq<Entry>, e: Entry)
    requires -1 <= e.parent < |es| && ParentsFirst(es)
    ensures View(es + [e]) == Bump(View(es), e.parent) + [Token(e.kind, e.start, e.end, 0)]
  {
    assert (es + [e])[..|es|] == es;
    NoChildren(es, |es|);
  }

  lemma ViewClose(es: seq<Entry>, i: nat, end: int)
    requires i < |es|
    ensures View(EndAt(es, i, end)) == SetEnd(View(es), i, end)
  {
    forall k | 0 <= k < |es|
      ensures Children(EndAt(es, i, end), k) == Children(es, k)
    {
      ChildrenOfSame(EndAt(es, i, end), es, k);
    }
  }

  /** The backward scan finds the top of the stack. */
  lemma ScanFindsTop(es: seq<Entry>, pos: nat)
    requires Placed(es, pos)
    ensures LastOpen(View(es)) == OpenIndices(es).Top()
  {
    InnermostOpen(es);
    LastOpenIsLast(View(es), OpenIndices(es).Top());
  }

  /** Closing the top entry closes the token the scan finds; the next scan finds the new top. */
  lemma ClosingView(es: seq<Entry>, pos: nat)
    requires OpenIndices(es).Cons? && Placed(es, pos)
    ensures var Cons(i, rest) := OpenIndices(es);
            var us := SetEnd(View(es), i, pos + 1);
            us == View(EndAt(es, i, pos + 1)) && LastOpen(us) == rest.Top()
  {
    var i := OpenIndices(es).index;
    ClosingPops(es, pos + 1);
    ScanFindsTop(EndAt(es, i, pos + 1), pos + 1);
    ViewClose(es, i, pos + 1);
  }

  lemma PopRefines(rs: RefState, kind: Kind)
    requires -1 <= rs.super < |rs.entries|
    requires rs.stack == OpenIndices(rs.entries) && Placed(rs.entries, rs.pos)
    ensures Close(Concrete(rs), kind) == Lift(Pop(rs, kind))
  {
    hide OpenIndices;
    hide Placed;
    hide View;
    hide EndAt;
    hide LastOpen;
    hide SetEnd;
    ScanFindsTop(rs.entries, rs.pos);
    if rs.stack.Cons? {
      ClosingView(rs.entries, rs.pos);
    }
  }

  lemma AppendRefines(cap: nat, rs: RefState, e: Entry, next: nat, super: int, stack: Stack)
    requires ParentsFirst(rs.entries) && e.parent == rs.super && -1 <= rs.super < |rs.entries| < cap
    requires -1 <= super <= |rs.entries|
    ensures Add(cap, Concrete(rs), Token(e.kind, e.start, e.end, 0), next, super)
         == Go(Concrete(RefState(next, rs.entries + [e], stack, super)))
  {
    ViewAppend(rs.entries, e);
  }

  lemma LeafStepRefines(js: string, cap: nat, rs: RefState)
    requires rs.pos < |js| && js[rs.pos] != '\0' && js[rs.pos] !in "{[}]:,"
    requires ParentsFirst(rs.entries) && -1 <= rs.super < |rs.entries|
    requires rs.stack.Top() < |rs.entries|
    ensures Step(js, cap, Concrete(rs)) == Lift(RefStep(js, cap, rs))
  {
    hide View;
    hide QuoteEnd;
    hide ParentsFirst;
    var c := js[rs.pos];
    if |rs.entries| < cap {
      if c == '\"' {
        var e := QuoteEnd(js, rs.pos + 1);
        if e != -1 {
          AppendRefines(cap, rs, Entry(String, rs.pos + 1, e, rs.super), e + 1, rs.super, rs.stack);
        }
      } else if !IsSpace(c) {
        var e := AtomEnd(js, rs.pos);
        if e != -1 {
          AppendRefines(cap, rs, Entry(Primitive, rs.pos, e, rs.super), e, rs.super, rs.stack);
        }
      }
    }
  }

  lemma StepRefines(js: string, cap: nat, rs: RefState)
    requires rs.pos < |js| && js[rs.pos] != '\0'
    requires rs.stack == OpenIndices(rs.entries) && Placed(rs.entries, rs.pos)
    requires ParentsFirst(rs.entries) && -1 <= rs.super < |rs.entries|
    ensures Step(js, cap, Concrete(rs)) == Lift(RefStep(js, cap, rs))
  {
    var c := js[rs.pos];
    var i := |rs.entries|;
    if c == '{' || c == '[' {
      if i < cap {
        AppendRefines(cap, rs, Entry(if c == '{' then Object else Array, rs.pos, -1, rs.super), rs.pos + 1, i, Cons(i, rs.stack));
      }
    } else if c == '}' || c == ']' {
      PopRefines(rs, Closing(c));
    } else if c == ',' {
      ScanFindsTop(rs.entries, rs.pos);
    } else if c != ':' {
      LeafStepRefines(js, cap, rs);
    }
  }

  lemma {:induction false} RunRefines(js: string, cap: nat, rs: RefState)
    requires Inv(rs)
    ensures var r := RefRun(js, cap, rs); Run(js, cap, Concrete(rs)) == (r.0, Concrete(r.1)) && Inv(r.1)
    decreases |js| - rs.pos
  {
    if rs.pos >= |js| || js[rs.pos] == '\0' {
      ScanFindsTop(rs.entries, rs.pos);
    } else {
      StepRefines(js, cap, rs);
      RefStepKeepsInv(js, cap, rs);
      if RefStep(js, cap, rs).RefGo? {
        RunRefines(js, cap, RefStep(js, cap, rs).next);
      }
    }
  }

  /** On every text and every table size the stackless tokenizer gives the code and the tokens
      of the stack tokenizer. */
  lemma StacklessRefinesStack(js: string, cap: nat)
    ensures var r := RefRun(js, cap, REF_START);
            Run(js, cap, START) == (r.0, State(r.1.pos, View(r.1.entries), r.1.super, |r.1.entries|))
  {
    assert Concrete(REF_START) == START;
    RunRefines(js, cap, REF_START);
  }

  // ---------- Shape of a successful run ----------

  function SumSizes(ts: seq<Token>): (r: nat) {
    if ts == [] then 0 else SumSizes(ts[..|ts| - 1]) + ts[|ts| - 1].size
  }

  /** Spans of two tokens are disjoint or one contains the other; starts strictly increase. */
  ghost predicate Nested(ts: seq<Token>) {
    forall i, j :: 0 <= i < j < |ts| ==>
      ts[i].start < ts[j].start && (ts[i].end <= ts[j].start || ts[j].end <= ts[i].end)
  }

  lemma {:induction false} SumBump(ts: seq<Token>, i: int)
    requires -1 <= i < |ts|
    ensures SumSizes(Bump(ts, i)) == SumSizes(ts) + (if i == -1 then 0 else 1)
  {
    if i != -1 {
      var b := Bump(ts, i);
      if i == |ts| - 1 {
        assert b[..i] == ts[..i];
      } else {
        SumBump(ts[..|ts| - 1], i);
        assert b[..|ts| - 1] == Bump(ts[..|ts| - 1], i);
      }
    }
  }

  lemma {:induction false} SizesAndRoots(es: seq<Entry>)
    requires ParentsFirst(es)
    ensures SumSizes(View(es)) + Children(es, -1) == |es|
  {
    if es != [] {
      var init := es[..|es| - 1];
      SizesAndRoots(init);
      assert es == init + [es[|es| - 1]];
      var e := es[|es| - 1];
      ViewAppend(init, e);
      SumBump(View(init), e.parent);
      assert View(es)[..|init|] == Bump(View(init), e.parent);
    }
  }

  /** After a successful run every bracket is closed, spans nest, starts strictly increase, the
      count is the number of tokens, and every token but the roots is counted in one size. */
  lemma SuccessShape(js: string, cap: nat)
    ensures var (code, st) := Run(js, cap, START);
            var roots := Children(RefRun(js, cap, REF_START).1.entries, -1);
            code.Count? ==>
              && code.n == |st.tokens| == SumSizes(st.tokens) + roots
              && Inside(st.tokens, |js|) && Nested(st.tokens)
  {
    StacklessRefinesStack(js, cap);
    RunRefines(js, cap, REF_START);
    var (code, rs) := RefRun(js, cap, REF_START);
    RunStaysInside(js, cap, REF_START);
    if code.Count? {
      EmptyStackAtSuccess(js, cap, REF_START);
      SizesAndRoots(rs.entries);
      ClosedEntriesNest(rs.entries, rs.pos, |js|);
    }
  }

  /** All brackets are closed and every token lies inside the text. */
  ghost predicate Inside(ts: seq<Token>, len: nat) {
    forall i :: 0 <= i < |ts| ==> 0 <= ts[i].start <= ts[i].end <= len
  }

  lemma ClosedEntriesNest(es: seq<Entry>, pos: nat, len: nat)
    requires OpenIndices(es).Empty? && Placed(es, pos) && pos <= len
    requires StartsIncrease(es) && Laminar(es)
    ensures Inside(View(es), len) && Nested(View(es))
  {
    InnermostOpen(es);
  }

  lemma {:induction false} EmptyStackAtSuccess(js: string, cap: nat, rs: RefState)
    requires Inv(rs) && RefRun(js, cap, rs).0.Count?
    ensures RefRun(js, cap, rs).1.stack.Empty?
    ensures RefRun(js, cap, rs).0.n == |RefRun(js, cap, rs).1.entries|
    decreases |js| - rs.pos
  {
    if !(rs.pos >= |js| || js[rs.pos] == '\0') {
      RefStepKeepsInv(js, cap, rs);
      if RefStep(js, cap, rs).RefGo? {
        EmptyStackAtSuccess(js, cap, RefStep(js, cap, rs).next);
      }
    }
  }

  lemma {:induction false} RunStaysInside(js: string, cap: nat, rs: RefState)
    requires Inv(rs) && rs.pos <= |js|
    ensures RefRun(js, cap, rs).1.pos <= |js|
    decreases |js| - rs.pos
  {
    if !(rs.pos >= |js| || js[rs.pos] == '\0') {
      RefStepKeepsInv(js, cap, rs);
      if RefStep(js, cap, rs).RefGo? {
        RunStaysInside(js, cap, RefStep(js, cap, rs).next);
      }
    }
  }

  /** Every token starts inside the text and, unless it is open, ends there at or behind its start. */
  ghost predicate Started(ts: seq<Token>, len: nat) {
    forall i :: 0 <= i < |ts| ==> 0 <= ts[i].start <= len && (ts[i].end == -1 || ts[i].start <= ts[i].end <= len)
  }

  /** That holds of what any run leaves, a failed one too. */
  lemma TokensStarted(js: string, cap: nat)
    ensures Started(Run(js, cap, START).1.tokens, |js|)
  {
    StacklessRefinesStack(js, cap);
    RunRefines(js, cap, REF_START);
    RunStaysInside(js, cap, REF_START);
  }

  /** The table is never overfull. */
  lemma {:induction false} RunFits(js: string, cap: nat, st: State)
    requires st.Valid() && |st.tokens| <= cap
    ensures |Run(js, cap, st).1.tokens| <= cap
    decreases |js| - st.pos
  {
    if !AtEnd(js, st) && Step(js, cap, st).Go? {
      RunFits(js, cap, Step(js, cap, st).next);
    }
  }

  lemma TokensFit(js: string, cap: nat)
    ensures |Run(js, cap, START).1.tokens| <= cap
  {
    RunFits(js, cap, START);
  }
}
