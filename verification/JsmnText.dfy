/**
 Which characters make an atom, a string, a gap and an error, in terms of character codes alone. The
 legality predicates of JsonTree are shown to be exactly these.
 */
module JsmnText {
  import opened Jsmn
  import opened JsonTree

  // ---------- Atoms ----------

  /** 33 to 126 but for the comma and the two closing brackets. */
  predicate AtomCode(c: int) {
    33 <= c <= 126 && c != 44 && c != 93 && c != 125
  }

  /** An atom does not start with an opening bracket, a quote or a colon. */
  predicate AtomStart(c: int) {
    AtomCode(c) && c != 123 && c != 91 && c != 34 && c != 58
  }

  predicate AtomText(t: string) {
    t != "" && AtomStart(t[0] as int) && forall i :: 0 <= i < |t| ==> AtomCode(t[i] as int)
  }

  /** Tab, line feed, carriage return, blank, comma and the closing brackets end an atom; so does NUL. */
  predicate EndCode(c: int) {
    c in {0, 9, 10, 13, 32, 44, 93, 125}
  }

  lemma AtomsAre(t: string)
    ensures AtomOk(t) <==> AtomText(t)
  {
  }

  lemma {:induction false} AtomEndsAt(js: string, p: nat, n: nat)
    requires p + n <= |js| && forall i :: p <= i < p + n ==> AtomCode(js[i] as int)
    ensures p + n == |js| || EndCode(js[p + n] as int) ==> AtomEnd(js, p) == p + n
    ensures p + n < |js| && !EndCode(js[p + n] as int) && !AtomCode(js[p + n] as int) ==> AtomEnd(js, p) == -1
    decreases n
  {
    if n > 0 {
      AtomEndsAt(js, p + 1, n - 1);
    }
  }

  /** From any state an atom ends exactly at the first of these codes, and gives one token; a character
      below 32 or from 127 on that is none of them rejects it; and a full table has no room for it. */
  lemma AtomStep(js: string, cap: nat, st: State, n: nat)
    requires st.Valid() && n > 0 && st.pos + n <= |js| && AtomText(js[st.pos..st.pos + n])
    ensures st.pos + n == |js| || EndCode(js[st.pos + n] as int) ==>
              Step(js, cap, st) == if |st.tokens| >= cap then Stop(NoMem)
                                   else Go(State(st.pos + n, Bump(st.tokens, st.super) + [Token(Primitive, st.pos, st.pos + n, 0)],
                                                 st.super, st.count + 1))
    ensures st.pos + n < |js| && !EndCode(js[st.pos + n] as int) && !AtomCode(js[st.pos + n] as int) ==>
              Run(js, cap, st) == (Inval, st)
  {
    var t := js[st.pos..st.pos + n];
    forall i | st.pos <= i < st.pos + n
      ensures AtomCode(js[i] as int)
    {
      assert js[i] == t[i - st.pos];
    }
    assert js[st.pos] == t[0];
    AtomEndsAt(js, st.pos, n);
  }

  /** Such a character is rejected in front of an atom, too. */
  lemma BadCharacter(js: string, cap: nat, st: State)
    requires st.Valid() && st.pos < |js| && (js[st.pos] as int < 32 || js[st.pos] as int >= 127)
    requires js[st.pos] as int !in {0, 9, 10, 13}
    ensures Run(js, cap, st) == (Inval, st)
  {
    AtomEndsAt(js, st.pos, 0);
  }

  lemma Alone(js: string, cap: nat, ts: seq<Token>, count: nat)
    requires forall i :: 0 <= i < |ts| ==> !ts[i].IsOpen()
    ensures Run(js, cap, State(|js|, ts, -1, count)) == (Count(count), State(|js|, ts, -1, count))
  {
    LastOpenIsLast(ts, -1);
  }

  /** A text of its own is read as one atom exactly when it is one. */
  lemma AtomExact(t: string, cap: nat)
    requires cap >= 1
    ensures Run(t, cap, START) == (Count(1), State(|t|, [Token(Primitive, 0, |t|, 0)], -1, 1)) <==> AtomText(t)
  {
    hide Run;
    hide AtomEnd;
    var st := State(|t|, [Token(Primitive, 0, |t|, 0)], -1, 1);
    if AtomText(t) {
      assert t[0..0 + |t|] == t;
      AtomStep(t, cap, START, |t|);
      assert [] + st.tokens == st.tokens;
      StepRuns(t, cap, START);
      Alone(t, cap, st.tokens, 1);
    } else if Run(t, cap, START) == (Count(1), st) {
      OneAtomOnly(t, cap);
    }
  }

  lemma StepRuns(js: string, cap: nat, st: State)
    requires st.Valid() && st.pos < |js| && js[st.pos] != '\0'
    ensures var m := Step(js, cap, st); Run(js, cap, st) == if m.Go? then Run(js, cap, m.next) else (m.code, st)
  {
  }

  /** Every token of a run keeps its kind and start; new ones start at or behind the position. */
  lemma {:induction false} TokensStay(js: string, cap: nat, st: State)
    requires st.Valid()
    ensures var us := Run(js, cap, st).1.tokens;
            && |st.tokens| <= |us|
            && (forall i :: 0 <= i < |st.tokens| ==> us[i].kind == st.tokens[i].kind && us[i].start == st.tokens[i].start)
            && (forall i :: |st.tokens| <= i < |us| ==> us[i].start >= st.pos)
    decreases |js| - st.pos
  {
    if !AtEnd(js, st) && Step(js, cap, st).Go? {
      hide Step;
      OneStepStays(js, cap, st);
      TokensStay(js, cap, Step(js, cap, st).next);
    }
  }

  lemma OneStepStays(js: string, cap: nat, st: State)
    requires st.Valid() && st.pos < |js| && Step(js, cap, st).Go?
    ensures var us := Step(js, cap, st).next.tokens;
            && |st.tokens| <= |us| <= |st.tokens| + 1
            && (forall i :: 0 <= i < |st.tokens| ==> us[i].kind == st.tokens[i].kind && us[i].start == st.tokens[i].start)
            && (|us| > |st.tokens| ==> us[|st.tokens|].start >= st.pos)
  {
  }

  lemma OneAtomOnly(t: string, cap: nat)
    requires Run(t, cap, START) == (Count(1), State(|t|, [Token(Primitive, 0, |t|, 0)], -1, 1))
    ensures AtomText(t)
  {
    hide Run;
    if t == "" || t[0] == '\0' {
      NothingRead(t, cap);
    } else {
      StepRuns(t, cap, START);
      match Step(t, cap, START)
      case Stop(_) =>
      case Go(next) =>
        TokensStay(t, cap, next);
        TokensEndStay(t, cap, next);
        assert Run(t, cap, START).1.tokens[0] == Token(Primitive, 0, |t|, 0);
        FirstIsAtom(t, cap);
    }
  }

  lemma NothingRead(t: string, cap: nat)
    requires t == "" || t[0] == '\0'
    ensures Run(t, cap, START) == (Count(0), START)
  {
    assert LastOpen([]) == -1;
  }

  lemma FirstIsAtom(t: string, cap: nat)
    requires t != "" && t[0] != '\0' && Step(t, cap, START).Go?
    requires var next := Step(t, cap, START).next;
             next.tokens != [] && next.tokens[0].start == 0 && next.tokens[0].kind == Primitive && next.tokens[0].end == |t|
    ensures AtomText(t)
  {
    CodesBefore(t, 0);
  }

  lemma {:induction false} CodesBefore(js: string, p: nat)
    requires p <= |js| && AtomEnd(js, p) >= p
    ensures forall i :: p <= i < AtomEnd(js, p) ==> AtomCode(js[i] as int)
    decreases |js| - p
  {
    if AtomEnd(js, p) > p {
      CodesBefore(js, p + 1);
    }
  }

  // ---------- Gaps ----------

  /** Gaps are exactly the texts of tabs, line feeds, carriage returns and blanks. */
  lemma SpacesAre(ws: string)
    ensures Spaces(ws) <==> forall i :: 0 <= i < |ws| ==> ws[i] as int in {9, 10, 13, 32}
  {
  }

  /** They leave no token and no error. */
  lemma SpacesTokenize(ws: string, cap: nat)
    requires forall i :: 0 <= i < |ws| ==> ws[i] as int in {9, 10, 13, 32}
    ensures Run(ws, cap, START) == (Count(0), State(|ws|, [], -1, 0))
  {
    hide Run;
    assert ws[0..|ws|] == ws;
    RunSpaces(ws, cap, START, ws);
    Alone(ws, cap, [], 0);
  }

  // ---------- Strings ----------

  /** Is the i-th character skipped, because a backslash that is not itself skipped is before it? */
  predicate Skipped(t: string, i: nat)
    requires i <= |t|
  {
    i > 0 && t[i - 1] as int == 92 && !Skipped(t, i - 1)
  }

  /** Every quote and NUL is skipped, and the end is not. */
  predicate StringText(t: string) {
    (forall i :: 0 <= i < |t| && t[i] as int in {0, 34} ==> Skipped(t, i)) && !Skipped(t, |t|)
  }

  lemma {:induction false} StringsAreFrom(t: string, p: nat)
    requires p <= |t| && !Skipped(t, p)
    ensures StringOk(t[p..]) <==>
              (forall i :: p <= i < |t| && t[i] as int in {0, 34} ==> Skipped(t, i)) && !Skipped(t, |t|)
    decreases |t| - p
  {
    if p < |t| {
      if t[p] == '\\' && p + 1 < |t| {
        assert Skipped(t, p + 1) && !Skipped(t, p + 2);
        assert t[p..][2..] == t[p + 2..];
        StringsAreFrom(t, p + 2);
      } else if t[p] == '\\' {
        assert Skipped(t, p + 1);
      } else {
        assert t[p..][1..] == t[p + 1..];
        StringsAreFrom(t, p + 1);
      }
    }
  }

  lemma StringsAre(t: string)
    ensures StringOk(t) <==> StringText(t)
  {
    assert t[0..] == t;
    StringsAreFrom(t, 0);
  }

  /** The closing quote is found behind the body only if the body is legal. */
  lemma {:induction false} QuoteBehind(js: string, p: nat, e: nat)
    requires p <= e < |js| && QuoteEnd(js, p) == e
    ensures StringOk(js[p..e])
    decreases e - p
  {
    if p < e {
      var k := if js[p] == '\\' then 2 else 1;
      assert js[p..e][0] == js[p];
      QuoteBehind(js, p + k, e);
      assert js[p..e][k..] == js[p + k..e];
    }
  }

  /** A text in quotes is read as one string exactly when the text is a legal body. */
  lemma StringExact(t: string, cap: nat)
    requires cap >= 1
    ensures var js := "\"" + t + "\"";
            Run(js, cap, START) == (Count(1), State(|js|, [Token(String, 1, 1 + |t|, 0)], -1, 1)) <==> StringText(t)
  {
    hide Run;
    hide StringText;
    hide StringOk;
    StringsAre(t);
    var js := "\"" + t + "\"";
    var e := QuoteEnd(js, 1);
    StepRuns(js, cap, START);
    if StringOk(t) {
      assert js[1..1 + |t + "\""|] == t + "\"";
      QuoteEndAt(js, 1, t);
      var own := [Token(String, 1, 1 + |t|, 0)];
      assert [] + own == own;
      Alone(js, cap, own, 1);
    } else if e != -1 {
      QuoteBehind(js, 1, e);
      assert js[1..1 + |t|] == t;
      var next := State(e + 1, [Token(String, 1, e, 0)], -1, 1);
      assert [] + next.tokens == next.tokens;
      TokensEndStay(js, cap, next);
      if e != 1 + |t| {
        assert Run(js, cap, START).1.tokens[0].end != 1 + |t|;
      }
    }
  }

  /** Closed tokens keep their ends. */
  lemma {:induction false} TokensEndStay(js: string, cap: nat, st: State)
    requires st.Valid()
    ensures var us := Run(js, cap, st).1.tokens;
            |st.tokens| <= |us| && forall i :: 0 <= i < |st.tokens| && st.tokens[i].end != -1 ==> us[i].end == st.tokens[i].end
    decreases |js| - st.pos
  {
    if !AtEnd(js, st) && Step(js, cap, st).Go? {
      hide Step;
      OneStepEnds(js, cap, st);
      TokensEndStay(js, cap, Step(js, cap, st).next);
    }
  }

  lemma OneStepEnds(js: string, cap: nat, st: State)
    requires st.Valid() && st.pos < |js| && Step(js, cap, st).Go?
    ensures var us := Step(js, cap, st).next.tokens;
            |st.tokens| <= |us| && forall i :: 0 <= i < |st.tokens| && st.tokens[i].end != -1 ==> us[i].end == st.tokens[i].end
  {
  }

  // ---------- Errors ----------

  /** From any state: an opening bracket with the table full gives NOMEM. A closing bracket that does
      not close the innermost open one gives INVAL. A quote whose string does not end gives PART, and
      so does the end of the text inside a bracket. The state is left as it was. */
  lemma Errors(js: string, cap: nat, st: State, i: int)
    requires st.Valid() && st.pos <= |js| && -1 <= i < |st.tokens|
    requires (i != -1 ==> st.tokens[i].IsOpen()) && forall j :: i < j < |st.tokens| ==> !st.tokens[j].IsOpen()
    ensures st.pos < |js| && js[st.pos] as int in {91, 123} && |st.tokens| >= cap ==> Run(js, cap, st) == (NoMem, st)
    ensures st.pos < |js| && js[st.pos] as int == 93 && (i == -1 || st.tokens[i].kind != Array) ==> Run(js, cap, st) == (Inval, st)
    ensures st.pos < |js| && js[st.pos] as int == 125 && (i == -1 || st.tokens[i].kind != Object) ==> Run(js, cap, st) == (Inval, st)
    ensures st.pos < |js| && js[st.pos] as int == 34 && (forall k :: st.pos < k < |js| ==> js[k] as int != 34) ==>
              Run(js, cap, st) == (Part, st)
    ensures st.pos == |js| && i != -1 ==> Run(js, cap, st) == (Part, st)
  {
    LastOpenIsLast(st.tokens, i);
    if st.pos < |js| && js[st.pos] as int in {34, 91, 93, 123, 125} {
      StepRuns(js, cap, st);
    }
    if st.pos < |js| && js[st.pos] as int == 34 && QuoteEnd(js, st.pos + 1) != -1 {
      QuoteIsQuote(js, st.pos + 1);
    }
  }

  lemma {:induction false} QuoteIsQuote(js: string, p: nat)
    requires p <= |js| && QuoteEnd(js, p) != -1
    ensures p <= QuoteEnd(js, p) && js[QuoteEnd(js, p)] as int == 34
    decreases |js| - p
  {
    if js[p] != '\"' {
      QuoteIsQuote(js, if js[p] == '\\' && p + 1 < |js| then p + 2 else p + 1);
    }
  }
}
