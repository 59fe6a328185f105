/** What `tokenize` produces, stated against the source text: one `semi` per `;`, the `int_lit`
    values spell out exactly the digits of the source, the letters of the source are a run of
    `exit` words followed by the letters left pending, and only `int_lit` tokens carry values. */
module TokenizationProps {
  import opened Wrappers
  import opened Decimal
  import opened TokenizationModel

  // ---------------------------------------------------------------------------------------
  // Views of the source and of the tokens

  function CountChar(s: string, c: char): nat {
    if |s| == 0 then 0 else (if s[0] == c then 1 else 0) + CountChar(s[1..], c)
  }

  /** The letters of `s`, in order. */
  function Letters(s: string): string {
    if |s| == 0 then [] else (if IsAlpha(s[0]) then [s[0]] else []) + Letters(s[1..])
  }

  /** The decimal digits of `s`, in order. */
  function Digits(s: string): string {
    if |s| == 0 then [] else (if IsDigit(s[0]) then [s[0]] else []) + Digits(s[1..])
  }

  function CountKind(ts: seq<Token>, k: TokenType): nat {
    if |ts| == 0 then 0 else CountKind(ts[..|ts| - 1], k) + (if ts[|ts| - 1].kind == k then 1 else 0)
  }

  /** The values of the `int_lit` tokens, concatenated in order. */
  function IntValues(ts: seq<Token>): string {
    if |ts| == 0 then []
    else
      var t := ts[|ts| - 1];
      IntValues(ts[..|ts| - 1]) + (if t.kind == IntLit && t.value.Some? then t.value.value else [])
  }

  /** `k` copies of the word `exit`. */
  function ExitWords(k: nat): string {
    if k == 0 then [] else ExitWords(k - 1) + "exit"
  }

  /** Only `int_lit` tokens carry a value, and that value is a non-empty run of digits whose
      number fits in an `int`. */
  ghost predicate WellFormed(ts: seq<Token>) {
    forall i :: 0 <= i < |ts| ==> TokenOk(ts[i])
  }

  // ---------------------------------------------------------------------------------------
  // Algebra of the views

  lemma {:induction false} CountCharConcat(a: string, b: string, c: char)
    ensures CountChar(a + b, c) == CountChar(a, c) + CountChar(b, c)
    decreases |a|
  {
    if |a| > 0 {
      assert (a + b)[1..] == a[1..] + b;
      CountCharConcat(a[1..], b, c);
    } else {
      assert a + b == b;
    }
  }

  lemma {:induction false} LettersConcat(a: string, b: string)
    ensures Letters(a + b) == Letters(a) + Letters(b)
    decreases |a|
  {
    if |a| > 0 {
      assert (a + b)[1..] == a[1..] + b;
      LettersConcat(a[1..], b);
    } else {
      assert a + b == b;
    }
  }

  lemma {:induction false} DigitsConcat(a: string, b: string)
    ensures Digits(a + b) == Digits(a) + Digits(b)
    decreases |a|
  {
    if |a| > 0 {
      assert (a + b)[1..] == a[1..] + b;
      DigitsConcat(a[1..], b);
    } else {
      assert a + b == b;
    }
  }

  lemma {:induction false} ExitWordsAdd(m: nat, n: nat)
    ensures ExitWords(m) + ExitWords(n) == ExitWords(m + n)
    decreases n
  {
    if n > 0 {
      ExitWordsAdd(m, n - 1);
    }
  }

  /** A run of digits has no letters and no `;`, and is its own digits. */
  lemma {:induction false} DigitRunViews(s: string)
    requires AllDigits(s)
    ensures Letters(s) == [] && Digits(s) == s && CountChar(s, ';') == 0
    decreases |s|
  {
    if |s| > 0 {
      DigitRunViews(s[1..]);
    }
  }

  lemma CountKindSnoc(ts: seq<Token>, t: Token, k: TokenType)
    ensures CountKind(ts + [t], k) == CountKind(ts, k) + (if t.kind == k then 1 else 0)
    ensures IntValues(ts + [t]) == IntValues(ts) + (if t.kind == IntLit && t.value.Some? then t.value.value else [])
  {
    assert (ts + [t])[..|ts|] == ts;
  }

  lemma Assoc(a: string, b: string, c: string)
    ensures a + b + c == a + (b + c)
  {
  }

  // ---------------------------------------------------------------------------------------
  // One step

  /** What going from `st` to `st'` over the characters `seg` adds: as many `semi` tokens as
      `;`, the digits as `int_lit` values, and the letters either into the buffer or, when the
      buffer reaches `exit`, as `_exit` tokens. */
  ghost predicate Accounts(seg: string, st: LexState, st': LexState) {
    && AllAlpha(st'.buffer)
    && CountKind(st'.tokens, Semi) == CountKind(st.tokens, Semi) + CountChar(seg, ';')
    && IntValues(st'.tokens) == IntValues(st.tokens) + Digits(seg)
    && CountKind(st.tokens, Exit) <= CountKind(st'.tokens, Exit)
    && st.buffer + Letters(seg)
       == ExitWords(CountKind(st'.tokens, Exit) - CountKind(st.tokens, Exit)) + st'.buffer
    && (WellFormed(st.tokens) ==> WellFormed(st'.tokens))
  }

  /** A token as `tokenize` builds one. */
  ghost predicate TokenOk(t: Token) {
    (t.value.Some? <==> t.kind == IntLit)
    && (t.value.Some? ==> |t.value.value| >= 1 && AllDigits(t.value.value) && DigitsValue(t.value.value) <= IntMax)
  }

  lemma WellFormedSnoc(ts: seq<Token>, t: Token)
    requires WellFormed(ts) && TokenOk(t)
    ensures WellFormed(ts + [t])
  {
    forall i | 0 <= i < |ts + [t]|
      ensures TokenOk((ts + [t])[i])
    {
      if i < |ts| {
        assert (ts + [t])[i] == ts[i];
      }
    }
  }

  lemma StepLetter(src: string, st: LexState)
    requires st.pos < |src| && IsAlpha(src[st.pos]) && AllAlpha(st.buffer)
    ensures Step(src, st).Success?
    ensures Accounts(src[st.pos..Step(src, st).value.pos], st, Step(src, st).value)
  {
    var c := src[st.pos];
    var seg := src[st.pos..st.pos + 1];
    assert seg == [c];
    OneCharViews(c);
    if st.buffer + [c] == "exit" {
      ExitLetter(st, seg);
    } else {
      assert Step(src, st) == Success(LexState(st.pos + 1, st.buffer + [c], st.tokens));
    }
  }

  /** The views of a one-character string. */
  lemma OneCharViews(c: char)
    ensures Letters([c]) == (if IsAlpha(c) then [c] else [])
    ensures Digits([c]) == (if IsDigit(c) then [c] else [])
    ensures CountChar([c], ';') == (if c == ';' then 1 else 0)
  {
    assert [c][1..] == [];
    assert Letters([c]) == (if IsAlpha(c) then [c] else []) + Letters([]);
    assert Digits([c]) == (if IsDigit(c) then [c] else []) + Digits([]);
    assert CountChar([c], ';') == (if c == ';' then 1 else 0) + CountChar([], ';');
  }

  lemma ExitLetter(st: LexState, seg: string)
    requires AllAlpha(st.buffer) && |seg| == 1 && st.buffer + seg == "exit"
    requires Letters(seg) == seg && Digits(seg) == [] && CountChar(seg, ';') == 0
    ensures Accounts(seg, st, LexState(st.pos + 1, [], st.tokens + [Token(Exit, None)]))
  {
    var t := Token(Exit, None);
    CountKindSnoc(st.tokens, t, Semi);
    CountKindSnoc(st.tokens, t, Exit);
    assert ExitWords(1) == [] + "exit";
    if WellFormed(st.tokens) {
      WellFormedSnoc(st.tokens, t);
    }
  }

  /** Letters in the buffer make the `stoi` of a number fail. */
  lemma BufferedNumber(b: string, run: string)
    requires AllAlpha(b)
    ensures Stoi(b + run).Success? ==> b == []
  {
    assert |b| > 0 ==> (b + run)[0] == b[0];
  }

  lemma StepNumber(src: string, st: LexState)
    requires st.pos < |src| && IsDigit(src[st.pos]) && AllAlpha(st.buffer)
    requires Step(src, st).Success?
    ensures Accounts(src[st.pos..Step(src, st).value.pos], st, Step(src, st).value)
  {
    var end := DigitRunEnd(src, st.pos);
    var run := src[st.pos..end];
    assert Stoi(st.buffer + run).Success?;
    BufferedNumber(st.buffer, run);
    assert st.buffer + run == run;
    assert Step(src, st).value == LexState(end, [], st.tokens + [Token(IntLit, Some(run))]);
    assert AllDigits(run) && |run| >= 1 && DigitsValue(run) <= IntMax;
    DigitRunViews(run);
    NumberAccounts(run, st, end);
  }

  /** A number token appended to the tokens of an empty-buffer state. */
  lemma NumberAccounts(run: string, st: LexState, end: nat)
    requires Letters(run) == [] && Digits(run) == run && CountChar(run, ';') == 0
    requires TokenOk(Token(IntLit, Some(run))) && st.buffer == []
    ensures Accounts(run, st, LexState(end, [], st.tokens + [Token(IntLit, Some(run))]))
  {
    NumberTokens(Token(IntLit, Some(run)), st.tokens);
    assert st.buffer + Letters(run) == ExitWords(0) + [];
  }

  /** What appending one `int_lit` token does to the token views. */
  lemma NumberTokens(t: Token, ts: seq<Token>)
    requires t.kind == IntLit && t.value.Some? && TokenOk(t)
    ensures var ts' := ts + [t];
      && CountKind(ts', Semi) == CountKind(ts, Semi)
      && CountKind(ts', Exit) == CountKind(ts, Exit)
      && IntValues(ts') == IntValues(ts) + t.value.value
      && (WellFormed(ts) ==> WellFormed(ts'))
  {
    CountKindSnoc(ts, t, Semi);
    CountKindSnoc(ts, t, Exit);
    if WellFormed(ts) {
      WellFormedSnoc(ts, t);
    }
  }

  lemma StepOther(src: string, st: LexState)
    requires st.pos < |src| && (src[st.pos] == ';' || IsSpace(src[st.pos])) && AllAlpha(st.buffer)
    ensures Step(src, st).Success?
    ensures Accounts(src[st.pos..Step(src, st).value.pos], st, Step(src, st).value)
  {
    var st' := Step(src, st).value;
    var c := src[st.pos];
    var seg := src[st.pos..st'.pos];
    assert seg == [c];
    OneCharViews(c);
    if c == ';' {
      CountKindSnoc(st.tokens, Token(Semi, None), Semi);
      CountKindSnoc(st.tokens, Token(Semi, None), Exit);
    } else {
      assert CountChar(seg, ';') == 0;
    }
    if WellFormed(st.tokens) && c == ';' {
      WellFormedSnoc(st.tokens, Token(Semi, None));
    }
  }

  lemma StepViews(src: string, st: LexState)
    requires st.pos < |src| && Recognised(src[st.pos]) && AllAlpha(st.buffer)
    requires Step(src, st).Success?
    ensures Accounts(src[st.pos..Step(src, st).value.pos], st, Step(src, st).value)
  {
    var c := src[st.pos];
    if IsAlpha(c) {
      StepLetter(src, st);
    } else if IsDigit(c) {
      StepNumber(src, st);
    } else {
      StepOther(src, st);
    }
  }

  lemma StepSemis(src: string, st: LexState)
    requires st.pos < |src| && Recognised(src[st.pos]) && AllAlpha(st.buffer)
    requires Step(src, st).Success?
    ensures var st' := Step(src, st).value;
      AllAlpha(st'.buffer)
      && CountKind(st'.tokens, Semi) == CountKind(st.tokens, Semi) + CountChar(src[st.pos..st'.pos], ';')
  {
    StepViews(src, st);
  }

  lemma StepDigits(src: string, st: LexState)
    requires st.pos < |src| && Recognised(src[st.pos]) && AllAlpha(st.buffer)
    requires Step(src, st).Success?
    ensures var st' := Step(src, st).value;
      AllAlpha(st'.buffer) && IntValues(st'.tokens) == IntValues(st.tokens) + Digits(src[st.pos..st'.pos])
  {
    StepViews(src, st);
  }

  lemma StepLetters(src: string, st: LexState)
    requires st.pos < |src| && Recognised(src[st.pos]) && AllAlpha(st.buffer)
    requires Step(src, st).Success?
    ensures var st' := Step(src, st).value;
      && AllAlpha(st'.buffer)
      && CountKind(st.tokens, Exit) <= CountKind(st'.tokens, Exit)
      && st.buffer + Letters(src[st.pos..st'.pos])
         == ExitWords(CountKind(st'.tokens, Exit) - CountKind(st.tokens, Exit)) + st'.buffer
  {
    StepViews(src, st);
  }

  lemma StepWellFormed(src: string, st: LexState)
    requires st.pos < |src| && Recognised(src[st.pos]) && AllAlpha(st.buffer)
    requires Step(src, st).Success? && WellFormed(st.tokens)
    ensures AllAlpha(Step(src, st).value.buffer) && WellFormed(Step(src, st).value.tokens)
  {
    StepViews(src, st);
  }

  // ---------------------------------------------------------------------------------------
  // The whole loop

  /** `Run` as one step followed by the rest of the run. */
  lemma RunSplit(src: string, st: LexState) returns (st': LexState)
    requires st.pos < |src| && RecognisedFrom(src, st.pos) && Run(src, st).Success?
    ensures Step(src, st) == Success(st') && st.pos < st'.pos <= |src|
    ensures RecognisedFrom(src, st'.pos) && Run(src, st') == Run(src, st)
    ensures src[st.pos..] == src[st.pos..st'.pos] + src[st'.pos..]
  {
    st' := Step(src, st).value;
  }

  lemma {:induction false} RunSemis(src: string, st: LexState)
    requires st.pos <= |src| && RecognisedFrom(src, st.pos) && AllAlpha(st.buffer)
    requires Run(src, st).Success?
    ensures CountKind(Run(src, st).value.tokens, Semi) == CountKind(st.tokens, Semi) + CountChar(src[st.pos..], ';')
    decreases |src| - st.pos
  {
    if st.pos < |src| {
      var st' := RunSplit(src, st);
      StepSemis(src, st);
      RunSemis(src, st');
      CountCharConcat(src[st.pos..st'.pos], src[st'.pos..], ';');
    } else {
      assert src[st.pos..] == [];
    }
  }

  lemma {:induction false} RunDigits(src: string, st: LexState)
    requires st.pos <= |src| && RecognisedFrom(src, st.pos) && AllAlpha(st.buffer)
    requires Run(src, st).Success?
    ensures IntValues(Run(src, st).value.tokens) == IntValues(st.tokens) + Digits(src[st.pos..])
    decreases |src| - st.pos
  {
    if st.pos < |src| {
      var st' := RunSplit(src, st);
      StepDigits(src, st);
      RunDigits(src, st');
      var seg, rest := src[st.pos..st'.pos], src[st'.pos..];
      DigitsConcat(seg, rest);
      var fin := Run(src, st).value;
      Assoc(IntValues(st.tokens), Digits(seg), Digits(rest));
      calc {
        IntValues(fin.tokens);
        IntValues(st'.tokens) + Digits(rest);
        IntValues(st.tokens) + Digits(seg) + Digits(rest);
        IntValues(st.tokens) + (Digits(seg) + Digits(rest));
        IntValues(st.tokens) + Digits(src[st.pos..]);
      }
    } else {
      assert src[st.pos..] == [];
    }
  }

  lemma {:induction false} RunWellFormed(src: string, st: LexState)
    requires st.pos <= |src| && RecognisedFrom(src, st.pos) && AllAlpha(st.buffer)
    requires Run(src, st).Success? && WellFormed(st.tokens)
    ensures WellFormed(Run(src, st).value.tokens)
    decreases |src| - st.pos
  {
    if st.pos < |src| {
      var st' := RunSplit(src, st);
      StepWellFormed(src, st);
      RunWellFormed(src, st');
    }
  }

  /** The letters from `st` on, behind the `exit` words already produced and the pending buffer,
      are the `exit` words and the buffer at the end of the run. */
  lemma {:induction false} RunLetters(src: string, st: LexState)
    requires st.pos <= |src| && RecognisedFrom(src, st.pos) && AllAlpha(st.buffer)
    requires Run(src, st).Success?
    ensures var fin := Run(src, st).value;
      ExitWords(CountKind(st.tokens, Exit)) + (st.buffer + Letters(src[st.pos..]))
      == ExitWords(CountKind(fin.tokens, Exit)) + fin.buffer
    decreases |src| - st.pos
  {
    var fin := Run(src, st).value;
    if st.pos < |src| {
      var st' := LettersStep(src, st);
      RunLetters(src, st');
      LettersCompose(ExitWords(CountKind(st.tokens, Exit)), st.buffer, src[st.pos..st'.pos], src[st'.pos..],
        ExitWords(CountKind(st'.tokens, Exit)), st'.buffer, ExitWords(CountKind(fin.tokens, Exit)), fin.buffer);
    } else {
      assert fin == st && src[st.pos..] == [];
      assert Letters([]) == [];
      assert st.buffer + [] == st.buffer;
    }
  }

  /** One step of `RunLetters`, with the facts about `Step` it needs. */
  lemma LettersStep(src: string, st: LexState) returns (st': LexState)
    requires st.pos < |src| && RecognisedFrom(src, st.pos) && AllAlpha(st.buffer)
    requires Run(src, st).Success?
    ensures st.pos < st'.pos <= |src| && RecognisedFrom(src, st'.pos) && AllAlpha(st'.buffer)
    ensures Run(src, st') == Run(src, st)
    ensures src[st.pos..] == src[st.pos..st'.pos] + src[st'.pos..]
    ensures ExitWords(CountKind(st.tokens, Exit)) + (st.buffer + Letters(src[st.pos..st'.pos]))
      == ExitWords(CountKind(st'.tokens, Exit)) + st'.buffer
  {
    st' := RunSplit(src, st);
    assert Recognised(src[st.pos]);
    StepExitWords(src, st);
  }

  /** `StepLetters` with the `exit` words of the tokens before the step put in front. */
  lemma StepExitWords(src: string, st: LexState)
    requires st.pos < |src| && Recognised(src[st.pos]) && AllAlpha(st.buffer)
    requires Step(src, st).Success?
    ensures var st' := Step(src, st).value;
      && AllAlpha(st'.buffer)
      && ExitWords(CountKind(st.tokens, Exit)) + (st.buffer + Letters(src[st.pos..st'.pos]))
         == ExitWords(CountKind(st'.tokens, Exit)) + st'.buffer
  {
    var st' := Step(src, st).value;
    StepLetters(src, st);
    var c0, c1 := CountKind(st.tokens, Exit), CountKind(st'.tokens, Exit);
    ExitWordsAdd(c0, c1 - c0);
    Assoc(ExitWords(c0), ExitWords(c1 - c0), st'.buffer);
  }

  lemma LettersCompose(e0: string, b0: string, seg: string, rest: string, e1: string, b1: string, e2: string, b2: string)
    requires e0 + (b0 + Letters(seg)) == e1 + b1
    requires e1 + (b1 + Letters(rest)) == e2 + b2
    ensures e0 + (b0 + Letters(seg + rest)) == e2 + b2
  {
    LettersConcat(seg, rest);
    var ls, lr := Letters(seg), Letters(rest);
    calc {
      e0 + (b0 + (ls + lr));
      (e0 + (b0 + ls)) + lr;
      (e1 + b1) + lr;
      e1 + (b1 + lr);
    }
  }

  /** Every `;` of the source becomes one `semi` token. */
  lemma TokenizeSemis(src: string)
    requires Halts(src, LexState(0, [], [])) && Tokenize(src).Success?
    ensures CountKind(Tokenize(src).value, Semi) == CountChar(src, ';')
  {
    RunSemis(src, LexState(0, [], []));
    assert src[0..] == src;
  }

  /** The `int_lit` values, read in order, are exactly the digits of the source. */
  lemma TokenizeIntValues(src: string)
    requires Halts(src, LexState(0, [], [])) && Tokenize(src).Success?
    ensures IntValues(Tokenize(src).value) == Digits(src)
  {
    RunDigits(src, LexState(0, [], []));
    assert src[0..] == src;
  }

  /** The letters of the source are one `exit` per `_exit` token, followed by the letters still
      pending in the buffer at the end. */
  lemma TokenizeLetters(src: string)
    requires Halts(src, LexState(0, [], [])) && Run(src, LexState(0, [], [])).Success?
    ensures var fin := Run(src, LexState(0, [], [])).value;
      Letters(src) == ExitWords(CountKind(fin.tokens, Exit)) + fin.buffer
  {
    RunLetters(src, LexState(0, [], []));
    assert src[0..] == src;
    assert CountKind([], Exit) == 0 && ExitWords(0) == [];
    assert [] + ([] + Letters(src)) == Letters(src);
  }

  /** Only `int_lit` tokens carry a value, and every value is a number within `int`. */
  lemma TokenizeWellFormed(src: string)
    requires Halts(src, LexState(0, [], [])) && Tokenize(src).Success?
    ensures WellFormed(Tokenize(src).value)
  {
    RunWellFormed(src, LexState(0, [], []));
  }

  // ---------------------------------------------------------------------------------------
  // One step, branch by branch

  /** A letter goes into the buffer, one per iteration; the buffer becomes an `_exit` token,
      and is cleared, exactly when it then spells `exit`. */
  lemma StepLetterBuffers(src: string, st: LexState)
    requires st.pos < |src| && IsAlpha(src[st.pos])
    ensures Step(src, st).Success? && Step(src, st).value.pos == st.pos + 1
    ensures var r := Step(src, st).value;
      (st.buffer + [src[st.pos]] == "exit" <==> |r.tokens| == |st.tokens| + 1)
    ensures var r := Step(src, st).value;
      st.buffer + [src[st.pos]] == "exit" ==> r.buffer == [] && r.tokens == st.tokens + [Token(Exit, None)]
    ensures var r := Step(src, st).value;
      st.buffer + [src[st.pos]] != "exit" ==> r.buffer == st.buffer + [src[st.pos]] && r.tokens == st.tokens
  {
  }

  /** A number consumes the whole run of digits under the cursor and appends one `int_lit`
      token whose value is the buffer (pending letters, then the digits); the buffer is cleared. */
  lemma StepNumberConsumesRun(src: string, st: LexState)
    requires st.pos < |src| && IsDigit(src[st.pos]) && Step(src, st).Success?
    ensures var r := Step(src, st).value;
      && st.pos < r.pos <= |src|
      && (forall k :: st.pos <= k < r.pos ==> IsDigit(src[k]))
      && (r.pos == |src| || !IsDigit(src[r.pos]))
      && r.buffer == []
      && r.tokens == st.tokens + [Token(IntLit, Some(st.buffer + src[st.pos..r.pos]))]
  {
  }

  /** A `;` is consumed and appends one `semi` token without a value. */
  lemma StepSemiToken(src: string, st: LexState)
    requires st.pos < |src| && src[st.pos] == ';'
    ensures Step(src, st) == Success(LexState(st.pos + 1, st.buffer, st.tokens + [Token(Semi, None)]))
  {
  }

  // ---------------------------------------------------------------------------------------
  // The error and no-progress cases of one step

  /** Letters left in the buffer before a number make `stoi` throw `invalid_argument`; a number
      too large for `int` makes it throw `out_of_range`. */
  lemma StepNumberErrors(src: string, st: LexState)
    requires st.pos < |src| && IsDigit(src[st.pos]) && AllAlpha(st.buffer)
    ensures |st.buffer| > 0 ==> Step(src, st) == Failure(StoiInvalidArgument)
    ensures var run := src[st.pos..DigitRunEnd(src, st.pos)];
      |st.buffer| == 0 && DigitsValue(run) > IntMax ==> Step(src, st) == Failure(StoiOutOfRange)
  {
    var run := src[st.pos..DigitRunEnd(src, st.pos)];
    var buffer := st.buffer + run;
    assert AllDigits(run) && |run| >= 1;
    if |st.buffer| > 0 {
      assert buffer[0] == st.buffer[0] && Stoi(buffer) == Failure(StoiInvalidArgument);
    } else {
      assert buffer == run;
    }
  }

  /** On a character none of the branches handles the step changes nothing: the loop makes no
      progress and never ends. */
  lemma StepUnrecognisedStalls(src: string, st: LexState)
    requires st.pos < |src| && !Recognised(src[st.pos])
    ensures Step(src, st) == Success(st) && !Halts(src, st)
  {
  }

  /** Whitespace is skipped without a token; the buffer is kept across it. */
  lemma StepSpaceSkips(src: string, st: LexState)
    requires st.pos < |src| && IsSpace(src[st.pos])
    ensures Step(src, st) == Success(LexState(st.pos + 1, st.buffer, st.tokens))
  {
  }

  // ---------------------------------------------------------------------------------------
  // Examples

  /** The characters of `exit 42;`, all of them handled by the loop. */
  lemma ExampleSource()
    ensures var src := "exit 42;";
      RecognisedFrom(src, 0)
      && src[0] == 'e' && src[1] == 'x' && src[2] == 'i' && src[3] == 't' && src[4] == ' '
      && src[5] == '4' && src[6] == '2' && src[7] == ';'
  {
  }

  /** ` 42;` after the word: a blank, the number, the semicolon. */
  lemma ExampleNumber()
    requires RecognisedFrom("exit 42;", 0)
    ensures Run("exit 42;", LexState(4, [], [Token(Exit, None)]))
      == Success(LexState(8, [], [Token(Exit, None), Token(IntLit, Some("42")), Token(Semi, None)]))
  {
    var src := "exit 42;";
    ExampleSource();
    var e := [Token(Exit, None)];
    var n := e + [Token(IntLit, Some("42"))];
    var fin := LexState(8, [], n + [Token(Semi, None)]);
    assert fin.tokens == [Token(Exit, None), Token(IntLit, Some("42")), Token(Semi, None)];
    assert Run(src, LexState(7, [], n)) == Success(fin);
    assert DigitRunEnd(src, 7) == 7 && DigitRunEnd(src, 6) == 7 && DigitRunEnd(src, 5) == 7;
    assert src[5..7] == "42" && [] + src[5..7] == "42";
    assert AllDigits("42") && "42"[..1] == "4" && "4"[..0] == [];
    assert DigitsValue("4") == 4;
    assert DigitsValue("42") == 42;
    assert Stoi("42") == Success(42);
    assert Step(src, LexState(5, [], e)) == Success(LexState(7, [], n));
    assert Run(src, LexState(5, [], e)) == Success(fin);
    assert Step(src, LexState(4, [], e)) == Success(LexState(5, [], e));
  }

  /** `exit`: four letters into the buffer, the fourth completing the word. */
  lemma ExampleWord()
    requires RecognisedFrom("exit 42;", 0)
    ensures Run("exit 42;", LexState(0, [], [])) == Run("exit 42;", LexState(4, [], [Token(Exit, None)]))
  {
    var src := "exit 42;";
    ExampleSource();
    var e := [Token(Exit, None)];
    assert "exi" + [src[3]] == "exit";
    var st3 := LexState(3, "exi", []);
    assert Step(src, st3).value.tokens == e;
    assert Step(src, st3) == Success(LexState(4, [], e));
    assert "ex" + [src[2]] == "exi";
    assert Step(src, LexState(2, "ex", [])) == Success(st3);
    assert "e" + [src[1]] == "ex";
    assert Step(src, LexState(1, "e", [])) == Success(LexState(2, "ex", []));
    assert [] + [src[0]] == "e";
    assert Step(src, LexState(0, [], [])) == Success(LexState(1, "e", []));
  }

  /** `exit 42;` gives `_exit`, `int_lit 42`, `semi`. */
  lemma ExampleExit()
    ensures RecognisedFrom("exit 42;", 0)
    ensures Tokenize("exit 42;") == Success([Token(Exit, None), Token(IntLit, Some("42")), Token(Semi, None)])
  {
    ExampleSource();
    ExampleWord();
    ExampleNumber();
  }

  /** The buffer survives a blank: `ex it;` still gives `_exit`, then `semi`. */
  lemma ExampleSplitWord()
    ensures RecognisedFrom("ex it;", 0)
    ensures Tokenize("ex it;") == Success([Token(Exit, None), Token(Semi, None)])
  {
    var src := "ex it;";
    assert src[0] == 'e' && src[1] == 'x' && src[2] == ' ' && src[3] == 'i' && src[4] == 't' && src[5] == ';';
    var e := [Token(Exit, None)];
    var fin := LexState(6, [], e + [Token(Semi, None)]);
    assert fin.tokens == [Token(Exit, None), Token(Semi, None)];
    assert Run(src, LexState(5, [], e)) == Success(fin);
    assert "exi" + [src[4]] == "exit";
    assert Step(src, LexState(4, "exi", [])).value.tokens == e;
    assert Step(src, LexState(4, "exi", [])) == Success(LexState(5, [], e));
    assert "ex" + [src[3]] == "exi";
    assert Step(src, LexState(3, "ex", [])) == Success(LexState(4, "exi", []));
    assert Step(src, LexState(2, "ex", [])) == Success(LexState(3, "ex", []));
    assert "e" + [src[1]] == "ex";
    assert Step(src, LexState(1, "e", [])) == Success(LexState(2, "ex", []));
    assert [] + [src[0]] == "e";
    assert Step(src, LexState(0, [], [])) == Success(LexState(1, "e", []));
  }

  /** `stoi` can end the program before an unrecognised character is reached: on `x1@` the
      loop throws at the `1` and never gets to the `@`. */
  lemma ExampleStoiBeforeUnrecognised()
    ensures !RecognisedFrom("x1@", 0) && Halts("x1@", LexState(0, [], []))
    ensures Tokenize("x1@") == Failure(StoiInvalidArgument)
  {
    var src := "x1@";
    assert src[0] == 'x' && src[1] == '1' && src[2] == '@';
    assert !Recognised(src[2]);
    assert DigitRunEnd(src, 2) == 2 && DigitRunEnd(src, 1) == 2;
    assert "x" + src[1..2] == "x1";
    assert Step(src, LexState(1, "x", [])) == Failure(StoiInvalidArgument);
    assert [] + [src[0]] == "x";
    assert Step(src, LexState(0, [], [])) == Success(LexState(1, "x", []));
  }

  /** A number after pending letters goes to `stoi` with the letters in front: `x1` throws. */
  lemma ExampleLetterBeforeNumber()
    ensures RecognisedFrom("x1", 0)
    ensures Tokenize("x1") == Failure(StoiInvalidArgument)
  {
    var src := "x1";
    assert src[0] == 'x' && src[1] == '1';
    assert DigitRunEnd(src, 2) == 2 && DigitRunEnd(src, 1) == 2;
    assert "x" + src[1..2] == "x1";
    assert Step(src, LexState(1, "x", [])) == Failure(StoiInvalidArgument);
    assert [] + [src[0]] == "x";
    assert Step(src, LexState(0, [], [])) == Success(LexState(1, "x", []));
  }
}
