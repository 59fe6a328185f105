/** The tokenizer of src/tokenization.hpp as a step function over its loop state: the cursor,
    the pending buffer and the tokens so far. One `Step` is one iteration of the outer `while`
    loop of `tokenize`; `Run` iterates it to the end of the source. The class `Tokenizer` in
    module `Tokenization` is proved to compute `Run`. */
module TokenizationModel {
  import opened Wrappers
  import opened Decimal

  datatype TokenType = Exit | IntLit | Semi

  /** A token; only the kind `IntLit` is ever given a value. */
  datatype Token = Token(kind: TokenType, value: Option<string>)

  // The C-locale character classes of <cctype>, on the characters the model deals with.

  predicate IsAlpha(c: char) {
    'a' <= c <= 'z' || 'A' <= c <= 'Z'
  }

  predicate IsAlnum(c: char) {
    IsAlpha(c) || IsDigit(c)
  }

  predicate IsSpace(c: char) {
    c == ' ' || c == '\t' || c == '\n' || c == '\U{B}' || c == '\U{C}' || c == '\r'
  }

  /** The character whose code is the integer a `bool` converts to: 1 for true, 0 for false. */
  function CharOfBool(b: bool): char {
    if b then 1 as char else 0 as char
  }

  /** The characters one iteration of the loop knows how to handle. */
  predicate Recognised(c: char) {
    IsAlpha(c) || IsDigit(c) || c == ';' || IsSpace(c)
  }

  predicate AllAlpha(s: string) {
    forall i :: 0 <= i < |s| ==> IsAlpha(s[i])
  }

  /** Every character of `src` from position `pos` on is one the loop handles. */
  predicate RecognisedFrom(src: string, pos: nat) {
    forall k :: pos <= k < |src| ==> Recognised(src[k])
  }

  /** The exceptions `std::stoi` throws; either one ends the program. */
  datatype LexError = StoiInvalidArgument | StoiOutOfRange

  const IntMax: nat := 2147483647

  /** The longest prefix of `s` made of decimal digits. */
  function LeadingDigits(s: string): (d: string)
    ensures d <= s && AllDigits(d)
    ensures |d| < |s| ==> !IsDigit(s[|d|])
    ensures AllDigits(s) ==> d == s
  {
    if |s| == 0 || !IsDigit(s[0]) then [] else [s[0]] + LeadingDigits(s[1..])
  }

  /** `std::stoi` on a buffer of letters and digits (no leading blank or sign can occur): the
      value of its leading digits, or the exception it throws. */
  function Stoi(s: string): (r: Result<nat, LexError>)
    ensures r == Failure(StoiInvalidArgument) <==> |s| == 0 || !IsDigit(s[0])
    ensures r.Success? ==> r.value <= IntMax && r.value == DigitsValue(LeadingDigits(s))
    ensures AllDigits(s) && |s| >= 1 ==> (r.Success? <==> DigitsValue(s) <= IntMax)
  {
    if |s| == 0 || !IsDigit(s[0]) then Failure(StoiInvalidArgument)
    else if DigitsValue(LeadingDigits(s)) > IntMax then Failure(StoiOutOfRange)
    else Success(DigitsValue(LeadingDigits(s)))
  }

  /** Where the run of digits starting at `i` ends. */
  function DigitRunEnd(src: string, i: nat): (j: nat)
    requires i <= |src|
    ensures i <= j <= |src|
    ensures forall k :: i <= k < j ==> IsDigit(src[k])
    ensures j < |src| ==> !IsDigit(src[j])
    decreases |src| - i
  {
    if i < |src| && IsDigit(src[i]) then DigitRunEnd(src, i + 1) else i
  }

  /** The state of the outer loop of `tokenize`. */
  datatype LexState = LexState(pos: nat, buffer: string, tokens: seq<Token>)

  /** One iteration of the outer loop, at a position inside the source. */
  function Step(src: string, st: LexState): (r: Result<LexState, LexError>)
    requires st.pos < |src|
    ensures r.Success? && Recognised(src[st.pos]) ==> st.pos < r.value.pos <= |src|
    ensures r.Success? ==> st.tokens <= r.value.tokens
    ensures r.Success? && Recognised(src[st.pos]) ==> |r.value.tokens| - |st.tokens| <= r.value.pos - st.pos
  {
    var c := src[st.pos];
    if IsAlpha(c) then
      // the inner identifier loop never runs: its test is `isalnum(1)`
      var buffer := st.buffer + [c];
      if buffer == "exit" then Success(LexState(st.pos + 1, [], st.tokens + [Token(Exit, None)]))
      else Success(LexState(st.pos + 1, buffer, st.tokens))
    else if IsDigit(c) then
      var end := DigitRunEnd(src, st.pos);
      var buffer := st.buffer + src[st.pos..end];
      var _ :- Stoi(buffer);
      Success(LexState(end, [], st.tokens + [Token(IntLit, Some(buffer))]))
    else if c == ';' then
      Success(LexState(st.pos + 1, st.buffer, st.tokens + [Token(Semi, None)]))
    else if IsSpace(c) then
      Success(st.(pos := st.pos + 1))
    else
      // an unrecognised character is reported and left where it is
      Success(st)
  }

  /** The outer loop, followed from `st`, ends: it reaches the end of the source, or a step
      throws, before the cursor stops at an unrecognised character (where the loop would go on
      forever). A source whose remaining characters are all recognised always ends. */
  function Halts(src: string, st: LexState): (r: bool)
    requires st.pos <= |src|
    ensures RecognisedFrom(src, st.pos) ==> r
    decreases |src| - st.pos
  {
    st.pos == |src| ||
    (Recognised(src[st.pos]) && (Step(src, st).Failure? || Halts(src, Step(src, st).value)))
  }

  /** The outer loop from `st` until it ends: at the end of the source, or at the first
      exception. */
  function Run(src: string, st: LexState): (r: Result<LexState, LexError>)
    requires st.pos <= |src| && Halts(src, st)
    ensures r.Success? ==> r.value.pos == |src| && st.tokens <= r.value.tokens
    ensures r.Success? ==> |r.value.tokens| - |st.tokens| <= |src| - st.pos
    ensures r.Success? ==> RecognisedFrom(src, st.pos)
    decreases |src| - st.pos
  {
    if st.pos == |src| then Success(st)
    else
      var next :- Step(src, st);
      Run(src, next)
  }

  /** `tokenize` on a fresh tokenizer: the tokens, or the exception that ends the program. */
  function Tokenize(src: string): (r: Result<seq<Token>, LexError>)
    requires Halts(src, LexState(0, [], []))
    ensures r.Success? ==> RecognisedFrom(src, 0)
    ensures r.Success? <==> Run(src, LexState(0, [], [])).Success?
    ensures r.Success? ==> |r.value| <= |src|
  {
    var fin :- Run(src, LexState(0, [], []));
    Success(fin.tokens)
  }
}
