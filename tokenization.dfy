/** The class `Tokenizer` of src/tokenization.hpp: a cursor over a constant source string. */
module Tokenization {
  import opened Wrappers
  import opened Decimal
  import opened TokenizationModel

  class Tokenizer {
    const src: string
    var pos: nat

    /** The cursor never passes the end of the source. */
    ghost predicate Valid()
      reads this
    {
      pos <= |src|
    }

    constructor(src: string)
      ensures this.src == src && pos == 0 && Valid()
    {
      this.src := src;
      pos := 0;
    }

    /** `peek(ahead)`: the character `ahead` places past the cursor, if there is one. */
    function Peek(ahead: nat): (r: Option<char>)
      reads this
      ensures r.Some? <==> pos + ahead < |src|
      ensures r.Some? ==> r.value == src[pos + ahead]
    {
      if pos + ahead < |src| then Some(src[pos + ahead]) else None
    }

    /** `consume`: the character under the cursor, and the cursor moved past it. */
    method Consume() returns (c: char)
      requires pos < |src|
      modifies this
      ensures c == src[old(pos)] && c == old(Peek(0)).value
      ensures pos == old(pos) + 1
    {
      c := src[pos];
      pos := pos + 1;
    }

    /** The inner loop of `tokenize` over a number: it consumes the run of digits under the
        cursor. */
    method ConsumeDigits() returns (run: string)
      requires Valid()
      modifies this
      ensures Valid() && pos == DigitRunEnd(src, old(pos)) && run == src[old(pos)..pos]
    {
      run := [];
      ghost var start := pos;
      while Peek(0).Some? && IsDigit(Peek(0).value)
        invariant start <= pos <= |src| && DigitRunEnd(src, pos) == DigitRunEnd(src, start)
        invariant run == src[start..pos]
        decreases |src| - pos
      {
        ghost var here := pos;
        var d := Consume();
        SliceSnoc(src, start, here);
        run := run + [d];
      }
    }

    /** One iteration of the outer loop of `tokenize`, on the buffer and the tokens so far:
        the new buffer and tokens, or the exception `stoi` throws. */
    method Advance(buffer: string, tokens: seq<Token>) returns (r: Result<LexState, LexError>)
      requires Valid() && pos < |src|
      modifies this
      ensures r == Step(src, LexState(old(pos), buffer, tokens))
      ensures Valid() && (r.Success? ==> pos == r.value.pos)
    {
      var c := Peek(0).value;
      if IsAlpha(c) {
        var ch := Consume();
        var buf := buffer + [ch];
        // the inner identifier loop: `isalnum` is applied to `has_value()`, the code 1
        var more := Peek(0).Some? && IsAlnum(CharOfBool(Peek(0).Some?));
        assert !more;
        if buf == "exit" {
          r := Success(LexState(pos, [], tokens + [Token(Exit, None)]));
        } else {
          r := Success(LexState(pos, buf, tokens));
        }
      } else if IsDigit(c) {
        var run := ConsumeDigits();
        var buf := buffer + run;
        var value := Stoi(buf);
        if value.Failure? {
          r := Failure(value.error);
        } else {
          r := Success(LexState(pos, [], tokens + [Token(IntLit, Some(buf))]));
        }
      } else if c == ';' {
        var _ := Consume();
        r := Success(LexState(pos, buffer, tokens + [Token(Semi, None)]));
      } else if IsSpace(c) {
        var _ := Consume();
        r := Success(LexState(pos, buffer, tokens));
      } else {
        // reported on the error stream; the cursor does not move
        r := Success(LexState(pos, buffer, tokens));
      }
    }

    /** `tokenize`: the outer loop over the rest of the source, one `Step` per iteration. */
    method Tokenize() returns (r: Result<seq<Token>, LexError>)
      requires Valid() && Halts(src, LexState(pos, [], []))
      modifies this
      ensures Run(src, LexState(old(pos), [], [])).Success? <==> r.Success?
      ensures r.Success? ==> r.value == Run(src, LexState(old(pos), [], [])).value.tokens
      ensures r.Failure? ==> r.error == Run(src, LexState(old(pos), [], [])).error
      ensures Valid() && (r.Success? ==> pos == |src|)
    {
      var tokens: seq<Token> := [];
      var buffer: string := [];
      ghost var start := LexState(pos, [], []);
      while Peek(0).Some?
        invariant Valid() && Halts(src, LexState(pos, buffer, tokens))
        invariant Run(src, start) == Run(src, LexState(pos, buffer, tokens))
        decreases |src| - pos
      {
        ghost var before := LexState(pos, buffer, tokens);
        var next := Advance(buffer, tokens);
        if next.Failure? {
          RunFails(src, before);
          return Failure(next.error);
        }
        RunStep(src, before);
        buffer, tokens := next.value.buffer, next.value.tokens;
      }
      r := Success(tokens);
    }
  }

  lemma SliceSnoc(s: string, i: nat, j: nat)
    requires i <= j < |s|
    ensures s[i..j + 1] == s[i..j] + [s[j]]
  {
  }

  /** `Run` takes one `Step` at a time. */
  lemma RunStep(src: string, st: LexState)
    requires st.pos < |src| && Halts(src, st)
    requires Step(src, st).Success?
    ensures Run(src, st) == Run(src, Step(src, st).value)
  {
  }

  /** `Run` stops at the first step that throws. */
  lemma RunFails(src: string, st: LexState)
    requires st.pos < |src| && Halts(src, st)
    requires Step(src, st).Failure?
    ensures Run(src, st) == Failure(Step(src, st).error)
  {
  }
}
