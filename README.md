# A verified model of a toy compiler's tokenizer and code generator

The repository is a small compiler, written in C++, for a toy language. The language has
`exit`, `let`, assignment, nested scopes and `if`/`elif`/`else` chains over integer literals,
identifiers, parentheses and `+ - * /`. This project models two of its parts in Dafny:

- **The code generator**, class `Generator` of `src/generation.hpp`: a stack-tracking
  visitor that lowers the syntax tree to x86-64 assembly text. As it emits each `push` and
  `pop` it keeps four fields up to date:
  - the number of pushed 8-byte slots;
  - the variable bindings, each a `{name, stack_loc}` pair;
  - a stack of saved binding counts, one per open scope;
  - a label counter.
- **The character tokenizer**, class `Tokenizer` of `src/tokenization.hpp`: a cursor and a
  pending buffer over the source string. It produces `_exit`, `int_lit` and `semi` tokens.

Both are modelled twice:

- **Classes** (`Generation.Generator`, `Tokenization.Tokenizer`). Their fields are updated in
  place, their loops carry invariants, and every method is proved to compute a
  specification function.
- **Specification functions** (`GenerationModel`, `TokenizationModel`). Every visitor of the
  generator is a function from the generator state before the call to the state after it, or
  to the fatal diagnostic that ends the run. One iteration of the tokenizer's outer loop is
  `Step`, and `Run` iterates it.

The properties are proved about the specification functions, in these modules:

- `GenerationStack`: stack balance and identifier errors.
- `GenerationLabels`: label uniqueness.
- `TokenizationProps`: what the token stream says about the source.
- `GenerationFindings`: two defects of the generator, each modelled as written and as
  evidently intended (see "Findings").

The tokenizer is modelled as it is written, quirks included:

- The inner identifier loop tests `isalnum` on the boolean `has_value()`. That is the
  character with code 1, which is never alphanumeric, so letters enter the buffer one per
  outer iteration.
- The buffer is cleared only when it spells `exit` or after a number. So `ex it;` still gives
  `_exit`, and `x1` makes `stoi` throw.
- An unrecognised character is reported but never consumed, so once the loop reaches one it
  never ends. The loop does end when it reaches the end of the source, or when `stoi` throws
  first: on `x1@` it throws at the `1` and never gets to the `@`. `TokenizationModel.Halts` says
  which sources end, and `Tokenizer.Tokenize` requires exactly that.

Data model:

| module | what it holds |
|---|---|
| `Wrappers` | `Option`, `Result` |
| `Decimal` | digits, `std::to_string` on naturals, and its round trip |
| `Ast` | the syntax tree the visitors walk. `src/parser.hpp` is a stub that defines no node types, so they are rebuilt from how `src/generation.hpp` uses them |
| `GenerationModel` | `Var`, `GenState` (the five mutable fields of `Generator`, with the output stream as a sequence of lines), the visitors as functions |
| `Generation` | class `Generator` |
| `TokenizationModel` | `TokenType`, `Token`, the loop state `LexState`, `Stoi`, `Step`, `Run` |
| `Tokenization` | class `Tokenizer` |

The generator's state after a fatal diagnostic does not matter, because the process exits.
So a generator method returns `Option<GenError>`, and its postcondition says either that the
new fields are the model's new state or that the error is the model's error.

## Model

| member | source | states |
|---|---|---|
| `Decimal.NatToString` | src/generation.hpp:47 | `std::to_string` of a natural is a non-empty run of digits without a leading zero |
| `Decimal.DigitsValueOfNatToString` | src/generation.hpp:282 | reading the decimal text of `n` back gives `n` |
| `Decimal.NatToStringInjective` | src/generation.hpp:282 | distinct numbers have distinct decimal texts |
| `GenerationModel.SlotOffset` | src/generation.hpp:47 | the `size_t` offset is below 2^64, and it is `(stack_size - stack_loc - 1) * 8` whenever `stack_loc < stack_size` and nothing wraps |
| `GenerationModel.Push` | src/generation.hpp:254-257 | `push`: one `push` line and one more slot; bindings, scopes and label counter unchanged |
| `GenerationModel.Pop` | src/generation.hpp:259-262 | `pop`: one `pop` line and one slot fewer; bindings, scopes and label counter unchanged |
| `GenerationModel.BeginScope` | src/generation.hpp:264-266 | the current number of bindings is pushed on the scope stack, after which the scope can be closed; nothing else changes |
| `GenerationModel.EndScope` | src/generation.hpp:268-278 | the bindings since the innermost scope opened are dropped, the slot count falls by their number, that scope is closed, and one line is emitted |
| `GenerationModel.CreateLabel` | src/generation.hpp:280-284 | the label for the current counter value, and the state with only the counter advanced by one |
| `GenerationModel.Lookup` | src/generation.hpp:36-45 | `find_if` over the bindings: the index of the first binding with the name, and none exactly when no binding has it |
| `GenerationModel.GenTerm` | src/generation.hpp:26-57 | a term nets one more slot and leaves bindings, scopes and labels untouched; an identifier fails exactly when it is undeclared |
| `GenerationModel.GenBinExpr` | src/generation.hpp:59-103 | a binary operation nets one more slot and leaves bindings, scopes and labels untouched |
| `GenerationModel.GenExpr` | src/generation.hpp:105-120 | every expression nets exactly one more slot, with bindings, scopes and labels untouched |
| `GenerationModel.GenScope` | src/generation.hpp:16-24 | a scope leaves bindings, slot count and open scopes exactly as it found them |
| `GenerationModel.GenStmts` | src/generation.hpp:19-21 | a statement list adds one binding and one slot per `let`, restores the scopes, and keeps the bookkeeping invariant |
| `GenerationModel.GenIfPred` | src/generation.hpp:122-153 | an `elif`/`else` chain leaves bindings, slot count and scopes as it found them |
| `GenerationModel.GenStmt` | src/generation.hpp:155-234 | a `let` appends exactly `Var(name, stack size before)` and one slot; it fails when the name is already bound anywhere. An assignment to an undeclared name fails. Every other statement leaves bindings and slot count unchanged. The bookkeeping invariant is preserved |
| `GenerationModel.GenIf` | src/generation.hpp:207-229 | an `if` statement leaves bindings, slot count and scopes unchanged |
| `GenerationModel.IfEnd` | src/generation.hpp:217-228 | the tail of an `if` after its scope leaves bindings, slot count and scopes unchanged |
| `GenerationModel.GenProgFrom` | src/generation.hpp:236-247 | `gen_prog` succeeds exactly when its statements generate; the text starts with what was emitted before and the entry point, and ends with the `exit(0)` system call |
| `GenerationModel.GenProg` | src/generation.hpp:236-247 | the same on a fresh generator: the text starts with `global _start` and `_start:` and ends with the three lines of `exit(0)` |
| `Generation.Generator.constructor` | src/generation.hpp:10-14 | a new generator holds the program, with all its fields empty or zero |
| `Generation.Generator.Push` | src/generation.hpp:254-257 | emits exactly one `push` line, raises the slot count by 1 and changes nothing else |
| `Generation.Generator.Pop` | src/generation.hpp:259-262 | emits exactly one `pop` line, lowers the slot count by 1 and changes nothing else |
| `Generation.Generator.BeginScope` | src/generation.hpp:264-266 | saves the current number of bindings on the scope stack |
| `Generation.Generator.EndScope` | src/generation.hpp:268-278 | its counted loop drops exactly the bindings introduced since the innermost scope opened, lowers the slot count by their number and closes that scope |
| `Generation.Generator.CreateLabel` | src/generation.hpp:280-284 | returns `label<n>` for the current counter `n` and advances the counter by one |
| `Generation.Generator.FindVar` | src/generation.hpp:168-175 | the linear search returns the first binding with the name, as `Lookup` does |
| `Generation.Generator.GenTerm` | src/generation.hpp:26-57 | the fields end as `GenerationModel.GenTerm` says, or the method returns its error |
| `Generation.Generator.GenBinExpr` | src/generation.hpp:59-103 | the fields end as `GenerationModel.GenBinExpr` says: right operand, left operand, two pops, the operation, one push |
| `Generation.Generator.GenExpr` | src/generation.hpp:105-120 | the fields end as `GenerationModel.GenExpr` says |
| `Generation.Generator.GenIfPred` | src/generation.hpp:122-153 | the fields end as `GenerationModel.GenIfPred` says |
| `Generation.Generator.GenStmt` | src/generation.hpp:155-234 | the fields end as `GenerationModel.GenStmt` says, or the method returns the same fatal error |
| `Generation.Generator.GenIf` | src/generation.hpp:207-229 | the fields end as `GenerationModel.GenIf` says |
| `Generation.Generator.GenScope` | src/generation.hpp:16-24 | the statement loop between `begin_scope` and `end_scope` computes `GenerationModel.GenScope` |
| `Generation.Generator.GenProg` | src/generation.hpp:236-247 | the result is `GenerationModel.GenProgFrom` of the generator's state: the entry point, the statements' code and the final `exit(0)` call, or the first fatal error. On success the output field is the returned text and the other fields are those left by the statements |
| `Generation.LookupFirst` | src/generation.hpp:36-40 | a matching binding with no match before it is the one `find_if` returns |
| `GenerationStack.ExprBalanced` | src/generation.hpp:105-120 | the emitted lines of any expression have pushes minus pops equal to 1, and no prefix pops more than it pushed |
| `GenerationStack.TermBalanced` | src/generation.hpp:30-52 | the same for a literal, an identifier or a parenthesised expression |
| `GenerationStack.BinBalanced` | src/generation.hpp:63-96 | the same for each binary operation: push, push, pop, pop, push |
| `GenerationStack.ExprSucceedsIff` | src/generation.hpp:42-45 | an expression generates exactly when every identifier in it is bound; on failure the error names one of its unbound identifiers |
| `GenerationStack.TermSucceedsIff` | src/generation.hpp:35-48 | the same for a term |
| `GenerationStack.LetBindsTopSlot` | src/generation.hpp:181-185 | right after `let x = e`, reading `x` reads the slot `e` left on top, at offset 0 |
| `GenerationStack.LookupAppend` | src/generation.hpp:181-183 | a freshly appended binding is what a later lookup of its name finds |
| `GenerationStack.GenStmtsAppend` | src/generation.hpp:19-21 | generating two statement lists in a row is generating the first, then the second from where the first left off |
| `GenerationStack.NoShadowing` | src/generation.hpp:168-179 | a `let` anywhere inside a nested scope that reuses a name bound outside it fails with "Identifier already used", once the statements before it in the scope generate |
| `GenerationStack.OffsetsInRangeUnderInv` | src/generation.hpp:200 | under the bookkeeping invariant and a stack of at most 2^61 slots (`stack_size <= 2^64 / 8`), every binding's offset is the exact product, without wrap-around, and lies below `8 * stack_size` |
| `GenerationLabels.LabelDefNum` | src/generation.hpp:280-284 | the definition line of `label<n>` names the counter value `n` |
| `GenerationLabels.LabelInjective` | src/generation.hpp:280-284 | distinct counter values give distinct labels |
| `GenerationLabels.ExprIndented` | src/generation.hpp:26-120 | an expression emits only indented instructions, so it defines no label |
| `GenerationLabels.StmtLabels` | src/generation.hpp:155-234 | a statement defines each label at most once, and only labels created during it |
| `GenerationLabels.IfLabels` | src/generation.hpp:207-229 | the same for an `if` statement |
| `GenerationLabels.IfEndLabels` | src/generation.hpp:217-228 | the same for the tail of an `if`, which defines its skip label and its end label |
| `GenerationLabels.ScopeLabels` | src/generation.hpp:16-24 | the same for a scope |
| `GenerationLabels.StmtsLabels` | src/generation.hpp:19-21 | the same for a statement list |
| `GenerationLabels.IfPredLabels` | src/generation.hpp:122-153 | the same for an `elif`/`else` chain |
| `GenerationLabels.PrologueEpilogueGood` | src/generation.hpp:237-245 | the entry point and the final system call define no label twice |
| `GenerationLabels.ProgBodyGood` | src/generation.hpp:237-241 | the code of a whole program defines only the counter's labels, each at most once |
| `GenerationLabels.ProgLabelsUnique` | src/generation.hpp:236-247 | no label is defined twice in a generated program |
| `GenerationFindings.ElifHeadLabels` | src/generation.hpp:128-136 | the head of an `elif` emits `jz` to the label it just created, and defines only later labels |
| `GenerationFindings.ElifSkipLabelDangles` | src/generation.hpp:138-141 | a last `elif` with nothing after it jumps with `jz` to a label that it never defines |
| `GenerationFindings.DanglingJumpExample` | src/generation.hpp:138-141 | `if (1) {} elif (2) {}` compiles, and its text holds `jz label2` but no `label2:` |
| `GenerationFindings.ExampleOutput` | src/generation.hpp:207-247 | the exact assembly text generated for `if (1) {} elif (2) {}` |
| `GenerationFindings.GenIfPredFixed` | src/generation.hpp:122-153 | the corrected chain, which always defines its skip label, restores bindings, slots and scopes |
| `GenerationFindings.FixedElifHead` | src/generation.hpp:128-141 | a corrected `elif` head defines its skip label after the `jz` to it |
| `GenerationFindings.FixedIfPredLabels` | src/generation.hpp:122-153 | the corrected chain defines each label at most once; it has one skip label per `elif`, and each is defined after the `jz` to it |
| `GenerationFindings.FixedElifExtendsAsWritten` | src/generation.hpp:138-141 | on a last `elif`, the corrected code succeeds exactly when the original does, and emits the same text plus the missing label definition |
| `GenerationFindings.LetSelfReferenceWraps` | src/generation.hpp:181-185 | `let x = x` with `x` unbound compiles, and reads the slot at offset 2^64 - 8 |
| `GenerationFindings.SelfRead` | src/generation.hpp:47 | reading a binding whose recorded slot is the one not yet pushed gives offset 2^64 - 8 |
| `GenerationFindings.LetInitializerBreaksInv` | src/generation.hpp:181-185 | while a `let` initializer runs, the new binding's slot is not yet pushed, so the invariant `stack_loc < stack_size` fails |
| `GenerationFindings.GenLetFixed` | src/generation.hpp:167-186 | the corrected `let` (initializer first, then binding) appends `Var(name, old stack size)` and one slot, and rejects a name already bound |
| `GenerationFindings.FixedLetRejectsSelfReference` | src/generation.hpp:181-185 | the corrected `let x = x` fails with "Undeclared identifier" |
| `GenerationFindings.FixedLetKeepsInv` | src/generation.hpp:181-185 | the corrected `let` keeps the bookkeeping invariant |
| `GenerationFindings.ExprIgnoresUnreadVar` | src/generation.hpp:105-120 | a binding that an expression does not mention does not change its code |
| `GenerationFindings.FixedLetAgrees` | src/generation.hpp:167-186 | when the initializer does not mention the new name, the corrected `let` behaves exactly like the original |
| `TokenizationModel.LeadingDigits` | src/tokenization.hpp:47 | the longest prefix made of digits |
| `TokenizationModel.Stoi` | src/tokenization.hpp:47 | `stoi` throws `invalid_argument` exactly when the buffer does not start with a digit, and otherwise gives the value of its leading digits when that fits in an `int` |
| `TokenizationModel.DigitRunEnd` | src/tokenization.hpp:43-45 | where the run of digits under the cursor ends: all digits before it, none at it |
| `TokenizationModel.Step` | src/tokenization.hpp:28-61 | one iteration on a handled character advances the cursor, appends no more tokens than it consumes characters, and tokens are only ever appended |
| `TokenizationModel.Halts` | src/tokenization.hpp:28-61 | the loop, followed from a state, ends (at the end of the source or at an exception) before it stalls; it always ends when every remaining character is recognised |
| `TokenizationModel.Run` | src/tokenization.hpp:28-61 | on any source where the loop ends, it ends at the end of the source or at the first exception. On success the tokens so far are a prefix, there is at most one new token per remaining character, and every remaining character was recognised |
| `TokenizationModel.Tokenize` | src/tokenization.hpp:24-65 | `tokenize` on a fresh tokenizer, on any source where the loop ends, succeeds exactly when the loop does. It then gives no more tokens than the source has characters, all of them recognised |
| `Tokenization.Tokenizer.constructor` | src/tokenization.hpp:17-21 | a new tokenizer holds the source with its cursor at 0 |
| `Tokenization.Tokenizer.Peek` | src/tokenization.hpp:70-76 | the character `ahead` places past the cursor when that index is inside the source, otherwise none; it reads only |
| `Tokenization.Tokenizer.Consume` | src/tokenization.hpp:78-80 | returns the character under the cursor and advances the cursor by exactly 1 |
| `Tokenization.Tokenizer.ConsumeDigits` | src/tokenization.hpp:43-45 | the inner loop consumes exactly the run of digits under the cursor and returns it |
| `Tokenization.Tokenizer.Advance` | src/tokenization.hpp:30-60 | one pass of the loop body computes `Step` |
| `Tokenization.Tokenizer.Tokenize` | src/tokenization.hpp:24-65 | `tokenize` returns the tokens of `Run` from the cursor, or the exception that ends it; on success the cursor is at the end of the source |
| `Tokenization.RunStep` | src/tokenization.hpp:28 | the loop takes one `Step` per iteration |
| `Tokenization.RunFails` | src/tokenization.hpp:47 | the loop stops at the first `stoi` exception |
| `TokenizationProps.StepLetterBuffers` | src/tokenization.hpp:30-40 | a letter enters the buffer. An `_exit` token is appended, and the buffer cleared, exactly when the buffer then spells `exit` |
| `TokenizationProps.StepNumberConsumesRun` | src/tokenization.hpp:42-49 | a number consumes the maximal run of digits and appends one `int_lit` token whose value is the buffered letters followed by the digits; the buffer is cleared |
| `TokenizationProps.StepSemiToken` | src/tokenization.hpp:51-53 | a `;` is consumed and appends exactly one `semi` token with no value |
| `TokenizationProps.StepSpaceSkips` | src/tokenization.hpp:55-57 | white space is consumed and produces no token |
| `TokenizationProps.StepUnrecognisedStalls` | src/tokenization.hpp:58-60 | any other character leaves cursor, buffer and tokens unchanged, so the loop never ends from there |
| `TokenizationProps.StepNumberErrors` | src/tokenization.hpp:47 | digits after buffered letters make `stoi` throw `invalid_argument`; a number too large for an `int` makes it throw `out_of_range` |
| `TokenizationProps.StepWellFormed` | src/tokenization.hpp:38-53 | every token a step appends is well formed |
| `TokenizationProps.RunSemis` | src/tokenization.hpp:51-53 | the loop appends one `semi` per `;` of the rest of the source |
| `TokenizationProps.RunDigits` | src/tokenization.hpp:42-49 | the loop's `int_lit` values, in order, spell the digits of the rest of the source |
| `TokenizationProps.RunLetters` | src/tokenization.hpp:30-40 | the letters of the rest of the source are the `exit` words of the new `_exit` tokens, then the final buffer |
| `TokenizationProps.RunWellFormed` | src/tokenization.hpp:28-61 | the loop keeps the token list well formed |
| `TokenizationProps.TokenizeSemis` | src/tokenization.hpp:24-65 | there are as many `semi` tokens as `;` characters in the source |
| `TokenizationProps.TokenizeIntValues` | src/tokenization.hpp:24-65 | the `int_lit` values, concatenated in order, are the digits of the source |
| `TokenizationProps.TokenizeLetters` | src/tokenization.hpp:24-65 | the letters of the source are one `exit` per `_exit` token, followed by what is left in the buffer |
| `TokenizationProps.TokenizeWellFormed` | src/tokenization.hpp:4-13 | only `int_lit` tokens carry a value, and it is a non-empty run of digits whose number fits in an `int` |
| `TokenizationProps.ExampleExit` | src/tokenization.hpp:24-65 | `exit 42;` gives `_exit`, `int_lit 42`, `semi` |
| `TokenizationProps.ExampleSplitWord` | src/tokenization.hpp:37-40 | `ex it;` still gives `_exit` and `semi`, because a blank does not clear the buffer |
| `TokenizationProps.ExampleLetterBeforeNumber` | src/tokenization.hpp:47 | `x1` makes `stoi` throw `invalid_argument` |
| `TokenizationProps.ExampleStoiBeforeUnrecognised` | src/tokenization.hpp:47-60 | `x1@` has an unrecognised character, yet the loop ends: `stoi` throws `invalid_argument` before the `@` is reached |

## Left out

- Input and output are not modelled: the diagnostics on `std::cerr`, the "Error" print at src/tokenization.hpp:59 and the token-count print at src/tokenization.hpp:63. A fatal `exit(EXIT_FAILURE)` becomes a `Failure` result.
- `stoi`'s exceptions end the program. They are modelled as a `Failure` result rather than excluded by a precondition, so the error path is part of the model.
- The error value `UndeclaredIdentifier(name)` always carries the name; the text printed for a term at src/generation.hpp:43 leaves the name out, unlike the assignment's at src/generation.hpp:194. The printed diagnostics are not modelled.
- `stoi` is modelled only on the buffers the tokenizer can build, which hold letters and digits. Leading blanks, signs and locales are not modelled.
- Character classes are the C locale's on ASCII; other characters count as unrecognised.
- The run-time meaning of the emitted x86 is not modelled: what `push`, `pop`, `div` and `syscall` do, and the direction of `sub rsp` in `end_scope`. Only the instruction strings and the generator's bookkeeping are modelled.
- `src/main.cpp`, `src/parser.hpp` and `src/generator.hpp` are not part of this model. They are file and process plumbing, a parser stub, and a second, conflicting generator.
- The syntax tree is a Dafny datatype, not a tree of heap-allocated nodes, so sharing and aliasing between nodes are not modelled.
- `Tokenization.Tokenizer.Tokenize`: requires `Halts` from the cursor, because the loop never ends once it reaches an unrecognised character. Non-termination is not modelled, so no result is given for those sources. The same holds for `TokenizationModel.Run` and `TokenizationModel.Tokenize`.
- `Tokenization.Tokenizer.Advance`: the inner identifier loop is written as its guard, evaluated and proved false, rather than as a `while` loop whose body cannot run.
- `Tokenization.Tokenizer.Peek`: `ahead` is a natural number, not an `int`, because negative look-behind is never used.
- The `size_t` fields `m_stack_size` and `m_label_count`, the `size_t` cursor of the tokenizer and the `int` counter of `end_scope`'s loop are unbounded naturals here: reaching their bound would take a program of 2^64 pushes, labels or characters (2^31 bindings for the `int`). Only the slot offset's wrap-around is modelled; no other wrap-around is.
- `Generation.Generator.Pop`: requires at least one pushed slot; the `size_t` wrap-around of the counter on a pop at zero is not modelled (every pop the visitors emit follows a matching push).
- `Generation.Generator.EndScope`: requires an open scope whose new bindings do not outnumber the pushed slots; every scope opened by `gen_scope` meets this.
- The loop bodies of `tokenize` are methods of their own (`Advance` for one iteration and `ConsumeDigits` for the digit loop). This keeps each proof small.
- `GenerationFindings.FixedIfPredLabels`: resolves the skip labels of the chain's own `elif`s only; an `if` nested inside one of its scopes still goes through the as-written chain, so a whole program's jumps are not all proved to resolve.
- The corrected members of "Findings" are proved beside the as-written model; `Generation.Generator` and `GenerationModel` stay as written.

## Findings

| source | as written | input that shows it | evidently intended | confidence | as-written member | corrected member |
|---|---|---|---|---|---|---|
| src/generation.hpp:138-141 | an `elif` emits `jz label<k>` but defines `label<k>:` only when another `elif`/`else` follows it | `if (1) {} elif (2) {}` gives `jz label2` but never defines `label2:` | every `elif` defines its skip label after its `jmp` to the end label | high, not executed | `GenerationFindings.ElifSkipLabelDangles`, `GenerationFindings.DanglingJumpExample` | `GenerationFindings.GenIfPredFixed`, `GenerationFindings.FixedIfPredLabels` |
| src/generation.hpp:181-185 | a `let` binds its name to slot `m_stack_size` before the initializer runs | `let x = x;` compiles and reads `QWORD [rsp + 18446744073709551608]`, because `(m_stack_size - stack_loc - 1) * 8` wraps | the initializer cannot see the name it defines: `let x = x;` with `x` unbound is "Undeclared identifier" | high, not executed | `GenerationFindings.LetSelfReferenceWraps`, `GenerationFindings.LetInitializerBreaksInv` | `GenerationFindings.GenLetFixed`, `GenerationFindings.FixedLetRejectsSelfReference`, `GenerationFindings.FixedLetKeepsInv` |
