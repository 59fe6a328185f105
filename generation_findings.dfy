/** Two places where the generator's output does not do what its structure evidently intends,
    each shown on the code as written and paired with a corrected definition. */
module GenerationFindings {
  import opened Wrappers
  import opened Decimal
  import opened Ast
  import opened GenerationModel
  import opened GenerationStack
  import opened GenerationLabels

  // ---------------------------------------------------------------------------------------
  // The last `elif` of a chain jumps to a label that is never defined.

  /** Up to the end of its scope, an `elif` defines only labels taken after its own skip label. */
  lemma {:induction false} ElifHeadLabels(cond: Expr, sc: Scope, g: GenState) returns (g6: GenState)
    requires GenExpr(cond, g).Success?
    requires var g1 := GenExpr(cond, g).value;
      GenScope(sc, Emit(Emit(CreateLabel(Pop(g1, "rax")).1, "    test rax, rax"),
                        "    jz " + Label(g.labelCount))).Success?
    ensures var g1 := GenExpr(cond, g).value;
      g6 == GenScope(sc, Emit(Emit(CreateLabel(Pop(g1, "rax")).1, "    test rax, rax"),
                              "    jz " + Label(g.labelCount))).value
    ensures g6.labelCount >= g.labelCount + 1 && g.output <= g6.output
    ensures Good(Emitted(g, g6), Range(g.labelCount + 1, g6.labelCount))
    ensures "    jz " + Label(g.labelCount) in Emitted(g, g6)
  {
    var g1 := GenExpr(cond, g).value;
    ExprGood(cond, g);
    var g2 := Pop(g1, "rax");
    Line(g, g1, g2, "    pop " + "rax", {});
    var skip := Label(g.labelCount);
    var g3 := CreateLabel(g2).1;
    assert Emitted(g, g3) == Emitted(g, g2);
    var g4 := Emit(g3, "    test rax, rax");
    Line(g, g3, g4, "    test rax, rax", {});
    var g5 := Emit(g4, "    jz " + skip);
    Line(g, g4, g5, "    jz " + skip, {});
    assert Emitted(g, g5)[|Emitted(g, g5)| - 1] == "    jz " + skip;
    g6 := GenScope(sc, g5).value;
    ScopeLabels(sc, g5);
    var inner := Range(g.labelCount + 1, g6.labelCount);
    Chain(g, g5, g6, {}, inner);
    assert {} + inner == inner;
    EmittedSplit(g, g5, g6);
    assert Emitted(g, g6)[|Emitted(g, g5)| - 1] == "    jz " + skip;
  }

  /** As written: an `elif` with nothing after it emits `jz label<n>` for its own skip label
      `label<n>` but never the definition `label<n>:` (the label line sits under the test for
      a following predicate). */
  lemma ElifSkipLabelDangles(cond: Expr, sc: Scope, endLabel: string, g: GenState)
    requires GenIfPred(Elif(cond, sc, None), endLabel, g).Success?
    ensures var c := Emitted(g, GenIfPred(Elif(cond, sc, None), endLabel, g).value);
      ("    jz " + Label(g.labelCount) in c) && (Label(g.labelCount) + ":" !in c)
  {
    var r := GenIfPred(Elif(cond, sc, None), endLabel, g).value;
    var g6 := ElifHeadLabels(cond, sc, g);
    var inner := Range(g.labelCount + 1, g6.labelCount);
    Line(g, g6, r, "    jmp " + endLabel, inner);
    EmittedSplit(g, g6, r);
    var c := Emitted(g, r);
    assert "    jz " + Label(g.labelCount) in c;
    LabelDefNum(g.labelCount);
    forall i | 0 <= i < |c|
      ensures c[i] != Label(g.labelCount) + ":"
    {
      if LabelNum(c[i]).Some? {
        assert LabelNum(c[i]).value in inner;
      }
    }
  }

  /** Corrected `gen_if_pred`: every `elif` defines its skip label after the jump to the end,
      whether or not another predicate follows. */
  function GenIfPredFixed(p: IfPred, endLabel: string, g: GenState): (r: Gen)
    ensures r.Success? ==> BlockEffect(g, r.value)
    decreases p
  {
    match p
    case Elif(cond, sc, next) =>
      var g1 :- GenExpr(cond, g);
      var (skip, g2) := CreateLabel(Pop(g1, "rax"));
      var g3 := Emit(Emit(g2, "    test rax, rax"), "    jz " + skip);
      var g4 :- GenScope(sc, g3);
      var g5 := Emit(Emit(g4, "    jmp " + endLabel), skip + ":");
      if next.Some? then GenIfPredFixed(next.value, endLabel, g5) else Success(g5)
    case Else(sc) => GenScope(sc, g)
  }

  /** The corrected `elif` up to its skip label's definition. */
  lemma FixedElifHead(cond: Expr, sc: Scope, endLabel: string, g: GenState) returns (g8: GenState, k: nat)
    requires GenExpr(cond, g).Success?
    requires var g1 := GenExpr(cond, g).value;
      GenScope(sc, Emit(Emit(CreateLabel(Pop(g1, "rax")).1, "    test rax, rax"),
                        "    jz " + Label(g.labelCount))).Success?
    ensures var g1 := GenExpr(cond, g).value;
      var g4 := GenScope(sc, Emit(Emit(CreateLabel(Pop(g1, "rax")).1, "    test rax, rax"),
                                  "    jz " + Label(g.labelCount))).value;
      g8 == Emit(Emit(g4, "    jmp " + endLabel), Label(g.labelCount) + ":")
    ensures g8.labelCount >= g.labelCount + 1 && g.output <= g8.output
    ensures Good(Emitted(g, g8), Range(g.labelCount + 1, g8.labelCount) + {g.labelCount})
    ensures k < |Emitted(g, g8)| - 1 && Emitted(g, g8)[k] == "    jz " + Label(g.labelCount)
    ensures Emitted(g, g8)[|Emitted(g, g8)| - 1] == Label(g.labelCount) + ":"
  {
    var g6 := ElifHeadLabels(cond, sc, g);
    var inner := Range(g.labelCount + 1, g6.labelCount);
    var g7 := Emit(g6, "    jmp " + endLabel);
    Line(g, g6, g7, "    jmp " + endLabel, inner);
    g8 := Emit(g7, Label(g.labelCount) + ":");
    DefLine(g, g7, g8, g.labelCount, inner);
    k :| 0 <= k < |Emitted(g, g6)| && Emitted(g, g6)[k] == "    jz " + Label(g.labelCount);
    EmittedSplit(g, g6, g8);
  }

  /** The number of `elif`s in a predicate chain. */
  function Elifs(p: IfPred): nat
    decreases p
  {
    match p
    case Elif(_, _, next) => 1 + (if next.Some? then Elifs(next.value) else 0)
    case Else(_) => 0
  }

  /** The counter values of the skip labels of a corrected chain's `elif`s, in order. */
  function FixedSkips(p: IfPred, endLabel: string, g: GenState): seq<nat>
    requires GenIfPredFixed(p, endLabel, g).Success?
    decreases p
  {
    match p
    case Else(_) => []
    case Elif(cond, sc, next) =>
      var g1 := GenExpr(cond, g).value;
      var g4 := GenScope(sc, Emit(Emit(CreateLabel(Pop(g1, "rax")).1, "    test rax, rax"),
                                  "    jz " + Label(g.labelCount))).value;
      var g8 := Emit(Emit(g4, "    jmp " + endLabel), Label(g.labelCount) + ":");
      [g.labelCount] + (if next.Some? then FixedSkips(next.value, endLabel, g8) else [])
  }

  /** `c` jumps with `jz` to `label<k>` and defines that label after the jump. */
  ghost predicate Resolved(c: seq<string>, k: nat) {
    exists i, j :: 0 <= i < j < |c| && c[i] == "    jz " + Label(k) && c[j] == Label(k) + ":"
  }

  ghost predicate AllResolved(c: seq<string>, ks: seq<nat>) {
    forall m :: 0 <= m < |ks| ==> Resolved(c, ks[m])
  }

  lemma ResolvedAfter(a: seq<string>, b: seq<string>, k: nat)
    requires Resolved(b, k)
    ensures Resolved(a + b, k)
  {
    var i, j :| 0 <= i < j < |b| && b[i] == "    jz " + Label(k) && b[j] == Label(k) + ":";
    assert (a + b)[|a| + i] == b[i] && (a + b)[|a| + j] == b[j];
  }

  /** With the fix, the labels of the chain stay distinct and fresh, and every `elif` of the
      chain, one skip label each, jumps to a label defined after the jump. */
  lemma {:induction false} FixedIfPredLabels(p: IfPred, endLabel: string, g: GenState)
    requires GenIfPredFixed(p, endLabel, g).Success?
    ensures var r := GenIfPredFixed(p, endLabel, g).value;
      Good(Emitted(g, r), Range(g.labelCount, r.labelCount))
    ensures var ks := FixedSkips(p, endLabel, g);
      |ks| == Elifs(p) && (p.Elif? ==> ks[0] == g.labelCount)
      && AllResolved(Emitted(g, GenIfPredFixed(p, endLabel, g).value), ks)
    decreases p
  {
    match p
    case Else(sc) =>
      ScopeLabels(sc, g);
    case Elif(cond, sc, next) =>
      var r := GenIfPredFixed(p, endLabel, g).value;
      var g8, k := FixedElifHead(cond, sc, endLabel, g);
      var ks := FixedSkips(p, endLabel, g);
      if next.Some? {
        assert r == GenIfPredFixed(next.value, endLabel, g8).value;
        FixedIfPredLabels(next.value, endLabel, g8);
        FixedChainCompose(g, g8, r, k);
        var tail := FixedSkips(next.value, endLabel, g8);
        assert ks == [g.labelCount] + tail;
        ResolvedChain(g, g8, r, tail);
      } else {
        FixedChainCompose(g, g8, g8, k);
        assert ks == [g.labelCount];
      }
  }

  /** The head's skip label and the rest of the chain's skip labels are all resolved in the
      whole chain's text. */
  lemma ResolvedChain(g: GenState, g8: GenState, r: GenState, tail: seq<nat>)
    requires g.output <= g8.output <= r.output
    requires Resolved(Emitted(g, r), g.labelCount) && AllResolved(Emitted(g8, r), tail)
    ensures AllResolved(Emitted(g, r), [g.labelCount] + tail)
  {
    var ks := [g.labelCount] + tail;
    EmittedSplit(g, g8, r);
    forall m | 0 <= m < |ks|
      ensures Resolved(Emitted(g, r), ks[m])
    {
      if m > 0 {
        assert ks[m] == tail[m - 1];
        ResolvedAfter(Emitted(g, g8), Emitted(g8, r), tail[m - 1]);
      }
    }
  }

  /** An `elif` head followed by the rest of the chain. */
  lemma FixedChainCompose(g: GenState, g8: GenState, r: GenState, k: nat)
    requires g.output <= g8.output <= r.output
    requires g.labelCount + 1 <= g8.labelCount <= r.labelCount
    requires Good(Emitted(g, g8), Range(g.labelCount + 1, g8.labelCount) + {g.labelCount})
    requires Good(Emitted(g8, r), Range(g8.labelCount, r.labelCount))
    requires k < |Emitted(g, g8)| - 1 && Emitted(g, g8)[k] == "    jz " + Label(g.labelCount)
    requires Emitted(g, g8)[|Emitted(g, g8)| - 1] == Label(g.labelCount) + ":"
    ensures Good(Emitted(g, r), Range(g.labelCount, r.labelCount))
    ensures var c := Emitted(g, r);
      exists i, j :: 0 <= i < j < |c| && c[i] == "    jz " + Label(g.labelCount)
                     && c[j] == Label(g.labelCount) + ":"
  {
    var c8 := Emitted(g, g8);
    var mine := Range(g.labelCount + 1, g8.labelCount) + {g.labelCount};
    var rest := Range(g8.labelCount, r.labelCount);
    Chain(g, g8, r, mine, rest);
    assert mine + rest == Range(g.labelCount, r.labelCount);
    EmittedSplit(g, g8, r);
    var c := Emitted(g, r);
    assert c[k] == c8[k] && c[|c8| - 1] == c8[|c8| - 1];
  }

  /** The fix changes only the last `elif`: when no predicate follows, the corrected chain is
      the one as written plus the skip label's definition. */
  lemma FixedElifExtendsAsWritten(cond: Expr, sc: Scope, endLabel: string, g: GenState)
    ensures GenIfPred(Elif(cond, sc, None), endLabel, g).Success?
      <==> GenIfPredFixed(Elif(cond, sc, None), endLabel, g).Success?
    ensures GenIfPred(Elif(cond, sc, None), endLabel, g).Success? ==>
      GenIfPredFixed(Elif(cond, sc, None), endLabel, g).value
      == Emit(GenIfPred(Elif(cond, sc, None), endLabel, g).value, Label(g.labelCount) + ":")
  {
  }

  /** The smallest program that shows it: `if (1) {} elif (2) {}`. */
  function ExampleProg(): Prog {
    Prog([If(ExprTerm(IntLit("1")), Scope([]), Some(ExampleElif()))])
  }

  function ExampleElif(): IfPred {
    Elif(ExprTerm(IntLit("2")), Scope([]), None)
  }

  /** The lines of the `if` up to its chain. */
  function ExampleHeadLines(): seq<string> {
    ["    mov rax, " + "1", "    push " + "rax", "    pop " + "rax", "    test rax, rax",
     "    jz " + Label(0), "    sub rsp, " + NatToString(0), "    jmp " + Label(1), Label(0) + ":"]
  }

  /** The lines of the trailing `elif`. */
  function ExampleChainLines(): seq<string> {
    ["    mov rax, " + "2", "    push " + "rax", "    pop " + "rax", "    test rax, rax",
     "    jz " + Label(2), "    sub rsp, " + NatToString(0), "    jmp " + Label(1)]
  }

  lemma ExampleHead()
    ensures var s := ExampleProg().stmts[0];
      GenIf(s, Initial.(output := Prologue))
      == IfEnd(s, Label(0), GenState(Prologue + ExampleHeadLines()[..6], 0, [], [], 1))
  {
    var s := ExampleProg().stmts[0];
    var g0 := Initial.(output := Prologue);
    var g1 := Push(Emit(g0, "    mov rax, " + "1"), "rax");
    assert GenTerm(IntLit("1"), g0) == Success(g1);
    assert GenExpr(s.cond, g0) == Success(g1);
    var g3 := Emit(Emit(CreateLabel(Pop(g1, "rax")).1, "    test rax, rax"), "    jz " + Label(0));
    var g4 := EndScope(BeginScope(g3));
    assert GenScope(s.scope, g3) == Success(g4);
    assert g4 == GenState(Prologue + ExampleHeadLines()[..6], 0, [], [], 1);
  }

  /** An empty scope emits only `sub rsp, 0`. */
  lemma EmptyScope(g: GenState)
    ensures GenScope(Scope([]), g) == Success(Emit(g, "    sub rsp, " + NatToString(0)))
  {
    assert GenStmts([], BeginScope(g)) == Success(BeginScope(g));
    assert EndScope(BeginScope(g)) == Emit(g, "    sub rsp, " + NatToString(0));
  }

  lemma LiteralTerm(v: string, g: GenState)
    ensures GenExpr(ExprTerm(IntLit(v)), g) == Success(Push(Emit(g, "    mov rax, " + v), "rax"))
  {
  }

  lemma ExampleChain(g: GenState)
    requires g.stackSize == 0 && g.vars == [] && g.scopes == [] && g.labelCount == 2
    ensures GenIfPred(ExampleElif(), Label(1), g)
      == Success(g.(output := g.output + ExampleChainLines(), labelCount := g.labelCount + 1))
  {
    var p := ExampleElif();
    var h1 := Push(Emit(g, "    mov rax, " + "2"), "rax");
    LiteralTerm("2", g);
    var h2 := CreateLabel(Pop(h1, "rax")).1;
    var h3 := Emit(Emit(h2, "    test rax, rax"), "    jz " + Label(2));
    EmptyScope(h3);
    var h4 := Emit(h3, "    sub rsp, " + NatToString(0));
    var h5 := Emit(h4, "    jmp " + Label(1));
    ElifNoNext(p.cond, p.scope, Label(1), g);
    assert GenIfPred(p, Label(1), g) == Success(h5);
    var c := ExampleChainLines();
    SevenLines(g.output, c);
    assert h5.output == g.output + [c[0]] + [c[1]] + [c[2]] + [c[3]] + [c[4]] + [c[5]] + [c[6]];
  }

  lemma SevenLines(o: seq<string>, c: seq<string>)
    requires |c| == 7
    ensures o + [c[0]] + [c[1]] + [c[2]] + [c[3]] + [c[4]] + [c[5]] + [c[6]] == o + c
  {
  }

  lemma ElifNoNext(cond: Expr, sc: Scope, endLabel: string, g: GenState)
    requires GenExpr(cond, g).Success?
    requires var h3 := Emit(Emit(CreateLabel(Pop(GenExpr(cond, g).value, "rax")).1, "    test rax, rax"),
                            "    jz " + Label(g.labelCount));
      GenScope(sc, h3).Success?
    ensures var h3 := Emit(Emit(CreateLabel(Pop(GenExpr(cond, g).value, "rax")).1, "    test rax, rax"),
                           "    jz " + Label(g.labelCount));
      GenIfPred(Elif(cond, sc, None), endLabel, g) == Success(Emit(GenScope(sc, h3).value, "    jmp " + endLabel))
  {
  }

  /** The tail of the example's `if`: the `elif` chain and the end label. */
  lemma ExampleIfEnd()
    ensures var s := ExampleProg().stmts[0];
      IfEnd(s, Label(0), GenState(Prologue + ExampleHeadLines()[..6], 0, [], [], 1))
      == Success(GenState(Prologue + ExampleHeadLines() + ExampleChainLines() + [Label(1) + ":", "    ; if"], 0, [], [], 3))
  {
    var g4 := GenState(Prologue + ExampleHeadLines()[..6], 0, [], [], 1);
    var g6 := GenState(Prologue + ExampleHeadLines(), 0, [], [], 2);
    assert Emit(Emit(CreateLabel(g4).1, "    jmp " + Label(1)), Label(0) + ":") == g6;
    ExampleChain(g6);
    var g7 := g6.(output := g6.output + ExampleChainLines(), labelCount := 3);
    var r := GenState(Prologue + ExampleHeadLines() + ExampleChainLines()
                      + [Label(1) + ":", "    ; if"], 0, [], [], 3);
    assert Emit(Emit(g7, Label(1) + ":"), "    ; if") == r;
  }

  /** The whole text for the example: the chain's `jz label2` is there, `label2:` is not. */
  lemma ExampleOutput()
    ensures GenProg(ExampleProg()) == Success(ExampleText())
  {
    var s := ExampleProg().stmts[0];
    var g0 := Initial.(output := Prologue);
    assert Initial.output + Prologue == Prologue;
    var r := GenState(Prologue + ExampleHeadLines() + ExampleChainLines()
                      + [Label(1) + ":", "    ; if"], 0, [], [], 3);
    assert GenStmt(s, g0) == Success(r) by {
      ExampleHead();
      ExampleIfEnd();
    }
    assert GenStmts(ExampleProg().stmts, g0) == Success(r);
  }

  lemma DefGood(n: nat)
    ensures Good([Label(n) + ":"], {n})
  {
    LabelDefNum(n);
  }

  function ExampleText(): seq<string> {
    Prologue + ExampleHeadLines() + ExampleChainLines() + [Label(1) + ":", "    ; if"] + Epilogue
  }

  lemma ExampleTextLabels()
    ensures LabelsIn(ExampleText(), {0, 1})
  {
    var head, chain := ExampleHeadLines(), ExampleChainLines();
    var tail := [Label(1) + ":", "    ; if"];
    PrologueEpilogueGood();
    assert AllIndented(head[..7]);
    GoodOfIndented(head[..7]);
    DefGood(0);
    assert head == head[..7] + [Label(0) + ":"];
    GoodConcat(head[..7], {}, [Label(0) + ":"], {0});
    assert AllIndented(chain);
    GoodOfIndented(chain);
    DefGood(1);
    assert AllIndented(["    ; if"]);
    GoodOfIndented(["    ; if"]);
    GoodConcat([Label(1) + ":"], {1}, ["    ; if"], {});
    GoodConcat(Prologue, {}, head, {} + {0});
    GoodConcat(Prologue + head, {} + ({} + {0}), chain, {});
    GoodConcat(Prologue + head + chain, {} + ({} + {0}) + {}, tail, {1} + {});
    GoodConcat(Prologue + head + chain + tail, {} + ({} + {0}) + {} + ({1} + {}), Epilogue, {});
    assert {} + ({} + {0}) + {} + ({1} + {}) + {} == {0, 1};
  }

  lemma ExampleTextJump()
    ensures "    jz " + Label(2) in ExampleText()
  {
    assert ExampleText()[|Prologue + ExampleHeadLines()| + 4] == "    jz " + Label(2);
  }

  lemma ExampleTextNoDef()
    ensures Label(2) + ":" !in ExampleText()
  {
    ExampleTextLabels();
    LabelDefNum(2);
    var t := ExampleText();
    forall i | 0 <= i < |t|
      ensures t[i] != Label(2) + ":"
    {
      if LabelNum(t[i]).Some? {
        assert LabelNum(t[i]).value in {0, 1};
      }
    }
  }

  lemma DanglingJumpExample()
    ensures GenProg(ExampleProg()).Success?
    ensures "    jz " + Label(2) in GenProg(ExampleProg()).value
    ensures Label(2) + ":" !in GenProg(ExampleProg()).value
  {
    ExampleOutput();
    ExampleTextJump();
    ExampleTextNoDef();
  }

  // ---------------------------------------------------------------------------------------
  // A `let` initializer can read the variable it is declaring, at a wrapped-around offset.

  /** As written: the new binding is recorded before its initializer runs, with the slot the
      initializer has not pushed yet. So `let x = x;` with no outer `x` is accepted, and the
      read of `x` computes `(0 - 1) * 8` in `size_t`: offset 2^64 - 8. */
  lemma LetSelfReferenceWraps(n: string, g: GenState)
    requires !Declared(g.vars, n)
    ensures var g1 := g.(vars := g.vars + [Var(n, g.stackSize)]);
      GenStmt(Let(n, ExprTerm(Ident(n))), g)
      == Success(Push(g1, "QWORD [rsp + " + NatToString(SizeTModulus - 8) + "]"))
  {
    SelfRead(n, g);
    assert Lookup(g.vars, n).None?;
  }

  /** Reading a binding whose slot is the one about to be pushed wraps to offset 2^64 - 8. */
  lemma SelfRead(n: string, g: GenState)
    requires !Declared(g.vars, n)
    ensures var g1 := g.(vars := g.vars + [Var(n, g.stackSize)]);
      GenExpr(ExprTerm(Ident(n)), g1)
      == Success(Push(g1, "QWORD [rsp + " + NatToString(SizeTModulus - 8) + "]"))
  {
    var g1 := g.(vars := g.vars + [Var(n, g.stackSize)]);
    LookupAppend(g.vars, Var(n, g.stackSize), n);
    assert SlotOffset(g1.stackSize, g1.vars[|g.vars|].stackLoc) == SizeTModulus - 8;
  }

  /** As written, the initializer runs in a state where the invariant `stack_loc < m_stack_size`
      fails for the binding being declared. */
  lemma LetInitializerBreaksInv(n: string, g: GenState)
    ensures !Inv(g.(vars := g.vars + [Var(n, g.stackSize)]))
  {
    var g1 := g.(vars := g.vars + [Var(n, g.stackSize)]);
    assert g1.vars[|g.vars|].stackLoc == g1.stackSize;
  }

  /** Corrected `let`: reject a used name, generate the initializer, and only then bind the
      name to the slot the initializer pushed. */
  function GenLetFixed(n: string, e: Expr, g: GenState): (r: Gen)
    ensures r.Success? ==> r.value.vars == g.vars + [Var(n, g.stackSize)]
    ensures r.Success? ==> r.value.stackSize == g.stackSize + 1
    ensures Declared(g.vars, n) ==> r == Failure(IdentifierAlreadyUsed(n))
  {
    if Lookup(g.vars, n).Some? then Failure(IdentifierAlreadyUsed(n))
    else
      var g1 :- GenExpr(e, g);
      Success(g1.(vars := g1.vars + [Var(n, g.stackSize)]))
  }

  /** With the fix, `let x = x;` with no outer `x` is the "Undeclared identifier" error. */
  lemma FixedLetRejectsSelfReference(n: string, g: GenState)
    requires !Declared(g.vars, n)
    ensures GenLetFixed(n, ExprTerm(Ident(n)), g) == Failure(UndeclaredIdentifier(n))
  {
    assert Lookup(g.vars, n).None?;
    assert GenExpr(ExprTerm(Ident(n)), g) == Failure(UndeclaredIdentifier(n));
  }

  /** With the fix, the initializer runs under the invariant and the new binding is the top slot,
      so the invariant holds afterwards too. */
  lemma FixedLetKeepsInv(n: string, e: Expr, g: GenState)
    requires Inv(g) && GenLetFixed(n, e, g).Success?
    ensures Inv(GenLetFixed(n, e, g).value)
  {
    var r := GenLetFixed(n, e, g).value;
    assert !Declared(g.vars, n);
    forall i, j | 0 <= i < j < |r.vars|
      ensures r.vars[i].name != r.vars[j].name
    {
      if j == |g.vars| {
        assert r.vars[i] == g.vars[i];
      }
    }
  }

  /** A binding appended to the bindings leaves a generated expression unchanged when the
      expression does not read its name. */
  function WithVar(r: Gen, v: Var): Gen {
    if r.Success? then Success(r.value.(vars := r.value.vars + [v])) else r
  }

  lemma LookupAppendOther(vars: seq<Var>, v: Var, n: string)
    requires v.name != n
    ensures Lookup(vars + [v], n) == Lookup(vars, n)
  {
    var a, b := Lookup(vars + [v], n), Lookup(vars, n);
    assert b.Some? ==> (vars + [v])[b.value] == vars[b.value];
  }

  lemma {:induction false} ExprIgnoresUnreadVar(e: Expr, g: GenState, v: Var)
    requires v.name !in ExprIdents(e)
    ensures GenExpr(e, g.(vars := g.vars + [v])) == WithVar(GenExpr(e, g), v)
    decreases e, 1
  {
    match e
    case ExprTerm(t) => TermIgnoresUnreadVar(t, g, v);
    case ExprBin(b) => BinIgnoresUnreadVar(b, g, v);
  }

  lemma {:induction false} TermIgnoresUnreadVar(t: Term, g: GenState, v: Var)
    requires v.name !in TermIdents(t)
    ensures GenTerm(t, g.(vars := g.vars + [v])) == WithVar(GenTerm(t, g), v)
    decreases t, 0
  {
    match t
    case IntLit(_) =>
    case Ident(n) =>
      LookupAppendOther(g.vars, v, n);
    case Paren(e) => ExprIgnoresUnreadVar(e, g, v);
  }

  lemma {:induction false} BinIgnoresUnreadVar(b: BinExpr, g: GenState, v: Var)
    requires v.name !in ExprIdents(b.lhs) + ExprIdents(b.rhs)
    ensures GenBinExpr(b, g.(vars := g.vars + [v])) == WithVar(GenBinExpr(b, g), v)
    decreases b, 0
  {
    ExprIgnoresUnreadVar(b.rhs, g, v);
    var r1 := GenExpr(b.rhs, g);
    if r1.Success? {
      var g1 := r1.value;
      ExprIgnoresUnreadVar(b.lhs, g1, v);
      var r2 := GenExpr(b.lhs, g1);
      if r2.Success? {
        TailIgnoresVar(b, r2.value, v);
      }
    }
  }

  /** The pops, the operator line and the push after both operands do not look at the bindings. */
  lemma TailIgnoresVar(b: BinExpr, g2: GenState, v: Var)
    requires g2.stackSize >= 2
    ensures var h := g2.(vars := g2.vars + [v]);
      Push(Emit(Pop(Pop(h, "rax"), "rbx"), OpLine(b)), "rax")
      == Push(Emit(Pop(Pop(g2, "rax"), "rbx"), OpLine(b)), "rax").(vars := g2.vars + [v])
  {
  }

  /** The fix changes nothing for an initializer that does not mention the name it declares. */
  lemma FixedLetAgrees(n: string, e: Expr, g: GenState)
    requires n !in ExprIdents(e)
    ensures GenLetFixed(n, e, g) == GenStmt(Let(n, e), g)
  {
    if Lookup(g.vars, n).None? {
      ExprIgnoresUnreadVar(e, g, Var(n, g.stackSize));
    }
  }
}
