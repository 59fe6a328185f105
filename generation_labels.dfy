/** Labels are fresh: every label the generator defines is `label<n>` for a counter value taken
    while generating that statement, and no label is defined twice in a program's output. */
module GenerationLabels {
  import opened Wrappers
  import opened Decimal
  import opened Ast
  import opened GenerationModel
  import opened GenerationStack

  /** The counter value a line defines, when it is a label definition `label<digits>:`. */
  function LabelNum(l: string): Option<nat> {
    if |l| >= 7 && l[..5] == "label" && l[|l| - 1] == ':' && AllDigits(l[5..|l| - 1])
    then Some(DigitsValue(l[5..|l| - 1]))
    else None
  }

  /** Instructions are indented; only label definitions start in the first column. */
  predicate Indented(l: string) {
    |l| >= 1 && l[0] == ' '
  }

  ghost predicate AllIndented(c: seq<string>) {
    forall i :: 0 <= i < |c| ==> Indented(c[i])
  }

  /** No label is defined twice in `c`. */
  ghost predicate UniqueLabels(c: seq<string>) {
    forall i, j :: 0 <= i < j < |c| && LabelNum(c[i]).Some? ==> LabelNum(c[i]) != LabelNum(c[j])
  }

  /** Every label defined in `c` has its counter value in `s`. */
  ghost predicate LabelsIn(c: seq<string>, s: set<nat>) {
    forall i :: 0 <= i < |c| && LabelNum(c[i]).Some? ==> LabelNum(c[i]).value in s
  }

  ghost predicate Good(c: seq<string>, s: set<nat>) {
    UniqueLabels(c) && LabelsIn(c, s)
  }

  predicate Within(k: nat, lo: nat, hi: nat) {
    lo <= k < hi
  }

  /** The counter values from `lo` up to, not including, `hi`. */
  function Range(lo: nat, hi: nat): set<nat> {
    set k: nat | k < hi && Within(k, lo, hi)
  }

  lemma IndentedIsNoLabel(l: string)
    requires Indented(l)
    ensures LabelNum(l) == None
  {
    assert |l| >= 5 ==> l[..5][0] == l[0];
  }

  /** The definition of `Label(n)` defines exactly counter value `n`. */
  lemma LabelDefNum(n: nat)
    ensures LabelNum(Label(n) + ":") == Some(n)
  {
    var s := NatToString(n);
    var l := Label(n) + ":";
    assert l == "label" + s + ":";
    assert l[..5] == "label";
    assert l[5..|l| - 1] == s;
    DigitsValueOfNatToString(n);
  }

  /** Distinct counter values give distinct labels. */
  lemma LabelInjective(m: nat, n: nat)
    requires Label(m) == Label(n)
    ensures m == n
  {
    assert Label(m)[5..] == NatToString(m);
    assert Label(n)[5..] == NatToString(n);
    NatToStringInjective(m, n);
  }

  lemma GoodConcat(a: seq<string>, s: set<nat>, b: seq<string>, t: set<nat>)
    requires Good(a, s) && Good(b, t) && s !! t
    ensures Good(a + b, s + t)
  {
    var c := a + b;
    forall i, j | 0 <= i < j < |c| && LabelNum(c[i]).Some?
      ensures LabelNum(c[i]) != LabelNum(c[j])
    {
      if j < |a| {
        assert c[i] == a[i] && c[j] == a[j];
      } else if i >= |a| {
        assert c[i] == b[i - |a|] && c[j] == b[j - |a|];
      } else {
        assert c[i] == a[i] && c[j] == b[j - |a|];
      }
    }
    forall i | 0 <= i < |c| && LabelNum(c[i]).Some?
      ensures LabelNum(c[i]).value in s + t
    {
      if i < |a| {
        assert c[i] == a[i];
      } else {
        assert c[i] == b[i - |a|];
      }
    }
  }

  lemma GoodOfIndented(c: seq<string>)
    requires AllIndented(c)
    ensures Good(c, {})
  {
    forall i | 0 <= i < |c| {
      IndentedIsNoLabel(c[i]);
    }
  }

  lemma Chain(g: GenState, g1: GenState, g2: GenState, s: set<nat>, t: set<nat>)
    requires g.output <= g1.output <= g2.output
    requires Good(Emitted(g, g1), s) && Good(Emitted(g1, g2), t) && s !! t
    ensures Good(Emitted(g, g2), s + t)
  {
    EmittedSplit(g, g1, g2);
    GoodConcat(Emitted(g, g1), s, Emitted(g1, g2), t);
  }

  /** Appending an instruction keeps the labels as they were. */
  lemma Line(g: GenState, g1: GenState, g2: GenState, l: string, s: set<nat>)
    requires g.output <= g1.output && g2.output == g1.output + [l] && Indented(l)
    requires Good(Emitted(g, g1), s)
    ensures g.output <= g2.output && Good(Emitted(g, g2), s)
  {
    assert Emitted(g1, g2) == [l];
    GoodOfIndented([l]);
    Chain(g, g1, g2, s, {});
    assert s + {} == s;
  }

  /** Appending the definition of a label not yet in `s`. */
  lemma DefLine(g: GenState, g1: GenState, g2: GenState, n: nat, s: set<nat>)
    requires g.output <= g1.output && g2.output == g1.output + [Label(n) + ":"] && n !in s
    requires Good(Emitted(g, g1), s)
    ensures g.output <= g2.output && Good(Emitted(g, g2), s + {n})
  {
    assert Emitted(g1, g2) == [Label(n) + ":"];
    LabelDefNum(n);
    Chain(g, g1, g2, s, {n});
  }

  lemma IndentedConcat(a: seq<string>, b: seq<string>)
    requires AllIndented(a) && AllIndented(b)
    ensures AllIndented(a + b)
  {
    forall i | 0 <= i < |a + b| ensures Indented((a + b)[i]) {
      if i < |a| {
        assert (a + b)[i] == a[i];
      } else {
        assert (a + b)[i] == b[i - |a|];
      }
    }
  }

  /** The code of an expression defines no label. */
  lemma {:induction false} ExprIndented(e: Expr, g: GenState)
    requires GenExpr(e, g).Success?
    ensures AllIndented(Emitted(g, GenExpr(e, g).value))
    decreases e, 1
  {
    match e
    case ExprTerm(t) =>
      match t {
      case IntLit(v) =>
        var g' := GenTerm(t, g).value;
        SliceAppend(g.output, g.output, ["    mov rax, " + v, "    push " + "rax"]);
        assert g'.output == g.output + ["    mov rax, " + v, "    push " + "rax"];
      case Ident(n) =>
        var i := Lookup(g.vars, n).value;
        SliceAppend(g.output, g.output, ["    push " + IdentOperand(g, i)]);
      case Paren(e1) => ExprIndented(e1, g);
      }
    case ExprBin(b) =>
      var g1 := GenExpr(b.rhs, g).value;
      var g2 := GenExpr(b.lhs, g1).value;
      ExprIndented(b.rhs, g);
      ExprIndented(b.lhs, g1);
      EmittedSplit(g, g1, g2);
      IndentedConcat(Emitted(g, g1), Emitted(g1, g2));
      BinTail(b, g, g2);
      var tail := ["    pop " + "rax"] + ["    pop " + "rbx"] + [OpLine(b)] + ["    push " + "rax"];
      assert AllIndented(tail);
      IndentedConcat(Emitted(g, g2), tail);
      assert Emitted(g, GenExpr(e, g).value) == Emitted(g, g2) + tail;
  }

  lemma ExprGood(e: Expr, g: GenState)
    requires GenExpr(e, g).Success?
    ensures Good(Emitted(g, GenExpr(e, g).value), {})
  {
    ExprIndented(e, g);
    GoodOfIndented(Emitted(g, GenExpr(e, g).value));
  }

  /** The labels a statement defines are pairwise distinct and all taken from the counter
      values it consumed. */
  lemma {:induction false} StmtLabels(s: Stmt, g: GenState)
    requires GenStmt(s, g).Success?
    ensures Good(Emitted(g, GenStmt(s, g).value), Range(g.labelCount, GenStmt(s, g).value.labelCount))
    decreases s, 2
  {
    var r := GenStmt(s, g).value;
    match s
    case Exit(e) =>
      var g1 := GenExpr(e, g).value;
      ExprGood(e, g);
      var g2 := Emit(g1, "    mov rax, 60");
      Line(g, g1, g2, "    mov rax, 60", {});
      var g3 := Pop(g2, "rdi");
      Line(g, g2, g3, "    pop " + "rdi", {});
      Line(g, g3, r, "    syscall", {});
    case Let(n, e) =>
      var g1 := g.(vars := g.vars + [Var(n, g.stackSize)]);
      ExprGood(e, g1);
    case Assign(n, e) =>
      var i := Lookup(g.vars, n).value;
      var g1 := GenExpr(e, g).value;
      ExprGood(e, g);
      var g2 := Pop(g1, "rax");
      Line(g, g1, g2, "    pop " + "rax", {});
      var l := "    mov [rsp +" + NatToString(SlotOffset(g2.stackSize, g.vars[i].stackLoc)) + "], rax";
      Line(g, g2, r, l, {});
    case ScopeStmt(sc) =>
      ScopeLabels(sc, g);
    case If(_, _, _) =>
      IfLabels(s, g);
      assert r == GenIf(s, g).value;
  }

  lemma {:induction false} IfLabels(s: Stmt, g: GenState)
    requires s.If? && GenIf(s, g).Success?
    ensures Good(Emitted(g, GenIf(s, g).value), Range(g.labelCount, GenIf(s, g).value.labelCount))
    decreases s, 1
  {
    var g1 := GenExpr(s.cond, g).value;
    ExprGood(s.cond, g);
    var g2 := Pop(g1, "rax");
    Line(g, g1, g2, "    pop " + "rax", {});
    var skip := Label(g.labelCount);
    var g3 := CreateLabel(g2).1;
    assert Emitted(g, g3) == Emitted(g, g2);
    var g4 := Emit(g3, "    test rax, rax");
    Line(g, g3, g4, "    test rax, rax", {});
    var g5 := Emit(g4, "    jz " + skip);
    Line(g, g4, g5, "    jz " + skip, {});
    var g6 := GenScope(s.scope, g5).value;
    ScopeLabels(s.scope, g5);
    var inner := Range(g.labelCount + 1, g6.labelCount);
    Chain(g, g5, g6, {}, inner);
    assert {} + inner == inner;
    IfEndLabels(s, g, g6);
  }

  /** After the scope of an `if`, the skip label `label<n>` is defined once and the rest of
      the labels are new. */
  lemma {:induction false} IfEndLabels(s: Stmt, g: GenState, g6: GenState)
    requires s.If? && IfEnd(s, Label(g.labelCount), g6).Success?
    requires g6.labelCount >= g.labelCount + 1 && g.output <= g6.output
    requires Good(Emitted(g, g6), Range(g.labelCount + 1, g6.labelCount))
    ensures var r := IfEnd(s, Label(g.labelCount), g6).value;
      Good(Emitted(g, r), Range(g.labelCount, r.labelCount))
    decreases s, 0
  {
    var r := IfEnd(s, Label(g.labelCount), g6).value;
    var inner := Range(g.labelCount + 1, g6.labelCount);
    var skip := Label(g.labelCount);
    if s.pred.Some? {
      var endLabel := Label(g6.labelCount);
      var g7 := CreateLabel(g6).1;
      assert Emitted(g, g7) == Emitted(g, g6);
      var g8 := Emit(g7, "    jmp " + endLabel);
      Line(g, g7, g8, "    jmp " + endLabel, inner);
      var g9 := Emit(g8, skip + ":");
      DefLine(g, g8, g9, g.labelCount, inner);
      var g10 := GenIfPred(s.pred.value, endLabel, g9).value;
      IfPredLabels(s.pred.value, endLabel, g9);
      var rest := Range(g9.labelCount, g10.labelCount);
      Chain(g, g9, g10, inner + {g.labelCount}, rest);
      var g11 := Emit(g10, endLabel + ":");
      DefLine(g, g10, g11, g6.labelCount, inner + {g.labelCount} + rest);
      Line(g, g11, r, "    ; if", inner + {g.labelCount} + rest + {g6.labelCount});
      assert inner + {g.labelCount} + rest + {g6.labelCount} <= Range(g.labelCount, r.labelCount);
    } else {
      var g7 := Emit(g6, skip + ":");
      DefLine(g, g6, g7, g.labelCount, inner);
      Line(g, g7, r, "    ; if", inner + {g.labelCount});
      assert inner + {g.labelCount} <= Range(g.labelCount, r.labelCount);
    }
  }

  lemma {:induction false} ScopeLabels(sc: Scope, g: GenState)
    requires GenScope(sc, g).Success?
    ensures Good(Emitted(g, GenScope(sc, g).value), Range(g.labelCount, GenScope(sc, g).value.labelCount))
    decreases sc
  {
    var g1 := BeginScope(g);
    var g2 := GenStmts(sc.stmts, g1).value;
    StmtsLabels(sc.stmts, g1);
    var r := GenScope(sc, g).value;
    Line(g, g2, r, "    sub rsp, " + NatToString((|g2.vars| - g2.scopes[|g2.scopes| - 1]) * 8),
      Range(g.labelCount, g2.labelCount));
  }

  lemma {:induction false} StmtsLabels(ss: seq<Stmt>, g: GenState)
    requires GenStmts(ss, g).Success?
    ensures Good(Emitted(g, GenStmts(ss, g).value), Range(g.labelCount, GenStmts(ss, g).value.labelCount))
    decreases ss
  {
    if |ss| == 0 {
      assert Emitted(g, g) == [];
    } else {
      var g1 := GenStmt(ss[0], g).value;
      StmtLabels(ss[0], g);
      var r := GenStmts(ss[1..], g1).value;
      StmtsLabels(ss[1..], g1);
      Chain(g, g1, r, Range(g.labelCount, g1.labelCount), Range(g1.labelCount, r.labelCount));
      assert Range(g.labelCount, g1.labelCount) + Range(g1.labelCount, r.labelCount)
        == Range(g.labelCount, r.labelCount);
    }
  }

  lemma {:induction false} IfPredLabels(p: IfPred, endLabel: string, g: GenState)
    requires GenIfPred(p, endLabel, g).Success?
    ensures Good(Emitted(g, GenIfPred(p, endLabel, g).value),
      Range(g.labelCount, GenIfPred(p, endLabel, g).value.labelCount))
    decreases p
  {
    match p
    case Else(sc) =>
      ScopeLabels(sc, g);
    case Elif(cond, sc, next) =>
      var r := GenIfPred(p, endLabel, g).value;
      var g1 := GenExpr(cond, g).value;
      ExprGood(cond, g);
      var g2 := Pop(g1, "rax");
      Line(g, g1, g2, "    pop " + "rax", {});
      var skip := Label(g.labelCount);
      var g3 := CreateLabel(g2).1;
      assert Emitted(g, g3) == Emitted(g, g2);
      var g4 := Emit(g3, "    test rax, rax");
      Line(g, g3, g4, "    test rax, rax", {});
      var g5 := Emit(g4, "    jz " + skip);
      Line(g, g4, g5, "    jz " + skip, {});
      var g6 := GenScope(sc, g5).value;
      ScopeLabels(sc, g5);
      var inner := Range(g.labelCount + 1, g6.labelCount);
      Chain(g, g5, g6, {}, inner);
      assert {} + inner == inner;
      var g7 := Emit(g6, "    jmp " + endLabel);
      Line(g, g6, g7, "    jmp " + endLabel, inner);
      if next.Some? {
        var g8 := Emit(g7, skip + ":");
        DefLine(g, g7, g8, g.labelCount, inner);
        IfPredLabels(next.value, endLabel, g8);
        var rest := Range(g8.labelCount, r.labelCount);
        Chain(g, g8, r, inner + {g.labelCount}, rest);
        assert inner + {g.labelCount} + rest <= Range(g.labelCount, r.labelCount);
      } else {
        assert inner <= Range(g.labelCount, r.labelCount);
      }
  }

  lemma PrologueEpilogueGood()
    ensures Good(Prologue, {}) && Good(Epilogue, {})
  {
    assert LabelNum(Prologue[0]) == None;
    assert LabelNum(Prologue[1]) == None;
    assert AllIndented(Epilogue);
    GoodOfIndented(Epilogue);
  }

  /** No label is defined twice anywhere in the text `gen_prog` returns. */
  lemma ProgLabelsUnique(p: Prog)
    requires GenProg(p).Success?
    ensures UniqueLabels(GenProg(p).value)
  {
    assert Initial.output + Prologue == Prologue;
    var g0 := Initial.(output := Prologue);
    var g1 := GenStmts(p.stmts, g0).value;
    var body := Range(0, g1.labelCount);
    ProgBodyGood(p.stmts);
    PrologueEpilogueGood();
    GoodConcat(g1.output, body, Epilogue, {});
    assert GenProg(p).value == g1.output + Epilogue;
  }

  /** The prologue and the statements' text define each of the labels created, once. */
  lemma ProgBodyGood(ss: seq<Stmt>)
    requires GenStmts(ss, Initial.(output := Prologue)).Success?
    ensures var g1 := GenStmts(ss, Initial.(output := Prologue)).value;
      Good(g1.output, Range(0, g1.labelCount))
  {
    var g0 := Initial.(output := Prologue);
    var g1 := GenStmts(ss, g0).value;
    StmtsLabels(ss, g0);
    var body := Range(0, g1.labelCount);
    assert Emitted(g0, g1) == g1.output[2..];
    assert g1.output == Prologue + Emitted(g0, g1);
    PrologueEpilogueGood();
    GoodConcat(Prologue, {}, Emitted(g0, g1), body);
    assert {} + body == body;
  }
}
