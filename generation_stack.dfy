/** Properties of the generator's stack bookkeeping: the emitted `push`/`pop` lines of an
    expression keep the discipline the counter `m_stack_size` records, an expression fails exactly
    when it reads an undeclared name, and a `let` binds the slot its initializer leaves on top. */
module GenerationStack {
  import opened Wrappers
  import opened Decimal
  import opened Ast
  import opened GenerationModel

  /** The lines appended between two states whose outputs extend each other. */
  function Emitted(g: GenState, g': GenState): seq<string>
    requires g.output <= g'.output
  {
    g'.output[|g.output|..]
  }

  predicate IsPushLine(l: string) {
    |l| >= 9 && l[..9] == "    push "
  }

  predicate IsPopLine(l: string) {
    |l| >= 8 && l[..8] == "    pop "
  }

  /** How an emitted line changes the number of pushed slots at run time. */
  function Delta(l: string): int {
    if IsPushLine(l) then 1 else if IsPopLine(l) then -1 else 0
  }

  /** Pushes minus pops in a run of lines. */
  function Net(c: seq<string>): int
    decreases |c|
  {
    if |c| == 0 then 0 else Net(c[..|c| - 1]) + Delta(c[|c| - 1])
  }

  /** Starting from `d` pushed slots, no prefix of `c` pops more than it pushed. */
  ghost predicate NeverBelow(c: seq<string>, d: int) {
    forall k :: 0 <= k <= |c| ==> d + Net(c[..k]) >= 0
  }

  lemma {:induction false} NetConcat(a: seq<string>, b: seq<string>)
    ensures Net(a + b) == Net(a) + Net(b)
    decreases |b|
  {
    if |b| > 0 {
      assert (a + b)[..|a + b| - 1] == a + b[..|b| - 1];
      NetConcat(a, b[..|b| - 1]);
    } else {
      assert a + b == a;
    }
  }

  lemma NeverBelowConcat(a: seq<string>, b: seq<string>, d: int)
    requires NeverBelow(a, d) && NeverBelow(b, d + Net(a))
    ensures NeverBelow(a + b, d)
  {
    forall k | 0 <= k <= |a + b|
      ensures d + Net((a + b)[..k]) >= 0
    {
      if k <= |a| {
        assert (a + b)[..k] == a[..k];
      } else {
        assert (a + b)[..k] == a + b[..k - |a|];
        NetConcat(a, b[..k - |a|]);
      }
    }
  }

  lemma Snoc(c: seq<string>, d: int, l: string)
    requires NeverBelow(c, d) && d + Net(c) + Delta(l) >= 0
    ensures NeverBelow(c + [l], d) && Net(c + [l]) == Net(c) + Delta(l)
  {
    assert (c + [l])[..|c + [l]| - 1] == c;
    forall k | 0 <= k <= |c + [l]|
      ensures d + Net((c + [l])[..k]) >= 0
    {
      if k <= |c| {
        assert (c + [l])[..k] == c[..k];
      } else {
        assert (c + [l])[..k] == c + [l];
      }
    }
  }

  lemma NotStackLine(l: string)
    requires |l| >= 5 && l[..4] == "    " && l[4] != 'p'
    ensures Delta(l) == 0
  {
    assert |l| >= 9 ==> l[..9][4] == l[4];
    assert |l| >= 8 ==> l[..8][4] == l[4];
  }

  lemma PushLine(reg: string)
    ensures Delta("    push " + reg) == 1
  {
    assert ("    push " + reg)[..9] == "    push ";
  }

  lemma PopLine(reg: string)
    ensures Delta("    pop " + reg) == -1
  {
    var l := "    pop " + reg;
    assert l[..8] == "    pop ";
    assert l[5] == 'o';
    assert |l| >= 9 ==> l[..9][5] == l[5];
  }

  lemma SliceAppend(o: seq<string>, a: seq<string>, x: seq<string>)
    requires o <= a
    ensures o <= a + x && (a + x)[|o|..] == a[|o|..] + x
  {
  }

  lemma EmittedSplit(g: GenState, g1: GenState, g2: GenState)
    requires g.output <= g1.output <= g2.output
    ensures Emitted(g, g2) == Emitted(g, g1) + Emitted(g1, g2)
  {
  }

  /** The code of any expression pushes exactly once more than it pops and never pops a slot
      it did not push: the runtime stack grows by the one slot the counter adds. */
  lemma {:induction false} ExprBalanced(e: Expr, g: GenState)
    requires GenExpr(e, g).Success?
    ensures Net(Emitted(g, GenExpr(e, g).value)) == 1
    ensures NeverBelow(Emitted(g, GenExpr(e, g).value), 0)
    decreases e, 1
  {
    match e
    case ExprTerm(t) => TermBalanced(t, g);
    case ExprBin(b) => BinBalanced(b, g);
  }

  lemma {:induction false} TermBalanced(t: Term, g: GenState)
    requires GenTerm(t, g).Success?
    ensures Net(Emitted(g, GenTerm(t, g).value)) == 1
    ensures NeverBelow(Emitted(g, GenTerm(t, g).value), 0)
    decreases t, 0
  {
    match t
    case IntLit(v) =>
      var l1, l2 := "    mov rax, " + v, "    push " + "rax";
      assert GenTerm(t, g).value == Push(Emit(g, l1), "rax");
      assert GenTerm(t, g).value.output == g.output + [l1] + [l2] == g.output + [l1, l2];
      SliceAppend(g.output, g.output, [l1, l2]);
      assert Emitted(g, GenTerm(t, g).value) == [] + [l1] + [l2];
      NotStackLine(l1);
      PushLine("rax");
      Snoc([], 0, l1);
      Snoc([l1], 0, l2);
    case Ident(n) =>
      var i := Lookup(g.vars, n).value;
      var l := "    push " + IdentOperand(g, i);
      SliceAppend(g.output, g.output, [l]);
      assert Emitted(g, GenTerm(t, g).value) == [] + [l];
      PushLine(IdentOperand(g, i));
      Snoc([], 0, l);
    case Paren(e) => ExprBalanced(e, g);
  }

  lemma {:induction false} BinBalanced(b: BinExpr, g: GenState)
    requires GenBinExpr(b, g).Success?
    ensures Net(Emitted(g, GenBinExpr(b, g).value)) == 1
    ensures NeverBelow(Emitted(g, GenBinExpr(b, g).value), 0)
    decreases b, 0
  {
    var g1 := GenExpr(b.rhs, g).value;
    var g2 := GenExpr(b.lhs, g1).value;
    ExprBalanced(b.rhs, g);
    ExprBalanced(b.lhs, g1);
    var c1, c2 := Emitted(g, g1), Emitted(g1, g2);
    EmittedSplit(g, g1, g2);
    NeverBelowConcat(c1, c2, 0);
    NetConcat(c1, c2);
    BinTail(b, g, g2);
    TailBalanced(c1 + c2, b);
  }

  lemma TailBalanced(c: seq<string>, b: BinExpr)
    requires Net(c) == 2 && NeverBelow(c, 0)
    ensures var t := c + ["    pop " + "rax"] + ["    pop " + "rbx"] + [OpLine(b)] + ["    push " + "rax"];
      Net(t) == 1 && NeverBelow(t, 0)
  {
    var l1, l2, l3, l4 := "    pop " + "rax", "    pop " + "rbx", OpLine(b), "    push " + "rax";
    PopLine("rax");
    PopLine("rbx");
    NotStackLine(l3);
    PushLine("rax");
    Snoc(c, 0, l1);
    Snoc(c + [l1], 0, l2);
    Snoc(c + [l1] + [l2], 0, l3);
    Snoc(c + [l1] + [l2] + [l3], 0, l4);
  }

  /** After both operands, a binary expression emits pop, pop, the operation and a push. */
  lemma BinTail(b: BinExpr, g: GenState, g2: GenState)
    requires GenBinExpr(b, g).Success?
    requires g2 == GenExpr(b.lhs, GenExpr(b.rhs, g).value).value
    ensures g.output <= g2.output
    ensures Emitted(g, GenBinExpr(b, g).value)
      == Emitted(g, g2) + ["    pop " + "rax"] + ["    pop " + "rbx"] + [OpLine(b)] + ["    push " + "rax"]
  {
    var x := ["    pop " + "rax", "    pop " + "rbx", OpLine(b), "    push " + "rax"];
    assert GenBinExpr(b, g).value == Push(Emit(Pop(Pop(g2, "rax"), "rbx"), OpLine(b)), "rax");
    assert GenBinExpr(b, g).value.output == g2.output + x;
    SliceAppend(g.output, g2.output, x);
  }

  /** An expression generates without a fatal error exactly when every name it reads is bound;
      otherwise the error names one of the unbound names it reads. */
  lemma {:induction false} ExprSucceedsIff(e: Expr, g: GenState)
    ensures GenExpr(e, g).Success? <==> forall n :: n in ExprIdents(e) ==> Declared(g.vars, n)
    ensures GenExpr(e, g).Failure? ==>
      GenExpr(e, g).error.UndeclaredIdentifier?
      && GenExpr(e, g).error.name in ExprIdents(e) && !Declared(g.vars, GenExpr(e, g).error.name)
    decreases e, 1
  {
    match e
    case ExprTerm(t) => TermSucceedsIff(t, g);
    case ExprBin(b) =>
      ExprSucceedsIff(b.rhs, g);
      var r1 := GenExpr(b.rhs, g);
      if r1.Success? {
        ExprSucceedsIff(b.lhs, r1.value);
      }
  }

  lemma {:induction false} TermSucceedsIff(t: Term, g: GenState)
    ensures GenTerm(t, g).Success? <==> forall n :: n in TermIdents(t) ==> Declared(g.vars, n)
    ensures GenTerm(t, g).Failure? ==>
      GenTerm(t, g).error.UndeclaredIdentifier?
      && GenTerm(t, g).error.name in TermIdents(t) && !Declared(g.vars, GenTerm(t, g).error.name)
    decreases t, 0
  {
    match t
    case IntLit(_) =>
    case Ident(n) =>
    case Paren(e) => ExprSucceedsIff(e, g);
  }

  /** Straight after `let n = e;` the name `n` reads the slot on top of the stack, the one the
      initializer left behind. */
  lemma LetBindsTopSlot(n: string, e: Expr, g: GenState)
    requires GenStmt(Let(n, e), g).Success?
    ensures var g' := GenStmt(Let(n, e), g).value;
      GenTerm(Ident(n), g') == Success(Push(g', "QWORD [rsp + 0]"))
  {
    var g' := GenStmt(Let(n, e), g).value;
    assert !Declared(g.vars, n);
    assert g'.vars == g.vars + [Var(n, g.stackSize)];
    LookupAppend(g.vars, Var(n, g.stackSize), n);
    assert SlotOffset(g'.stackSize, g'.vars[|g.vars|].stackLoc) == 0;
    assert NatToString(0) == "0";
    assert IdentOperand(g', |g.vars|) == "QWORD [rsp + " + "0" + "]" == "QWORD [rsp + 0]";
  }

  lemma LookupAppend(vars: seq<Var>, v: Var, n: string)
    requires !Declared(vars, n) && v.name == n
    ensures Lookup(vars + [v], n) == Some(|vars|)
  {
    var r := Lookup(vars + [v], n);
    assert (vars + [v])[|vars|].name == n;
    assert r.Some?;
  }

  /** Generating `a + b` is generating `a`, then `b` from where `a` left off. */
  lemma {:induction false} GenStmtsAppend(a: seq<Stmt>, b: seq<Stmt>, g: GenState)
    requires GenStmts(a, g).Success?
    ensures GenStmts(a + b, g) == GenStmts(b, GenStmts(a, g).value)
    decreases |a|
  {
    if |a| == 0 {
      assert a + b == b;
    } else {
      assert (a + b)[0] == a[0] && (a + b)[1..] == a[1..] + b;
      GenStmtsAppend(a[1..], b, GenStmt(a[0], g).value);
    }
  }

  /** There is no shadowing: a `let` anywhere in a nested scope that reuses a name bound
      outside is the fatal "Identifier already used" error, once the statements before it in
      that scope have been generated. */
  lemma NoShadowing(n: string, e: Expr, pre: seq<Stmt>, rest: seq<Stmt>, g: GenState)
    requires Declared(g.vars, n) && GenStmts(pre, BeginScope(g)).Success?
    ensures GenStmt(ScopeStmt(Scope(pre + [Let(n, e)] + rest)), g) == Failure(IdentifierAlreadyUsed(n))
  {
    var g1 := BeginScope(g);
    var g2 := GenStmts(pre, g1).value;
    var j :| 0 <= j < |g.vars| && g.vars[j].name == n;
    assert g1.vars <= g2.vars && g2.vars[j] == g.vars[j];
    var tail := [Let(n, e)] + rest;
    assert pre + [Let(n, e)] + rest == pre + tail;
    GenStmtsAppend(pre, tail, g1);
    assert tail[0] == Let(n, e);
    assert GenStmt(tail[0], g2) == Failure(IdentifierAlreadyUsed(n));
  }

  /** Between statements no binding can make the slot offset wrap: under the invariant every
      binding is below the top, so its offset is the plain distance to the top times eight. */
  lemma OffsetsInRangeUnderInv(g: GenState, i: nat)
    requires Inv(g) && i < |g.vars| && g.stackSize <= SizeTModulus / 8
    ensures SlotOffset(g.stackSize, g.vars[i].stackLoc) == (g.stackSize - g.vars[i].stackLoc - 1) * 8
    ensures SlotOffset(g.stackSize, g.vars[i].stackLoc) < 8 * g.stackSize
  {
  }
}
