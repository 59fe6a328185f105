/** The class `Generator` of src/generation.hpp: its fields are updated in place by `push`, `pop`,
    the scope and label helpers and the visitors, exactly as the functions of module
    `GenerationModel` describe. A fatal diagnostic ends a visitor early and is returned. */
module Generation {
  import opened Wrappers
  import opened Decimal
  import opened Ast
  import M = GenerationModel

  /** A visitor's return value agrees with the model: no error and the model's new state, or the
      model's error (after which the process exits, so the fields no longer matter). */
  predicate Agrees(r: M.Gen, err: Option<M.GenError>, st: M.GenState) {
    if err.None? then r == Success(st) else r == Failure(err.value)
  }

  class Generator {
    const prog: Prog
    var output: seq<string>
    var stackSize: nat
    var vars: seq<M.Var>
    var scopes: seq<nat>
    var labelCount: nat

    function State(): M.GenState
      reads this
    {
      M.GenState(output, stackSize, vars, scopes, labelCount)
    }

    constructor (prog: Prog)
      ensures this.prog == prog && State() == M.Initial
    {
      this.prog := prog;
      output, stackSize, vars, scopes, labelCount := [], 0, [], [], 0;
    }

    method Push(reg: string)
      modifies this
      ensures State() == M.Push(old(State()), reg)
      ensures stackSize == old(stackSize) + 1 && output == old(output) + ["    push " + reg]
      ensures vars == old(vars) && scopes == old(scopes) && labelCount == old(labelCount)
    {
      output := output + ["    push " + reg];
      stackSize := stackSize + 1;
    }

    method Pop(reg: string)
      requires stackSize >= 1
      modifies this
      ensures State() == M.Pop(old(State()), reg)
      ensures stackSize == old(stackSize) - 1 && output == old(output) + ["    pop " + reg]
      ensures vars == old(vars) && scopes == old(scopes) && labelCount == old(labelCount)
    {
      output := output + ["    pop " + reg];
      stackSize := stackSize - 1;
    }

    method BeginScope()
      modifies this
      ensures State() == M.BeginScope(old(State()))
      ensures scopes == old(scopes) + [|vars|]
    {
      scopes := scopes + [|vars|];
    }

    /** Drops the bindings introduced since the innermost open scope, one `pop_back` at a time. */
    method EndScope()
      requires M.CanEndScope(State())
      modifies this
      ensures State() == M.EndScope(old(State()))
      ensures vars == old(vars)[..old(scopes)[|old(scopes)| - 1]] && scopes == old(scopes)[..|old(scopes)| - 1]
      ensures stackSize == old(stackSize) - (|old(vars)| - old(scopes)[|old(scopes)| - 1])
    {
      var popCount := |vars| - scopes[|scopes| - 1];
      output := output + ["    sub rsp, " + NatToString(popCount * 8)];
      stackSize := stackSize - popCount;
      for i := 0 to popCount
        invariant |vars| == |old(vars)| - i
        invariant vars == old(vars)[..|old(vars)| - i]
        invariant output == old(output) + ["    sub rsp, " + NatToString(popCount * 8)]
        invariant stackSize == old(stackSize) - popCount
        invariant scopes == old(scopes) && labelCount == old(labelCount)
      {
        vars := vars[..|vars| - 1];
      }
      scopes := scopes[..|scopes| - 1];
    }

    method CreateLabel() returns (l: string)
      modifies this
      ensures l == M.Label(old(labelCount)) && labelCount == old(labelCount) + 1
      ensures State() == M.CreateLabel(old(State())).1
    {
      l := "label" + NatToString(labelCount);
      labelCount := labelCount + 1;
    }

    /** The `std::find_if` search of `m_vars` for a name. */
    method FindVar(name: string) returns (r: Option<nat>)
      ensures r == M.Lookup(vars, name)
    {
      var i := 0;
      while i < |vars|
        invariant 0 <= i <= |vars|
        invariant forall j :: 0 <= j < i ==> vars[j].name != name
      {
        if vars[i].name == name {
          LookupFirst(vars, name, i);
          return Some(i);
        }
        i := i + 1;
      }
      r := None;
    }

    method GenTerm(t: Term) returns (err: Option<M.GenError>)
      modifies this
      ensures Agrees(M.GenTerm(t, old(State())), err, State())
      decreases t, 0
    {
      match t
      case IntLit(v) =>
        output := output + ["    mov rax, " + v];
        Push("rax");
        err := None;
      case Ident(n) =>
        var found := FindVar(n);
        if found.None? {
          return Some(M.UndeclaredIdentifier(n));
        }
        Push("QWORD [rsp + " + NatToString(M.SlotOffset(stackSize, vars[found.value].stackLoc)) + "]");
        err := None;
      case Paren(e) =>
        err := GenExpr(e);
    }

    method GenBinExpr(b: BinExpr) returns (err: Option<M.GenError>)
      modifies this
      ensures Agrees(M.GenBinExpr(b, old(State())), err, State())
      decreases b, 0
    {
      err := GenExpr(b.rhs);
      if err.Some? {
        return;
      }
      err := GenExpr(b.lhs);
      if err.Some? {
        return;
      }
      Pop("rax");
      Pop("rbx");
      output := output + [M.OpLine(b)];
      Push("rax");
    }

    method GenExpr(e: Expr) returns (err: Option<M.GenError>)
      modifies this
      ensures Agrees(M.GenExpr(e, old(State())), err, State())
      decreases e, 1
    {
      match e
      case ExprTerm(t) =>
        err := GenTerm(t);
      case ExprBin(b) =>
        err := GenBinExpr(b);
    }

    method GenIfPred(p: IfPred, endLabel: string) returns (err: Option<M.GenError>)
      modifies this
      ensures Agrees(M.GenIfPred(p, endLabel, old(State())), err, State())
      decreases p
    {
      match p
      case Elif(cond, sc, next) =>
        err := GenExpr(cond);
        if err.Some? {
          return;
        }
        Pop("rax");
        var skip := CreateLabel();
        output := output + ["    test rax, rax"];
        output := output + ["    jz " + skip];
        err := GenScope(sc);
        if err.Some? {
          return;
        }
        output := output + ["    jmp " + endLabel];
        if next.Some? {
          output := output + [skip + ":"];
          err := GenIfPred(next.value, endLabel);
        }
      case Else(sc) =>
        err := GenScope(sc);
    }

    method GenStmt(s: Stmt) returns (err: Option<M.GenError>)
      modifies this
      ensures Agrees(M.GenStmt(s, old(State())), err, State())
      decreases s, 2
    {
      match s
      case Exit(e) =>
        err := GenExpr(e);
        if err.Some? {
          return;
        }
        output := output + ["    mov rax, 60"];
        Pop("rdi");
        output := output + ["    syscall"];
      case Let(n, e) =>
        var found := FindVar(n);
        if found.Some? {
          return Some(M.IdentifierAlreadyUsed(n));
        }
        vars := vars + [M.Var(n, stackSize)];
        err := GenExpr(e);
      case Assign(n, e) =>
        var found := FindVar(n);
        if found.None? {
          return Some(M.UndeclaredIdentifier(n));
        }
        var target := vars[found.value];
        err := GenExpr(e);
        if err.Some? {
          return;
        }
        Pop("rax");
        output := output + ["    mov [rsp +" + NatToString(M.SlotOffset(stackSize, target.stackLoc)) + "], rax"];
      case ScopeStmt(sc) =>
        err := GenScope(sc);
      case If(_, _, _) =>
        err := GenIf(s);
    }

    method GenIf(s: Stmt) returns (err: Option<M.GenError>)
      requires s.If?
      modifies this
      ensures Agrees(M.GenIf(s, old(State())), err, State())
      decreases s, 1
    {
      err := GenExpr(s.cond);
      if err.Some? {
        return;
      }
      Pop("rax");
      var skip := CreateLabel();
      output := output + ["    test rax, rax"];
      output := output + ["    jz " + skip];
      err := GenScope(s.scope);
      if err.Some? {
        return;
      }
      ghost var scoped := State();
      var endLabel := "";
      if s.pred.Some? {
        endLabel := CreateLabel();
        output := output + ["    jmp " + endLabel];
      }
      output := output + [skip + ":"];
      if s.pred.Some? {
        err := GenIfPred(s.pred.value, endLabel);
        if err.Some? {
          assert M.IfEnd(s, skip, scoped).Failure?;
          return;
        }
        output := output + [endLabel + ":"];
      }
      output := output + ["    ; if"];
      assert M.IfEnd(s, skip, scoped) == Success(State());
    }

    method GenScope(sc: Scope) returns (err: Option<M.GenError>)
      modifies this
      ensures Agrees(M.GenScope(sc, old(State())), err, State())
      decreases sc
    {
      BeginScope();
      ghost var entered := State();
      var i := 0;
      while i < |sc.stmts|
        invariant 0 <= i <= |sc.stmts|
        invariant M.GenStmts(sc.stmts, entered) == M.GenStmts(sc.stmts[i..], State())
      {
        assert sc.stmts[i..][1..] == sc.stmts[i + 1..];
        err := GenStmt(sc.stmts[i]);
        if err.Some? {
          return;
        }
        i := i + 1;
      }
      EndScope();
      err := None;
    }

    /** `gen_prog`: returns the emitted lines (the text is these lines, each ended by a newline). */
    method GenProg() returns (r: Result<seq<string>, M.GenError>)
      modifies this
      ensures r == M.GenProgFrom(prog, old(State()))
      ensures r.Success? ==> output == r.value
      ensures r.Success? ==>
        var body := M.GenStmts(prog.stmts, old(State()).(output := old(output) + M.Prologue)).value;
        stackSize == body.stackSize && vars == body.vars && scopes == body.scopes && labelCount == body.labelCount
    {
      output := output + M.Prologue;
      ghost var started := State();
      var i := 0;
      while i < |prog.stmts|
        invariant 0 <= i <= |prog.stmts|
        invariant M.GenStmts(prog.stmts, started) == M.GenStmts(prog.stmts[i..], State())
      {
        assert prog.stmts[i..][1..] == prog.stmts[i + 1..];
        var err := GenStmt(prog.stmts[i]);
        if err.Some? {
          return Failure(err.value);
        }
        i := i + 1;
      }
      output := output + M.Epilogue;
      r := Success(output);
    }
  }

  lemma LookupFirst(vars: seq<M.Var>, name: string, i: nat)
    requires i < |vars| && vars[i].name == name
    requires forall j :: 0 <= j < i ==> vars[j].name != name
    ensures M.Lookup(vars, name) == Some(i)
  {
    var r := M.Lookup(vars, name);
    assert r.Some?;
    if r.value < i {
    } else if r.value > i {
    }
  }
}
