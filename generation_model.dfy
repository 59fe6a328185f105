/** The code generator as a state machine over its bookkeeping: every visitor of
    `Generator` (src/generation.hpp) as a function from the generator state before the call to
    the state after it, or to the fatal error that ends the run. The class `Generator` in module
    `Generation` is proved to compute exactly these functions. */
module GenerationModel {
  import opened Wrappers
  import opened Decimal
  import opened Ast

  /** A variable binding: its name and the index of the pushed 8-byte slot that holds it. */
  datatype Var = Var(name: string, stackLoc: nat)

  /** The two fatal diagnostics of the generator. */
  datatype GenError =
    | UndeclaredIdentifier(name: string)
    | IdentifierAlreadyUsed(name: string)

  /** The fields of `Generator`: emitted lines, pushed-slot count, bindings in declaration order,
      the saved binding counts of the open scopes, and the label counter. */
  datatype GenState = GenState(
    output: seq<string>,
    stackSize: nat,
    vars: seq<Var>,
    scopes: seq<nat>,
    labelCount: nat)

  type Gen = Result<GenState, GenError>

  /** The state of a freshly constructed generator. */
  const Initial: GenState := GenState([], 0, [], [], 0)

  /** `size_t` arithmetic wraps modulo 2^64. */
  const SizeTModulus: int := 0x1_0000_0000_0000_0000

  /** The byte offset `(m_stack_size - stack_loc - 1) * 8` as a `size_t`. */
  function SlotOffset(stackSize: nat, stackLoc: nat): (r: nat)
    ensures r < SizeTModulus
    ensures stackLoc < stackSize && stackSize <= SizeTModulus / 8 ==> r == (stackSize - stackLoc - 1) * 8
  {
    ((stackSize - stackLoc - 1) * 8) % SizeTModulus
  }

  /** The label produced for counter value `n`. */
  function Label(n: nat): string {
    "label" + NatToString(n)
  }

  function Emit(g: GenState, line: string): GenState {
    g.(output := g.output + [line])
  }

  /** `push`: one `push` line and one more slot; nothing else changes. */
  function Push(g: GenState, reg: string): (r: GenState)
    ensures r.stackSize == g.stackSize + 1 && r.output == g.output + ["    push " + reg]
    ensures r.vars == g.vars && r.scopes == g.scopes && r.labelCount == g.labelCount
  {
    g.(output := g.output + ["    push " + reg], stackSize := g.stackSize + 1)
  }

  /** `pop`: one `pop` line and one slot fewer; nothing else changes. */
  function Pop(g: GenState, reg: string): (r: GenState)
    requires g.stackSize >= 1
    ensures r.stackSize + 1 == g.stackSize && r.output == g.output + ["    pop " + reg]
    ensures r.vars == g.vars && r.scopes == g.scopes && r.labelCount == g.labelCount
  {
    g.(output := g.output + ["    pop " + reg], stackSize := g.stackSize - 1)
  }

  /** `begin_scope`: the current number of bindings is saved on the scope stack. */
  function BeginScope(g: GenState): (r: GenState)
    ensures r.scopes == g.scopes + [|g.vars|] && CanEndScope(r)
    ensures r.output == g.output && r.stackSize == g.stackSize && r.vars == g.vars && r.labelCount == g.labelCount
  {
    g.(scopes := g.scopes + [|g.vars|])
  }

  /** What `end_scope` needs: an open scope, whose saved count does not exceed the bindings,
      and at least one pushed slot per binding introduced since it was opened. */
  predicate CanEndScope(g: GenState) {
    |g.scopes| >= 1 && g.scopes[|g.scopes| - 1] <= |g.vars|
    && |g.vars| - g.scopes[|g.scopes| - 1] <= g.stackSize
  }

  /** `end_scope`: the bindings introduced since the innermost scope opened are dropped, with
      their slots, and that scope is closed. */
  function EndScope(g: GenState): (r: GenState)
    requires CanEndScope(g)
    ensures r.vars == g.vars[..g.scopes[|g.scopes| - 1]] && r.scopes == g.scopes[..|g.scopes| - 1]
    ensures r.stackSize + (|g.vars| - |r.vars|) == g.stackSize && r.labelCount == g.labelCount
    ensures |r.output| == |g.output| + 1 && g.output <= r.output
  {
    var saved := g.scopes[|g.scopes| - 1];
    var popCount := |g.vars| - saved;
    GenState(
      g.output + ["    sub rsp, " + NatToString(popCount * 8)],
      g.stackSize - popCount,
      g.vars[..saved],
      g.scopes[..|g.scopes| - 1],
      g.labelCount)
  }

  /** `create_label`: the label for the current counter, and the state with the counter advanced. */
  function CreateLabel(g: GenState): (r: (string, GenState))
    ensures r.0 == Label(g.labelCount) && r.1.labelCount == g.labelCount + 1
    ensures r.1.(labelCount := g.labelCount) == g
  {
    (Label(g.labelCount), g.(labelCount := g.labelCount + 1))
  }

  /** `std::find_if` over `m_vars`: the index of the first binding with this name. */
  function Lookup(vars: seq<Var>, name: string): (r: Option<nat>)
    ensures r.Some? ==> r.value < |vars| && vars[r.value].name == name
    ensures r.Some? ==> forall j :: 0 <= j < r.value ==> vars[j].name != name
    ensures r.None? <==> forall j :: 0 <= j < |vars| ==> vars[j].name != name
    decreases |vars|
  {
    if |vars| == 0 then None
    else if vars[0].name == name then Some(0)
    else match Lookup(vars[1..], name)
      case None => None
      case Some(i) => Some(i + 1)
  }

  predicate Declared(vars: seq<Var>, name: string) {
    exists j :: 0 <= j < |vars| && vars[j].name == name
  }

  /** What evaluating an expression does to the bookkeeping: exactly one more pushed slot,
      bindings, scopes and labels untouched, output only appended to. */
  predicate ExprEffect(g: GenState, g': GenState) {
    g'.stackSize == g.stackSize + 1 && g'.vars == g.vars && g'.scopes == g.scopes
    && g'.labelCount == g.labelCount && g.output <= g'.output
  }

  /** What a statement does: scopes restored, bindings only extended, one pushed slot per new
      binding, labels only consumed, output only appended to. */
  predicate StmtEffect(g: GenState, g': GenState) {
    g'.scopes == g.scopes && g.vars <= g'.vars
    && g'.stackSize == g.stackSize + (|g'.vars| - |g.vars|)
    && g.labelCount <= g'.labelCount && g.output <= g'.output
  }

  /** What a scope (or an `if` chain) does: bindings, slots and scopes exactly as before. */
  predicate BlockEffect(g: GenState, g': GenState) {
    g'.vars == g.vars && g'.stackSize == g.stackSize && g'.scopes == g.scopes
    && g.labelCount <= g'.labelCount && g.output <= g'.output
  }

  /** The bookkeeping invariant between statements: every binding sits in a pushed slot, slots are
      bound in increasing order, no name is bound twice, and the saved scope counts are
      non-decreasing and within the bindings. */
  ghost predicate Inv(g: GenState) {
    (forall i :: 0 <= i < |g.vars| ==> g.vars[i].stackLoc < g.stackSize)
    && (forall i, j :: 0 <= i < j < |g.vars| ==> g.vars[i].stackLoc < g.vars[j].stackLoc)
    && (forall i, j :: 0 <= i < j < |g.vars| ==> g.vars[i].name != g.vars[j].name)
    && (forall i :: 0 <= i < |g.scopes| ==> g.scopes[i] <= |g.vars|)
    && (forall i, j :: 0 <= i < j < |g.scopes| ==> g.scopes[i] <= g.scopes[j])
  }

  function IdentOperand(g: GenState, i: nat): string
    requires i < |g.vars|
  {
    "QWORD [rsp + " + NatToString(SlotOffset(g.stackSize, g.vars[i].stackLoc)) + "]"
  }

  /** `gen_term`. */
  function GenTerm(t: Term, g: GenState): (r: Gen)
    ensures r.Success? ==> ExprEffect(g, r.value)
    ensures t.Ident? ==> (r.Failure? <==> !Declared(g.vars, t.name))
    decreases t
  {
    match t
    case IntLit(v) => Success(Push(Emit(g, "    mov rax, " + v), "rax"))
    case Ident(n) =>
      (match Lookup(g.vars, n)
       case None => Failure(UndeclaredIdentifier(n))
       case Some(i) => Success(Push(g, IdentOperand(g, i))))
    case Paren(e) => GenExpr(e, g)
  }

  /** The instruction that combines `rax` (left operand) with `rbx` (right operand). */
  function OpLine(b: BinExpr): string {
    match b
    case Add(_, _) => "    add rax, rbx"
    case Sub(_, _) => "    sub rax, rbx"
    case Mul(_, _) => "    mul rbx"
    case Div(_, _) => "    div rbx"
  }

  /** `gen_bin_expr`: right operand first, then left, pop both, combine, push the result. */
  function GenBinExpr(b: BinExpr, g: GenState): (r: Gen)
    ensures r.Success? ==> ExprEffect(g, r.value)
    decreases b
  {
    var g1 :- GenExpr(b.rhs, g);
    var g2 :- GenExpr(b.lhs, g1);
    var g3 := Pop(Pop(g2, "rax"), "rbx");
    Success(Push(Emit(g3, OpLine(b)), "rax"))
  }

  /** `gen_expr`. */
  function GenExpr(e: Expr, g: GenState): (r: Gen)
    ensures r.Success? ==> ExprEffect(g, r.value)
    decreases e
  {
    match e
    case ExprTerm(t) => GenTerm(t, g)
    case ExprBin(b) => GenBinExpr(b, g)
  }

  /** `gen_scope`: open a scope, generate its statements, close it. */
  function GenScope(sc: Scope, g: GenState): (r: Gen)
    ensures r.Success? ==> BlockEffect(g, r.value)
    decreases sc
  {
    var g1 := BeginScope(g);
    var g2 :- GenStmts(sc.stmts, g1);
    Success(EndScope(g2))
  }

  /** The `for` loop over a statement list in `gen_scope` and `gen_prog`. */
  function GenStmts(ss: seq<Stmt>, g: GenState): (r: Gen)
    ensures r.Success? ==> StmtEffect(g, r.value) && |r.value.vars| == |g.vars| + CountLets(ss)
    ensures r.Success? && Inv(g) ==> Inv(r.value)
    decreases ss
  {
    if |ss| == 0 then Success(g)
    else
      var g1 :- GenStmt(ss[0], g);
      GenStmts(ss[1..], g1)
  }

  /** `gen_if_pred`: an `elif` tests its condition and jumps past its scope when it is zero; its
      own label is emitted only when another predicate follows. An `else` is just its scope. */
  function GenIfPred(p: IfPred, endLabel: string, g: GenState): (r: Gen)
    ensures r.Success? ==> BlockEffect(g, r.value)
    decreases p
  {
    match p
    case Elif(cond, sc, next) =>
      var g1 :- GenExpr(cond, g);
      var (skip, g2) := CreateLabel(Pop(g1, "rax"));
      var g3 := Emit(Emit(g2, "    test rax, rax"), "    jz " + skip);
      var g4 :- GenScope(sc, g3);
      var g5 := Emit(g4, "    jmp " + endLabel);
      if next.Some? then GenIfPred(next.value, endLabel, Emit(g5, skip + ":"))
      else Success(g5)
    case Else(sc) => GenScope(sc, g)
  }

  /** `gen_stmt`. */
  function GenStmt(s: Stmt, g: GenState): (r: Gen)
    ensures r.Success? ==> StmtEffect(g, r.value)
    ensures r.Success? ==> |r.value.vars| == |g.vars| + (if s.Let? then 1 else 0)
    ensures r.Success? && !s.Let? ==> BlockEffect(g, r.value)
    ensures r.Success? && s.Let? ==> r.value.vars == g.vars + [Var(s.ident, g.stackSize)]
    ensures s.Let? && Declared(g.vars, s.ident) ==> r == Failure(IdentifierAlreadyUsed(s.ident))
    ensures s.Assign? && !Declared(g.vars, s.ident) ==> r == Failure(UndeclaredIdentifier(s.ident))
    ensures r.Success? && Inv(g) ==> Inv(r.value)
    decreases s, 2
  {
    match s
    case Exit(e) =>
      var g1 :- GenExpr(e, g);
      Success(Emit(Pop(Emit(g1, "    mov rax, 60"), "rdi"), "    syscall"))
    case Let(n, e) =>
      if Lookup(g.vars, n).Some? then Failure(IdentifierAlreadyUsed(n))
      else GenExpr(e, g.(vars := g.vars + [Var(n, g.stackSize)]))
    case Assign(n, e) =>
      (match Lookup(g.vars, n)
       case None => Failure(UndeclaredIdentifier(n))
       case Some(i) =>
         var g1 :- GenExpr(e, g);
         var g2 := Pop(g1, "rax");
         Success(Emit(g2, "    mov [rsp +" + NatToString(SlotOffset(g2.stackSize, g.vars[i].stackLoc)) + "], rax")))
    case ScopeStmt(sc) => GenScope(sc, g)
    case If(_, _, _) => GenIf(s, g)
  }

  /** The `if` visitor of `gen_stmt`: test the condition and skip the scope when it is zero. */
  function GenIf(s: Stmt, g: GenState): (r: Gen)
    requires s.If?
    ensures r.Success? ==> BlockEffect(g, r.value)
    decreases s, 1
  {
    var g1 :- GenExpr(s.cond, g);
    var (skip, g2) := CreateLabel(Pop(g1, "rax"));
    var g3 := Emit(Emit(g2, "    test rax, rax"), "    jz " + skip);
    var g4 :- GenScope(s.scope, g3);
    IfEnd(s, skip, g4)
  }

  /** The rest of the `if` visitor after its scope: when a predicate chain follows, the scope
      jumps to a shared end label, and the skip label opens the chain. */
  function IfEnd(s: Stmt, skip: string, g: GenState): (r: Gen)
    requires s.If?
    ensures r.Success? ==> BlockEffect(g, r.value)
    decreases s, 0
  {
    if s.pred.Some? then
      var (endLabel, g1) := CreateLabel(g);
      var g2 := Emit(Emit(g1, "    jmp " + endLabel), skip + ":");
      var g3 :- GenIfPred(s.pred.value, endLabel, g2);
      Success(Emit(Emit(g3, endLabel + ":"), "    ; if"))
    else
      Success(Emit(Emit(g, skip + ":"), "    ; if"))
  }

  const Prologue: seq<string> := ["global _start", "_start:"]
  const Epilogue: seq<string> := ["    mov rax, 60", "    mov rdi, 0", "    syscall"]

  /** `gen_prog` on a generator in state `g`: the entry point, the statements, and a final
      `exit(0)` system call; the result is everything emitted so far. */
  function GenProgFrom(p: Prog, g: GenState): (r: Result<seq<string>, GenError>)
    ensures r.Success? <==> GenStmts(p.stmts, g.(output := g.output + Prologue)).Success?
    ensures r.Success? ==> g.output + Prologue <= r.value && |g.output| + |Prologue| + |Epilogue| <= |r.value|
    ensures r.Success? ==> r.value[|r.value| - |Epilogue|..] == Epilogue
  {
    var g1 :- GenStmts(p.stmts, g.(output := g.output + Prologue));
    Success(g1.output + Epilogue)
  }

  /** `gen_prog` on a freshly constructed generator. */
  function GenProg(p: Prog): (r: Result<seq<string>, GenError>)
    ensures r.Success? <==> GenStmts(p.stmts, Initial.(output := Prologue)).Success?
    ensures r.Success? ==> Prologue <= r.value && |Prologue| + |Epilogue| <= |r.value|
    ensures r.Success? ==> r.value[|r.value| - |Epilogue|..] == Epilogue
  {
    assert Initial.(output := Initial.output + Prologue) == Initial.(output := Prologue);
    GenProgFrom(p, Initial)
  }
}
