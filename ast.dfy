/** The syntax tree the code generator walks: programs of `exit`, `let`, assignment, nested
    scopes and `if`/`elif`/`else` chains over integer literals, identifiers, parentheses and
    the four arithmetic operators. Identifier and literal tokens are represented by their text. */
module Ast {
  import opened Wrappers

  datatype Term =
    | IntLit(value: string)
    | Ident(name: string)
    | Paren(expr: Expr)

  datatype BinExpr =
    | Add(lhs: Expr, rhs: Expr)
    | Sub(lhs: Expr, rhs: Expr)
    | Mul(lhs: Expr, rhs: Expr)
    | Div(lhs: Expr, rhs: Expr)

  datatype Expr =
    | ExprTerm(term: Term)
    | ExprBin(bin: BinExpr)

  /** An `elif` carries the rest of the chain; an `else` ends it. */
  datatype IfPred =
    | Elif(cond: Expr, scope: Scope, pred: Option<IfPred>)
    | Else(scope: Scope)

  datatype Stmt =
    | Exit(expr: Expr)
    | Let(ident: string, expr: Expr)
    | Assign(ident: string, expr: Expr)
    | ScopeStmt(scope: Scope)
    | If(cond: Expr, scope: Scope, pred: Option<IfPred>)

  datatype Scope = Scope(stmts: seq<Stmt>)

  datatype Prog = Prog(stmts: seq<Stmt>)

  /** The identifiers an expression reads. */
  function ExprIdents(e: Expr): set<string>
    decreases e
  {
    match e
    case ExprTerm(t) => TermIdents(t)
    case ExprBin(b) => ExprIdents(b.lhs) + ExprIdents(b.rhs)
  }

  function TermIdents(t: Term): set<string>
    decreases t
  {
    match t
    case IntLit(_) => {}
    case Ident(n) => {n}
    case Paren(e) => ExprIdents(e)
  }

  /** The number of `let` statements directly inside a statement list (not inside nested scopes). */
  function CountLets(ss: seq<Stmt>): nat
  {
    if |ss| == 0 then 0 else (if ss[0].Let? then 1 else 0) + CountLets(ss[1..])
  }
}
