/** Syntax trees for the part of the language that the control-flow compiler covers. */
module Language {
  import opened Options
  import opened Values

  /** Identifiers are never empty; the empty name is reserved for stack slot zero. */
  type Name = s: string | s != "" witness "x"

  datatype BinaryOp = NotEqual | Equal | GreaterEqual | LessEqual | Op(op: Operator)

  datatype Expr =
    | Literal(v: Value)
    | Variable(name: Name)
    | Assign(name: Name, rhs: Expr)
    | Not(e: Expr)
    | Negate(e: Expr)
    | Binary(op: BinaryOp, left: Expr, right: Expr)
    | And(left: Expr, right: Expr)
    | Or(left: Expr, right: Expr)
    | Ternary(cond: Expr, yes: Expr, no: Expr)

  datatype Exprs = NoExprs | MoreExprs(head: Expr, tail: Exprs)

  datatype Stmt =
    | Evaluate(e: Expr)
    | Block(items: Items)
    | If(cond: Expr, yes: Stmt, no: Option<Stmt>)
    | While(test: Option<Expr>, body: Stmt)                               // no test: loop for ever
    | For(init: Items, test: Option<Expr>, step: Option<Expr>, body: Stmt)
    | Switch(subject: Expr, cases: Cases)
    | Break
    | Continue

  /** `case first, more...: body`, ending in an optional `default: body` */
  datatype Cases = Otherwise(default: Option<Stmt>) | MoreCases(first: Expr, more: Exprs, body: Stmt, rest: Cases)

  /** Declarations and statements as they appear in a block or at top level. */
  datatype Item = Declare(name: Name, init: Option<Expr>, constant: bool) | Perform(s: Stmt)

  datatype Items = NoItems | MoreItems(head: Item, tail: Items)

  function Count(es: Exprs): nat {
    match es
    case NoExprs => 0
    case MoreExprs(_, tail) => 1 + Count(tail)
  }

  // A case label has a one-byte count of its further values. `Narrow` programs stay within it.

  predicate NarrowCases(cs: Cases) {
    match cs
    case Otherwise(default) => default.Some? ==> NarrowStmt(default.value)
    case MoreCases(_, more, body, rest) => Count(more) < 256 && NarrowStmt(body) && NarrowCases(rest)
  }

  predicate NarrowStmt(s: Stmt) {
    match s
    case Evaluate(_) | Break | Continue => true
    case Block(items) => NarrowItems(items)
    case If(_, yes, no) => NarrowStmt(yes) && (no.Some? ==> NarrowStmt(no.value))
    case While(_, body) => NarrowStmt(body)
    case For(init, _, _, body) => NarrowItems(init) && NarrowStmt(body)
    case Switch(_, cases) => NarrowCases(cases)
  }

  predicate NarrowItems(items: Items) {
    match items
    case NoItems => true
    case MoreItems(head, tail) => (head.Perform? ==> NarrowStmt(head.s)) && NarrowItems(tail)
  }
}
