/** The part of Python's 3.8 abstract syntax the translation passes inspect or build.
    Nodes the passes never look into are folded into `OtherExpr` (which keeps its
    sub-expressions, since the visitors still walk through them) and `Pass`. */
module Syntax {
  import opened Wrappers

  datatype Expr =
    | Name(id: string)
    | Attribute(value: Expr, attr: string)
    /** `value[slice]`; in Python 3.8 the slice of `F[x]` is the node `Index(x)` */
    | Subscript(value: Expr, slice: Expr)
    | Index(value: Expr)
    | Call(func: Expr, args: seq<Expr>, keywords: seq<Keyword>)
    /** `left & right` */
    | BitAnd(left: Expr, right: Expr)
    | Tuple(elts: seq<Expr>)
    /** the `NameConstant` literals True and False */
    | BoolConst(b: bool)
    | StrConst(s: string)
    | OtherExpr(children: seq<Expr>)

  datatype Keyword = Keyword(arg: string, value: Expr)

  /** one `context as vars` item of a `with` statement */
  datatype WithItem = WithItem(context: Expr, vars: Option<Expr>)

  datatype Stmt =
    | ExprStmt(expr: Expr)
    | Assign(target: Expr, rhs: Expr)
    | With(items: seq<WithItem>, body: seq<Stmt>)
    | If(test: Expr, body: seq<Stmt>, orelse: seq<Stmt>)
    | Def(fn: FunctionDef)
    | ClassDef(name: string, body: seq<Stmt>)
    | Import(path: string, alias: string)
    | Pass

  /** Parameters are bare names (no annotations or defaults). */
  datatype FunctionDef = FunctionDef(name: string, params: seq<string>, decorators: seq<Expr>, body: seq<Stmt>)

  datatype Module = Module(body: seq<Stmt>)

  /** Every way the translation aborts; each is an exception in the source. */
  datatype TranslationError =
    | MeasureOutsideAllocation     // IndexError on the empty hoisting-table stack
    | NoMeasurementInAllocation    // IndexError reading the first table entry
    | ElseOnSuperposition          // AssertionError: no elif/else support
    | SuperpositionWithoutArgument // IndexError reading the test's first argument
    | OperationCallWithoutArguments // IndexError reading the first argument
    | DefinitionInAllocationBody   // a statement visit returned a list into a body slot
    | WithoutItems                 // IndexError reading the first with-item
    | EmptyModule                  // IndexError reading the first statement

  const AdjointFunctor := "Adjoint"
  const ControlledFunctor := "Controlled"

  /** Conjuncts of a control expression built with `&`, left to right. */
  function Conjuncts(e: Expr): seq<Expr>
  {
    if e.BitAnd? then Conjuncts(e.left) + Conjuncts(e.right) else [e]
  }
}
