/** `AdjointComputer` and the adjoint half of definition derivation: every call
    of a plain name is wrapped in `Adjoint[...]`, every single-level functor
    application is wrapped as a whole, then the top-level statements are reversed. */
module AdjointComputer {
  import opened Wrappers
  import opened Syntax
  import opened Functors
  import opened Seqs

  /** `visit_Call` / `visit_Subscript`, and the generic walk everywhere else. An
      operation call is wrapped and its arguments are not visited; a functor
      application is wrapped and not descended into. */
  function AdjointExpr(e: Expr): Expr
    decreases e
  {
    match e
    case Call(f, args, kws) =>
      if f.Name? then Call(WrapInAdjoint(f), args, kws)
      else Call(AdjointExpr(f), AdjointExprs(args), AdjointKeywords(kws))
    case Subscript(v, s) =>
      if IsFunctorApplication(e) then WrapInAdjoint(e) else Subscript(AdjointExpr(v), AdjointExpr(s))
    case Attribute(v, a) => Attribute(AdjointExpr(v), a)
    case Index(v) => Index(AdjointExpr(v))
    case BitAnd(l, r) => BitAnd(AdjointExpr(l), AdjointExpr(r))
    case Tuple(es) => Tuple(AdjointExprs(es))
    case OtherExpr(cs) => OtherExpr(AdjointExprs(cs))
    case Name(_) => e
    case BoolConst(_) => e
    case StrConst(_) => e
  }

  function AdjointExprs(es: seq<Expr>): (r: seq<Expr>)
    ensures |r| == |es|
    ensures forall i :: 0 <= i < |es| ==> r[i] == AdjointExpr(es[i])
    decreases es
  {
    seq(|es|, i requires 0 <= i < |es| => AdjointExpr(es[i]))
  }

  function AdjointKeywords(kws: seq<Keyword>): seq<Keyword>
    decreases kws
  {
    seq(|kws|, i requires 0 <= i < |kws| => Keyword(kws[i].arg, AdjointExpr(kws[i].value)))
  }

  function AdjointItems(items: seq<WithItem>): seq<WithItem>
    decreases items
  {
    seq(|items|, i requires 0 <= i < |items| =>
      WithItem(AdjointExpr(items[i].context),
               if items[i].vars.Some? then Some(AdjointExpr(items[i].vars.value)) else None))
  }

  /** The generic walk over a statement; nested blocks are rewritten in place,
      without reordering. */
  function AdjointStmt(s: Stmt): Stmt
    decreases s
  {
    match s
    case ExprStmt(e) => ExprStmt(AdjointExpr(e))
    case Assign(t, v) => Assign(AdjointExpr(t), AdjointExpr(v))
    case With(items, body) => With(AdjointItems(items), AdjointStmts(body))
    case If(t, body, orelse) => If(AdjointExpr(t), AdjointStmts(body), AdjointStmts(orelse))
    case Def(fn) => Def(AdjointDef(fn))
    case ClassDef(n, body) => ClassDef(n, AdjointStmts(body))
    case Import(_, _) => s
    case Pass => s
  }

  function AdjointStmts(ss: seq<Stmt>): (r: seq<Stmt>)
    ensures |r| == |ss|
    ensures forall i :: 0 <= i < |ss| ==> r[i] == AdjointStmt(ss[i])
    decreases ss
  {
    seq(|ss|, i requires 0 <= i < |ss| => AdjointStmt(ss[i]))
  }

  function AdjointDef(fn: FunctionDef): FunctionDef
    decreases fn
  {
    FunctionDef(fn.name, fn.params, AdjointExprs(fn.decorators), AdjointStmts(fn.body))
  }

  /** `f'{name}{suffix}'`, with a leading underscore added when it has none. */
  function DerivedName(name: string, suffix: string): (r: string)
    requires |suffix| > 0 && suffix[0] == '_'
    ensures |name| == 0 || name[0] == '_' ==> r == name + suffix
    ensures |name| > 0 && name[0] != '_' ==> r == "_" + name + suffix
    ensures |r| > 0 && r[0] == '_'
  {
    var n := name + suffix;
    if n[0] != '_' then "_" + n else n
  }

  /** `_compute_adjoint` followed by the reversal in `visit_FunctionDef`: a copy
      under the derived name `_<name>_adj`, with the same parameters, no
      decorators, and the rewritten statements in reverse order. */
  function AdjointVariant(fn: FunctionDef): (r: FunctionDef)
    ensures r.name == DerivedName(fn.name, "_adj")
    ensures r.params == fn.params
    ensures r.decorators == []
    ensures |r.body| == |fn.body|
    ensures forall i :: 0 <= i < |fn.body| ==> r.body[i] == AdjointStmt(fn.body[|fn.body| - 1 - i])
  {
    var copy := AdjointDef(FunctionDef(DerivedName(fn.name, "_adj"), fn.params, [], fn.body));
    copy.(body := Reverse(copy.body))
  }

  /** A call of a plain name `f(a..)` becomes `Adjoint[f](a..)`; the arguments stay as they are. */
  lemma AdjointOfOperationCall(f: string, args: seq<Expr>, kws: seq<Keyword>)
    ensures AdjointExpr(Call(Name(f), args, kws)) == Call(Subscript(Name("Adjoint"), Index(Name(f))), args, kws)
  {
  }

  /** A call through a single-level functor `K[f](a..)` becomes `Adjoint[K[f]](a..)`. */
  lemma AdjointOfVariantCall(call: Expr)
    requires IsVariantCall(call)
    ensures AdjointExpr(call) == Call(WrapInAdjoint(call.func), AdjointExprs(call.args), AdjointKeywords(call.keywords))
    ensures WrapperKinds(AdjointExpr(call).func) == [AdjointFunctor] + WrapperKinds(call.func)
  {
  }

  /** Deriving the adjoint of the adjoint restores the statement order; each
      statement carries two rewrites, since wrappers never cancel. */
  lemma AdjointTwiceRestoresOrder(fn: FunctionDef)
    ensures |AdjointVariant(AdjointVariant(fn)).body| == |fn.body|
    ensures forall i :: 0 <= i < |fn.body| ==>
      AdjointVariant(AdjointVariant(fn)).body[i] == AdjointStmt(AdjointStmt(fn.body[i]))
  {
  }

  /** Adjoint wrappers stack: the second derivation of `f(q)` is `Adjoint[Adjoint[f]](q)`. */
  lemma AdjointWrappersNeverCancel()
    ensures AdjointStmt(AdjointStmt(ExprStmt(Call(Name("f"), [Name("q")], []))))
         == ExprStmt(Call(WrapInAdjoint(WrapInAdjoint(Name("f"))), [Name("q")], []))
  {
    assert AdjointExprs([Name("q")]) == [Name("q")];
    assert AdjointKeywords([]) == [];
  }

  /** The Bell-state body `H(c); Controlled[X]([c], t)` derives
      `Adjoint[Controlled[X]]([c], t); Adjoint[H](c)`. */
  lemma BellStateAdjoint()
    ensures AdjointVariant(FunctionDef("bell_state", ["c", "t"], [],
              [ExprStmt(Call(Name("H"), [Name("c")], [])),
               ExprStmt(Call(WrapInControlled(Name("X")), [OtherExpr([Name("c")]), Name("t")], []))])).body
         == [ExprStmt(Call(WrapInAdjoint(WrapInControlled(Name("X"))), [OtherExpr([Name("c")]), Name("t")], [])),
             ExprStmt(Call(WrapInAdjoint(Name("H")), [Name("c")], []))]
  {
    var call := Call(WrapInControlled(Name("X")), [OtherExpr([Name("c")]), Name("t")], []);
    assert AdjointExpr(OtherExpr([Name("c")])) == OtherExpr(AdjointExprs([Name("c")]));
    assert AdjointExprs([Name("c")]) == [Name("c")];
    assert AdjointExprs(call.args) == call.args;
    assert AdjointKeywords([]) == [];
  }
}
