/** `ControlledComputer` and the controlled half of definition derivation: a
    fresh control parameter is added, every call of a plain name becomes
    `Controlled[f](ctl, ...)`, an `Adjoint[f]` call is wrapped the same way, and
    a `Controlled[f]` call keeps its callee while its control argument is
    extended with `& ctl`. Statement order is kept. */
module ControlledComputer {
  import opened Wrappers
  import opened Syntax
  import opened Functors
  import opened Seqs
  import opened Naming
  import AdjointComputer

  type Res<T> = Result<T, TranslationError>

  /** `visit_Call` and the generic walk. Python visits the node after changing
      it; the nodes it inserts (the control name, the wrapper, the `&`) hold no
      call, so visiting the original children and then inserting is the same
      (see `InsertedNodesAreInert`). */
  function ControlledExpr(e: Expr, ctl: string): (r: Res<Expr>)
    decreases e
  {
    match e
    case Call(f, args, kws) =>
      if f.Name? then
        if |args| == 0 then Err(OperationCallWithoutArguments)
        else Ok(Call(WrapInControlled(f), [Name(ctl)] + args, kws))
      else if IsVariantCall(e) && |args| == 0 then Err(OperationCallWithoutArguments)
      else
        var f' :- ControlledExpr(f, ctl);
        var args' :- ControlledExprs(args, ctl);
        var kws' :- ControlledKeywords(kws, ctl);
        if !IsVariantCall(e) then Ok(Call(f', args', kws'))
        else if IdentifySignatureIntended(f) == IdSignature then Ok(Call(WrapInControlled(f'), [Name(ctl)] + args', kws'))
        else Ok(Call(f', [ExtendControlData(args'[0], ctl)] + args'[1..], kws'))
    case Subscript(v, s) =>
      var v' :- ControlledExpr(v, ctl);
      var s' :- ControlledExpr(s, ctl);
      Ok(Subscript(v', s'))
    case Attribute(v, a) =>
      var v' :- ControlledExpr(v, ctl);
      Ok(Attribute(v', a))
    case Index(v) =>
      var v' :- ControlledExpr(v, ctl);
      Ok(Index(v'))
    case BitAnd(l, r) =>
      var l' :- ControlledExpr(l, ctl);
      var r' :- ControlledExpr(r, ctl);
      Ok(BitAnd(l', r'))
    case Tuple(es) =>
      var es' :- ControlledExprs(es, ctl);
      Ok(Tuple(es'))
    case OtherExpr(cs) =>
      var cs' :- ControlledExprs(cs, ctl);
      Ok(OtherExpr(cs'))
    case Name(_) => Ok(e)
    case BoolConst(_) => Ok(e)
    case StrConst(_) => Ok(e)
  }

  /** The list walk: succeeds exactly when every element does, and then rewrites
      each element in place. */
  function ControlledExprs(es: seq<Expr>, ctl: string): (r: Res<seq<Expr>>)
    ensures r.Ok? <==> forall i :: 0 <= i < |es| ==> ControlledExpr(es[i], ctl).Ok?
    ensures r.Ok? ==> |r.value| == |es| && forall i :: 0 <= i < |es| ==> r.value[i] == ControlledExpr(es[i], ctl).value
    decreases es
  {
    if |es| == 0 then Ok([])
    else
      var h :- ControlledExpr(es[0], ctl);
      var t :- ControlledExprs(es[1..], ctl);
      Ok([h] + t)
  }

  function ControlledKeywords(kws: seq<Keyword>, ctl: string): (r: Res<seq<Keyword>>)
    ensures r.Ok? ==> |r.value| == |kws|
    decreases kws
  {
    if |kws| == 0 then Ok([])
    else
      var v :- ControlledExpr(kws[0].value, ctl);
      var t :- ControlledKeywords(kws[1..], ctl);
      Ok([Keyword(kws[0].arg, v)] + t)
  }

  function ControlledItems(items: seq<WithItem>, ctl: string): (r: Res<seq<WithItem>>)
    decreases items
  {
    if |items| == 0 then Ok([])
    else
      var c :- ControlledExpr(items[0].context, ctl);
      var v :- if items[0].vars.Some? then
                 var x :- ControlledExpr(items[0].vars.value, ctl); Ok(Some(x))
               else Ok(None);
      var t :- ControlledItems(items[1..], ctl);
      Ok([WithItem(c, v)] + t)
  }

  function ControlledStmt(s: Stmt, ctl: string): Res<Stmt>
    decreases s
  {
    match s
    case ExprStmt(e) =>
      var e' :- ControlledExpr(e, ctl);
      Ok(ExprStmt(e'))
    case Assign(t, v) =>
      var t' :- ControlledExpr(t, ctl);
      var v' :- ControlledExpr(v, ctl);
      Ok(Assign(t', v'))
    case With(items, body) =>
      var items' :- ControlledItems(items, ctl);
      var body' :- ControlledStmts(body, ctl);
      Ok(With(items', body'))
    case If(t, body, orelse) =>
      var t' :- ControlledExpr(t, ctl);
      var body' :- ControlledStmts(body, ctl);
      var orelse' :- ControlledStmts(orelse, ctl);
      Ok(If(t', body', orelse'))
    case Def(fn) =>
      var fn' :- ControlledDef(fn, ctl);
      Ok(Def(fn'))
    case ClassDef(n, body) =>
      var body' :- ControlledStmts(body, ctl);
      Ok(ClassDef(n, body'))
    case Import(_, _) => Ok(s)
    case Pass => Ok(s)
  }

  /** Controlled distributes over a statement sequence without reordering: the
      rewrite succeeds exactly when each statement's does, the count is kept and
      statement i of the result is the rewrite of statement i. */
  function ControlledStmts(ss: seq<Stmt>, ctl: string): (r: Res<seq<Stmt>>)
    ensures r.Ok? <==> forall i :: 0 <= i < |ss| ==> ControlledStmt(ss[i], ctl).Ok?
    ensures r.Ok? ==> |r.value| == |ss| && forall i :: 0 <= i < |ss| ==> r.value[i] == ControlledStmt(ss[i], ctl).value
    decreases ss
  {
    if |ss| == 0 then Ok([])
    else
      var h :- ControlledStmt(ss[0], ctl);
      var t :- ControlledStmts(ss[1..], ctl);
      Ok([h] + t)
  }

  function ControlledDef(fn: FunctionDef, ctl: string): Res<FunctionDef>
    decreases fn
  {
    var body' :- ControlledStmts(fn.body, ctl);
    var decorators' :- ControlledExprs(fn.decorators, ctl);
    Ok(FunctionDef(fn.name, fn.params, decorators', body'))
  }

  /** `_compute_controlled`: a copy under `_<name>_ctl` with no decorators; a
      fresh `__control` name is inserted into the parameters at position 0, or 1
      inside a class body (position 0 when there are no parameters, as
      `list.insert` clamps); the other parameters keep their order, and the body
      is rewritten statement by statement in order. */
  function ControlledVariant(counter: Counter, fn: FunctionDef, insideClass: bool): (r: Res<(FunctionDef, Counter)>)
    ensures var (ctl, counter') := NewName(counter, "__control");
            var p := if insideClass && |fn.params| > 0 then 1 else 0;
            && (r.Ok? <==> ControlledStmts(fn.body, ctl).Ok?)
            && (r.Ok? ==>
                 && r.value.1 == counter'
                 && r.value.0.name == AdjointComputer.DerivedName(fn.name, "_ctl")
                 && r.value.0.decorators == []
                 && |r.value.0.params| == |fn.params| + 1
                 && r.value.0.params[p] == ctl
                 && r.value.0.params[..p] + r.value.0.params[p + 1..] == fn.params
                 && r.value.0.body == ControlledStmts(fn.body, ctl).value)
  {
    var (ctl, counter') := NewName(counter, "__control");
    var position := if insideClass then 1 else 0;
    var copy := FunctionDef(AdjointComputer.DerivedName(fn.name, "_ctl"), Insert(fn.params, position, ctl), [], fn.body);
    var rewritten :- ControlledDef(copy, ctl);
    Ok((rewritten, counter'))
  }

  /** The nodes the rewrite inserts are left alone when Python visits them after
      insertion, so visiting before inserting computes the same tree. */
  lemma InsertedNodesAreInert(x: Expr, ctl: string)
    requires ControlledExpr(x, ctl).Ok?
    ensures ControlledExpr(Name(ctl), ctl) == Ok(Name(ctl))
    ensures ControlledExpr(WrapInControlled(x), ctl) == Ok(WrapInControlled(ControlledExpr(x, ctl).value))
    ensures ControlledExpr(ExtendControlData(x, ctl), ctl) == Ok(ExtendControlData(ControlledExpr(x, ctl).value, ctl))
  {
  }

  /** `f(a..)` becomes `Controlled[f](ctl, a..)`; with no argument the rewrite fails. */
  lemma ControlOfOperationCall(f: string, args: seq<Expr>, kws: seq<Keyword>, ctl: string)
    ensures |args| == 0 ==> ControlledExpr(Call(Name(f), args, kws), ctl).Err?
    ensures |args| > 0 ==>
              ControlledExpr(Call(Name(f), args, kws), ctl)
              == Ok(Call(Subscript(Name("Controlled"), Index(Name(f))), [Name(ctl)] + args, kws))
  {
  }

  /** `Adjoint[f](a..)` becomes `Controlled[Adjoint[f]](ctl, a'..)`, where a' are
      the rewritten arguments. */
  lemma ControlOfAdjointCall(f: string, args: seq<Expr>, kws: seq<Keyword>, ctl: string)
    requires |args| > 0
    ensures var r := ControlledExpr(Call(WrapInAdjoint(Name(f)), args, kws), ctl);
            r.Ok? ==> r.value == Call(WrapInControlled(WrapInAdjoint(Name(f))), [Name(ctl)] + ControlledExprs(args, ctl).value, ControlledKeywords(kws, ctl).value)
  {
    var g := WrapInAdjoint(Name(f));
    assert ControlledExpr(g, ctl) == Ok(g) by {
      assert ControlledExpr(Index(Name(f)), ctl) == Ok(Index(Name(f)));
    }
    var e := Call(g, args, kws);
    assert IsVariantCall(e);
    assert IdentifySignatureIntended(g) == IdSignature;
  }

  /** `Controlled[f](c, a..)` keeps its callee and arity; its first argument
      becomes `c' & ctl`. */
  lemma ControlOfControlledCall(f: string, args: seq<Expr>, kws: seq<Keyword>, ctl: string)
    requires |args| > 0
    ensures var r := ControlledExpr(Call(WrapInControlled(Name(f)), args, kws), ctl);
            r.Ok? ==>
              && r.value.func == WrapInControlled(Name(f))
              && |r.value.args| == |args|
              && r.value.args[0] == BitAnd(ControlledExpr(args[0], ctl).value, Name(ctl))
              && r.value.args[1..] == ControlledExprs(args[1..], ctl).value
  {
    var g := WrapInControlled(Name(f));
    assert ControlledExpr(g, ctl) == Ok(g) by {
      assert ControlledExpr(Index(Name(f)), ctl) == Ok(Index(Name(f)));
    }
    var r := ControlledExpr(Call(g, args, kws), ctl);
    if r.Ok? {
      var args' := ControlledExprs(args, ctl).value;
      assert args'[1..] == ControlledExprs(args[1..], ctl).value;
    }
  }

  function Names(ids: seq<string>): (r: seq<Expr>)
    ensures |r| == |ids|
  {
    seq(|ids|, i requires 0 <= i < |ids| => Name(ids[i]))
  }

  /** Controlling again, once per name in `ctls`. */
  function ControlledRepeatedly(e: Expr, ctls: seq<string>): Res<Expr>
    decreases |ctls|
  {
    if |ctls| == 0 then Ok(e)
    else
      var e' :- ControlledExpr(e, ctls[0]);
      ControlledRepeatedly(e', ctls[1..])
  }

  /** A control expression made of names joined by `&` passes through the rewrite unchanged. */
  lemma {:induction false} ControlNamesAreInert(x: Expr, ctl: string)
    requires forall i :: 0 <= i < |Conjuncts(x)| ==> Conjuncts(x)[i].Name?
    ensures ControlledExpr(x, ctl) == Ok(x)
    decreases x
  {
    if x.BitAnd? {
      var l, r := Conjuncts(x.left), Conjuncts(x.right);
      assert forall i :: 0 <= i < |l| ==> l[i] == Conjuncts(x)[i];
      assert forall i :: 0 <= i < |r| ==> r[i] == Conjuncts(x)[|l| + i];
      ControlNamesAreInert(x.left, ctl);
      ControlNamesAreInert(x.right, ctl);
    } else {
      assert Conjuncts(x)[0] == x;
    }
  }

  /** Control flattening: controlling a call of a plain name under any number
      (at least one) of successive controls gives one `Controlled` wrapper
      whose control argument is the conjunction of all the control names, in
      order, followed by the original arguments. */
  lemma {:induction false} ControlledFlattening(f: string, args: seq<Expr>, kws: seq<Keyword>, ctls: seq<string>)
    requires |args| > 0 && |ctls| > 0
    ensures var r := ControlledRepeatedly(Call(Name(f), args, kws), ctls);
            r.Ok? ==>
              && r.value.Call?
              && r.value.func == WrapInControlled(Name(f))
              && WrapperKinds(r.value.func) == [ControlledFunctor]
              && |r.value.args| == |args| + 1
              && Conjuncts(r.value.args[0]) == Names(ctls)
  {
    var first := Call(WrapInControlled(Name(f)), [Name(ctls[0])] + args, kws);
    assert ControlledExpr(Call(Name(f), args, kws), ctls[0]) == Ok(first);
    assert Conjuncts(first.args[0]) == Names(ctls[..1]);
    FlatteningStep(first, f, |args| + 1, ctls, 1);
  }

  /** After the first `k` controls, the call stays `Controlled[f](ctl_1 & .. & ctl_k, ..)`. */
  lemma {:induction false} FlatteningStep(e: Expr, f: string, n: nat, ctls: seq<string>, k: nat)
    requires 0 < k <= |ctls|
    requires e.Call? && e.func == WrapInControlled(Name(f)) && |e.args| == n > 0
    requires Conjuncts(e.args[0]) == Names(ctls[..k])
    ensures var r := ControlledRepeatedly(e, ctls[k..]);
            r.Ok? ==>
              && r.value.Call?
              && r.value.func == WrapInControlled(Name(f))
              && |r.value.args| == n
              && Conjuncts(r.value.args[0]) == Names(ctls)
    decreases |ctls| - k
  {
    if k == |ctls| {
      assert ctls[..k] == ctls;
    } else {
      var c := ctls[k];
      var r1 := ControlledExpr(e, c);
      assert ctls[k..][1..] == ctls[k + 1..];
      if r1.Ok? {
        ControlOfControlledCall(f, e.args, e.keywords, c);
        ControlNamesAreInert(e.args[0], c);
        var e' := r1.value;
        assert Conjuncts(e'.args[0]) == Names(ctls[..k]) + [Name(c)];
        assert Names(ctls[..k]) + [Name(c)] == Names(ctls[..k + 1]);
        FlatteningStep(e', f, n, ctls, k + 1);
      }
    }
  }
}
