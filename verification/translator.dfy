/** `BodyTranslator` and `translate`: the module-level pass. It hoists the
    measurements of every `with allocate(...)` block into one batched backend
    call, lowers `if superposition(...)` into a controlled `with` block, and
    expands every `@qdef(...)` definition into itself plus its derived adjoint
    and controlled variants with their wiring. The translation context is
    threaded explicitly. */
module BodyTranslator {
  import opened Wrappers
  import opened Syntax
  import opened Functors
  import opened Seqs
  import opened Naming
  import opened AdjointComputer
  import opened ControlledComputer

  /** One recorded measurement: the top-level statement index where it was met,
      the original call, and the placeholder that replaced it. */
  datatype Entry = Entry(index: int, call: Expr, name: string)

  /** The translation context: the fresh-name counter, the stack of hoisting
      tables, the stack of allocation frames (each holding the index of the
      statement being visited), and whether a class body is being visited. */
  datatype Context = Context(counter: Counter, tables: seq<seq<Entry>>, frames: seq<int>, insideClass: bool)

  /** What visiting one statement gives back: a node, or a list of nodes that a
      list field splices in place of the original. */
  datatype Visited = One(stmt: Stmt) | Many(stmts: seq<Stmt>)

  const BoilerplateAlias := "bp"

  function InitialContext(): Context
  {
    Context(map[], [], [], false)
  }

  function MeasureName(k: nat): string
  {
    "_m" + NatToString(k)
  }

  function ProxyName(k: nat): string
  {
    "_mp" + NatToString(k)
  }

  function Last<T>(s: seq<T>): T
    requires |s| > 0
  {
    s[|s| - 1]
  }

  function DropLast<T>(s: seq<T>): seq<T>
    requires |s| > 0
  {
    s[..|s| - 1]
  }

  // ---------------------------------------------------------------- recognizers

  /** `_is_measurement` */
  predicate IsMeasurement(e: Expr)
  {
    e.Call? && e.func == Name("measure")
  }

  /** `_is_allocation` */
  predicate IsAllocation(item: WithItem)
  {
    item.context.Call? && item.context.func == Name("allocate")
  }

  /** `_is_control` */
  predicate IsControl(test: Expr)
  {
    test.Call? && test.func == Name("superposition")
  }

  /** `_is_qdef`: the last decorator is a call of the name `qdef`. */
  predicate IsQdef(fn: FunctionDef)
  {
    |fn.decorators| > 0 && Last(fn.decorators).Call? && Last(fn.decorators).func == Name("qdef")
  }

  /** `_some_kw_match(name, True, ...)`: some keyword `name=True` with the literal True. */
  predicate KeywordIsTrue(kws: seq<Keyword>, name: string)
  {
    exists i :: 0 <= i < |kws| && kws[i].arg == name && kws[i].value == BoolConst(true)
  }

  predicate AutoAdjoint(fn: FunctionDef)
    requires IsQdef(fn)
  {
    KeywordIsTrue(Last(fn.decorators).keywords, "adj")
  }

  predicate AutoControlled(fn: FunctionDef)
    requires IsQdef(fn)
  {
    KeywordIsTrue(Last(fn.decorators).keywords, "ctl")
  }

  // ------------------------------------------------------------ stack discipline

  /** The innermost table may only grow, by entries met at the innermost
      frame's current statement and named by their position in the table. */
  predicate TopGrows(before: seq<Entry>, after: seq<Entry>, frame: int)
  {
    && |before| <= |after|
    && after[..|before|] == before
    && forall j :: |before| <= j < |after| ==> after[j].index == frame && after[j].name == MeasureName(j + 1)
  }

  /** A visit leaves the frame stack as it was, keeps the depth of the table
      stack and every table below the innermost, and only appends to the
      innermost table. */
  predicate Extends(c: Context, c': Context)
  {
    && c'.frames == c.frames
    && |c'.tables| == |c.tables|
    && (|c.tables| > 0 ==>
         && DropLast(c'.tables) == DropLast(c.tables)
         && (if |c.frames| > 0 then TopGrows(Last(c.tables), Last(c'.tables), Last(c.frames))
             else Last(c'.tables) == Last(c.tables)))
  }

  lemma ExtendsReflexive(c: Context)
    ensures forall c': Context :: c'.frames == c.frames && c'.tables == c.tables ==> Extends(c, c')
  {
    if |c.tables| > 0 && |c.frames| > 0 {
      assert Last(c.tables)[..|Last(c.tables)|] == Last(c.tables);
    }
  }

  lemma ExtendsTransitive(a: Context, b: Context, c: Context)
    requires Extends(a, b) && Extends(b, c)
    ensures Extends(a, c)
  {
    if |a.tables| > 0 && |a.frames| > 0 {
      var ta, tb, tc := Last(a.tables), Last(b.tables), Last(c.tables);
      assert tc[..|tb|][..|ta|] == tc[..|ta|];
    }
  }

  /** `visit_Call` on a measurement: record it in the innermost table under the
      next placeholder and replace it by that placeholder. Without a table (or
      a frame) the source fails indexing the empty stack. */
  function RecordMeasurement(c: Context, node: Expr): (r: Result<(Context, Expr), TranslationError>)
    ensures r.Ok? <==> |c.tables| > 0 && |c.frames| > 0
    ensures r.Ok? ==>
      && Extends(c, r.value.0)
      && Last(r.value.0.tables) == Last(c.tables) + [Entry(Last(c.frames), node, MeasureName(|Last(c.tables)| + 1))]
      && r.value.1 == Name(MeasureName(|Last(c.tables)| + 1))
      && r.value.0.counter == c.counter
  {
    if |c.tables| == 0 || |c.frames| == 0 then Err(MeasureOutsideAllocation)
    else
      var name := MeasureName(|Last(c.tables)| + 1);
      var entry := Entry(Last(c.frames), node, name);
      Ok((c.(tables := DropLast(c.tables) + [Last(c.tables) + [entry]]), Name(name)))
  }

  // ------------------------------------------------------------------ expressions

  /** `visit_Call`: children first (callee, arguments, keywords), then the
      call itself, so measurements are numbered in post-order. */
  function VisitCall(c: Context, f: Expr, args: seq<Expr>, kws: seq<Keyword>): (r: Result<(Context, Expr), TranslationError>)
    ensures r.Ok? ==> Extends(c, r.value.0) && r.value.0.counter == c.counter && r.value.0.insideClass == c.insideClass
    decreases Call(f, args, kws), 0
  {
    var p1 :- VisitExpr(c, f);
    var p2 :- VisitExprs(p1.0, args);
    var p3 :- VisitKeywords(p2.0, kws);
    ExtendsTransitive(c, p1.0, p2.0);
    ExtendsTransitive(c, p2.0, p3.0);
    var node := Call(p1.1, p2.1, p3.1);
    if IsMeasurement(node) then
      var p4 :- RecordMeasurement(p3.0, node);
      ExtendsTransitive(c, p3.0, p4.0);
      Ok(p4)
    else Ok((p3.0, node))
  }

  /** The generic walk of an expression. */
  function VisitExpr(c: Context, e: Expr): (r: Result<(Context, Expr), TranslationError>)
    ensures r.Ok? ==> Extends(c, r.value.0) && r.value.0.counter == c.counter && r.value.0.insideClass == c.insideClass
    decreases e, 1
  {
    match e
    case Call(f, args, kws) => VisitCall(c, f, args, kws)
    case Subscript(v, s) =>
      var p1 :- VisitExpr(c, v);
      var p2 :- VisitExpr(p1.0, s);
      ExtendsTransitive(c, p1.0, p2.0);
      Ok((p2.0, Subscript(p1.1, p2.1)))
    case Attribute(v, a) =>
      var p1 :- VisitExpr(c, v);
      Ok((p1.0, Attribute(p1.1, a)))
    case Index(v) =>
      var p1 :- VisitExpr(c, v);
      Ok((p1.0, Index(p1.1)))
    case BitAnd(l, r) =>
      var p1 :- VisitExpr(c, l);
      var p2 :- VisitExpr(p1.0, r);
      ExtendsTransitive(c, p1.0, p2.0);
      Ok((p2.0, BitAnd(p1.1, p2.1)))
    case Tuple(es) =>
      var p1 :- VisitExprs(c, es);
      Ok((p1.0, Tuple(p1.1)))
    case OtherExpr(cs) =>
      var p1 :- VisitExprs(c, cs);
      Ok((p1.0, OtherExpr(p1.1)))
    case Name(_) => Ok((c, e))
    case BoolConst(_) => Ok((c, e))
    case StrConst(_) => Ok((c, e))
  }

  function VisitExprs(c: Context, es: seq<Expr>): (r: Result<(Context, seq<Expr>), TranslationError>)
    ensures r.Ok? ==> Extends(c, r.value.0) && r.value.0.counter == c.counter && r.value.0.insideClass == c.insideClass
    ensures r.Ok? ==> |r.value.1| == |es|
    decreases es, 1
  {
    if |es| == 0 then Ok((c, []))
    else
      var p1 :- VisitExpr(c, es[0]);
      var p2 :- VisitExprs(p1.0, es[1..]);
      ExtendsTransitive(c, p1.0, p2.0);
      Ok((p2.0, [p1.1] + p2.1))
  }

  function VisitKeywords(c: Context, kws: seq<Keyword>): (r: Result<(Context, seq<Keyword>), TranslationError>)
    ensures r.Ok? ==> Extends(c, r.value.0) && r.value.0.counter == c.counter && r.value.0.insideClass == c.insideClass
    decreases kws, 1
  {
    if |kws| == 0 then Ok((c, []))
    else
      var p1 :- VisitExpr(c, kws[0].value);
      var p2 :- VisitKeywords(p1.0, kws[1..]);
      ExtendsTransitive(c, p1.0, p2.0);
      Ok((p2.0, [Keyword(kws[0].arg, p1.1)] + p2.1))
  }

  function VisitItems(c: Context, items: seq<WithItem>): (r: Result<(Context, seq<WithItem>), TranslationError>)
    ensures r.Ok? ==> Extends(c, r.value.0) && r.value.0.counter == c.counter && r.value.0.insideClass == c.insideClass
    decreases items
  {
    if |items| == 0 then Ok((c, []))
    else
      var p1 :- VisitExpr(c, items[0].context);
      var p2 :- if items[0].vars.Some? then
                  var q :- VisitExpr(p1.0, items[0].vars.value); Ok((q.0, Some(q.1)))
                else Ok((p1.0, None));
      var p3 :- VisitItems(p2.0, items[1..]);
      ExtendsTransitive(c, p1.0, p2.0);
      ExtendsTransitive(c, p2.0, p3.0);
      Ok((p3.0, [WithItem(p1.1, p2.1)] + p3.1))
  }

  // ------------------------------------------------------------ generated code

  /** `setattr(obj, 'attr', value)` as a statement. */
  function SetAttr(obj: string, attr: string, value: string): Stmt
  {
    ExprStmt(Call(Name("setattr"), [Name(obj), StrConst(attr), Name(value)], []))
  }

  /** `_wire_adjoints`: each definition's `__adj__` is the other one. */
  function WireAdjoints(name: string, adjointName: string): seq<Stmt>
  {
    [SetAttr(name, "__adj__", adjointName), SetAttr(adjointName, "__adj__", name)]
  }

  /** `_wire_controlled`: the original's `__ctl__` is the variant, and so is the variant's. */
  function WireControlled(name: string, controlledName: string): seq<Stmt>
  {
    [SetAttr(name, "__ctl__", controlledName), SetAttr(controlledName, "__ctl__", controlledName)]
  }

  /** `_import_boilerplate` */
  function ImportBoilerplate(): Stmt
  {
    Import("quoll.boilerplate", BoilerplateAlias)
  }

  /** `_control_context_node` with its body: `with superposition(arg) as ctl: body` */
  function ControlScope(arg: Expr, ctl: string, body: seq<Stmt>): Stmt
  {
    With([WithItem(Call(Name("superposition"), [arg], []), Some(Name(ctl)))], body)
  }

  /** `_assign_to_proxy`: `_mp<k> = <measurement call>` */
  function ProxyAssignment(k: nat, call: Expr): Stmt
  {
    Assign(Name(ProxyName(k)), call)
  }

  /** `_assign_to_measurements`: `(_m1, .., _mk) = bp.execute(_mp1, .., _mpk)`.
      The j-th target is the j-th placeholder and the j-th argument is the
      j-th proxy, so each result lands in the placeholder of its measurement. */
  function ExecuteAssignment(entries: seq<Entry>): (r: Stmt)
    ensures r.Assign? && r.target.Tuple? && r.rhs.Call?
    ensures r.rhs.func == Attribute(Name("bp"), "execute") && r.rhs.keywords == []
    ensures |r.target.elts| == |entries| && |r.rhs.args| == |entries|
    ensures forall j :: 0 <= j < |entries| ==> r.target.elts[j] == Name(entries[j].name) && r.rhs.args[j] == Name(ProxyName(j + 1))
  {
    Assign(Tuple(seq(|entries|, j requires 0 <= j < |entries| => Name(entries[j].name))),
           Call(Attribute(Name(BoilerplateAlias), "execute"),
                seq(|entries|, j requires 0 <= j < |entries| => Name(ProxyName(j + 1))), []))
  }

  /** The statements hoisted out of an allocation block: one proxy assignment
      per recorded measurement, in table order, then the batched `execute`. */
  function HoistedBlock(entries: seq<Entry>): (b: seq<Stmt>)
    ensures |b| == |entries| + 1
    ensures forall j :: 0 <= j < |entries| ==> b[j] == ProxyAssignment(j + 1, entries[j].call)
    ensures b[|entries|] == ExecuteAssignment(entries)
  {
    seq(|entries|, j requires 0 <= j < |entries| => ProxyAssignment(j + 1, entries[j].call)) + [ExecuteAssignment(entries)]
  }

  /** The end of `visit_With` on an allocation: the hoisted block goes in at
      the index of the first recorded entry, and the walked body keeps its
      order around it. With no entry the source fails reading the first one. */
  function Hoist(body: seq<Stmt>, entries: seq<Entry>): (r: Result<seq<Stmt>, TranslationError>)
    ensures r.Err? <==> |entries| == 0
    ensures r.Ok? ==>
      var at := ClampIndex(entries[0].index, |body|);
      && |r.value| == |body| + |entries| + 1
      && r.value[..at] == body[..at]
      && r.value[at..at + |entries| + 1] == HoistedBlock(entries)
      && r.value[at + |entries| + 1..] == body[at..]
  {
    if |entries| == 0 then Err(NoMeasurementInAllocation)
    else Ok(Splice(body, entries[0].index, HoistedBlock(entries)))
  }

  /** The adjoint and controlled expansion of `visit_FunctionDef`: the
      definition, then (when `adj=True`) the adjoint variant and its two wiring
      statements, then (when `ctl=True`) the controlled variant and its two
      wiring statements. Only the controlled variant draws a fresh name. */
  function DeriveVariants(c: Context, fn: FunctionDef): (r: Result<(Context, seq<Stmt>), TranslationError>)
    requires IsQdef(fn)
    ensures var adjoint := if AutoAdjoint(fn) then 3 else 0;
            var controlled := if AutoControlled(fn) then 3 else 0;
            && (r.Ok? <==> !AutoControlled(fn) || ControlledVariant(c.counter, fn, c.insideClass).Ok?)
            && (r.Ok? ==>
                 && Extends(c, r.value.0)
                 && r.value.0.insideClass == c.insideClass
                 && |r.value.1| == 1 + adjoint + controlled
                 && r.value.1[0] == Def(fn)
                 && (AutoAdjoint(fn) ==>
                      && r.value.1[1] == Def(AdjointVariant(fn))
                      && r.value.1[2..4] == WireAdjoints(fn.name, AdjointVariant(fn).name))
                 && (AutoControlled(fn) ==>
                      var v := ControlledVariant(c.counter, fn, c.insideClass).value;
                      && r.value.0.counter == v.1
                      && r.value.1[1 + adjoint] == Def(v.0)
                      && r.value.1[2 + adjoint..] == WireControlled(fn.name, v.0.name))
                 && (!AutoControlled(fn) ==> r.value.0 == c))
  {
    var adjoint := AdjointPart(fn);
    if AutoControlled(fn) then
      var p :- ControlledPart(c, fn);
      var out := [Def(fn)] + adjoint + p.1;
      assert out[1..1 + |adjoint|] == adjoint && out[1 + |adjoint|..] == p.1;
      Ok((p.0, out))
    else
      assert ([Def(fn)] + adjoint)[1..] == adjoint;
      Ok((c, [Def(fn)] + adjoint))
  }

  /** The controlled variant and its wiring, and the counter after drawing its
      control name. */
  function ControlledPart(c: Context, fn: FunctionDef): (r: Result<(Context, seq<Stmt>), TranslationError>)
    ensures r.Ok? <==> ControlledVariant(c.counter, fn, c.insideClass).Ok?
    ensures r.Ok? ==>
      var v := ControlledVariant(c.counter, fn, c.insideClass).value;
      && r.value.0 == c.(counter := v.1)
      && Extends(c, r.value.0)
      && |r.value.1| == 3
      && r.value.1[0] == Def(v.0)
      && r.value.1[1..] == WireControlled(fn.name, v.0.name)
  {
    var v :- ControlledVariant(c.counter, fn, c.insideClass);
    Ok((c.(counter := v.1), [Def(v.0)] + WireControlled(fn.name, v.0.name)))
  }

  /** The adjoint variant and its wiring, when the definition asks for them. */
  function AdjointPart(fn: FunctionDef): (r: seq<Stmt>)
    requires IsQdef(fn)
    ensures !AutoAdjoint(fn) ==> r == []
    ensures AutoAdjoint(fn) ==>
      && |r| == 3
      && r[0] == Def(AdjointVariant(fn))
      && r[1..] == WireAdjoints(fn.name, AdjointVariant(fn).name)
  {
    if AutoAdjoint(fn) then
      var a := AdjointVariant(fn); [Def(a)] + WireAdjoints(fn.name, a.name)
    else []
  }

  // ------------------------------------------------------------------ statements

  /** How a list field takes a visit's result: a node replaces the original, a
      list is spliced in its place. */
  function Spliced(v: Visited): seq<Stmt>
  {
    if v.One? then [v.stmt] else v.stmts
  }

  function SetFrame(c: Context, i: int): (c': Context)
    requires |c.frames| > 0
  {
    c.(frames := DropLast(c.frames) + [i])
  }

  /** What the loop over an allocation body guarantees: the stacks keep their
      depth and everything below the innermost level; the innermost table only
      grows, by entries of statements i..n-1, numbered by position, in
      statement order. */
  predicate LoopSpec(c: Context, c': Context, i: int, n: int)
    requires |c.frames| > 0 && |c.tables| > 0
  {
    && |c'.frames| == |c.frames| && DropLast(c'.frames) == DropLast(c.frames)
    && |c'.tables| == |c.tables| && DropLast(c'.tables) == DropLast(c.tables)
    && var before, after := Last(c.tables), Last(c'.tables);
       && |before| <= |after| && after[..|before|] == before
       && (forall j :: |before| <= j < |after| ==> i <= after[j].index < n && after[j].name == MeasureName(j + 1))
       && (forall j1, j2 :: |before| <= j1 <= j2 < |after| ==> after[j1].index <= after[j2].index)
  }

  lemma LoopSpecStep(c: Context, c1: Context, c2: Context, i: int, n: int)
    requires |c.frames| > 0 && |c.tables| > 0
    requires i < n
    requires Extends(SetFrame(c, i), c1)
    requires LoopSpec(c1, c2, i + 1, n)
    ensures LoopSpec(c, c2, i, n)
  {
    var t0, t1, t2 := Last(c.tables), Last(c1.tables), Last(c2.tables);
    assert Last(SetFrame(c, i).frames) == i;
    assert t2[..|t1|][..|t0|] == t2[..|t0|];
    forall j | |t0| <= j < |t2|
      ensures i <= t2[j].index < n && t2[j].name == MeasureName(j + 1)
    {
      if j < |t1| {
        assert t2[j] == t2[..|t1|][j] == t1[j];
      }
    }
    forall j1, j2 | |t0| <= j1 <= j2 < |t2|
      ensures t2[j1].index <= t2[j2].index
    {
      if j1 < |t1| {
        assert t2[j1] == t2[..|t1|][j1] == t1[j1];
        if j2 < |t1| {
          assert t2[j2] == t2[..|t1|][j2] == t1[j2];
        }
      }
    }
  }

  /** The loop of `visit_With` over an allocation body, from statement i on:
      the frame records the statement index, and each statement is replaced
      in place by its visit. A visit that returns a list (an expanded `@qdef`
      definition) would be stored as one element, which is not a statement. */
  function AllocationLoop(c: Context, body: seq<Stmt>, i: nat): (r: Result<(Context, seq<Stmt>), TranslationError>)
    requires i <= |body|
    requires |c.frames| > 0 && |c.tables| > 0
    ensures r.Ok? ==> LoopSpec(c, r.value.0, i, |body|) && |r.value.1| == |body| - i
    decreases body, |body| - i
  {
    if i == |body| then
      assert Last(c.tables)[..|Last(c.tables)|] == Last(c.tables);
      Ok((c, []))
    else
      var p1 :- VisitStmt(SetFrame(c, i), body[i]);
      if p1.1.Many? then Err(DefinitionInAllocationBody)
      else
        var p2 :- AllocationLoop(p1.0, body, i + 1);
        LoopSpecStep(c, p1.0, p2.0, i, |body|);
        Ok((p2.0, [p1.1.stmt] + p2.1))
  }

  /** `visit_With` on an allocation: push a table and a frame, walk the body,
      hoist, pop both. The with-items themselves are not visited. */
  function VisitAllocation(c: Context, items: seq<WithItem>, body: seq<Stmt>): (r: Result<(Context, Visited), TranslationError>)
    ensures r.Ok? ==> Extends(c, r.value.0)
    ensures r.Ok? ==> r.value.0.tables == c.tables && r.value.0.frames == c.frames
    decreases body, |body| + 1
  {
    var pushed := c.(tables := c.tables + [[]], frames := c.frames + [-1]);
    var p :- AllocationLoop(pushed, body, 0);
    var hoisted :- Hoist(p.1, Last(p.0.tables));
    var popped := p.0.(tables := DropLast(p.0.tables), frames := DropLast(p.0.frames));
    assert popped.tables == c.tables && popped.frames == c.frames;
    ExtendsReflexive(c);
    Ok((popped, One(With(items, hoisted))))
  }

  function VisitStmt(c: Context, s: Stmt): (r: Result<(Context, Visited), TranslationError>)
    ensures r.Ok? ==> Extends(c, r.value.0)
    decreases s
  {
    match s
    case ExprStmt(e) =>
      var p :- VisitExpr(c, e);
      Ok((p.0, One(ExprStmt(p.1))))
    case Assign(t, v) =>
      var p1 :- VisitExpr(c, t);
      var p2 :- VisitExpr(p1.0, v);
      ExtendsTransitive(c, p1.0, p2.0);
      Ok((p2.0, One(Assign(p1.1, p2.1))))
    case With(items, body) =>
      if |items| == 0 then Err(WithoutItems)
      else if IsAllocation(items[0]) then VisitAllocation(c, items, body)
      else
        var p1 :- VisitItems(c, items);
        var p2 :- VisitStmts(p1.0, body);
        ExtendsTransitive(c, p1.0, p2.0);
        Ok((p2.0, One(With(p1.1, p2.1))))
    case If(test, body, orelse) =>
      if IsControl(test) then
        var (ctl, counter') := NewName(c.counter, "__control");
        if |orelse| > 0 then Err(ElseOnSuperposition)
        else if |test.args| == 0 then Err(SuperpositionWithoutArgument)
        else
          var body' :- ControlledStmts(body, ctl);
          ExtendsReflexive(c);
          Ok((c.(counter := counter'), One(ControlScope(test.args[0], ctl, body'))))
      else
        var p1 :- VisitExpr(c, test);
        var p2 :- VisitStmts(p1.0, body);
        var p3 :- VisitStmts(p2.0, orelse);
        ExtendsTransitive(c, p1.0, p2.0);
        ExtendsTransitive(c, p2.0, p3.0);
        Ok((p3.0, One(If(p1.1, p2.1, p3.1))))
    case Def(fn) =>
      var p1 :- VisitStmts(c, fn.body);
      if IsQdef(fn) then
        var p2 :- DeriveVariants(p1.0, fn.(body := p1.1));
        ExtendsTransitive(c, p1.0, p2.0);
        Ok((p2.0, Many(p2.1)))
      else
        var p2 :- VisitExprs(p1.0, fn.decorators);
        ExtendsTransitive(c, p1.0, p2.0);
        Ok((p2.0, One(Def(fn.(body := p1.1, decorators := p2.1)))))
    case ClassDef(n, body) =>
      var p :- VisitStmts(c.(insideClass := true), body);
      Ok((p.0.(insideClass := false), One(ClassDef(n, p.1))))
    case Import(_, _) =>
      ExtendsReflexive(c);
      Ok((c, One(s)))
    case Pass =>
      ExtendsReflexive(c);
      Ok((c, One(s)))
  }

  /** The generic walk over a list of statements, splicing expanded definitions. */
  function VisitStmts(c: Context, ss: seq<Stmt>): (r: Result<(Context, seq<Stmt>), TranslationError>)
    ensures r.Ok? ==> Extends(c, r.value.0)
    decreases ss
  {
    if |ss| == 0 then
      ExtendsReflexive(c);
      Ok((c, []))
    else
      var p1 :- VisitStmt(c, ss[0]);
      var p2 :- VisitStmts(p1.0, ss[1..]);
      ExtendsTransitive(c, p1.0, p2.0);
      Ok((p2.0, Spliced(p1.1) + p2.1))
  }

  /** `translate` (`visit_Module`): the boilerplate import goes first, then
      every statement is visited in a fresh context. An empty module fails, as
      the source reads its first statement. */
  function Translate(m: Module): (r: Result<Module, TranslationError>)
    ensures |m.body| == 0 ==> r == Err(EmptyModule)
    ensures r.Ok? ==> |r.value.body| >= 1 && r.value.body[0] == ImportBoilerplate()
  {
    if |m.body| == 0 then Err(EmptyModule)
    else
      var body := [ImportBoilerplate()] + m.body;
      assert VisitStmt(InitialContext(), body[0]) == Ok((InitialContext(), One(ImportBoilerplate())));
      var p :- VisitStmts(InitialContext(), body);
      Ok(Module(p.1))
  }
}
