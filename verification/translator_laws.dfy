/** Laws of the module-level pass: where hoisted statements go and how many
    there are, when the pass fails, how a superposition conditional is lowered,
    and which definitions are expanded. */
module TranslatorLaws {
  import opened Wrappers
  import opened Syntax
  import opened Seqs
  import opened Naming
  import opened ControlledComputer
  import opened BodyTranslator

  function Pushed(c: Context): Context
  {
    c.(tables := c.tables + [[]], frames := c.frames + [-1])
  }

  /** A measurement met with no allocation block open fails the translation. */
  lemma MeasureOutsideAllocationFails(c: Context, args: seq<Expr>, kws: seq<Keyword>)
    requires |c.tables| == 0
    ensures VisitExpr(c, Call(Name("measure"), args, kws)).Err?
  {
    var e := Call(Name("measure"), args, kws);
    assert VisitExpr(c, e) == VisitCall(c, Name("measure"), args, kws);
    assert VisitExpr(c, Name("measure")) == Ok((c, Name("measure")));
    var p2 := VisitExprs(c, args);
    if p2.Ok? {
      var p3 := VisitKeywords(p2.value.0, kws);
      if p3.Ok? {
        assert |p3.value.0.tables| == 0;
        assert RecordMeasurement(p3.value.0, Call(Name("measure"), p2.value.1, p3.value.1)).Err?;
      }
    }
  }

  /** Hoisting over an allocation block. With no measurement the block fails.
      Otherwise, with k the number of measurements met: the placeholders are
      `_m1`..`_mk` in encounter order, the first is met at some statement
      `first` and the others no earlier, and the block becomes the walked
      body with k proxy assignments and one batched `execute` inserted before
      statement `first`, so it grows by exactly k+1; both stacks are as before. */
  lemma AllocationHoisting(c: Context, items: seq<WithItem>, body: seq<Stmt>)
    requires |items| > 0 && IsAllocation(items[0])
    ensures var r := VisitStmt(c, With(items, body));
            var walk := AllocationLoop(Pushed(c), body, 0);
            && (r.Ok? ==> walk.Ok?)
            && (walk.Ok? && |Last(walk.value.0.tables)| == 0 ==> r == Err(NoMeasurementInAllocation))
            && (r.Ok? ==>
                 var entries := Last(walk.value.0.tables);
                 var k := |entries|;
                 var first := entries[0].index;
                 var hoisted := Hoist(walk.value.1, entries).value;
                 && k >= 1
                 && 0 <= first < |body|
                 && (forall j :: 0 <= j < k ==> first <= entries[j].index < |body| && entries[j].name == MeasureName(j + 1))
                 && r.value.1 == One(With(items, hoisted))
                 && |hoisted| == |body| + k + 1
                 && hoisted[..first] == walk.value.1[..first]
                 && hoisted[first..first + k + 1] == HoistedBlock(entries)
                 && hoisted[first + k + 1..] == walk.value.1[first..]
                 && r.value.0.frames == c.frames && r.value.0.tables == c.tables)
  {
    var r := VisitStmt(c, With(items, body));
    assert r == VisitAllocation(c, items, body);
    AllocationHoistingShape(c, items, body);
  }

  lemma AllocationHoistingShape(c: Context, items: seq<WithItem>, body: seq<Stmt>)
    ensures var r := VisitAllocation(c, items, body);
            var walk := AllocationLoop(Pushed(c), body, 0);
            && (r.Ok? ==> walk.Ok?)
            && (walk.Ok? && |Last(walk.value.0.tables)| == 0 ==> r == Err(NoMeasurementInAllocation))
            && (r.Ok? ==>
                 var entries := Last(walk.value.0.tables);
                 var k := |entries|;
                 var first := entries[0].index;
                 var hoisted := Hoist(walk.value.1, entries).value;
                 && k >= 1
                 && 0 <= first < |body|
                 && (forall j :: 0 <= j < k ==> first <= entries[j].index < |body| && entries[j].name == MeasureName(j + 1))
                 && r.value.1 == One(With(items, hoisted))
                 && |hoisted| == |body| + k + 1
                 && hoisted[..first] == walk.value.1[..first]
                 && hoisted[first..first + k + 1] == HoistedBlock(entries)
                 && hoisted[first + k + 1..] == walk.value.1[first..]
                 && r.value.0.frames == c.frames && r.value.0.tables == c.tables)
  {
    var r := VisitAllocation(c, items, body);
    var walk := AllocationLoop(Pushed(c), body, 0);
    if walk.Ok? {
      var entries := Last(walk.value.0.tables);
      assert |Last(Pushed(c).tables)| == 0;
      if |entries| > 0 {
        var first := entries[0].index;
        assert forall j :: 0 <= j < |entries| ==> first <= entries[j].index;
        assert ClampIndex(first, |walk.value.1|) == first;
      }
    }
  }

  /** `if superposition(arg): body` becomes `with superposition(arg) as ctl:`
      around the controlled rewrite of the body, with a fresh `__control*`
      name; an else branch or a missing argument fails. The stacks are untouched. */
  lemma SuperpositionLowering(c: Context, test: Expr, body: seq<Stmt>, orelse: seq<Stmt>)
    requires test.Call? && test.func == Name("superposition")
    ensures var r := VisitStmt(c, If(test, body, orelse));
            var (ctl, counter') := NewName(c.counter, "__control");
            && (|orelse| > 0 ==> r == Err(ElseOnSuperposition))
            && (|orelse| == 0 && |test.args| == 0 ==> r == Err(SuperpositionWithoutArgument))
            && (|orelse| == 0 && |test.args| > 0 ==>
                 && (r.Ok? <==> ControlledStmts(body, ctl).Ok?)
                 && (r.Ok? ==>
                      && r.value.1 == One(ControlScope(test.args[0], ctl, ControlledStmts(body, ctl).value))
                      && |r.value.1.stmt.body| == |body|
                      && r.value.0 == c.(counter := counter')))
  {
  }

  /** Only a definition whose last decorator is a call of `qdef` is expanded
      into a list of definitions and wiring; every other definition stays one
      definition with the same name and parameters. */
  lemma OnlyQdefDefinitionsExpand(c: Context, fn: FunctionDef)
    ensures var r := VisitStmt(c, Def(fn));
            r.Ok? ==>
              && (r.value.1.Many? <==> IsQdef(fn))
              && (r.value.1.One? ==> r.value.1.stmt.Def? && r.value.1.stmt.fn.name == fn.name && r.value.1.stmt.fn.params == fn.params)
              && (r.value.1.Many? ==> |r.value.1.stmts| >= 1 && r.value.1.stmts[0].fn.name == fn.name)
  {
  }

  /** Visiting a list of plain names changes neither the names nor the context. */
  lemma {:induction false} NamesVisitUnchanged(c: Context, es: seq<Expr>)
    requires forall i :: 0 <= i < |es| ==> es[i].Name?
    ensures VisitExprs(c, es) == Ok((c, es))
  {
    if |es| > 0 {
      assert VisitExpr(c, es[0]) == Ok((c, es[0]));
      NamesVisitUnchanged(c, es[1..]);
      assert [es[0]] + es[1..] == es;
    }
  }

  /** `measure(reg)` */
  function MeasureOf(reg: string): Expr
  {
    Call(Name("measure"), [Name(reg)], [])
  }

  /** The worked example: `measure(a); x = ...; measure(b)`. */
  function ExampleBody(a: string, b: string, x: string): seq<Stmt>
  {
    [ExprStmt(MeasureOf(a)), Assign(Name(x), OtherExpr([])), ExprStmt(MeasureOf(b))]
  }

  /** A statement `measure(reg)` at an open allocation is recorded under the
      next placeholder, tagged with the current statement index, and becomes
      that placeholder. */
  lemma MeasureStatement(c: Context, reg: string)
    requires |c.tables| > 0 && |c.frames| > 0
    ensures var call := Call(Name("measure"), [Name(reg)], []);
            var name := MeasureName(|Last(c.tables)| + 1);
            VisitStmt(c, ExprStmt(call))
            == Ok((c.(tables := DropLast(c.tables) + [Last(c.tables) + [Entry(Last(c.frames), call, name)]]),
                   One(ExprStmt(Name(name)))))
  {
    var call := Call(Name("measure"), [Name(reg)], []);
    var rec := RecordMeasurement(c, call);
    MeasureCall(c, reg);
    assert VisitExpr(c, call) == rec;
  }

  lemma MeasureCall(c: Context, reg: string)
    requires |c.tables| > 0 && |c.frames| > 0
    ensures var call := Call(Name("measure"), [Name(reg)], []);
            VisitExpr(c, call) == RecordMeasurement(c, call)
  {
    var call := Call(Name("measure"), [Name(reg)], []);
    MeasureCallParts(c, reg);
    VisitCallOfInertParts(c, Name("measure"), [Name(reg)], []);
    VisitOfCall(c, Name("measure"), [Name(reg)], []);
  }

  /** A call is visited by the call visit. */
  lemma VisitOfCall(c: Context, f: Expr, args: seq<Expr>, kws: seq<Keyword>)
    ensures VisitExpr(c, Call(f, args, kws)) == VisitCall(c, f, args, kws)
  {
  }

  /** A call whose children the walk leaves alone is handled by the call visit itself. */
  lemma VisitCallOfInertParts(c: Context, f: Expr, args: seq<Expr>, kws: seq<Keyword>)
    requires VisitExpr(c, f) == Ok((c, f))
    requires VisitExprs(c, args) == Ok((c, args))
    requires VisitKeywords(c, kws) == Ok((c, kws))
    ensures IsMeasurement(Call(f, args, kws)) ==> VisitCall(c, f, args, kws) == RecordMeasurement(c, Call(f, args, kws))
  {
  }

  lemma MeasureCallParts(c: Context, reg: string)
    ensures VisitExpr(c, Name("measure")) == Ok((c, Name("measure")))
    ensures VisitExprs(c, [Name(reg)]) == Ok((c, [Name(reg)]))
    ensures VisitKeywords(c, []) == Ok((c, []))
  {
    NamesVisitUnchanged(c, [Name(reg)]);
  }

  /** `measure(reg)` in an allocation body, one level deep. */
  lemma MeasureAt(counter: Counter, t: seq<Entry>, frame: int, insideClass: bool, reg: string)
    ensures var c := Context(counter, [t], [frame], insideClass);
            var call := MeasureOf(reg);
            var name := MeasureName(|t| + 1);
            VisitStmt(c, ExprStmt(call))
            == Ok((Context(counter, [t + [Entry(frame, call, name)]], [frame], insideClass), One(ExprStmt(Name(name)))))
  {
    var c := Context(counter, [t], [frame], insideClass);
    MeasureStatement(c, reg);
    assert DropLast(c.tables) == [];
  }

  /** An assignment of an opaque value to a name records nothing. */
  lemma AssignmentIsInert(c: Context, x: string)
    ensures VisitStmt(c, Assign(Name(x), OtherExpr([]))) == Ok((c, One(Assign(Name(x), OtherExpr([])))))
  {
    assert VisitExprs(c, []) == Ok((c, []));
    assert VisitExpr(c, OtherExpr([])) == Ok((c, OtherExpr([])));
    assert VisitExpr(c, Name(x)) == Ok((c, Name(x)));
  }

  /** One step of the allocation loop on a statement that visits to a single node. */
  lemma LoopStep(c: Context, body: seq<Stmt>, i: nat, c': Context, st: Stmt, cf: Context, rest: seq<Stmt>)
    requires i < |body| && |c.frames| > 0 && |c.tables| > 0
    requires VisitStmt(SetFrame(c, i), body[i]) == Ok((c', One(st)))
    requires |c'.frames| > 0 && |c'.tables| > 0
    requires AllocationLoop(c', body, i + 1) == Ok((cf, rest))
    ensures AllocationLoop(c, body, i) == Ok((cf, [st] + rest))
  {
  }

  /** The last statement of the example body: `measure(b)` at index 2. */
  lemma WalkLast(counter: Counter, a: string, b: string, x: string, e1: Entry)
    ensures var body := ExampleBody(a, b, x);
            var e2 := Entry(2, MeasureOf(b), MeasureName(2));
            AllocationLoop(Context(counter, [[e1]], [1], false), body, 2)
            == Ok((Context(counter, [[e1, e2]], [2], false), [ExprStmt(Name(MeasureName(2)))]))
  {
    var body := ExampleBody(a, b, x);
    var c2 := Context(counter, [[e1]], [1], false);
    var e2 := Entry(2, MeasureOf(b), MeasureName(2));
    var c3 := Context(counter, [[e1, e2]], [2], false);
    var w2 := ExprStmt(Name(MeasureName(2)));
    assert AllocationLoop(c3, body, 3) == Ok((c3, []));
    assert body[2] == ExprStmt(MeasureOf(b));
    MeasureAt(counter, [e1], 2, false, b);
    assert [e1] + [e2] == [e1, e2];
    assert SetFrame(c2, 2) == Context(counter, [[e1]], [2], false);
    LoopStep(c2, body, 2, c3, w2, c3, []);
    assert [w2] + [] == [w2];
  }

  /** The middle statement of the example body: an assignment at index 1. */
  lemma WalkMiddle(counter: Counter, a: string, b: string, x: string, e1: Entry)
    ensures var body := ExampleBody(a, b, x);
            var e2 := Entry(2, MeasureOf(b), MeasureName(2));
            AllocationLoop(Context(counter, [[e1]], [0], false), body, 1)
            == Ok((Context(counter, [[e1, e2]], [2], false),
                   [Assign(Name(x), OtherExpr([])), ExprStmt(Name(MeasureName(2)))]))
  {
    var body := ExampleBody(a, b, x);
    var c1 := Context(counter, [[e1]], [0], false);
    var c2 := Context(counter, [[e1]], [1], false);
    var e2 := Entry(2, MeasureOf(b), MeasureName(2));
    var c3 := Context(counter, [[e1, e2]], [2], false);
    var w1, w2 := Assign(Name(x), OtherExpr([])), ExprStmt(Name(MeasureName(2)));
    WalkLast(counter, a, b, x, e1);
    assert body[1] == w1;
    assert SetFrame(c1, 1) == c2;
    AssignmentIsInert(c2, x);
    LoopStep(c1, body, 1, c2, w1, c3, [w2]);
    assert [w1] + [w2] == [w1, w2];
  }

  /** The first statement of the example body: `measure(a)` at index 0. */
  lemma WalkFirst(counter: Counter, a: string, b: string, x: string)
    ensures var body := ExampleBody(a, b, x);
            var e1 := Entry(0, MeasureOf(a), MeasureName(1));
            var e2 := Entry(2, MeasureOf(b), MeasureName(2));
            AllocationLoop(Context(counter, [[]], [-1], false), body, 0)
            == Ok((Context(counter, [[e1, e2]], [2], false),
                   [ExprStmt(Name(MeasureName(1))), Assign(Name(x), OtherExpr([])), ExprStmt(Name(MeasureName(2)))]))
  {
    var body := ExampleBody(a, b, x);
    var c0 := Context(counter, [[]], [-1], false);
    var e1 := Entry(0, MeasureOf(a), MeasureName(1));
    var c1 := Context(counter, [[e1]], [0], false);
    var e2 := Entry(2, MeasureOf(b), MeasureName(2));
    var c3 := Context(counter, [[e1, e2]], [2], false);
    var w0 := ExprStmt(Name(MeasureName(1)));
    var rest := [Assign(Name(x), OtherExpr([])), ExprStmt(Name(MeasureName(2)))];
    WalkMiddle(counter, a, b, x, e1);
    assert body[0] == ExprStmt(MeasureOf(a));
    MeasureAt(counter, [], 0, false, a);
    assert [] + [e1] == [e1];
    assert SetFrame(c0, 0) == Context(counter, [[]], [0], false);
    LoopStep(c0, body, 0, c1, w0, c3, rest);
    assert [w0] + rest == [w0, rest[0], rest[1]];
  }

  /** The walk of the example body: each measurement becomes its placeholder
      and is recorded with the index of its statement. */
  lemma ExampleWalk(a: string, b: string, x: string)
    ensures var c0 := Pushed(InitialContext());
            var entries := [Entry(0, MeasureOf(a), "_m1"), Entry(2, MeasureOf(b), "_m2")];
            var walked := [ExprStmt(Name("_m1")), Assign(Name(x), OtherExpr([])), ExprStmt(Name("_m2"))];
            AllocationLoop(c0, ExampleBody(a, b, x), 0) == Ok((c0.(tables := [entries], frames := [2]), walked))
  {
    var one, two := NatToString(1), NatToString(2);
    assert one == "1" && two == "2";
    var m1, m2 := MeasureName(1), MeasureName(2);
    assert m1 == "_m1" && m2 == "_m2";
    var c0 := Pushed(InitialContext());
    assert c0 == Context(c0.counter, [[]], [-1], false);
    WalkFirst(c0.counter, a, b, x);
  }

  /** The hoisting of the example: two proxies and one batched `execute`
      before the first measuring statement. */
  lemma ExampleHoist(a: string, b: string, x: string)
    ensures var entries := [Entry(0, MeasureOf(a), "_m1"), Entry(2, MeasureOf(b), "_m2")];
            var walked := [ExprStmt(Name("_m1")), Assign(Name(x), OtherExpr([])), ExprStmt(Name("_m2"))];
            Hoist(walked, entries) == Ok([
              Assign(Name("_mp1"), MeasureOf(a)),
              Assign(Name("_mp2"), MeasureOf(b)),
              Assign(Tuple([Name("_m1"), Name("_m2")]), Call(Attribute(Name("bp"), "execute"), [Name("_mp1"), Name("_mp2")], [])),
              ExprStmt(Name("_m1")),
              Assign(Name(x), OtherExpr([])),
              ExprStmt(Name("_m2"))])
  {
    var one, two := NatToString(1), NatToString(2);
    assert one == "1" && two == "2";
    var p1, p2 := ProxyName(1), ProxyName(2);
    assert p1 == "_mp1" && p2 == "_mp2";
    var entries := [Entry(0, MeasureOf(a), "_m1"), Entry(2, MeasureOf(b), "_m2")];
    var walked := [ExprStmt(Name("_m1")), Assign(Name(x), OtherExpr([])), ExprStmt(Name("_m2"))];
    var ex := ExecuteAssignment(entries);
    assert ex.target.elts == [Name("_m1"), Name("_m2")];
    assert ex.rhs.args == [Name(p1), Name(p2)];
    assert ex == Assign(Tuple([Name("_m1"), Name("_m2")]), Call(Attribute(Name("bp"), "execute"), [Name("_mp1"), Name("_mp2")], []));
    var block := [Assign(Name(p1), MeasureOf(a)), Assign(Name(p2), MeasureOf(b)), ex];
    assert HoistedBlock(entries) == block;
    var r := Hoist(walked, entries).value;
    assert ClampIndex(0, 3) == 0;
    assert r[0..3] == block;
    assert r[3..] == walked[0..] == walked;
    assert r == r[0..3] + r[3..] == block + walked;
    assert Hoist(walked, entries) == Ok(block + walked);
    assert block + walked == [block[0], block[1], block[2], walked[0], walked[1], walked[2]];
  }

  /** The worked example `measure(a); x = ...; measure(b)` in an allocation
      block becomes `_mp1 = measure(a); _mp2 = measure(b);
      (_m1, _m2) = bp.execute(_mp1, _mp2); _m1; x = ...; _m2`. */
  lemma HoistingExample(a: string, b: string, x: string, q: string)
    ensures
      var items := [WithItem(Call(Name("allocate"), [], []), Some(Name(q)))];
      VisitStmt(InitialContext(), With(items, ExampleBody(a, b, x)))
      == Ok((InitialContext(), One(With(items, [
           Assign(Name("_mp1"), MeasureOf(a)),
           Assign(Name("_mp2"), MeasureOf(b)),
           Assign(Tuple([Name("_m1"), Name("_m2")]), Call(Attribute(Name("bp"), "execute"), [Name("_mp1"), Name("_mp2")], [])),
           ExprStmt(Name("_m1")),
           Assign(Name(x), OtherExpr([])),
           ExprStmt(Name("_m2"))]))))
  {
    var items := [WithItem(Call(Name("allocate"), [], []), Some(Name(q)))];
    ExampleWalk(a, b, x);
    ExampleHoist(a, b, x);
    assert VisitStmt(InitialContext(), With(items, ExampleBody(a, b, x))) == VisitAllocation(InitialContext(), items, ExampleBody(a, b, x));
  }
}
