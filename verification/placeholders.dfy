/** Where the measurements of an allocation block go, stated without the
    translation context: a reference count of the measurement calls in an
    expression, the expression with each such call replaced by its
    placeholder, and the calls recorded for hoisting, all in the post-order
    `visit_Call` meets them (callee, arguments, keywords, then the call). The
    laws connect this reference to the context-threading walk. */
module Placeholders {
  import opened Wrappers
  import opened Syntax
  import opened BodyTranslator

  // ------------------------------------------------------------ reference

  /** The number of measurement calls in e, nested ones included. */
  function Count(e: Expr): nat
    decreases e, 1
  {
    match e
    case Call(f, args, kws) =>
      Count(f) + CountAll(args) + CountKeywords(kws) + if IsMeasurement(e) then 1 else 0
    case Subscript(v, s) => Count(v) + Count(s)
    case Attribute(v, _) => Count(v)
    case Index(v) => Count(v)
    case BitAnd(l, r) => Count(l) + Count(r)
    case Tuple(es) => CountAll(es)
    case OtherExpr(cs) => CountAll(cs)
    case Name(_) => 0
    case BoolConst(_) => 0
    case StrConst(_) => 0
  }

  function CountAll(es: seq<Expr>): nat
    decreases es, 1
  {
    if |es| == 0 then 0 else Count(es[0]) + CountAll(es[1..])
  }

  function CountKeywords(kws: seq<Keyword>): nat
    decreases kws, 1
  {
    if |kws| == 0 then 0 else Count(kws[0].value) + CountKeywords(kws[1..])
  }

  /** e with its measurement calls replaced, in post-order, by the
      placeholders `_m<k+1>`, `_m<k+2>`, ... A measurement is replaced as a
      whole, so the placeholder of an outer call comes after those of the
      calls inside it. */
  function Substitute(e: Expr, k: nat): Expr
    decreases e, 1
  {
    match e
    case Call(f, args, kws) =>
      if IsMeasurement(e) then Name(MeasureName(k + Count(f) + CountAll(args) + CountKeywords(kws) + 1))
      else Rebuilt(f, args, kws, k)
    case Subscript(v, s) => Subscript(Substitute(v, k), Substitute(s, k + Count(v)))
    case Attribute(v, a) => Attribute(Substitute(v, k), a)
    case Index(v) => Index(Substitute(v, k))
    case BitAnd(l, r) => BitAnd(Substitute(l, k), Substitute(r, k + Count(l)))
    case Tuple(es) => Tuple(SubstituteAll(es, k))
    case OtherExpr(cs) => OtherExpr(SubstituteAll(cs, k))
    case Name(_) => e
    case BoolConst(_) => e
    case StrConst(_) => e
  }

  /** The call `f(args, kws)` with the measurements inside its parts replaced. */
  function Rebuilt(f: Expr, args: seq<Expr>, kws: seq<Keyword>, k: nat): Expr
    decreases Call(f, args, kws), 0
  {
    Call(Substitute(f, k), SubstituteAll(args, k + Count(f)), SubstituteKeywords(kws, k + Count(f) + CountAll(args)))
  }

  function SubstituteAll(es: seq<Expr>, k: nat): (r: seq<Expr>)
    ensures |r| == |es|
    decreases es, 1
  {
    if |es| == 0 then [] else [Substitute(es[0], k)] + SubstituteAll(es[1..], k + Count(es[0]))
  }

  function SubstituteKeywords(kws: seq<Keyword>, k: nat): (r: seq<Keyword>)
    ensures |r| == |kws|
    decreases kws, 1
  {
    if |kws| == 0 then []
    else [Keyword(kws[0].arg, Substitute(kws[0].value, k))] + SubstituteKeywords(kws[1..], k + Count(kws[0].value))
  }

  /** The measurement calls of e in post-order, each with the measurements
      inside it already replaced: the calls the walk records for hoisting. */
  function Measurements(e: Expr, k: nat): (r: seq<Expr>)
    ensures |r| == Count(e)
    decreases e, 2
  {
    match e
    case Call(f, args, kws) => MeasurementsOfCall(f, args, kws, k)
    case Subscript(v, s) => Measurements(v, k) + Measurements(s, k + Count(v))
    case Attribute(v, _) => Measurements(v, k)
    case Index(v) => Measurements(v, k)
    case BitAnd(l, r) => Measurements(l, k) + Measurements(r, k + Count(l))
    case Tuple(es) => MeasurementsAll(es, k)
    case OtherExpr(cs) => MeasurementsAll(cs, k)
    case Name(_) => []
    case BoolConst(_) => []
    case StrConst(_) => []
  }

  function MeasurementsOfCall(f: Expr, args: seq<Expr>, kws: seq<Keyword>, k: nat): (r: seq<Expr>)
    ensures |r| == Count(Call(f, args, kws))
    decreases Call(f, args, kws), 1
  {
    if IsMeasurement(Call(f, args, kws)) then CallInner(f, args, kws, k) + [Rebuilt(f, args, kws, k)]
    else CallInner(f, args, kws, k)
  }

  /** The measurements inside the parts of a call, in the order they are walked. */
  function CallInner(f: Expr, args: seq<Expr>, kws: seq<Keyword>, k: nat): (r: seq<Expr>)
    ensures |r| == Count(f) + CountAll(args) + CountKeywords(kws)
    decreases Call(f, args, kws), 0
  {
    Measurements(f, k) + MeasurementsAll(args, k + Count(f)) + MeasurementsKeywords(kws, k + Count(f) + CountAll(args))
  }

  function MeasurementsAll(es: seq<Expr>, k: nat): (r: seq<Expr>)
    ensures |r| == CountAll(es)
    decreases es, 2
  {
    if |es| == 0 then [] else Measurements(es[0], k) + MeasurementsAll(es[1..], k + Count(es[0]))
  }

  function MeasurementsKeywords(kws: seq<Keyword>, k: nat): (r: seq<Expr>)
    ensures |r| == CountKeywords(kws)
    decreases kws, 2
  {
    if |kws| == 0 then []
    else Measurements(kws[0].value, k) + MeasurementsKeywords(kws[1..], k + Count(kws[0].value))
  }

  // ------------------------------------------------------------ recording

  /** An allocation is open: there is a table to record into and a frame. */
  predicate Open(c: Context)
  {
    |c.tables| > 0 && |c.frames| > 0
  }

  /** How many measurements the innermost table holds. */
  function Top(c: Context): nat
    requires |c.tables| > 0
  {
    |Last(c.tables)|
  }

  /** The entries for calls met at statement `frame` after k earlier ones. */
  function Recorded(frame: int, calls: seq<Expr>, k: nat): (r: seq<Entry>)
    ensures |r| == |calls|
  {
    seq(|calls|, j requires 0 <= j < |calls| => Entry(frame, calls[j], MeasureName(k + j + 1)))
  }

  /** The context after the calls have been recorded at the current frame. */
  function Appended(c: Context, calls: seq<Expr>): (c': Context)
    requires Open(c)
    ensures Open(c') && Top(c') == Top(c) + |calls|
  {
    c.(tables := DropLast(c.tables) + [Last(c.tables) + Recorded(Last(c.frames), calls, Top(c))])
  }

  lemma RecordedAppend(frame: int, a: seq<Expr>, b: seq<Expr>, k: nat)
    ensures Recorded(frame, a, k) + Recorded(frame, b, k + |a|) == Recorded(frame, a + b, k)
  {
    var lhs, rhs := Recorded(frame, a, k) + Recorded(frame, b, k + |a|), Recorded(frame, a + b, k);
    forall j | 0 <= j < |rhs|
      ensures lhs[j] == rhs[j]
    {
      if j >= |a| {
        assert lhs[j] == Recorded(frame, b, k + |a|)[j - |a|];
      }
    }
  }

  /** Recording a, then b, is recording a + b. */
  lemma AppendedTwice(c: Context, a: seq<Expr>, b: seq<Expr>)
    requires Open(c)
    ensures Appended(Appended(c, a), b) == Appended(c, a + b)
  {
    RecordedAppend(Last(c.frames), a, b, Top(c));
    var c1, c2, c3 := Appended(c, a), Appended(Appended(c, a), b), Appended(c, a + b);
    assert Last(c2.tables) == Last(c3.tables);
    assert c2.tables == DropLast(c2.tables) + [Last(c2.tables)];
    assert c3.tables == DropLast(c3.tables) + [Last(c3.tables)];
  }

  /** Recording nothing changes nothing. */
  lemma AppendedNone(c: Context)
    requires Open(c)
    ensures Appended(c, []) == c
  {
    var c1 := Appended(c, []);
    assert Last(c1.tables) == Last(c.tables);
    assert c1.tables == DropLast(c1.tables) + [Last(c1.tables)];
    assert c.tables == DropLast(c.tables) + [Last(c.tables)];
  }

  /** `visit_Call` on a measurement records exactly that call. */
  lemma RecordIsAppended(c: Context, node: Expr)
    requires Open(c)
    ensures RecordMeasurement(c, node) == Ok((Appended(c, [node]), Name(MeasureName(Top(c) + 1))))
  {
    var r := RecordMeasurement(c, node).value.0;
    var c1 := Appended(c, [node]);
    assert Last(r.tables) == Last(c1.tables);
    assert r.tables == DropLast(r.tables) + [Last(r.tables)];
    assert c1.tables == DropLast(c1.tables) + [Last(c1.tables)];
  }

  /** A placeholder is never the name `measure`, so replacing the measurements
      inside a callee never turns it into `measure` or out of it. */
  lemma SubstitutedCallee(f: Expr, k: nat)
    ensures Substitute(f, k) == Name("measure") <==> f == Name("measure")
  {
    if f.Call? && IsMeasurement(f) {
      var n := MeasureName(k + Count(f));
      assert n[0] == '_';
      assert "measure"[0] == 'm';
    }
  }

  // ------------------------------------------------------------ the walk inside an allocation

  /** With an allocation open, walking an expression records its measurement
      calls in post-order under the next placeholders and replaces each by its
      placeholder; nothing else changes. */
  lemma {:induction false} WalkExpr(c: Context, e: Expr)
    requires Open(c)
    ensures VisitExpr(c, e) == Ok((Appended(c, Measurements(e, Top(c))), Substitute(e, Top(c))))
    decreases e, 4
  {
    match e
    case Call(f, args, kws) =>
      WalkCall(c, f, args, kws);
    case Subscript(v, s) =>
      WalkSubscript(c, v, s);
    case BitAnd(l, r) =>
      WalkBitAnd(c, l, r);
    case Tuple(es) =>
      WalkList(c, e, es);
    case OtherExpr(cs) =>
      WalkList(c, e, cs);
    case _ =>
      WalkSimple(c, e);
  }

  /** An attribute, an index or a leaf: at most one child, walked in place. */
  lemma {:induction false} WalkSimple(c: Context, e: Expr)
    requires Open(c)
    requires !e.Call? && !e.Subscript? && !e.BitAnd? && !e.Tuple? && !e.OtherExpr?
    ensures VisitExpr(c, e) == Ok((Appended(c, Measurements(e, Top(c))), Substitute(e, Top(c))))
    decreases e, 3
  {
    match e
    case Attribute(v, _) =>
      WalkExpr(c, v);
    case Index(v) =>
      WalkExpr(c, v);
    case _ =>
      AppendedNone(c);
  }

  /** A tuple or another expression: its children walked as a list. */
  lemma {:induction false} WalkList(c: Context, e: Expr, es: seq<Expr>)
    requires Open(c)
    requires e == Tuple(es) || e == OtherExpr(es)
    ensures VisitExpr(c, e) == Ok((Appended(c, Measurements(e, Top(c))), Substitute(e, Top(c))))
    decreases e, 3
  {
    WalkExprs(c, es);
    if e.Tuple? {
    } else {
    }
  }

  lemma {:induction false} WalkSubscript(c: Context, v: Expr, s: Expr)
    requires Open(c)
    ensures VisitExpr(c, Subscript(v, s))
            == Ok((Appended(c, Measurements(Subscript(v, s), Top(c))), Substitute(Subscript(v, s), Top(c))))
    decreases Subscript(v, s), 3
  {
    var k := Top(c);
    var mv := Measurements(v, k);
    WalkPair(c, Subscript(v, s), v, s);
    VisitSubscriptOfParts(c, v, s, Appended(c, mv), Substitute(v, k),
                     Appended(c, mv + Measurements(s, k + Count(v))), Substitute(s, k + Count(v)));
  }

  lemma {:induction false} WalkBitAnd(c: Context, l: Expr, r: Expr)
    requires Open(c)
    ensures VisitExpr(c, BitAnd(l, r))
            == Ok((Appended(c, Measurements(BitAnd(l, r), Top(c))), Substitute(BitAnd(l, r), Top(c))))
    decreases BitAnd(l, r), 3
  {
    var k := Top(c);
    var ml := Measurements(l, k);
    WalkPair(c, BitAnd(l, r), l, r);
    VisitBitAndOfParts(c, l, r, Appended(c, ml), Substitute(l, k),
                     Appended(c, ml + Measurements(r, k + Count(l))), Substitute(r, k + Count(l)));
  }

  /** Two operands walked in turn, as in a subscript or a conjunction: the
      second starts numbering where the first stopped. */
  lemma {:induction false} WalkPair(c: Context, e: Expr, a: Expr, b: Expr)
    requires Open(c)
    requires e == Subscript(a, b) || e == BitAnd(a, b)
    ensures var k := Top(c);
            var ma := Measurements(a, k);
            && VisitExpr(c, a) == Ok((Appended(c, ma), Substitute(a, k)))
            && VisitExpr(Appended(c, ma), b)
               == Ok((Appended(c, ma + Measurements(b, k + Count(a))), Substitute(b, k + Count(a))))
    decreases e, 2
  {
    WalkExpr(c, a);
    WalkExprAfter(c, Measurements(a, Top(c)), b, Top(c) + Count(a));
  }

  /** One step of the walk of a subscript or a conjunction once both operands
      are walked. */
  lemma VisitSubscriptOfParts(c: Context, a: Expr, b: Expr, c1: Context, a': Expr, c2: Context, b': Expr)
    requires VisitExpr(c, a) == Ok((c1, a')) && VisitExpr(c1, b) == Ok((c2, b'))
    ensures VisitExpr(c, Subscript(a, b)) == Ok((c2, Subscript(a', b')))
  {
  }

  lemma VisitBitAndOfParts(c: Context, a: Expr, b: Expr, c1: Context, a': Expr, c2: Context, b': Expr)
    requires VisitExpr(c, a) == Ok((c1, a')) && VisitExpr(c1, b) == Ok((c2, b'))
    ensures VisitExpr(c, BitAnd(a, b)) == Ok((c2, BitAnd(a', b')))
  {
  }

  /** The call case: the callee, the arguments and the keywords in turn, then
      the rebuilt call itself when it is a measurement. */
  lemma {:induction false} WalkCall(c: Context, f: Expr, args: seq<Expr>, kws: seq<Keyword>)
    requires Open(c)
    ensures VisitCall(c, f, args, kws)
            == Ok((Appended(c, MeasurementsOfCall(f, args, kws, Top(c))), Substitute(Call(f, args, kws), Top(c))))
    decreases Call(f, args, kws), 3
  {
    WalkCallHead(c, f, args, kws);
    WalkCallRest(c, f, args, kws);
  }

  /** The arguments and keywords after the callee, then the call itself. */
  lemma {:induction false} WalkCallRest(c: Context, f: Expr, args: seq<Expr>, kws: seq<Keyword>)
    requires Open(c)
    ensures CallTail(Appended(c, Measurements(f, Top(c))), Substitute(f, Top(c)), args, kws)
            == Ok((Appended(c, MeasurementsOfCall(f, args, kws, Top(c))), Substitute(Call(f, args, kws), Top(c))))
    decreases Call(f, args, kws), 2
  {
    var k := Top(c);
    var m, s, k' := Measurements(f, k), Substitute(f, k), k + Count(f);
    WalkCallTail(c, f, args, kws, m, s, k');
    WalkCallDone(c, f, args, kws, m, s, k');
  }

  /** The callee walked first. */
  lemma {:induction false} WalkCallHead(c: Context, f: Expr, args: seq<Expr>, kws: seq<Keyword>)
    requires Open(c)
    ensures VisitCall(c, f, args, kws) == CallTail(Appended(c, Measurements(f, Top(c))), Substitute(f, Top(c)), args, kws)
    decreases Call(f, args, kws), 2
  {
    WalkExpr(c, f);
    CallAfterCallee(c, f, args, kws, Appended(c, Measurements(f, Top(c))), Substitute(f, Top(c)));
  }

  lemma WalkCallDone(c: Context, f: Expr, args: seq<Expr>, kws: seq<Keyword>, m: seq<Expr>, s: Expr, k': nat)
    requires Open(c) && m == Measurements(f, Top(c)) && s == Substitute(f, Top(c)) && k' == Top(c) + Count(f)
    ensures CallDone(Appended(c, m + MeasurementsAll(args, k') + MeasurementsKeywords(kws, k' + CountAll(args))),
                     Call(s, SubstituteAll(args, k'), SubstituteKeywords(kws, k' + CountAll(args))))
            == Ok((Appended(c, MeasurementsOfCall(f, args, kws, Top(c))), Substitute(Call(f, args, kws), Top(c))))
  {
    var k := Top(c);
    CallInnerUnfolds(f, args, kws, k);
    RebuiltUnfolds(f, args, kws, k);
    CallRecorded(c, f, args, kws);
  }

  /** The positional arguments, then the keywords, numbered on from the
      calls recorded before them. */
  lemma {:induction false} WalkCallTail(c: Context, f: Expr, args: seq<Expr>, kws: seq<Keyword>, before: seq<Expr>, f': Expr, k: nat)
    requires Open(c) && k == Top(c) + |before|
    ensures var k' := k + CountAll(args);
            CallTail(Appended(c, before), f', args, kws)
            == CallDone(Appended(c, before + MeasurementsAll(args, k) + MeasurementsKeywords(kws, k')),
                        Call(f', SubstituteAll(args, k), SubstituteKeywords(kws, k')))
    decreases Call(f, args, kws), 1
  {
    var ma := MeasurementsAll(args, k);
    WalkExprsAfter(c, before, args, k);
    TailAfterArguments(Appended(c, before), f', args, kws, Appended(c, before + ma), SubstituteAll(args, k));
    WalkCallEnd(c, kws, before + ma, f', SubstituteAll(args, k), k + CountAll(args));
  }

  lemma {:induction false} WalkCallEnd(c: Context, kws: seq<Keyword>, before: seq<Expr>, f': Expr, args': seq<Expr>, k: nat)
    requires Open(c) && k == Top(c) + |before|
    ensures CallEnd(Appended(c, before), f', args', kws)
            == CallDone(Appended(c, before + MeasurementsKeywords(kws, k)), Call(f', args', SubstituteKeywords(kws, k)))
    decreases kws, 6
  {
    WalkKeywordsAfter(c, before, kws, k);
    EndAfterKeywords(Appended(c, before), f', args', kws, Appended(c, before + MeasurementsKeywords(kws, k)), SubstituteKeywords(kws, k));
  }

  lemma RebuiltUnfolds(f: Expr, args: seq<Expr>, kws: seq<Keyword>, k: nat)
    ensures Rebuilt(f, args, kws, k)
            == Call(Substitute(f, k), SubstituteAll(args, k + Count(f)), SubstituteKeywords(kws, k + Count(f) + CountAll(args)))
  {
  }

  lemma CallInnerUnfolds(f: Expr, args: seq<Expr>, kws: seq<Keyword>, k: nat)
    ensures CallInner(f, args, kws, k)
            == Measurements(f, k) + MeasurementsAll(args, k + Count(f)) + MeasurementsKeywords(kws, k + Count(f) + CountAll(args))
  {
  }

  /** The last step of `visit_Call`: a rebuilt measurement is recorded after
      the measurements inside it, anything else is kept. */
  lemma CallRecorded(c: Context, f: Expr, args: seq<Expr>, kws: seq<Keyword>)
    requires Open(c)
    ensures var k := Top(c);
            var inner := CallInner(f, args, kws, k);
            var node := Rebuilt(f, args, kws, k);
            CallDone(Appended(c, inner), node)
            == Ok((Appended(c, MeasurementsOfCall(f, args, kws, k)), Substitute(Call(f, args, kws), k)))
  {
    var k := Top(c);
    SubstitutedCallee(f, k);
    if IsMeasurement(Call(f, args, kws)) {
      MeasurementRecorded(c, f, args, kws);
    } else {
      CallKept(c, f, args, kws);
    }
  }

  /** Any other call is rebuilt from its walked parts and recorded nowhere. */
  lemma CallKept(c: Context, f: Expr, args: seq<Expr>, kws: seq<Keyword>)
    requires Open(c) && !IsMeasurement(Call(f, args, kws))
    ensures var k := Top(c);
            && MeasurementsOfCall(f, args, kws, k) == CallInner(f, args, kws, k)
            && Substitute(Call(f, args, kws), k) == Rebuilt(f, args, kws, k)
  {
  }

  /** A measurement is recorded after the measurements inside it, under the
      placeholder that replaces it. */
  lemma MeasurementRecorded(c: Context, f: Expr, args: seq<Expr>, kws: seq<Keyword>)
    requires Open(c) && IsMeasurement(Call(f, args, kws))
    ensures var k := Top(c);
            RecordMeasurement(Appended(c, CallInner(f, args, kws, k)), Rebuilt(f, args, kws, k))
            == Ok((Appended(c, MeasurementsOfCall(f, args, kws, k)), Substitute(Call(f, args, kws), k)))
  {
    var k := Top(c);
    RecordAfter(c, CallInner(f, args, kws, k), Rebuilt(f, args, kws, k));
    MeasurementUnfolds(f, args, kws, k);
  }

  lemma MeasurementUnfolds(f: Expr, args: seq<Expr>, kws: seq<Keyword>, k: nat)
    requires IsMeasurement(Call(f, args, kws))
    ensures var inner := CallInner(f, args, kws, k);
            && MeasurementsOfCall(f, args, kws, k) == inner + [Rebuilt(f, args, kws, k)]
            && Substitute(Call(f, args, kws), k) == Name(MeasureName(k + |inner| + 1))
  {
  }

  /** Recording one more call after some others. */
  lemma RecordAfter(c: Context, calls: seq<Expr>, node: Expr)
    requires Open(c)
    ensures RecordMeasurement(Appended(c, calls), node)
            == Ok((Appended(c, calls + [node]), Name(MeasureName(Top(c) + |calls| + 1))))
  {
    RecordIsAppended(Appended(c, calls), node);
    AppendedTwice(c, calls, [node]);
  }

  /** `visit_Call` split at its walks: after the callee, after the
      positional arguments, after the keywords. */
  function CallTail(c: Context, f': Expr, args: seq<Expr>, kws: seq<Keyword>): Result<(Context, Expr), TranslationError>
  {
    var p :- VisitExprs(c, args);
    CallEnd(p.0, f', p.1, kws)
  }

  function CallEnd(c: Context, f': Expr, args': seq<Expr>, kws: seq<Keyword>): Result<(Context, Expr), TranslationError>
  {
    var p :- VisitKeywords(c, kws);
    CallDone(p.0, Call(f', args', p.1))
  }

  function CallDone(c: Context, node: Expr): Result<(Context, Expr), TranslationError>
  {
    if IsMeasurement(node) then RecordMeasurement(c, node) else Ok((c, node))
  }

  lemma CallAfterCallee(c: Context, f: Expr, args: seq<Expr>, kws: seq<Keyword>, c1: Context, f': Expr)
    requires VisitExpr(c, f) == Ok((c1, f'))
    ensures VisitCall(c, f, args, kws) == CallTail(c1, f', args, kws)
  {
  }

  lemma TailAfterArguments(c: Context, f': Expr, args: seq<Expr>, kws: seq<Keyword>, c2: Context, args': seq<Expr>)
    requires VisitExprs(c, args) == Ok((c2, args'))
    ensures CallTail(c, f', args, kws) == CallEnd(c2, f', args', kws)
  {
  }

  lemma EndAfterKeywords(c: Context, f': Expr, args': seq<Expr>, kws: seq<Keyword>, c3: Context, kws': seq<Keyword>)
    requires VisitKeywords(c, kws) == Ok((c3, kws'))
    ensures CallEnd(c, f', args', kws) == CallDone(c3, Call(f', args', kws'))
  {
  }

  lemma {:induction false} WalkExprs(c: Context, es: seq<Expr>)
    requires Open(c)
    ensures VisitExprs(c, es) == Ok((Appended(c, MeasurementsAll(es, Top(c))), SubstituteAll(es, Top(c))))
    decreases es, 4
  {
    if |es| == 0 {
      AppendedNone(c);
    } else {
      WalkExpr(c, es[0]);
      WalkExprsAfter(c, Measurements(es[0], Top(c)), es[1..], Top(c) + Count(es[0]));
    }
  }

  lemma {:induction false} WalkKeywords(c: Context, kws: seq<Keyword>)
    requires Open(c)
    ensures VisitKeywords(c, kws) == Ok((Appended(c, MeasurementsKeywords(kws, Top(c))), SubstituteKeywords(kws, Top(c))))
    decreases kws, 4
  {
    if |kws| == 0 {
      AppendedNone(c);
    } else {
      WalkExpr(c, kws[0].value);
      WalkKeywordsAfter(c, Measurements(kws[0].value, Top(c)), kws[1..], Top(c) + Count(kws[0].value));
    }
  }

  /** The walks started after some calls are already recorded: numbering
      goes on from them. */
  lemma {:induction false} WalkExprAfter(c: Context, before: seq<Expr>, e: Expr, k: nat)
    requires Open(c) && k == Top(c) + |before|
    ensures VisitExpr(Appended(c, before), e) == Ok((Appended(c, before + Measurements(e, k)), Substitute(e, k)))
    decreases e, 5
  {
    WalkExpr(Appended(c, before), e);
    AppendedTwice(c, before, Measurements(e, k));
  }

  lemma {:induction false} WalkExprsAfter(c: Context, before: seq<Expr>, es: seq<Expr>, k: nat)
    requires Open(c) && k == Top(c) + |before|
    ensures VisitExprs(Appended(c, before), es) == Ok((Appended(c, before + MeasurementsAll(es, k)), SubstituteAll(es, k)))
    decreases es, 5
  {
    WalkExprs(Appended(c, before), es);
    AppendedTwice(c, before, MeasurementsAll(es, k));
  }

  lemma {:induction false} WalkKeywordsAfter(c: Context, before: seq<Expr>, kws: seq<Keyword>, k: nat)
    requires Open(c) && k == Top(c) + |before|
    ensures VisitKeywords(Appended(c, before), kws)
            == Ok((Appended(c, before + MeasurementsKeywords(kws, k)), SubstituteKeywords(kws, k)))
    decreases kws, 5
  {
    WalkKeywords(Appended(c, before), kws);
    AppendedTwice(c, before, MeasurementsKeywords(kws, k));
  }

  // ------------------------------------------------------------ allocation bodies

  /** A statement of an allocation body whose measurements the walk numbers
      directly: an expression statement or an assignment (target first). */
  predicate IsSimple(s: Stmt)
  {
    s.ExprStmt? || s.Assign?
  }

  function CountStmt(s: Stmt): nat
    requires IsSimple(s)
  {
    if s.ExprStmt? then Count(s.expr) else Count(s.target) + Count(s.rhs)
  }

  function MeasurementsStmt(s: Stmt, k: nat): (r: seq<Expr>)
    requires IsSimple(s)
    ensures |r| == CountStmt(s)
  {
    if s.ExprStmt? then Measurements(s.expr, k)
    else Measurements(s.target, k) + Measurements(s.rhs, k + Count(s.target))
  }

  function SubstituteStmt(s: Stmt, k: nat): Stmt
    requires IsSimple(s)
  {
    if s.ExprStmt? then ExprStmt(Substitute(s.expr, k))
    else Assign(Substitute(s.target, k), Substitute(s.rhs, k + Count(s.target)))
  }

  /** The entries recorded for statements i.. of an all-simple body, after k
      earlier ones: each call tagged with the index of its statement. */
  function BodyEntries(body: seq<Stmt>, i: nat, k: nat): (r: seq<Entry>)
    requires i <= |body| && forall j :: i <= j < |body| ==> IsSimple(body[j])
    decreases |body| - i
  {
    if i == |body| then []
    else Recorded(i, MeasurementsStmt(body[i], k), k) + BodyEntries(body, i + 1, k + CountStmt(body[i]))
  }

  /** Statements i.. with their measurements replaced, numbering after k. */
  function WalkedBody(body: seq<Stmt>, i: nat, k: nat): (r: seq<Stmt>)
    requires i <= |body| && forall j :: i <= j < |body| ==> IsSimple(body[j])
    ensures |r| == |body| - i
    decreases |body| - i
  {
    if i == |body| then []
    else [SubstituteStmt(body[i], k)] + WalkedBody(body, i + 1, k + CountStmt(body[i]))
  }

  /** Visiting a simple statement with an allocation open records its
      measurements (target before value) and replaces them in place. */
  lemma {:induction false} WalkSimpleStmt(c: Context, s: Stmt)
    requires Open(c) && IsSimple(s)
    ensures VisitStmt(c, s) == Ok((Appended(c, MeasurementsStmt(s, Top(c))), One(SubstituteStmt(s, Top(c)))))
  {
    if s.ExprStmt? {
      WalkExpr(c, s.expr);
    } else {
      WalkExpr(c, s.target);
      WalkExprAfter(c, Measurements(s.target, Top(c)), s.rhs, Top(c) + Count(s.target));
    }
  }

  /** The context the loop over an all-simple body leaves from statement i:
      the innermost table extended by BodyEntries and the frame at the last
      statement; the counter, the class flag and the outer levels unchanged. */
  function Walked(c: Context, body: seq<Stmt>, i: nat): (c': Context)
    requires Open(c) && i <= |body| && forall j :: i <= j < |body| ==> IsSimple(body[j])
  {
    var t := c.(tables := DropLast(c.tables) + [Last(c.tables) + BodyEntries(body, i, Top(c))]);
    if i == |body| then t else SetFrame(t, |body| - 1)
  }

  /** The loop over an all-simple allocation body from statement i, with k
      measurements recorded before it, succeeds with the walked body; see
      Walked for the context it leaves. */
  lemma {:induction false} WalkSimpleBody(c: Context, body: seq<Stmt>, i: nat, k: nat)
    requires Open(c) && i <= |body| && k == Top(c)
    requires forall j :: i <= j < |body| ==> IsSimple(body[j])
    ensures AllocationLoop(c, body, i) == Ok((Walked(c, body, i), WalkedBody(body, i, k)))
    decreases |body| - i
  {
    if i == |body| {
      assert Last(c.tables) + [] == Last(c.tables);
      assert c.tables == DropLast(c.tables) + [Last(c.tables)];
    } else {
      var c2, k2 := Appended(SetFrame(c, i), MeasurementsStmt(body[i], k)), k + CountStmt(body[i]);
      StepTop(c, body, i);
      WalkSimpleBody(c2, body, i + 1, k2);
      WalkStep(c, body, i, k, c2, k2);
    }
  }

  lemma StepTop(c: Context, body: seq<Stmt>, i: nat)
    requires Open(c) && i < |body| && IsSimple(body[i])
    ensures Top(Appended(SetFrame(c, i), MeasurementsStmt(body[i], Top(c)))) == Top(c) + CountStmt(body[i])
  {
    assert Top(SetFrame(c, i)) == Top(c);
  }

  lemma WalkStep(c: Context, body: seq<Stmt>, i: nat, k: nat, c2: Context, k2: nat)
    requires Open(c) && i < |body| && k == Top(c) && forall j :: i <= j < |body| ==> IsSimple(body[j])
    requires c2 == Appended(SetFrame(c, i), MeasurementsStmt(body[i], k)) && k2 == k + CountStmt(body[i])
    requires AllocationLoop(c2, body, i + 1) == Ok((Walked(c2, body, i + 1), WalkedBody(body, i + 1, k2)))
    ensures AllocationLoop(c, body, i) == Ok((Walked(c, body, i), WalkedBody(body, i, k)))
  {
    SimpleStep(c, body, i, Walked(c2, body, i + 1), WalkedBody(body, i + 1, k + CountStmt(body[i])));
    WalkedStep(c, body, i);
    WalkedBodyStep(body, i, k);
  }

  lemma WalkedBodyStep(body: seq<Stmt>, i: nat, k: nat)
    requires i < |body| && forall j :: i <= j < |body| ==> IsSimple(body[j])
    ensures WalkedBody(body, i, k) == [SubstituteStmt(body[i], k)] + WalkedBody(body, i + 1, k + CountStmt(body[i]))
  {
  }

  /** Walked after one statement's recording is Walked from that statement. */
  lemma WalkedStep(c: Context, body: seq<Stmt>, i: nat)
    requires Open(c) && i < |body| && forall j :: i <= j < |body| ==> IsSimple(body[j])
    ensures Walked(Appended(SetFrame(c, i), MeasurementsStmt(body[i], Top(c))), body, i + 1) == Walked(c, body, i)
  {
    var m := MeasurementsStmt(body[i], Top(c));
    var c2 := Appended(SetFrame(c, i), m);
    FramedAppend(c, i, m);
    BodyEntriesStep(Last(c.tables), body, i, Top(c));
    var w2, w := Walked(c2, body, i + 1), Walked(c, body, i);
    assert w2.tables == w.tables;
    assert w2.frames == w.frames;
  }

  lemma BodyEntriesStep(t: seq<Entry>, body: seq<Stmt>, i: nat, k: nat)
    requires i < |body| && forall j :: i <= j < |body| ==> IsSimple(body[j])
    ensures t + Recorded(i, MeasurementsStmt(body[i], k), k) + BodyEntries(body, i + 1, k + CountStmt(body[i]))
            == t + BodyEntries(body, i, k)
  {
  }

  /** One turn of the allocation loop on a simple statement. */
  lemma SimpleStep(c: Context, body: seq<Stmt>, i: nat, c3: Context, rest: seq<Stmt>)
    requires Open(c) && i < |body| && IsSimple(body[i])
    requires AllocationLoop(Appended(SetFrame(c, i), MeasurementsStmt(body[i], Top(c))), body, i + 1) == Ok((c3, rest))
    ensures AllocationLoop(c, body, i) == Ok((c3, [SubstituteStmt(body[i], Top(c))] + rest))
  {
    WalkSimpleStmt(SetFrame(c, i), body[i]);
    LoopStep(c, body, i, Appended(SetFrame(c, i), MeasurementsStmt(body[i], Top(c))), SubstituteStmt(body[i], Top(c)), c3, rest);
  }

  /** One turn of the allocation loop, given what the statement and the
      rest of the loop return. */
  lemma LoopStep(c: Context, body: seq<Stmt>, i: nat, c2: Context, s: Stmt, c3: Context, rest: seq<Stmt>)
    requires i < |body| && |c.frames| > 0 && |c.tables| > 0
    requires VisitStmt(SetFrame(c, i), body[i]) == Ok((c2, One(s)))
    requires |c2.frames| > 0 && |c2.tables| > 0
    requires AllocationLoop(c2, body, i + 1) == Ok((c3, rest))
    ensures AllocationLoop(c, body, i) == Ok((c3, [s] + rest))
  {
  }

  /** Recording at statement i's frame only touches the innermost table. */
  lemma FramedAppend(c: Context, i: int, m: seq<Expr>)
    requires Open(c)
    ensures var c2 := Appended(SetFrame(c, i), m);
            && |c2.tables| == |c.tables| && DropLast(c2.tables) == DropLast(c.tables)
            && Last(c2.tables) == Last(c.tables) + Recorded(i, m, Top(c))
            && |c2.frames| == |c.frames|
            && c2.counter == c.counter && c2.insideClass == c.insideClass
  {
    assert Last(SetFrame(c, i).frames) == i;
  }

  /** With every statement of the body simple, the allocation block becomes
      the body with each measurement replaced by `_m1`, `_m2`, ... in
      statement and post-order, hoisted behind the proxies of exactly those
      calls; with no measurement at all it fails. The context is unchanged. */
  lemma {:induction false} SimpleAllocationHoisting(c: Context, items: seq<WithItem>, body: seq<Stmt>)
    requires |items| > 0 && IsAllocation(items[0])
    requires forall j :: 0 <= j < |body| ==> IsSimple(body[j])
    ensures var entries := BodyEntries(body, 0, 0);
            VisitStmt(c, With(items, body))
            == if |entries| == 0 then Err(NoMeasurementInAllocation)
               else Ok((c, One(With(items, Hoist(WalkedBody(body, 0, 0), entries).value))))
  {
    var pushed := c.(tables := c.tables + [[]], frames := c.frames + [-1]);
    WalkSimpleBody(pushed, body, 0, 0);
    WalkedPushed(c, body);
    AllocationOfLoop(c, items, body, Walked(pushed, body, 0), WalkedBody(body, 0, 0));
  }

  /** The loop from a freshly pushed level leaves exactly BodyEntries on it
      and the levels below as they were. */
  lemma WalkedPushed(c: Context, body: seq<Stmt>)
    requires forall j :: 0 <= j < |body| ==> IsSimple(body[j])
    ensures var w := Walked(c.(tables := c.tables + [[]], frames := c.frames + [-1]), body, 0);
            && |w.tables| > 0 && |w.frames| > 0
            && DropLast(w.tables) == c.tables && DropLast(w.frames) == c.frames
            && Last(w.tables) == BodyEntries(body, 0, 0)
            && w.counter == c.counter && w.insideClass == c.insideClass
  {
    var pushed := c.(tables := c.tables + [[]], frames := c.frames + [-1]);
    assert Last(pushed.tables) + BodyEntries(body, 0, 0) == BodyEntries(body, 0, 0);
  }

  /** `visit_With` on an allocation, given what the loop over its body returns. */
  lemma AllocationOfLoop(c: Context, items: seq<WithItem>, body: seq<Stmt>, c3: Context, out: seq<Stmt>)
    requires |items| > 0 && IsAllocation(items[0])
    requires AllocationLoop(c.(tables := c.tables + [[]], frames := c.frames + [-1]), body, 0) == Ok((c3, out))
    requires |c3.tables| > 0 && |c3.frames| > 0
    requires DropLast(c3.tables) == c.tables && DropLast(c3.frames) == c.frames
    requires c3.counter == c.counter && c3.insideClass == c.insideClass
    ensures VisitStmt(c, With(items, body))
            == if |Last(c3.tables)| == 0 then Err(NoMeasurementInAllocation)
               else Ok((c, One(With(items, Hoist(out, Last(c3.tables)).value))))
  {
    assert VisitStmt(c, With(items, body)) == VisitAllocation(c, items, body);
  }
}
