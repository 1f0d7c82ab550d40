/** What the functor lookups of the preamble see once a translated module has
    been run: `qdef` flags a function, the wiring statements set its `__adj__`
    and `__ctl__` attributes, and `Adjoint[op]` / `Controlled[op]` read them
    back. Function objects are known by the name they were defined under. */
module Runtime {
  import opened Wrappers
  import opened Syntax
  import opened Seqs
  import Preamble
  import AdjointComputer
  import ControlledComputer
  import opened BodyTranslator

  type PyError = Preamble.PyError

  /** A function object as the lookups see it: the `__isqdef__` flag and the
      two functor attributes, each naming the function it was set to. */
  datatype Operation = Operation(isQdef: bool, adj: Option<string>, ctl: Option<string>)

  /** A freshly defined function: no flag, no attributes. */
  const Undecorated := Operation(false, None, None)

  // ------------------------------------------------------------------ qdef

  /** A positional argument of `qdef`. */
  datatype Argument = CallableArg(op: Operation) | OtherArg

  /** What `qdef(*args, **kwargs)` returns: the decorated function itself, or a decorator. */
  datatype QdefResult = Decorated(op: Operation) | Decorator

  /** The decorator `qdef` returns: it flags the function and returns it. */
  function ApplyQdef(op: Operation): (r: Operation)
    ensures r.isQdef && r.adj == op.adj && r.ctl == op.ctl
  {
    op.(isQdef := true)
  }

  /** `qdef(*args, **kwargs)`: a single callable argument and no keywords is
      the bare use `@qdef`, which decorates at once; anything else returns the
      decorator. */
  function Qdef(args: seq<Argument>, keywordCount: nat): (r: QdefResult)
    ensures r.Decorated? <==> |args| == 1 && keywordCount == 0 && args[0].CallableArg?
    ensures r.Decorated? ==> r.op == ApplyQdef(args[0].op)
  {
    if |args| == 1 && keywordCount == 0 && args[0].CallableArg? then Decorated(ApplyQdef(args[0].op))
    else Decorator
  }

  /** Bare `@qdef` and called `@qdef(...)`, whatever its keywords, decorate a
      function alike. The bare form hands the function to `qdef` at once; the
      called form gets the decorator back and applies it. */
  lemma QdefFormsAgree(op: Operation, kws: seq<Keyword>)
    ensures Decorate([Name("qdef")], op) == Decorate([Call(Name("qdef"), [], kws)], op)
    ensures Qdef([CallableArg(op)], 0) == Decorated(Decorate([Name("qdef")], op))
    ensures Qdef([], |kws|) == Decorator
  {
  }

  /** A decorator expression that is `qdef` or a call of it. */
  predicate IsQdefDecorator(d: Expr)
  {
    d == Name("qdef") || (d.Call? && d.func == Name("qdef"))
  }

  /** Decorators apply bottom-up, the last in the list first; those other than
      `qdef` are taken to return the function unchanged. */
  function Decorate(decorators: seq<Expr>, op: Operation): (r: Operation)
    ensures r.isQdef <==> op.isQdef || exists i :: 0 <= i < |decorators| && IsQdefDecorator(decorators[i])
    ensures r.adj == op.adj && r.ctl == op.ctl
  {
    if |decorators| == 0 then op
    else
      var d := Last(decorators);
      var op' := if IsQdefDecorator(d) then ApplyQdef(op) else op;
      var r := Decorate(DropLast(decorators), op');
      assert forall i :: 0 <= i < |DropLast(decorators)| ==> DropLast(decorators)[i] == decorators[i];
      r
  }

  // ------------------------------------------------------------------ functor lookup

  datatype Functor = AdjointOf | ControlledOf

  function Attribute(op: Operation, f: Functor): Option<string>
  {
    if f.AdjointOf? then op.adj else op.ctl
  }

  /** The functions defined so far, by name. */
  type Env = map<string, Operation>

  /** `Adjoint[op]` / `Controlled[op]`: an operation without the qdef flag is
      refused, an operation without the attribute has none to give. */
  function LookupFunctor(env: Env, f: Functor, name: string): (r: Result<string, PyError>)
    ensures name !in env ==> r == Err(Preamble.NameError)
    ensures name in env && !env[name].isQdef ==> r == Err(Preamble.RuntimeError)
    ensures name in env && env[name].isQdef && Attribute(env[name], f).None? ==> r == Err(Preamble.AttributeError)
    ensures r.Ok? <==> name in env && env[name].isQdef && Attribute(env[name], f).Some?
    ensures r.Ok? ==> r.value == Attribute(env[name], f).value
  {
    if name !in env then Err(Preamble.NameError)
    else if !env[name].isQdef then Err(Preamble.RuntimeError)
    else if Attribute(env[name], f).None? then Err(Preamble.AttributeError)
    else Ok(Attribute(env[name], f).value)
  }

  // ------------------------------------------------------------------ running definitions and wiring

  /** `setattr(obj, 'attr', value)` with plain names, as the wiring writes it. */
  predicate IsSetAttr(s: Stmt)
  {
    && s.ExprStmt? && s.expr.Call? && s.expr.func == Name("setattr") && |s.expr.keywords| == 0
    && |s.expr.args| == 3 && s.expr.args[0].Name? && s.expr.args[1].StrConst? && s.expr.args[2].Name?
  }

  function SetAttribute(op: Operation, attr: string, value: string): (r: Operation)
    ensures r.isQdef == op.isQdef
    ensures r.adj == if attr == "__adj__" then Some(value) else op.adj
    ensures r.ctl == if attr == "__ctl__" then Some(value) else op.ctl
  {
    if attr == "__adj__" then op.(adj := Some(value))
    else if attr == "__ctl__" then op.(ctl := Some(value))
    else op
  }

  /** Running one statement of a translated module: a definition binds its
      name to a fresh, decorated function; a wiring call needs both names bound
      and sets the attribute; other statements leave the functions alone. */
  function Exec(env: Env, s: Stmt): (r: Result<Env, PyError>)
    ensures r.Ok? ==> env.Keys <= r.value.Keys
    ensures s.Def? ==> r == Ok(env[s.fn.name := Decorate(s.fn.decorators, Undecorated)])
    ensures IsSetAttr(s) ==>
      var obj, attr, value := s.expr.args[0].id, s.expr.args[1].s, s.expr.args[2].id;
      && (r.Ok? <==> obj in env && value in env)
      && (r.Ok? ==> r.value == env[obj := SetAttribute(env[obj], attr, value)])
    ensures !s.Def? && !IsSetAttr(s) ==> r == Ok(env)
  {
    if s.Def? then Ok(env[s.fn.name := Decorate(s.fn.decorators, Undecorated)])
    else if IsSetAttr(s) then
      var obj, attr, value := s.expr.args[0].id, s.expr.args[1].s, s.expr.args[2].id;
      if obj !in env || value !in env then Err(Preamble.NameError)
      else Ok(env[obj := SetAttribute(env[obj], attr, value)])
    else Ok(env)
  }

  function Load(env: Env, stmts: seq<Stmt>): (r: Result<Env, PyError>)
    ensures r.Ok? ==> env.Keys <= r.value.Keys
    decreases |stmts|
  {
    if |stmts| == 0 then Ok(env)
    else
      var env1 :- Exec(env, stmts[0]);
      Load(env1, stmts[1..])
  }

  /** Running two blocks one after the other is running their concatenation. */
  lemma {:induction false} LoadAppend(env: Env, a: seq<Stmt>, b: seq<Stmt>)
    ensures Load(env, a + b) == if Load(env, a).Ok? then Load(Load(env, a).value, b) else Load(env, a)
    decreases |a|
  {
    if |a| == 0 {
      assert a + b == b;
    } else {
      assert (a + b)[0] == a[0];
      assert (a + b)[1..] == a[1..] + b;
      var e1 := Exec(env, a[0]);
      if e1.Ok? {
        LoadAppend(e1.value, a[1..], b);
      }
    }
  }

  // ------------------------------------------------------------------ derived variants at run time

  /** The three names of a definition and its variants are distinct. */
  lemma DerivedNamesDistinct(name: string)
    ensures var adj, ctl := AdjointComputer.DerivedName(name, "_adj"), AdjointComputer.DerivedName(name, "_ctl");
            name != adj && name != ctl && adj != ctl
  {
    var adj, ctl := AdjointComputer.DerivedName(name, "_adj"), AdjointComputer.DerivedName(name, "_ctl");
    assert |adj| > |name| && |ctl| > |name|;
    assert adj[|adj| - 1] == 'j' && ctl[|ctl| - 1] == 'l';
  }

  /** After `[Def(d)] + wiring(fn, d)` the definition `d` holds the attribute
      the wiring gave it. */
  lemma LoadVariant(env: Env, fn: string, d: FunctionDef, attr: string, back: string)
    requires fn in env && fn != d.name && (back == fn || back == d.name)
    ensures var block := [Def(d), SetAttr(fn, attr, d.name), SetAttr(d.name, attr, back)];
            var dOp := Decorate(d.decorators, Undecorated);
            Load(env, block)
            == Ok(env[d.name := SetAttribute(dOp, attr, back)][fn := SetAttribute(env[fn], attr, d.name)])
  {
    var dOp := Decorate(d.decorators, Undecorated);
    var block := [Def(d), SetAttr(fn, attr, d.name), SetAttr(d.name, attr, back)];
    var e1 := env[d.name := dOp];
    assert Exec(env, Def(d)) == Ok(e1);
    assert Load(env, block) == Load(e1, block[1..]);
    var e2 := e1[fn := SetAttribute(env[fn], attr, d.name)];
    assert IsSetAttr(block[1]);
    assert Exec(e1, block[1]) == Ok(e2);
    assert Load(e1, block[1..]) == Load(e2, block[2..]);
    var e3 := e2[d.name := SetAttribute(dOp, attr, back)];
    assert IsSetAttr(block[2]);
    assert Exec(e2, block[2]) == Ok(e3);
    assert Load(e2, block[2..]) == Load(e3, []);
    assert e3 == env[d.name := SetAttribute(dOp, attr, back)][fn := SetAttribute(env[fn], attr, d.name)];
  }

  /** The functions a qdef definition leaves behind once its translation has
      run, computed from the emitted statements themselves. */
  function VariantsAtRuntime(env: Env, c: Context, fn: FunctionDef, markDerived: bool): Result<Env, PyError>
    requires IsQdef(fn)
  {
    var r := DeriveVariants(c, fn);
    if r.Err? then Err(Preamble.NameError)
    else Load(env, if markDerived then MarkDerived(r.value.1) else r.value.1)
  }

  /** The evident intent: every derived definition is a quantum operation too,
      marked with the bare `qdef` decorator (a name, not a call, so the
      translator does not derive from it again). */
  function MarkDerived(stmts: seq<Stmt>): (r: seq<Stmt>)
    ensures |r| == |stmts|
    ensures forall i :: 0 <= i < |stmts| ==>
      r[i] == if stmts[i].Def? && stmts[i].fn.decorators == [] then Def(stmts[i].fn.(decorators := [Name("qdef")])) else stmts[i]
  {
    seq(|stmts|, i requires 0 <= i < |stmts| =>
      if stmts[i].Def? && stmts[i].fn.decorators == [] then Def(stmts[i].fn.(decorators := [Name("qdef")])) else stmts[i])
  }

  /** Running a definition and the blocks `_compute_adjoint` and
      `_compute_controlled` emit after it: the original carries the links the
      wiring gives it, the adjoint variant links back to the original, the
      controlled variant links to itself; each keeps the flag its own
      decorators give it. */
  lemma {:induction false} LoadEmitted(env: Env, fn: FunctionDef, a: FunctionDef, v: FunctionDef, adj: bool, ctl: bool)
    requires fn.name != a.name && fn.name != v.name && a.name != v.name
    ensures var r := Load(env, Emitted(fn, a, v, adj, ctl));
            && r.Ok?
            && fn.name in r.value
            && r.value[fn.name].isQdef == Decorate(fn.decorators, Undecorated).isQdef
            && r.value[fn.name].adj == (if adj then Some(a.name) else None)
            && r.value[fn.name].ctl == (if ctl then Some(v.name) else None)
            && (adj ==> a.name in r.value && r.value[a.name] == Operation(Decorate(a.decorators, Undecorated).isQdef, Some(fn.name), None))
            && (ctl ==> v.name in r.value && r.value[v.name] == Operation(Decorate(v.decorators, Undecorated).isQdef, None, Some(v.name)))
  {
    var head, aBlock, cBlock := [Def(fn)], AdjointBlock(fn, a, adj), ControlledBlock(fn, v, ctl);
    var e1 := env[fn.name := Decorate(fn.decorators, Undecorated)];
    assert Exec(env, Def(fn)) == Ok(e1);
    assert head[1..] == [];
    assert Load(env, head) == Ok(e1);
    LoadAdjointBlock(e1, fn, a, adj);
    var e2 := Load(e1, aBlock).value;
    LoadAppend(env, head, aBlock);
    LoadControlledBlock(e2, fn, v, ctl);
    LoadAppend(env, head + aBlock, cBlock);
    assert Emitted(fn, a, v, adj, ctl) == head + aBlock + cBlock;
  }

  /** The adjoint variant and its wiring, when asked for. */
  function AdjointBlock(fn: FunctionDef, a: FunctionDef, adj: bool): seq<Stmt>
  {
    if adj then [Def(a)] + WireAdjoints(fn.name, a.name) else []
  }

  /** The controlled variant and its wiring, when asked for. */
  function ControlledBlock(fn: FunctionDef, v: FunctionDef, ctl: bool): seq<Stmt>
  {
    if ctl then [Def(v)] + WireControlled(fn.name, v.name) else []
  }

  /** The statements the expansion emits for a definition fn whose adjoint
      variant is a and controlled variant is v, when both are asked for. */
  function Emitted(fn: FunctionDef, a: FunctionDef, v: FunctionDef, adj: bool, ctl: bool): seq<Stmt>
  {
    [Def(fn)] + AdjointBlock(fn, a, adj) + ControlledBlock(fn, v, ctl)
  }

  /** Running the adjoint block links the original to the variant and the
      variant back to the original. */
  lemma LoadAdjointBlock(env: Env, fn: FunctionDef, a: FunctionDef, adj: bool)
    requires fn.name in env && fn.name != a.name
    ensures var r := Load(env, AdjointBlock(fn, a, adj));
            && r.Ok?
            && fn.name in r.value
            && r.value[fn.name] == (if adj then SetAttribute(env[fn.name], "__adj__", a.name) else env[fn.name])
            && (adj ==> a.name in r.value && r.value[a.name] == SetAttribute(Decorate(a.decorators, Undecorated), "__adj__", fn.name))
  {
    if adj {
      LoadVariant(env, fn.name, a, "__adj__", fn.name);
    }
  }

  /** Running the controlled block links the original and the variant to the
      variant, and leaves every other function alone. */
  lemma LoadControlledBlock(env: Env, fn: FunctionDef, v: FunctionDef, ctl: bool)
    requires fn.name in env && fn.name != v.name
    ensures var r := Load(env, ControlledBlock(fn, v, ctl));
            && r.Ok?
            && fn.name in r.value
            && r.value[fn.name] == (if ctl then SetAttribute(env[fn.name], "__ctl__", v.name) else env[fn.name])
            && (ctl ==> v.name in r.value && r.value[v.name] == SetAttribute(Decorate(v.decorators, Undecorated), "__ctl__", v.name))
            && forall n :: n in env && n != fn.name && n != v.name ==> n in r.value && r.value[n] == env[n]
  {
    if ctl {
      LoadVariant(env, fn.name, v, "__ctl__", v.name);
    }
  }

  /** What the functor lookups find once the emitted statements have run for
      a flagged definition: the original leads to each variant, and a
      variant's own link can be followed exactly when the variant is flagged. */
  lemma LookupsAfterEmitted(env: Env, fn: FunctionDef, a: FunctionDef, v: FunctionDef, adj: bool, ctl: bool)
    requires fn.name != a.name && fn.name != v.name && a.name != v.name
    requires Decorate(fn.decorators, Undecorated).isQdef
    ensures var e := Load(env, Emitted(fn, a, v, adj, ctl));
            && e.Ok?
            && (adj ==>
                 && LookupFunctor(e.value, AdjointOf, fn.name) == Ok(a.name)
                 && LookupFunctor(e.value, AdjointOf, a.name)
                    == if Decorate(a.decorators, Undecorated).isQdef then Ok(fn.name) else Err(Preamble.RuntimeError))
            && (ctl ==>
                 && LookupFunctor(e.value, ControlledOf, fn.name) == Ok(v.name)
                 && LookupFunctor(e.value, ControlledOf, v.name)
                    == if Decorate(v.decorators, Undecorated).isQdef then Ok(v.name) else Err(Preamble.RuntimeError))
  {
    LoadEmitted(env, fn, a, v, adj, ctl);
  }

  /** The statements the expansion of a qdef definition emits, block by block. */
  lemma EmittedBlocks(c: Context, fn: FunctionDef)
    requires IsQdef(fn) && DeriveVariants(c, fn).Ok?
    ensures var a := AdjointComputer.AdjointVariant(fn);
            var v := ControlledComputer.ControlledVariant(c.counter, fn, c.insideClass);
            && (AutoControlled(fn) ==> v.Ok?)
            && DeriveVariants(c, fn).value.1
               == [Def(fn)] + (if AutoAdjoint(fn) then [Def(a)] + WireAdjoints(fn.name, a.name) else [])
                            + (if AutoControlled(fn) then [Def(v.value.0)] + WireControlled(fn.name, v.value.0.name) else [])
  {
  }

  /** The as-written translation: the derived definitions have no decorator,
      so they never carry the qdef flag and the links wired back from them
      cannot be followed. `Adjoint[f]` and `Controlled[f]` resolve, but
      `Adjoint[Adjoint[f]]` and `Controlled[Controlled[f]]` raise RuntimeError. */
  lemma DerivedVariantsAreNotOperations(env: Env, c: Context, fn: FunctionDef)
    requires IsQdef(fn) && DeriveVariants(c, fn).Ok?
    ensures var e := VariantsAtRuntime(env, c, fn, false);
            var adj := AdjointComputer.DerivedName(fn.name, "_adj");
            var ctl := AdjointComputer.DerivedName(fn.name, "_ctl");
            && e.Ok?
            && (AutoAdjoint(fn) ==>
                 && LookupFunctor(e.value, AdjointOf, fn.name) == Ok(adj)
                 && LookupFunctor(e.value, AdjointOf, adj) == Err(Preamble.RuntimeError))
            && (AutoControlled(fn) ==>
                 && LookupFunctor(e.value, ControlledOf, fn.name) == Ok(ctl)
                 && LookupFunctor(e.value, ControlledOf, ctl) == Err(Preamble.RuntimeError))
  {
    EmittedBlocks(c, fn);
    DerivedNamesDistinct(fn.name);
    var a := AdjointComputer.AdjointVariant(fn);
    var v := if AutoControlled(fn) then ControlledComputer.ControlledVariant(c.counter, fn, c.insideClass).value.0 else a.(name := AdjointComputer.DerivedName(fn.name, "_ctl"));
    var adj, ctl := AutoAdjoint(fn), AutoControlled(fn);
    assert DeriveVariants(c, fn).value.1 == Emitted(fn, a, v, adj, ctl);
    assert VariantsAtRuntime(env, c, fn, false) == Load(env, Emitted(fn, a, v, adj, ctl));
    assert Last(fn.decorators) == fn.decorators[|fn.decorators| - 1];
    LookupsAfterEmitted(env, fn, a, v, adj, ctl);
  }

  /** The corrected translation: with the derived definitions marked `qdef`,
      every wired link can be followed, so `Adjoint[Adjoint[f]]` is `f` and
      `Controlled[Controlled[f]]` is the controlled variant. */
  lemma MarkedVariantsAreOperations(env: Env, c: Context, fn: FunctionDef)
    requires IsQdef(fn) && DeriveVariants(c, fn).Ok?
    ensures var e := VariantsAtRuntime(env, c, fn, true);
            var adj := AdjointComputer.DerivedName(fn.name, "_adj");
            var ctl := AdjointComputer.DerivedName(fn.name, "_ctl");
            && e.Ok?
            && (AutoAdjoint(fn) ==>
                 && LookupFunctor(e.value, AdjointOf, fn.name) == Ok(adj)
                 && LookupFunctor(e.value, AdjointOf, adj) == Ok(fn.name))
            && (AutoControlled(fn) ==>
                 && LookupFunctor(e.value, ControlledOf, fn.name) == Ok(ctl)
                 && LookupFunctor(e.value, ControlledOf, ctl) == Ok(ctl))
  {
    EmittedBlocks(c, fn);
    DerivedNamesDistinct(fn.name);
    var a := AdjointComputer.AdjointVariant(fn);
    var v := if AutoControlled(fn) then ControlledComputer.ControlledVariant(c.counter, fn, c.insideClass).value.0 else a.(name := AdjointComputer.DerivedName(fn.name, "_ctl"));
    var a', v' := a.(decorators := [Name("qdef")]), v.(decorators := [Name("qdef")]);
    var adj, ctl := AutoAdjoint(fn), AutoControlled(fn);
    assert DeriveVariants(c, fn).value.1 == Emitted(fn, a, v, adj, ctl);
    MarkEmitted(fn, a, v, adj, ctl);
    assert VariantsAtRuntime(env, c, fn, true) == Load(env, Emitted(fn, a', v', adj, ctl));
    assert IsQdefDecorator(a'.decorators[0]) && IsQdefDecorator(v'.decorators[0]);
    assert Last(fn.decorators) == fn.decorators[|fn.decorators| - 1];
    LookupsAfterEmitted(env, fn, a', v', adj, ctl);
  }

  /** Marking the emitted statements marks exactly the two derived definitions. */
  lemma MarkEmitted(fn: FunctionDef, a: FunctionDef, v: FunctionDef, adj: bool, ctl: bool)
    requires |fn.decorators| > 0 && a.decorators == [] && v.decorators == []
    ensures MarkDerived(Emitted(fn, a, v, adj, ctl))
         == Emitted(fn, a.(decorators := [Name("qdef")]), v.(decorators := [Name("qdef")]), adj, ctl)
  {
    var stmts := Emitted(fn, a, v, adj, ctl);
    var marked := Emitted(fn, a.(decorators := [Name("qdef")]), v.(decorators := [Name("qdef")]), adj, ctl);
    assert |MarkDerived(stmts)| == |marked|;
    forall i | 0 <= i < |marked|
      ensures MarkDerived(stmts)[i] == marked[i]
    {
    }
  }
}
