/** Functor algebra of the translator: building `Adjoint[...]`/`Controlled[...]`
    wrappers, extending a control argument with `&`, and classifying callees. */
module Functors {
  import opened Syntax

  datatype Signature = IdSignature | ControlledSignature

  /** The wrapper kinds of a chain `K1[K2[...[x]]]`, outermost first. */
  function WrapperKinds(e: Expr): seq<string>
  {
    if e.Subscript? && e.value.Name? && e.slice.Index? then [e.value.id] + WrapperKinds(e.slice.value) else []
  }

  /** The node at the bottom of a wrapper chain. */
  function Unwrapped(e: Expr): Expr
  {
    if e.Subscript? && e.value.Name? && e.slice.Index? then Unwrapped(e.slice.value) else e
  }

  /** `_wrap_in_functor`: `name[node]`. The wrapper adds exactly one kind on the
      outside of the chain (wrappers stack, they never cancel), keeps the wrapped
      node at the bottom, and is a single-level functor application exactly when
      the kind is a functor and the wrapped node is a name or attribute. */
  function WrapInFunctor(e: Expr, kind: string): (r: Expr)
    ensures WrapperKinds(r) == [kind] + WrapperKinds(e)
    ensures Unwrapped(r) == Unwrapped(e)
    ensures IsFunctorApplication(r) <==> kind in {AdjointFunctor, ControlledFunctor} && (e.Name? || e.Attribute?)
  {
    Subscript(Name(kind), Index(e))
  }

  function WrapInAdjoint(e: Expr): Expr
  {
    WrapInFunctor(e, AdjointFunctor)
  }

  function WrapInControlled(e: Expr): Expr
  {
    WrapInFunctor(e, ControlledFunctor)
  }

  /** `_extend_control_data`: `(data) & name`. The control conjuncts are the old
      ones followed by the new name, with no deduplication. */
  function ExtendControlData(data: Expr, extension: string): (r: Expr)
    ensures Conjuncts(r) == Conjuncts(data) + [Name(extension)]
    ensures |Conjuncts(r)| == |Conjuncts(data)| + 1
  {
    BitAnd(data, Name(extension))
  }

  /** `_is_operation_call`: there is no symbol table, any call of a plain name counts. */
  predicate IsOperationCall(e: Expr)
  {
    e.Call? && e.func.Name?
  }

  /** `_is_functor_application`: `Adjoint[n]` or `Controlled[n]` for a name or attribute n. */
  predicate IsFunctorApplication(e: Expr)
  {
    && e.Subscript?
    && e.value.Name?
    && e.value.id in {AdjointFunctor, ControlledFunctor}
    && e.slice.Index?
    && (e.slice.value.Name? || e.slice.value.Attribute?)
  }

  /** `_is_variant_call` */
  predicate IsVariantCall(e: Expr)
  {
    e.Call? && e.func.Subscript? && IsFunctorApplication(e.func)
  }

  /** `_identify_signature` as written: the recursion goes into `.slice`, which
      for a parsed `F[x]` is the `Index` node, never a subscript. */
  function IdentifySignature(e: Expr): Signature
  {
    if !e.Subscript? then IdSignature
    else if e.value == Name(ControlledFunctor) then ControlledSignature
    else IdentifySignature(e.slice)
  }

  /** The classification the wrapper-chain walk is meant to compute: look through
      the `Index` node into the wrapped expression. */
  function IdentifySignatureIntended(e: Expr): Signature
  {
    if !e.Subscript? then IdSignature
    else if e.value == Name(ControlledFunctor) then ControlledSignature
    else if e.slice.Index? then IdentifySignatureIntended(e.slice.value)
    else IdentifySignatureIntended(e.slice)
  }

  /** As written, only the outermost wrapper of a parsed chain decides. */
  lemma SignatureSeesOnlyOutermost(x: Expr, kind: string)
    ensures IdentifySignature(WrapInFunctor(x, kind)) == ControlledSignature <==> kind == ControlledFunctor
  {
  }

  /** The source's classification misses a `Controlled` under an `Adjoint`. */
  lemma SignatureMissesInnerControlled()
    ensures IdentifySignature(WrapInAdjoint(WrapInControlled(Name("X")))) == IdSignature
    ensures IdentifySignatureIntended(WrapInAdjoint(WrapInControlled(Name("X")))) == ControlledSignature
  {
  }

  /** Wrap a node in the given kinds, the first kind outermost. */
  function WrapAll(kinds: seq<string>, x: Expr): (r: Expr)
    ensures WrapperKinds(r) == kinds + WrapperKinds(x)
  {
    if |kinds| == 0 then x else WrapInFunctor(WrapAll(kinds[1..], x), kinds[0])
  }

  /** The intended walk finds a `Controlled` anywhere in a chain of wrappers. */
  lemma {:induction false} IntendedFindsControlledInChain(kinds: seq<string>, x: Expr)
    requires !x.Subscript?
    ensures IdentifySignatureIntended(WrapAll(kinds, x)) == ControlledSignature <==> ControlledFunctor in kinds
  {
    if |kinds| > 0 {
      IntendedFindsControlledInChain(kinds[1..], x);
      assert kinds == [kinds[0]] + kinds[1..];
    }
  }

  /** On single-level functor applications, the only callees the controlled
      rewrite classifies, both definitions agree: `Adjoint[f]` is Id and
      `Controlled[f]` is Controlled. */
  lemma VariantCallClassification(call: Expr)
    requires IsVariantCall(call)
    ensures IdentifySignature(call.func) == IdentifySignatureIntended(call.func)
    ensures IdentifySignature(call.func) == ControlledSignature <==> call.func.value.id == ControlledFunctor
    ensures IdentifySignature(call.func) == IdSignature <==> call.func.value.id == AdjointFunctor
  {
  }
}
