# quoll: the translator, the functor run time and the configuration rules

Quoll is a small quantum language embedded in Python. A Quoll source file is a
Python module. Its `@qdef` functions are quantum operations. It opens qubit
scopes with `with allocate(...)` and branches on qubits with
`if superposition(q):`. The translator rewrites that module's syntax tree into
plain Python that drives Qiskit. This project models that rewrite, the parts of
the preamble that the rewritten code relies on, and the configuration lookups.

- **Translator** (`quoll/transpiler.py`):
  - Fresh names, one counter per base name (`Naming`).
  - Building `Adjoint[...]` and `Controlled[...]` wrappers, extending control
    data with `&`, and classifying callees (`Functors`).
  - Deriving the adjoint variant of a definition (`AdjointComputer`). Every
    call is wrapped in `Adjoint[...]`, then the statements are reversed.
  - Deriving the controlled variant (`ControlledComputer`). A fresh control
    parameter is added, every call is controlled by it, and calls that are
    already controlled get their control data extended.
  - The module-level pass (`BodyTranslator`), whose laws are proved in
    `TranslatorLaws`. It adds the boilerplate import. It hoists every
    measurement of an allocation block into one batched `bp.execute` call. It
    lowers `if superposition(...)` into a controlled `with` block. It expands
    each `@qdef(adj=True, ctl=True)` definition into the definition, its
    variants and the `setattr` wiring between them.
- **Preamble** (`quoll/preamble.py`, module `Preamble`):
  - Qubit registers: indexing, slicing and concatenation.
  - All-ones controls and their `&`.
  - The gate list of the multiplexed control.
  - Register-to-integer comparisons and the anti-control toggle schedule of
    `control(q == v)`.
  - The measurement-proxy cache.
- **Functor run time** (module `Runtime`): what `qdef`, the emitted `setattr`
  wiring and `Adjoint[op]` / `Controlled[op]` do once a translated module runs.
  The state is an environment from names to operations, which records the
  `__isqdef__` flag and the `__adj__`/`__ctl__` attributes.
- **Configuration** (`quoll/config.py`, module `Config`): the backend section
  that applies, the shots count with its fallback of 1024, and how a backend
  id `provider:backend` is resolved.

The syntax tree is the Python 3.8 one that the translator is written against.
In that tree, the slice of `F[x]` is an `Index(x)` node. Each exception the
translator can raise becomes a `TranslationError` value. Each exception the
run time can raise becomes a `Preamble.PyError` value. The translation context
is passed in and returned explicitly. It holds the name counter, the stacks of
hoisting tables and allocation frames, and the class-body flag.

`NodeTransformer` visits a node after `visit_Call` has changed it. The
controlled rewrite instead visits the original children and inserts the new
nodes afterwards. `ControlledComputer.InsertedNodesAreInert` shows the two give
the same tree, because an inserted node contains no call.

## Model

| member | source | states |
|---|---|---|
| Naming.NewName | quoll/transpiler.py:25-35 | The first request for a base returns the base itself. Later requests return `base_k`, where k is the number of earlier requests. Only that base's counter moves, by exactly one. |
| Naming.NewNamesSpelling | quoll/transpiler.py:28-35 | In any run of requests, the i-th name is the base spelled with the count of all earlier requests for the same base. |
| Naming.NewNamesDistinctPerBase | quoll/transpiler.py:28-35 | Two requests for the same base never return the same name. |
| Naming.CrossBaseCollision | quoll/transpiler.py:27-35 | Uniqueness holds per base only. Requesting `a`, `a`, `a_1` returns `a_1` twice. |
| Functors.WrapInFunctor | quoll/transpiler.py:98-101 | Wrapping adds exactly one kind outside the chain, so wrappers stack and never cancel. The innermost node is kept. The result is a functor application exactly when the kind is a functor and the wrapped node is a name or attribute. |
| Functors.ExtendControlData | quoll/transpiler.py:103-106 | The control conjuncts are the old ones followed by the new name, with no deduplication. |
| Functors.SignatureSeesOnlyOutermost | quoll/transpiler.py:123-131 | As written, a parsed chain classifies as Controlled exactly when its outermost wrapper is `Controlled`. |
| Functors.SignatureMissesInnerControlled | quoll/transpiler.py:123-131 | As written, `Adjoint[Controlled[X]]` classifies as Id. The intended walk classifies it as Controlled. |
| Functors.IntendedFindsControlledInChain | quoll/transpiler.py:123-131 | The corrected walk classifies any chain of wrappers as Controlled exactly when `Controlled` occurs in the chain. |
| Functors.VariantCallClassification | quoll/transpiler.py:113-131 | On the single-level functor calls that reach the classifier, both walks agree: `Controlled[f]` is Controlled and `Adjoint[f]` is Id. |
| AdjointComputer.DerivedName | quoll/transpiler.py:234-236 | The derived name is the name plus the suffix, with one leading underscore added when the name has none. It always starts with `_`. |
| AdjointComputer.AdjointVariant | quoll/transpiler.py:231-239 | The adjoint variant is named `_<name>_adj`. It keeps the parameters and has no decorators. Its body holds the rewritten statements in reverse order. |
| AdjointComputer.AdjointOfOperationCall | quoll/transpiler.py:76-79 | `f(a..)` becomes `Adjoint[f](a..)` with the arguments untouched. |
| AdjointComputer.AdjointOfVariantCall | quoll/transpiler.py:84-89 | A call through `K[f]` becomes a call through `Adjoint[K[f]]`, which adds one `Adjoint` wrapper to its kinds. |
| AdjointComputer.AdjointTwiceRestoresOrder | quoll/transpiler.py:211-214 | Deriving the adjoint twice restores the statement order. Each statement carries two rewrites. |
| AdjointComputer.AdjointWrappersNeverCancel | quoll/transpiler.py:92-101 | Worked example: deriving the adjoint of `f(q)` twice gives `Adjoint[Adjoint[f]](q)`, not `f(q)`. |
| AdjointComputer.BellStateAdjoint | samples/bell_translated.py:16-18 | Worked example: the Bell-state body derives `Adjoint[Controlled[X]]([c], t); Adjoint[H](c)`, as in the translated sample. |
| ControlledComputer.ControlledExprs | quoll/transpiler.py:52-71 | The list walk succeeds exactly when every element does. It then rewrites each element in place. |
| ControlledComputer.ControlledStmts | quoll/transpiler.py:254-255 | The controlled rewrite keeps statement order and count. It fails exactly when some statement's rewrite fails. |
| ControlledComputer.ControlledVariant | quoll/transpiler.py:241-256 | The controlled variant is named `_<name>_ctl` and has no decorators. A fresh `__control` name is inserted at position 0, or at 1 inside a class body. The other parameters keep their order. The counter advances by one. The body is the in-order controlled rewrite, and the variant fails exactly when that rewrite fails. |
| ControlledComputer.InsertedNodesAreInert | quoll/transpiler.py:52-71 | Visiting the inserted control name, `Controlled[...]` wrapper or `& ctl` node again changes nothing beyond the wrapped part. So visiting after insertion equals visiting before it. |
| ControlledComputer.ControlOfOperationCall | quoll/transpiler.py:53-57 | `f(a..)` becomes `Controlled[f](ctl, a..)`. With no argument the rewrite fails. |
| ControlledComputer.ControlOfAdjointCall | quoll/transpiler.py:59-64 | `Adjoint[f](a..)` becomes `Controlled[Adjoint[f]](ctl, a'..)`. |
| ControlledComputer.ControlOfControlledCall | quoll/transpiler.py:66-70 | `Controlled[f](c, a..)` keeps its callee and arity. Its first argument becomes `c' & ctl`. |
| ControlledComputer.ControlledFlattening | quoll/transpiler.py:59-71 | Controlling `f(a..)` under k ≥ 1 successive controls gives a single `Controlled[f]` wrapper. Its first argument is the conjunction of all k control names, in order. |
| BodyTranslator.RecordMeasurement | quoll/transpiler.py:197-202 | A measurement succeeds exactly when an allocation is open. The call is appended to the innermost table under the next `_m<k>` name, tagged with the current statement index, and is replaced by that name. |
| BodyTranslator.VisitExpr | quoll/transpiler.py:197-204 | Walking an expression only appends to the innermost hoisting table. It leaves the frames, the outer tables and the name counter alone. |
| BodyTranslator.VisitCall | quoll/transpiler.py:197-204 | On success the frames, the outer tables, the name counter and the class flag are kept. The innermost table only grows, by entries tagged with the current statement and named `_m<n>` after their position n. `Placeholders.WalkCall` gives the exact entries and result. |
| BodyTranslator.ExecuteAssignment | quoll/transpiler.py:262-265 | The batched statement assigns the placeholders `_m..` in table order from `bp.execute` applied to the proxies `_mp1`.. `_mpk`, so the j-th placeholder receives the j-th proxy's result. |
| BodyTranslator.Hoist | quoll/transpiler.py:161-173 | With no recorded measurement the block fails. Otherwise the block of k proxy assignments `_mp<j> = <call>` in table order and one batched `execute` is inserted at the first entry's statement. The body before and after that point is kept, in order. |
| BodyTranslator.DeriveVariants | quoll/transpiler.py:206-226 | The qdef expansion is the definition, then (for `adj=True`) the adjoint variant and its two wiring statements, then (for `ctl=True`) the controlled variant and its two wiring statements. Only the controlled variant uses up a fresh name. |
| BodyTranslator.AllocationLoop | quoll/transpiler.py:157-159 | Walking an allocation body keeps the stack depths. The innermost table grows only by entries of the statements walked, numbered by position and in statement order. |
| BodyTranslator.VisitAllocation | quoll/transpiler.py:151-177 | On success the table stack and the frame stack are exactly those before the block. |
| BodyTranslator.VisitStmt | quoll/transpiler.py:134-229 | Translating any statement keeps the frame stack. It only appends to the innermost hoisting table. |
| BodyTranslator.Translate | quoll/transpiler.py:142-149 | The translated module starts with `import quoll.boilerplate as bp`. An empty module fails. |
| Placeholders.WalkExpr | quoll/transpiler.py:197-204 | With an allocation open, walking any expression succeeds. The innermost table gains exactly the expression's measurement calls, in post-order (callee, arguments, keywords, then the call itself). Each is tagged with the current statement and named `_m<n+j>` after the n entries already there. The result is the expression with each of those calls replaced by its name. |
| Placeholders.WalkCall | quoll/transpiler.py:197-204 | For a call, the calls inside the callee, the arguments and the keywords are recorded first, with the smaller numbers. A measurement is then recorded after them, with its inner measurements already replaced, and becomes its own name. |
| Placeholders.WalkExprs | quoll/transpiler.py:197-198 | Walking an argument list records each argument's measurements in turn, numbering on from the previous argument, and replaces them in place. |
| Placeholders.WalkKeywords | quoll/transpiler.py:197-198 | Walking keyword arguments records each value's measurements in turn and keeps the keyword names. |
| Placeholders.RecordIsAppended | quoll/transpiler.py:199-202 | Recording one measurement appends exactly that call, under the name after the entries already in the table. |
| Placeholders.AppendedTwice | quoll/transpiler.py:199-202 | Recording calls a and then calls b numbers them exactly as recording a + b at once. |
| Placeholders.WalkSimpleStmt | quoll/transpiler.py:155-159 | In an allocation, an expression statement or an assignment records its measurements, the target's before the value's, and has them replaced in place. |
| Placeholders.WalkSimpleBody | quoll/transpiler.py:155-159 | On a body of expression statements and assignments, the allocation loop succeeds. The table gains every measurement of statement i tagged with i, numbered on across the statements in order. The body comes back with each statement's measurements replaced. |
| Placeholders.SimpleAllocationHoisting | quoll/transpiler.py:151-177 | For such a body, the allocation block fails exactly when the body has no measurement. Otherwise it is the hoisted block built from the walked body and exactly those entries, and the context is unchanged. |
| TranslatorLaws.MeasureOutsideAllocationFails | quoll/transpiler.py:197-202 | `measure(...)` with no allocation open aborts the translation. |
| TranslatorLaws.AllocationHoisting | quoll/transpiler.py:151-177 | An allocation block with k ≥ 1 measurements grows by exactly k+1 statements. The placeholders are `_m1`..`_mk` in encounter order. The proxies and `execute` go before the statement of the first measurement, and everything else keeps its place. With no measurement the block fails. |
| TranslatorLaws.MeasureStatement | quoll/transpiler.py:197-202 | The statement `measure(q)` inside an allocation is recorded in the innermost table under the next `_m<k>` name, tagged with the current statement index, and becomes that name. |
| TranslatorLaws.ExampleWalk | quoll/transpiler.py:155-159 | Walking `measure(a); x = ...; measure(b)` records `measure(a)` at statement 0 as `_m1` and `measure(b)` at statement 2 as `_m2`, and leaves the assignment alone. |
| TranslatorLaws.HoistingExample | quoll/transpiler.py:151-177 | For any registers a, b and name x, `measure(a); x = ...; measure(b)` in an allocation block becomes `_mp1 = measure(a); _mp2 = measure(b); (_m1, _m2) = bp.execute(_mp1, _mp2); _m1; x = ...; _m2`. |
| TranslatorLaws.SuperpositionLowering | quoll/transpiler.py:182-193 | `if superposition(arg): body` becomes `with superposition(arg) as __control*:` around the controlled body, using a fresh name. An else branch or a missing argument fails. The stacks are untouched. |
| TranslatorLaws.OnlyQdefDefinitionsExpand | quoll/transpiler.py:206-229 | A definition expands into several statements exactly when its last decorator is a call of `qdef`. Any other definition stays one definition with the same name and parameters. |
| Preamble.At | quoll/preamble.py:65-67 | Indexing succeeds exactly for -len ≤ i < len. It gives a one-qubit register of the same allocation. |
| Preamble.Slice | quoll/preamble.py:65-69 | A slice has Python's clamped bounds. It keeps the allocation and selects the qubits between those bounds. |
| Preamble.Concat | quoll/preamble.py:71-73 | `+` keeps the left allocation and lists the left qubits, then the right qubits. |
| Preamble.SliceSplitConcat | quoll/preamble.py:65-73 | `q[:k] + q[k:] == q` for every k, negative or out of range. |
| Preamble.IndexIsOneWideSlice | quoll/preamble.py:65-69 | `q[i]` equals `q[i:i+1]` and `q[i-len]`. |
| Preamble.ConcatAssociative | quoll/preamble.py:71-73 | Concatenation of registers is associative. |
| Preamble.NewControl | quoll/preamble.py:27-29 | Building a control fails exactly when no register is given. Otherwise it keeps the registers in order. |
| Preamble.And | quoll/preamble.py:37-40 | `control & other` lists the control's registers, then the other's, lifting a bare register to a one-register control. |
| Preamble.QubitsAnd | quoll/preamble.py:75-76 | `a & b` on two registers is the control of `[a, b]`. |
| Preamble.QubitsAndAsWritten | quoll/preamble.py:75-76 | `q & other` keeps both operands as they are, so a control on the right is stored as one nested value. |
| Preamble.RawControlQubits | quoll/preamble.py:174-181 | Gathering the control qubits fails with AttributeError exactly when some value is itself a control. |
| Preamble.RawControlOfRegisters | quoll/preamble.py:179-181 | When every value is a register, the gathered qubits are those of the registers, in order. |
| Preamble.RegisterAndControlBreaks | quoll/preamble.py:75-76 | As written, `q & ctl` with a control on the right makes the gathering raise AttributeError. |
| Preamble.QubitsAndIntendedQubits | quoll/preamble.py:37-40 | With the right operand lifted as `AllOneControl.__and__` does, `q & other` controls on q's qubits, then other's. On two registers it is `QubitsAnd`. |
| Preamble.AndAssociative | quoll/preamble.py:37-40 | `&` on controls is associative. |
| Preamble.ThreeWayControl | quoll/preamble.py:37-40 | `a & b & c` controls on `[a, b, c]`. Repeated registers are kept, not merged. |
| Preamble.ControlQubitsOfAnd | quoll/preamble.py:177-181 | The control qubits of `a & x` are those of a followed by those of x. |
| Preamble.MultiplexedControl | quoll/preamble.py:174-187 | For n control qubits there are 2^n gates. All are identities except the last, which is the gate. The operands are the target, then the control qubits in order. |
| Preamble.MultiplexedFiresOnAllOnes | quoll/preamble.py:174-187 | The only non-identity pattern is the all-ones value 2^n - 1. |
| Preamble.Equals | quoll/preamble.py:84-90 | Comparing with an int, and only with an int, gives a comparison carrying the register and that integer. |
| Preamble.IsMaxValue | quoll/preamble.py:78-82 | `is_max_value` is the comparison with 2^len - 1. |
| Preamble.RJust | quoll/preamble.py:294 | `rjust` pads on the left with the fill up to the width and never truncates. |
| Preamble.ZeroPositions | quoll/preamble.py:297-299 | The scan fails exactly when a `0` digit lies at or beyond the register length. Otherwise every position it lists holds a `0`. |
| Preamble.Schedule | quoll/preamble.py:295-302 | The toggles before the yield and after it are the same sequence. The register is yielded once, in the middle. |
| Preamble.ToggleScheduleMatchesZeroBits | quoll/preamble.py:292-299 | For 0 ≤ v < 2^len, the toggled qubits are exactly the indices of the zero bits of v, least significant first. |
| Preamble.MaxValueTogglesNothing | quoll/preamble.py:78-82 | Comparing with the all-ones value toggles no qubit. |
| Preamble.EmptyRegisterFails | quoll/preamble.py:294-299 | Comparing an empty register with 0 raises IndexError. |
| Preamble.LargeValues | quoll/preamble.py:294-299 | On one qubit, 2 toggles qubit 0 (its high bit is ignored) and 4 raises IndexError. |
| Preamble.NegativeValue | quoll/preamble.py:294 | Because `bin` keeps the sign, -2 on two qubits toggles the same qubit as 2. |
| Preamble.Measure | quoll/preamble.py:224-236 | Measuring an already measured register returns the cached proxy with the cache unchanged. Otherwise exactly one new proxy, for this register, is added. |
| Preamble.MeasureIdempotent | quoll/preamble.py:226-236 | Measuring the same register twice returns the same proxy and changes the cache once. |
| Preamble.MeasureKeepsEntries | quoll/preamble.py:226-236 | Measuring never changes or removes an existing cache entry. |
| Runtime.ApplyQdef | quoll/preamble.py:18-20 | The decorator sets the qdef flag and keeps the functor attributes. |
| Runtime.Qdef | quoll/preamble.py:14-22 | `qdef(f)` decorates directly exactly when given one callable and no keywords. Any other call returns a decorator. |
| Runtime.QdefFormsAgree | quoll/preamble.py:14-22 | For any keywords, decorating with `@qdef` and with `@qdef(...)` gives the same function. The bare form decorates at once and the called form returns the decorator. |
| Runtime.Decorate | quoll/preamble.py:14-22 | A function carries the qdef flag exactly when some decorator is `qdef` (bare or called). Its functor attributes are untouched. |
| Runtime.LookupFunctor | quoll/preamble.py:95-111 | `Adjoint[op]` and `Controlled[op]` raise RuntimeError unless op is flagged. They fail when the attribute is missing, and otherwise return what the attribute names. |
| Runtime.Exec | quoll/transpiler.py:275-289 | Running a definition binds its name to a fresh, decorated function. Running a wiring `setattr` sets exactly that attribute, and needs both names bound. Other statements leave the functions alone. |
| Runtime.DerivedNamesDistinct | quoll/transpiler.py:234-246 | A definition, its adjoint variant and its controlled variant have three different names. |
| Runtime.LoadVariant | quoll/transpiler.py:275-289 | Running a variant and its two wiring statements links the original to the variant and the variant to the given target. |
| Runtime.LoadEmitted | quoll/transpiler.py:206-226 | After the expansion runs, the original links to both variants. The adjoint variant links back to the original, and the controlled variant links to itself. Each keeps only the flag its own decorators give. |
| Runtime.LookupsAfterEmitted | quoll/preamble.py:95-111 | Once the emitted statements have run for a flagged definition, `Adjoint[f]` and `Controlled[f]` give the variants. A variant's own link can be followed exactly when the variant is flagged, and otherwise RuntimeError is raised. |
| Runtime.EmittedBlocks | quoll/transpiler.py:210-226 | The expansion is the definition followed by the variant blocks that its keywords ask for. |
| Runtime.DerivedVariantsAreNotOperations | quoll/transpiler.py:231-256 | As written, `Adjoint[f]` finds `_f_adj`, but `Adjoint[_f_adj]` raises RuntimeError, and likewise `Controlled[_f_ctl]`. |
| Runtime.MarkedVariantsAreOperations | quoll/transpiler.py:231-256 | With the variants marked as operations, `Adjoint[Adjoint[f]]` is `f` and `Controlled[Controlled[f]]` is `_f_ctl`, as the wiring intends. |
| Config.Split | quoll/config.py:30 | Splitting gives at least one piece, and no piece contains the separator. |
| Config.SplitJoin | quoll/config.py:30 | Joining the pieces back with the separator gives the original string. |
| Config.SectionId | quoll/config.py:80 | The id of a `backend:` section is everything after the first `:`, further colons included. |
| Config.MatchingSection | quoll/config.py:76-82 | The result is the first section, in file order, named `backend:*` or `backend:<id>`. When there is none, no section applies. |
| Config.WildcardCatchesAll | quoll/config.py:79-82 | A `backend:*` section makes every backend match, at that section or an earlier one. |
| Config.AppliesPrefixed | quoll/config.py:76-82 | The section `backend:<id>` applies to a backend exactly when id is `*` or is that backend's id. |
| Config.SectionIdIsWhole | quoll/config.py:79-82 | `backend:basicaer:qasm_simulator` applies to `basicaer:qasm_simulator` and not to `qasm_simulator`. A section named `backend` applies to nothing. |
| Config.GetShots | quoll/config.py:68-74 | The shots come from the applying section, else from the `[DEFAULT]` options, else 1024. They are 1024 when no section applies. |
| Config.NoSectionMeansFallback | quoll/config.py:68-74 | Worked example: with no sections, the shots are 1024 whatever the defaults say. |
| Config.ResolveBackend | quoll/config.py:36-41 | A provider absent from the table raises ValueError. Any present provider is asked for the named backend. |
| Config.GetBackend | quoll/config.py:29-30 | An id that does not split into exactly two pieces at `:` fails with TypeError. Otherwise the two pieces are resolved. |
| Config.ResolvedBackendJoinsBack | quoll/config.py:29-41 | A resolved provider and backend join back with `:` into the selected id. |
| Config.PairResolves | quoll/config.py:29-41 | `provider:backend` without further colons resolves exactly when the provider is in the table. |
| Config.DefaultBackendResolves | quoll/config.py:18-41 | The default `basicaer:qasm_simulator` resolves to `basicaer`/`qasm_simulator`. A table without `basicaer` refuses it. |

## Left out

- Building nodes by parsing templates (`ast.parse`) and `copy_location` source positions: only the resulting tree shapes are modelled.
- The `show_python` decorator, `_print_python` and `_resolve_path`: they write the generated module to a file.
- `set_backend`, `set_config_file`, `get_config_file` and `set_show_python`: these set or read module globals. The model takes the backend id and the parsed file as parameters.
- Reading `quoll.ini` with `ConfigParser`, including its lowercasing of option names. The file arrives parsed, with integer options.
- The provider table (`BasicAer`, `IBMQ`, `Aer`) and `provider.get_backend`: loading providers needs the network and Qiskit. The table is a set of provider ids, and a resolved backend is the pair of ids.
- Config.GetShots: a `shots` option that is not an integer (ValueError from `getint`) is not modelled, because options are integers.
- Qiskit circuits, registers, gate matrices and `UCG`: a gate list records the identity or the given gate, and operands record qubit ids.
- The gate bodies `X`, `H`, `R1`, `Z` and their hand-written variants; `head`, `tail`, `Unit`, `Allocation`, `allocate`, `reset` and `ResetContext`. These are thin wrappers over Qiskit or over Python's own behaviour.
- The `map` builtin replacement and its variants: thin wrappers over Python's `map`. `bp.wire_functors`, which wires them, is not part of this model.
- Preamble.Schedule: it lists which qubits are toggled on entry and exit. It does not model the gate calls, nor the toggles already applied before an IndexError is raised partway through the scan.
- Preamble.Equals: comparing with a non-integer falls back to object equality, which is modelled only as "no comparison".
- Decorators other than `qdef` are treated as leaving the function unchanged.
- Statements other than expression statements, assignments, `with`, `if`, definitions, classes, imports and `pass`: `for`, `while`, `return`, `try`, augmented assignment and the rest. In the source, `generic_visit` still rewrites the calls inside them: measurements are hoisted, calls are wrapped in `Adjoint[...]` (loop bodies are not reversed) and control is inserted. The model has no such statements, so these rewrites are not modelled.
- The bases, keywords and decorators of a class, which `generic_visit` also walks. A class here is its name and body. Also left out: parameter annotations, defaults, keyword-only parameters and slice steps.
- Placeholders.SimpleAllocationHoisting: the exact law covers bodies made only of expression statements and assignments. For a body with nested blocks, the model proves only how entries are framed, tagged and named (`BodyTranslator.AllocationLoop`, `TranslatorLaws.AllocationHoisting`).
- BodyTranslator.AllocationLoop: a `@qdef` definition directly inside an allocation body makes the source store a list where a statement belongs, which breaks the tree later. The model stops with `DefinitionInAllocationBody` instead.
- Measurement results and `bp.execute`: the batched call is modelled only as generated syntax.
- The measurement-proxy cache is passed in and returned, rather than being a module global. The classical register index is a parameter.

## Findings

| source | as written | input that shows it | evidently intended | confidence | as-written member | corrected member |
|---|---|---|---|---|---|---|
| quoll/transpiler.py:123-131 | The recursion goes into `.slice`. In the Python 3.8 tree this is the `Index` node, never a subscript, so only the outermost wrapper is examined. | `_identify_signature` applied to the tree of `Adjoint[Controlled[X]]` returns `'Id'`, although that callee takes a control first. The only call site accepts single-level applications only, so it is not affected. | Look through the `Index` node, so that a `Controlled` anywhere in the chain gives the Controlled signature. | medium; not executed | Functors.SignatureMissesInnerControlled | Functors.IntendedFindsControlledInChain |
| quoll/transpiler.py:237, quoll/transpiler.py:253 | The derived `_f_adj` and `_f_ctl` get an empty decorator list, so they never get `__isqdef__`. | For `@qdef(adj=True, ctl=True) def f(q): ...`, running the output makes `Adjoint[_f_adj]` and `Controlled[_f_ctl]` raise RuntimeError. So the back-links set by `setattr(_f_adj, '__adj__', f)` and `setattr(_f_ctl, '__ctl__', _f_ctl)` can never be read. | The derived variants are quantum operations too, as the hand-written `_X_ctl`, `_H_ctl` and `_R1_adj` in `quoll/preamble.py` are, so that `Adjoint[Adjoint[f]]` is `f`. | medium; not executed | Runtime.DerivedVariantsAreNotOperations | Runtime.MarkedVariantsAreOperations |
| quoll/preamble.py:75-76 | `Qubits.__and__` builds `AllOneControl(self, other)` without lifting `other`, so a control on the right is stored as one nested value. | Take `Controlled[f](a & b, t)` where f's body holds `Controlled[X](c, t)` with c a register. The controlled variant evaluates `c & __control` (quoll/transpiler.py:66-70) with `__control` an `AllOneControl`. `_multiplexed_control` then reads `qiskit_qubits` of that nested control and raises AttributeError. | Lift the right operand as `AllOneControl.__and__` does, so the control holds c's register followed by the control's registers. | medium; not executed | Preamble.RegisterAndControlBreaks | Preamble.QubitsAndIntendedQubits |

For the first finding, the controlled rewrite in this model classifies callees
with the corrected walk, `Functors.IdentifySignatureIntended`.
`Functors.VariantCallClassification` shows that on the callees the rewrite
classifies, the corrected walk agrees with the code as written. For the second
finding, `BodyTranslator` emits the variants as the source does. The corrected
behaviour is `Runtime.MarkDerived`, which gives each derived definition the
bare `qdef` decorator before the module runs.

For the third finding, `Preamble.QubitsAndIntended` is the corrected `&`. The
rest of the model applies `&` to a register only with a register on the right,
and `Preamble.QubitsAndIntendedQubits` shows that the two agree there.
