/** The run-time combinators the translated programs call: registers of qubits
    and their indexing, all-ones controls, the gate list of a multiplexed
    control, the anti-control schedule of `control`, and the cache of
    measurement proxies. Qubits, gates and circuits are opaque. */
module Preamble {
  import opened Wrappers
  import opened Seqs

  /** The exceptions the combinators raise. */
  datatype PyError = IndexError | AssertionError | RuntimeError | AttributeError | NameError

  /** A Qiskit qubit, known only by identity. */
  type Qubit = nat

  /** `Qubits`: an ordered list of qubits of one allocation (whose circuit is
      known only by identity). */
  datatype Qubits = Qubits(allocation: nat, qubits: seq<Qubit>)

  /** `len(q)` */
  function Len(q: Qubits): nat
  {
    |q.qubits|
  }

  function Pow2(n: nat): (p: nat)
    ensures p >= 1
  {
    if n == 0 then 1 else 2 * Pow2(n - 1)
  }

  // ------------------------------------------------------------------ registers

  /** `q[i]` with an int: a one-qubit register of the same allocation; a
      negative index counts from the end, and one out of range fails. */
  function At(q: Qubits, i: int): (r: Result<Qubits, PyError>)
    ensures r.Ok? <==> 0 <= i + Len(q) && i < Len(q)
    ensures r.Ok? ==> r.value.allocation == q.allocation && Len(r.value) == 1
  {
    if 0 <= i + Len(q) && i < Len(q) then Ok(Qubits(q.allocation, [q.qubits[if i < 0 then i + Len(q) else i]]))
    else Err(IndexError)
  }

  /** Where a step-1 slice bound lands: an omitted bound is the start (or the
      end), and a given one is clamped into the list like any list position. */
  function SliceBound(b: Option<int>, n: nat, omitted: nat): (k: nat)
    requires omitted <= n
    ensures k <= n
  {
    if b.None? then omitted else ClampIndex(b.value, n)
  }

  /** `q[lo:hi]`: the qubits between the two bounds, none when they cross;
      never fails. */
  function Slice(q: Qubits, lo: Option<int>, hi: Option<int>): (r: Qubits)
    ensures r.allocation == q.allocation
    ensures var a, b := SliceBound(lo, Len(q), 0), SliceBound(hi, Len(q), Len(q));
            && Len(r) == (if a <= b then b - a else 0)
            && (forall k :: 0 <= k < Len(r) ==> r.qubits[k] == q.qubits[a + k])
  {
    var a, b := SliceBound(lo, Len(q), 0), SliceBound(hi, Len(q), Len(q));
    Qubits(q.allocation, if a <= b then q.qubits[a..b] else [])
  }

  /** `q + more`: the qubits of both, in order, under the left operand's allocation. */
  function Concat(q: Qubits, more: Qubits): (r: Qubits)
    ensures r.allocation == q.allocation
    ensures Len(r) == Len(q) + Len(more)
    ensures r.qubits[..Len(q)] == q.qubits && r.qubits[Len(q)..] == more.qubits
  {
    Qubits(q.allocation, q.qubits + more.qubits)
  }

  /** Splitting a register at any position and concatenating the halves gives it back. */
  lemma SliceSplitConcat(q: Qubits, k: int)
    ensures Concat(Slice(q, None, Some(k)), Slice(q, Some(k), None)) == q
  {
    var m := ClampIndex(k, Len(q));
    assert Slice(q, None, Some(k)).qubits == q.qubits[..m];
    assert Slice(q, Some(k), None).qubits == q.qubits[m..];
    assert q.qubits[..m] + q.qubits[m..] == q.qubits;
  }

  /** An int index picks the same qubit as the one-wide slice starting there,
      and a negative index the same one as its non-negative counterpart. */
  lemma IndexIsOneWideSlice(q: Qubits, i: int)
    requires 0 <= i < Len(q)
    ensures At(q, i) == Ok(Slice(q, Some(i), Some(i + 1)))
    ensures At(q, i - Len(q)) == At(q, i)
  {
    assert Slice(q, Some(i), Some(i + 1)).qubits == [q.qubits[i]];
  }

  /** Concatenation is associative and keeps the leftmost allocation. */
  lemma ConcatAssociative(a: Qubits, b: Qubits, c: Qubits)
    ensures Concat(Concat(a, b), c) == Concat(a, Concat(b, c))
  {
    assert (a.qubits + b.qubits) + c.qubits == a.qubits + (b.qubits + c.qubits);
  }

  // ------------------------------------------------------------------ controls

  /** `AllOneControl(*values)`: control on every qubit of every value being 1. */
  datatype AllOneControl = AllOneControl(values: seq<Qubits>)

  /** What may stand on the right of `&`, or be passed as a control. */
  datatype Controller = Register(q: Qubits) | Control(c: AllOneControl)

  /** The constructor refuses an empty list of values. */
  function NewControl(values: seq<Qubits>): (r: Result<AllOneControl, PyError>)
    ensures r.Err? <==> |values| == 0
    ensures r.Ok? ==> r.value.values == values
  {
    if |values| == 0 then Err(AssertionError) else Ok(AllOneControl(values))
  }

  /** A bare register used as a control counts as a control on itself alone. */
  function Lift(x: Controller): (c: AllOneControl)
    ensures x.Register? ==> c.values == [x.q]
    ensures x.Control? ==> c == x.c
  {
    if x.Register? then AllOneControl([x.q]) else x.c
  }

  /** `control & other`: a new control holding the left's values followed by
      the right's; nothing is deduplicated and the operands are unchanged. */
  function And(control: AllOneControl, other: Controller): (r: AllOneControl)
    requires |control.values| > 0
    ensures |r.values| == |control.values| + |Lift(other).values|
    ensures r.values[..|control.values|] == control.values
    ensures r.values[|control.values|..] == Lift(other).values
  {
    NewControl(control.values + Lift(other).values).value
  }

  /** `q & other` on two registers: a control on exactly those two, in order. */
  function QubitsAnd(q: Qubits, other: Qubits): (r: AllOneControl)
    ensures NewControl([q, other]) == Ok(r)
  {
    AllOneControl([q, other])
  }

  /** Chaining `&` groups either way: the values come out in reading order. */
  lemma AndAssociative(a: AllOneControl, x: Controller, y: Controller)
    requires |a.values| > 0 && |Lift(x).values| > 0
    ensures And(And(a, x), y) == And(a, Control(And(Lift(x), y)))
  {
    assert (a.values + Lift(x).values) + Lift(y).values == a.values + (Lift(x).values + Lift(y).values);
  }

  /** `a & b & c` over three registers is a control on the three, in order,
      and a register may occur twice. */
  lemma ThreeWayControl(a: Qubits, b: Qubits, c: Qubits)
    ensures And(QubitsAnd(a, b), Register(c)).values == [a, b, c]
    ensures And(QubitsAnd(a, a), Register(a)).values == [a, a, a]
  {
    assert [a, b] + [c] == [a, b, c];
    assert [a, a] + [a] == [a, a, a];
  }

  /** The control qubits of a control, flattened in order. */
  function Flatten(values: seq<Qubits>): (r: seq<Qubit>)
  {
    if |values| == 0 then [] else values[0].qubits + Flatten(values[1..])
  }

  lemma {:induction false} FlattenAppend(a: seq<Qubits>, b: seq<Qubits>)
    ensures Flatten(a + b) == Flatten(a) + Flatten(b)
    decreases |a|
  {
    if |a| > 0 {
      assert (a + b)[1..] == a[1..] + b;
      FlattenAppend(a[1..], b);
    } else {
      assert a + b == b;
    }
  }

  /** Merging controls concatenates their control qubits. */
  lemma ControlQubitsOfAnd(a: AllOneControl, x: Controller)
    requires |a.values| > 0
    ensures Flatten(And(a, x).values) == Flatten(a.values) + Flatten(Lift(x).values)
  {
    assert And(a, x).values == a.values + Lift(x).values;
    FlattenAppend(a.values, Lift(x).values);
  }

  // ------------------------------------------------------------------ `&` on a register, any right operand

  /** The values of an `AllOneControl` built without lifting: each value is
      kept as it was given, register or control. */
  datatype RawControl = RawControl(values: seq<Controller>)

  /** `Qubits.__and__` as written: `AllOneControl(self, other)` whatever other
      is, so a control on the right ends up nested as a single value. */
  function QubitsAndAsWritten(q: Qubits, other: Controller): (r: RawControl)
    ensures |r.values| == 2 && r.values[0] == Register(q) && r.values[1] == other
  {
    RawControl([Register(q), other])
  }

  /** The control qubits `_multiplexed_control` gathers: the `qiskit_qubits`
      of each value in order. A nested control has no such attribute. */
  function RawControlQubits(values: seq<Controller>): (r: Result<seq<Qubit>, PyError>)
    ensures r.Err? <==> exists i :: 0 <= i < |values| && values[i].Control?
    ensures r.Err? ==> r.error == AttributeError
    decreases |values|
  {
    if |values| == 0 then Ok([])
    else if values[0].Control? then Err(AttributeError)
    else
      var rest := RawControlQubits(values[1..]);
      assert forall i :: 1 <= i < |values| ==> values[i] == values[1..][i - 1];
      if rest.Err? then rest else Ok(values[0].q.qubits + rest.value)
  }

  /** The registers a bare control is lifted to. */
  function Registers(vs: seq<Qubits>): (r: seq<Controller>)
    ensures |r| == |vs| && forall i :: 0 <= i < |vs| ==> r[i] == Register(vs[i])
  {
    seq(|vs|, i requires 0 <= i < |vs| => Register(vs[i]))
  }

  /** Values that are all registers give the flattened qubits of a control. */
  lemma {:induction false} RawControlOfRegisters(vs: seq<Qubits>)
    ensures RawControlQubits(Registers(vs)) == Ok(Flatten(vs))
    decreases |vs|
  {
    if |vs| > 0 {
      assert Registers(vs)[1..] == Registers(vs[1..]);
      RawControlOfRegisters(vs[1..]);
    }
  }

  /** As written, `q & ctl` with a control on the right cannot drive a
      multiplexed gate: gathering its control qubits raises AttributeError. */
  lemma RegisterAndControlBreaks(q: Qubits, ctl: AllOneControl)
    ensures RawControlQubits(QubitsAndAsWritten(q, Control(ctl)).values) == Err(AttributeError)
  {
    assert QubitsAndAsWritten(q, Control(ctl)).values[1].Control?;
  }

  /** `q & other` as `AllOneControl.__and__` does it: lift the register and
      merge, so the values stay registers. */
  function QubitsAndIntended(q: Qubits, other: Controller): (r: AllOneControl)
  {
    And(AllOneControl([q]), other)
  }

  /** The intended `q & other` controls on q's qubits, then other's; on two
      registers it is the `&` of registers. */
  lemma {:induction false} QubitsAndIntendedQubits(q: Qubits, other: Controller)
    ensures Flatten(QubitsAndIntended(q, other).values) == q.qubits + Flatten(Lift(other).values)
    ensures other.Register? ==> QubitsAndIntended(q, other) == QubitsAnd(q, other.q)
  {
    ControlQubitsOfAnd(AllOneControl([q]), other);
    assert Flatten([q]) == q.qubits + Flatten([q][1..]);
    assert [q][1..] == [];
  }

  // ------------------------------------------------------------------ multiplexed control

  /** A gate's matrix, kept opaque; only the identity is told apart. */
  datatype Matrix<G> = IdentityMatrix | MatrixOf(gate: G)

  /** The operand tuple of the appended gate: the target's qubit list, then
      each control qubit on its own. */
  datatype Operand = TargetQubits(qubits: seq<Qubit>) | ControlQubit(qubit: Qubit)

  /** A uniformly controlled gate appended to the circuit of an allocation. */
  datatype Append<G> = Append(allocation: nat, gates: seq<Matrix<G>>, operands: seq<Operand>)

  /** `_multiplexed_control(gate, control, target)`: with n control qubits, a
      list of 2^n matrices, identity for every control pattern except the last,
      appended to the target's circuit over the target and then the controls. */
  function MultiplexedControl<G>(gate: G, control: Controller, target: Qubits): (r: Append<G>)
    ensures var cq := Flatten(Lift(control).values);
            && r.allocation == target.allocation
            && |r.gates| == Pow2(|cq|)
            && (forall p :: 0 <= p < |r.gates| - 1 ==> r.gates[p] == IdentityMatrix)
            && r.gates[|r.gates| - 1] == MatrixOf(gate)
            && |r.operands| == 1 + |cq|
            && r.operands[0] == TargetQubits(target.qubits)
            && (forall i :: 0 <= i < |cq| ==> r.operands[1 + i] == ControlQubit(cq[i]))
  {
    var cq := Flatten(Lift(control).values);
    var patterns := Pow2(|cq|);
    Append(target.allocation,
           seq(patterns - 1, _ => IdentityMatrix) + [MatrixOf(gate)],
           [TargetQubits(target.qubits)] + seq(|cq|, i requires 0 <= i < |cq| => ControlQubit(cq[i])))
  }

  /** `all_ones_value()`: the largest integer the register can hold. */
  function AllOnesValue(q: Qubits): int
  {
    Pow2(Len(q)) - 1
  }

  /** The base gate is applied for exactly one control pattern: the register's
      all-ones value. */
  lemma MultiplexedFiresOnAllOnes<G>(gate: G, q: Qubits, target: Qubits, p: int)
    requires 0 <= p < Pow2(Len(q))
    ensures Flatten(Lift(Register(q)).values) == q.qubits
    ensures MultiplexedControl(gate, Register(q), target).gates[p] != IdentityMatrix <==> p == AllOnesValue(q)
  {
  }

  // ------------------------------------------------------------------ comparisons

  /** `q == n` for an int n: a comparison object, later read by `control`. */
  datatype QComparison = QComparison(qubits: Qubits, integer: int)

  /** The right operand of `==`. */
  datatype PyValue = IntValue(i: int) | OtherValue

  /** `q == another`: a comparison against an int; anything else falls back
      to the default equality, which is not modelled. */
  function Equals(q: Qubits, another: PyValue): (r: Option<QComparison>)
    ensures r.Some? <==> another.IntValue?
    ensures r.Some? ==> r.value.qubits == q && r.value.integer == another.i
  {
    if another.IntValue? then Some(QComparison(q, another.i)) else None
  }

  /** `is_max_value()`: the comparison against the all-ones value. */
  function IsMaxValue(q: Qubits): (r: QComparison)
    ensures Equals(q, IntValue(AllOnesValue(q))) == Some(r)
  {
    Equals(q, IntValue(AllOnesValue(q))).value
  }

  // ------------------------------------------------------------------ anti-control schedule

  /** The i-th binary digit of v, least significant first. */
  function Bit(v: nat, i: nat): (b: nat)
    ensures b < 2
  {
    if i == 0 then v % 2 else Bit(v / 2, i - 1)
  }

  function DigitOf(b: nat): char
  {
    if b == 0 then '0' else '1'
  }

  /** The binary numeral of v, most significant digit first, without leading zeros. */
  function Binary(v: nat): (s: string)
    ensures |s| >= 1
  {
    if v < 2 then [DigitOf(v)] else Binary(v / 2) + [DigitOf(v % 2)]
  }

  /** `bin(v)`: "0b" and the numeral, or "-0b" and the numeral of -v. */
  function PyBin(v: int): (s: string)
    ensures |s| >= 3
  {
    if v < 0 then "-0b" + Binary(-v) else "0b" + Binary(v)
  }

  /** `s.rjust(width, fill)` */
  function RJust(s: string, width: nat, fill: char): (r: string)
    ensures |r| == if |s| >= width then |s| else width
    ensures forall k :: 0 <= k < |r| ==> r[k] == if k < |r| - |s| then fill else s[k - (|r| - |s|)]
  {
    if |s| >= width then s else seq(width - |s|, _ => fill) + s
  }

  /** The loop over the reversed numeral from position i: every '0' at
      position j toggles `qubits[j]`, which fails once j reaches the register's
      length n; any other character is skipped. */
  function ZeroPositions(digits: string, n: nat, i: nat): (r: Result<seq<nat>, PyError>)
    requires i <= |digits|
    ensures r.Err? <==> exists j :: i <= j < |digits| && digits[j] == '0' && j >= n
    ensures r.Ok? ==> forall k :: 0 <= k < |r.value| ==> i <= r.value[k] < n && r.value[k] < |digits| && digits[r.value[k]] == '0'
    decreases |digits| - i
  {
    if i == |digits| then Ok([])
    else if digits[i] == '0' then
      if i >= n then Err(IndexError)
      else
        var rest :- ZeroPositions(digits, n, i + 1);
        Ok([i] + rest)
    else ZeroPositions(digits, n, i + 1)
  }

  /** The qubit indices `_map_on_zero_valued_indices` applies the gate to, in
      order: `bin(integer)[2:]`, right-justified with '0' to the register's
      length, read backwards so that position i holds bit i. */
  function Toggles(comp: QComparison): Result<seq<nat>, PyError>
  {
    var numeral := RJust(PyBin(comp.integer)[2..], Len(comp.qubits), '0');
    ZeroPositions(Reverse(numeral), Len(comp.qubits), 0)
  }

  /** One step of the context manager `control(comp)`. */
  datatype Event = Toggle(index: nat) | YieldRegister

  /** The generator: toggle on entry, yield the register to the block, toggle
      the same qubits again on exit. */
  function Schedule(comp: QComparison): (r: Result<seq<Event>, PyError>)
    ensures r.Err? <==> Toggles(comp).Err?
    ensures r.Ok? ==>
      var t := |Toggles(comp).value|;
      && |r.value| == 2 * t + 1
      && r.value[t] == YieldRegister
      && r.value[..t] == r.value[t + 1..]
      && (forall k :: 0 <= k < |r.value| && k != t ==> r.value[k].Toggle?)
  {
    var toggles :- Toggles(comp);
    var phase := seq(|toggles|, k requires 0 <= k < |toggles| => Toggle(toggles[k]));
    Ok(phase + [YieldRegister] + phase)
  }

  /** The indices below n whose bit of v is 0, ascending, from index i. */
  function ZeroBitsFrom(v: nat, i: nat, n: nat): seq<nat>
    decreases n - i
  {
    if i >= n then [] else (if Bit(v, i) == 0 then [i] else []) + ZeroBitsFrom(v, i + 1, n)
  }

  lemma {:induction false} BitOfZero(i: nat)
    ensures Bit(0, i) == 0
  {
    if i > 0 {
      BitOfZero(i - 1);
    }
  }

  /** Reading the numeral from its last digit gives the bits of v from the least significant. */
  lemma {:induction false} BinaryDigitAt(v: nat, i: nat)
    requires i < |Binary(v)|
    ensures Binary(v)[|Binary(v)| - 1 - i] == DigitOf(Bit(v, i))
  {
    if v >= 2 && i > 0 {
      BinaryDigitAt(v / 2, i - 1);
    }
  }

  /** The numeral has no more digits than the register when v fits, and every
      bit past the numeral is 0. */
  lemma {:induction false} BinaryLength(v: nat, n: nat)
    requires n >= 1 && v < Pow2(n)
    ensures |Binary(v)| <= n
  {
    if v >= 2 {
      assert n >= 2;
      BinaryLength(v / 2, n - 1);
    }
  }

  lemma {:induction false} BitsPastNumeral(v: nat, i: nat)
    requires i >= |Binary(v)|
    ensures Bit(v, i) == 0
  {
    if v < 2 {
      BitOfZero(i - 1);
    } else {
      BitsPastNumeral(v / 2, i - 1);
    }
  }

  lemma {:induction false} ZeroPositionsOfBits(digits: string, v: nat, n: nat, i: nat)
    requires |digits| == n && i <= n
    requires forall j :: 0 <= j < n ==> digits[j] == DigitOf(Bit(v, j))
    ensures ZeroPositions(digits, n, i) == Ok(ZeroBitsFrom(v, i, n))
    decreases n - i
  {
    if i < n {
      ZeroPositionsOfBits(digits, v, n, i + 1);
      if Bit(v, i) == 0 {
        assert digits[i] == '0';
      } else {
        assert digits[i] != '0';
        assert [] + ZeroBitsFrom(v, i + 1, n) == ZeroBitsFrom(v, i + 1, n);
      }
    }
  }

  /** For a value that fits the register (and a register of at least one
      qubit), qubit i is toggled exactly when bit i of the value is 0, in
      increasing order of i. */
  /** Padded to n digits and read backwards, the numeral of a value that
      fits lists its bits from the least significant. */
  lemma PaddedReverseAt(s: string, n: nat, j: nat)
    requires |s| <= n && j < n
    ensures |Reverse(RJust(s, n, '0'))| == n
    ensures Reverse(RJust(s, n, '0'))[j] == if j < |s| then s[|s| - 1 - j] else '0'
  {
    var numeral := RJust(s, n, '0');
    assert Reverse(numeral)[j] == numeral[n - 1 - j];
  }

  lemma PaddedBitAt(v: nat, n: nat, j: nat)
    requires n >= 1 && v < Pow2(n) && j < n
    ensures |Reverse(RJust(Binary(v), n, '0'))| == n
    ensures Reverse(RJust(Binary(v), n, '0'))[j] == DigitOf(Bit(v, j))
  {
    var s := Binary(v);
    BinaryLength(v, n);
    PaddedReverseAt(s, n, j);
    if j < |s| {
      PaddedBitInside(v, n, j);
    } else {
      PaddedBitOutside(v, n, j);
    }
  }

  lemma PaddedDigit(s: string, n: nat, j: nat, c: char)
    requires |s| <= n && j < n
    requires c == if j < |s| then s[|s| - 1 - j] else '0'
    ensures Reverse(RJust(s, n, '0'))[j] == c
  {
    PaddedReverseAt(s, n, j);
  }

  lemma PaddedBitInside(v: nat, n: nat, j: nat)
    requires j < |Binary(v)| <= n
    ensures Reverse(RJust(Binary(v), n, '0'))[j] == DigitOf(Bit(v, j))
  {
    BinaryDigitAt(v, j);
    PaddedDigit(Binary(v), n, j, DigitOf(Bit(v, j)));
  }

  lemma PaddedBitOutside(v: nat, n: nat, j: nat)
    requires |Binary(v)| <= j < n
    ensures Reverse(RJust(Binary(v), n, '0'))[j] == DigitOf(Bit(v, j))
  {
    BitsPastNumeral(v, j);
    PaddedDigit(Binary(v), n, j, DigitOf(Bit(v, j)));
  }

  lemma PaddedNumeralBits(v: nat, n: nat)
    requires n >= 1 && v < Pow2(n)
    ensures |Reverse(RJust(Binary(v), n, '0'))| == n
    ensures forall j :: 0 <= j < n ==> Reverse(RJust(Binary(v), n, '0'))[j] == DigitOf(Bit(v, j))
  {
    PaddedBitAt(v, n, 0);
    forall j | 0 <= j < n
      ensures Reverse(RJust(Binary(v), n, '0'))[j] == DigitOf(Bit(v, j))
    {
      PaddedBitAt(v, n, j);
    }
  }

  lemma ToggleScheduleMatchesZeroBits(q: Qubits, v: int)
    requires Len(q) >= 1 && 0 <= v < Pow2(Len(q))
    ensures Toggles(QComparison(q, v)) == Ok(ZeroBitsFrom(v, 0, Len(q)))
  {
    assert PyBin(v)[2..] == Binary(v);
    PaddedNumeralBits(v, Len(q));
    ZeroPositionsOfBits(Reverse(RJust(Binary(v), Len(q), '0')), v, Len(q), 0);
  }

  lemma {:induction false} AllOnesBits(n: nat, i: nat)
    requires i < n
    ensures Bit(Pow2(n) - 1, i) == 1
  {
    if i > 0 {
      assert (Pow2(n) - 1) / 2 == Pow2(n - 1) - 1;
      AllOnesBits(n - 1, i - 1);
    }
  }

  lemma {:induction false} NoZeroBits(v: nat, i: nat, n: nat)
    requires forall j :: i <= j < n ==> Bit(v, j) == 1
    ensures ZeroBitsFrom(v, i, n) == []
    decreases n - i
  {
    if i < n {
      NoZeroBits(v, i + 1, n);
    }
  }

  /** `control(q.is_max_value())` toggles nothing: it is a plain all-ones control. */
  lemma MaxValueTogglesNothing(q: Qubits)
    requires Len(q) >= 1
    ensures Toggles(IsMaxValue(q)) == Ok([])
  {
    ToggleScheduleMatchesZeroBits(q, AllOnesValue(q));
    forall j | 0 <= j < Len(q)
      ensures Bit(AllOnesValue(q), j) == 1
    {
      AllOnesBits(Len(q), j);
    }
    NoZeroBits(AllOnesValue(q), 0, Len(q));
  }

  /** An empty register fails even for the value 0, whose numeral "0" has a
      '0' at position 0. */
  lemma EmptyRegisterFails(allocation: nat)
    ensures Toggles(QComparison(Qubits(allocation, []), 0)) == Err(IndexError)
  {
    assert PyBin(0)[2..] == "0";
    assert Reverse("0") == "0";
  }

  /** A value too large for the register fails only when one of its extra
      digits is '0': 2 on one qubit toggles qubit 0, 4 on one qubit fails. */
  lemma LargeValues(q: Qubits)
    requires Len(q) == 1
    ensures Toggles(QComparison(q, 2)) == Ok([0])
    ensures Toggles(QComparison(q, 4)) == Err(IndexError)
  {
    assert Binary(2) == "10";
    assert PyBin(2)[2..] == "10";
    assert RJust("10", 1, '0') == "10";
    assert Reverse("10") == "01";
    assert ZeroPositions("01", 1, 1) == Ok([]);
    assert ZeroPositions("01", 1, 2) == Ok([]);
    assert ZeroPositions("01", 1, 1) == Ok([]);
    assert [0] + [] == [0];
    assert ZeroPositions("01", 1, 0) == Ok([0]);
    assert Binary(4) == "100";
    assert PyBin(4)[2..] == "100";
    assert Reverse("100") == "001";
    assert ZeroPositions("001", 1, 1) == Err(IndexError);
  }

  /** A negative value is not refused: the "-0b" prefix leaves a 'b' in the
      numeral, which is skipped, so -2 on two qubits acts like 2. */
  lemma NegativeValue(q: Qubits)
    requires Len(q) == 2
    ensures Toggles(QComparison(q, -2)) == Ok([0])
    ensures Toggles(QComparison(q, 2)) == Ok([0])
  {
    assert Binary(2) == "10";
    assert PyBin(-2)[2..] == "b10";
    assert RJust("b10", 2, '0') == "b10";
    assert Reverse("b10") == "01b";
    assert ZeroPositions("01b", 2, 1) == Ok([]);
    assert ZeroPositions("01b", 2, 3) == Ok([]);
    assert ZeroPositions("01b", 2, 2) == Ok([]);
    assert [0] + [] == [0];
    assert ZeroPositions("01b", 2, 0) == Ok([0]);
    assert PyBin(2)[2..] == "10";
    assert RJust("10", 2, '0') == "10";
    assert Reverse("10") == "01";
    assert ZeroPositions("01", 2, 1) == Ok([]);
    assert ZeroPositions("01", 2, 0) == Ok([0]);
  }

  // ------------------------------------------------------------------ measurement cache

  /** A measurement proxy: the allocation's circuit, the measured qubits and
      the classical register added for them. */
  datatype Proxy = Proxy(allocation: nat, qubits: seq<Qubit>, cregister: nat, width: nat)

  /** `_MEASUREMENT_PROXY_CACHE`, keyed by the tuple of measured qubits. */
  type Cache = map<seq<Qubit>, Proxy>

  /** `measure(register)`: the first measurement of a tuple of qubits measures
      them into a new classical register (`creg` numbers it) and caches a proxy;
      any later one returns the cached proxy. */
  function Measure(cache: Cache, register: Qubits, creg: nat): (r: (Proxy, Cache))
    ensures register.qubits in cache ==> r.0 == cache[register.qubits] && r.1 == cache
    ensures register.qubits !in cache ==>
      && r.1 == cache[register.qubits := r.0]
      && |r.1.Keys| == |cache.Keys| + 1
      && r.0 == Proxy(register.allocation, register.qubits, creg, Len(register))
  {
    var key := register.qubits;
    var cache' := if key in cache then cache else cache[key := Proxy(register.allocation, key, creg, Len(register))];
    (cache'[key], cache')
  }

  /** Measuring the same qubits again returns the proxy of the first
      measurement and leaves the cache as it was, whatever register number is
      offered the second time. */
  lemma MeasureIdempotent(cache: Cache, register: Qubits, creg: nat, again: nat)
    ensures var (p, cache1) := Measure(cache, register, creg);
            Measure(cache1, register, again) == (p, cache1)
  {
  }

  /** The cache only grows: no entry is ever replaced or removed. */
  lemma MeasureKeepsEntries(cache: Cache, register: Qubits, creg: nat)
    ensures var cache1 := Measure(cache, register, creg).1;
            forall key :: key in cache ==> key in cache1 && cache1[key] == cache[key]
  {
  }
}
