/** The fresh-name service of the translation context (`TranslationContext.newname`):
    a per-compilation counter from base name to the number of times it was requested. */
module Naming {

  type Counter = map<string, nat>

  /** Python's `str(n)` for a natural number. */
  function NatToString(n: nat): (s: string)
    ensures |s| >= 1
    ensures n >= 10 ==> |s| >= 2
    decreases n
  {
    if n < 10 then [DigitChar(n)] else NatToString(n / 10) + [DigitChar(n % 10)]
  }

  function DigitChar(d: nat): char
    requires d < 10
  {
    (48 + d) as char
  }

  /** Different numbers print differently. */
  lemma {:induction false} NatToStringInjective(a: nat, b: nat)
    requires NatToString(a) == NatToString(b)
    ensures a == b
    decreases a
  {
    if a >= 10 && b >= 10 {
      var sa, sb := NatToString(a), NatToString(b);
      assert sa[|sa| - 1] == DigitChar(a % 10);
      assert sb[|sb| - 1] == DigitChar(b % 10);
      assert NatToString(a / 10) == sa[..|sa| - 1] == sb[..|sb| - 1] == NatToString(b / 10);
      NatToStringInjective(a / 10, b / 10);
    }
  }

  /** How many times `base` was already requested (a defaultdict of 0). */
  function Count(counter: Counter, base: string): nat
  {
    if base in counter then counter[base] else 0
  }

  /** The name handed out on the request that finds `k` earlier requests of `base`. */
  function Spelling(base: string, k: nat): string
  {
    if k == 0 then base else base + "_" + NatToString(k)
  }

  /** Two requests for the same base with different history get different names. */
  lemma SpellingInjective(base: string, k1: nat, k2: nat)
    requires Spelling(base, k1) == Spelling(base, k2)
    ensures k1 == k2
  {
    if k1 != 0 && k2 != 0 {
      var s1, s2 := Spelling(base, k1), Spelling(base, k2);
      assert NatToString(k1) == s1[|base| + 1..] == s2[|base| + 1..] == NatToString(k2);
      NatToStringInjective(k1, k2);
    }
  }

  /** `newname(base)`: returns the base itself on its first request, `base_k` on the
      request that follows k earlier ones; only the counter of `base` moves, by one. */
  function NewName(counter: Counter, base: string): (r: (string, Counter))
    ensures Count(counter, base) == 0 ==> r.0 == base
    ensures Count(counter, base) > 0 ==> r.0 == base + "_" + NatToString(Count(counter, base))
    ensures Count(r.1, base) == Count(counter, base) + 1
    ensures forall b :: b != base ==> Count(r.1, b) == Count(counter, b)
  {
    var count := Count(counter, base);
    (Spelling(base, count), counter[base := count + 1])
  }

  /** A run of `newname` calls, one per base in order. */
  function NewNames(counter: Counter, bases: seq<string>): (r: (seq<string>, Counter))
    ensures |r.0| == |bases|
    decreases |bases|
  {
    if |bases| == 0 then ([], counter)
    else
      var (first, c1) := NewName(counter, bases[0]);
      var (rest, c2) := NewNames(c1, bases[1..]);
      ([first] + rest, c2)
  }

  /** The i-th name of a run is the base spelled with the number of earlier
      requests for it: those before the run plus those earlier in the run. */
  lemma {:induction false} NewNamesSpelling(counter: Counter, bases: seq<string>, i: nat)
    requires i < |bases|
    ensures NewNames(counter, bases).0[i]
         == Spelling(bases[i], Count(counter, bases[i]) + multiset(bases[..i])[bases[i]])
    decreases i
  {
    if i > 0 {
      var b := bases[i];
      var c1 := NewName(counter, bases[0]).1;
      NewNamesSpelling(c1, bases[1..], i - 1);
      assert bases[..i] == [bases[0]] + bases[1..][..i - 1];
      assert multiset(bases[..i])[b] == (if bases[0] == b then 1 else 0) + multiset(bases[1..][..i - 1])[b];
    }
  }

  /** Names handed out for the same base are pairwise distinct. */
  lemma NewNamesDistinctPerBase(counter: Counter, bases: seq<string>, i: nat, j: nat)
    requires i < j < |bases| && bases[i] == bases[j]
    ensures NewNames(counter, bases).0[i] != NewNames(counter, bases).0[j]
  {
    var names := NewNames(counter, bases).0;
    var b := bases[i];
    NewNamesSpelling(counter, bases, i);
    NewNamesSpelling(counter, bases, j);
    assert bases[..j] == bases[..i] + bases[i..j];
    assert bases[i..j][0] == b;
    assert multiset(bases[..j])[b] >= multiset(bases[..i])[b] + 1;
    if names[i] == names[j] {
      SpellingInjective(b, Count(counter, b) + multiset(bases[..i])[b], Count(counter, b) + multiset(bases[..j])[b]);
    }
  }

  /** Uniqueness holds per base only: the first request for "a_1" and the second
      request for "a" spell the same name. */
  lemma CrossBaseCollision()
    ensures NewNames(map[], ["a", "a", "a_1"]).0 == ["a", "a_1", "a_1"]
  {
    assert NatToString(1) == "1";
    assert Spelling("a", 1) == "a" + "_" + "1" == "a_1";
    var c1 := map["a" := 1];
    var c2 := map["a" := 2];
    assert NewName(map[], "a") == ("a", c1);
    assert Count(c1, "a") == 1;
    assert NewName(c1, "a").0 == "a_1";
    assert NewName(c1, "a").1 == c1["a" := 2] == c2;
    assert NewName(c2, "a_1").0 == "a_1";
  }
}
