/** Sequence operations that mirror Python list methods used by the passes. */
module Seqs {

  /** `list.reverse()`: the element at position i moves to position |s|-1-i. */
  function Reverse<T>(s: seq<T>): (r: seq<T>)
    ensures |r| == |s|
    ensures forall i :: 0 <= i < |s| ==> r[i] == s[|s| - 1 - i]
  {
    if |s| == 0 then [] else Reverse(s[1..]) + [s[0]]
  }

  /** Reversing twice restores the original order. */
  lemma ReverseInvolution<T>(s: seq<T>)
    ensures Reverse(Reverse(s)) == s
  {
  }

  /** Python clamps a list position into 0..|s| for `insert` and slice assignment;
      a negative position counts from the end. */
  function ClampIndex(i: int, n: nat): (k: nat)
    ensures k <= n
    ensures 0 <= i <= n ==> k == i
    ensures i > n ==> k == n
  {
    if i < 0 then (if i + n < 0 then 0 else i + n) else if i > n then n else i
  }

  /** `s[i:i] = xs`: splice xs in at (clamped) position i. */
  function Splice<T>(s: seq<T>, i: int, xs: seq<T>): (r: seq<T>)
    ensures |r| == |s| + |xs|
    ensures r[..ClampIndex(i, |s|)] == s[..ClampIndex(i, |s|)]
    ensures r[ClampIndex(i, |s|)..ClampIndex(i, |s|) + |xs|] == xs
    ensures r[ClampIndex(i, |s|) + |xs|..] == s[ClampIndex(i, |s|)..]
  {
    var k := ClampIndex(i, |s|);
    s[..k] + xs + s[k..]
  }

  /** `list.insert(i, x)` */
  function Insert<T>(s: seq<T>, i: int, x: T): (r: seq<T>)
    ensures |r| == |s| + 1
    ensures r[ClampIndex(i, |s|)] == x
    ensures r[..ClampIndex(i, |s|)] + r[ClampIndex(i, |s|) + 1..] == s
  {
    Splice(s, i, [x])
  }

}
