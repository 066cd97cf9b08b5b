/**
 * Near-equal contiguous partition of `n` items into `parts` pieces, the rule
 * shared by the block decomposition over MPI ranks and by the per-stream plan
 * of the accelerator launcher: every piece gets `n / parts` items and the first
 * `n % parts` pieces get one more; piece `i` starts at the sum of the pieces
 * before it.
 */
module Partition {

  /** Size of piece `i` of a near-equal split of `n` items into `parts` pieces. */
  function Share(n: nat, parts: nat, i: nat): nat
    requires parts > 0
  {
    n / parts + (if i < n % parts then 1 else 0)
  }

  /** All `parts` piece sizes, in piece order. */
  function Shares(n: nat, parts: nat): (r: seq<nat>)
    requires parts > 0
    ensures |r| == parts
  {
    seq(parts, i requires 0 <= i < parts => Share(n, parts, i))
  }

  /** Sum of a sequence of counts (peeling off the last element, so that
      `Sum(s[..i + 1]) == Sum(s[..i]) + s[i]` follows from the definition). */
  function Sum(s: seq<nat>): nat
  {
    if s == [] then 0 else Sum(s[..|s| - 1]) + s[|s| - 1]
  }

  /** Start of each piece: the running prefix sum of the sizes before it. */
  function Offsets(s: seq<nat>): (r: seq<nat>)
    ensures |r| == |s|
  {
    seq(|s|, i requires 0 <= i < |s| => Sum(s[..i]))
  }

  /** Item `x` lies in piece `i` of the tiling described by sizes `s`. */
  ghost predicate Owns(s: seq<nat>, i: nat, x: nat)
    requires i < |s|
  {
    Sum(s[..i]) <= x < Sum(s[..i]) + s[i]
  }

  function Min(a: nat, b: nat): nat
  {
    if a < b then a else b
  }

  lemma SumPrefixStep(s: seq<nat>, i: nat)
    requires i < |s|
    ensures Sum(s[..i + 1]) == Sum(s[..i]) + s[i]
  {
    assert s[..i + 1][..i] == s[..i];
  }

  lemma {:induction false} SumPrefixMonotone(s: seq<nat>, i: nat, j: nat)
    requires i <= j <= |s|
    ensures Sum(s[..i]) <= Sum(s[..j])
    decreases j - i
  {
    if i < j {
      SumPrefixStep(s, j - 1);
      SumPrefixMonotone(s, i, j - 1);
    }
  }

  /** `parts` sizes of `q`, the first `r` of them one larger. */
  function NearEqual(q: nat, r: nat, parts: nat): (s: seq<nat>)
    ensures |s| == parts
  {
    seq(parts, i requires 0 <= i < parts => q + (if i < r then 1 else 0))
  }

  lemma {:induction false} SumOfNearEqualPrefix(q: nat, r: nat, parts: nat, k: nat)
    requires k <= parts
    ensures Sum(NearEqual(q, r, parts)[..k]) == k * q + Min(k, r)
  {
    if k > 0 {
      SumOfNearEqualPrefix(q, r, parts, k - 1);
      SumPrefixStep(NearEqual(q, r, parts), k - 1);
      assert k * q == (k - 1) * q + q;
    }
  }

  /** The first `k` pieces hold `k * (n / parts)` items plus one for each of
      them below the remainder. */
  lemma SumOfSharePrefix(n: nat, parts: nat, k: nat)
    requires 0 < parts && k <= parts
    ensures Sum(Shares(n, parts)[..k]) == k * (n / parts) + Min(k, n % parts)
  {
    assert Shares(n, parts) == NearEqual(n / parts, n % parts, parts);
    SumOfNearEqualPrefix(n / parts, n % parts, parts, k);
  }

  /** The pieces of a near-equal split hold all `n` items. */
  lemma SumOfShares(n: nat, parts: nat)
    requires parts > 0
    ensures Sum(Shares(n, parts)) == n
  {
    SumOfSharePrefix(n, parts, parts);
    assert Shares(n, parts)[..parts] == Shares(n, parts);
  }

  /** Piece sizes never grow with the index and differ by at most one. */
  lemma SharesNearEqual(n: nat, parts: nat, i: nat, j: nat)
    requires 0 < parts && i <= j < parts
    ensures Shares(n, parts)[j] <= Shares(n, parts)[i] <= Shares(n, parts)[j] + 1
    ensures Shares(n, parts)[i] == n / parts || Shares(n, parts)[i] == n / parts + 1
  {
  }

  /** Consecutive pieces abut: piece `i + 1` starts where piece `i` ends, the
      first starts at 0 and the last ends at the total. */
  lemma OffsetsChain(s: seq<nat>, i: nat)
    requires i < |s|
    ensures Offsets(s)[0] == 0
    ensures i + 1 < |s| ==> Offsets(s)[i + 1] == Offsets(s)[i] + s[i]
    ensures i + 1 == |s| ==> Offsets(s)[i] + s[i] == Sum(s)
  {
    assert s[..0] == [];
    SumPrefixStep(s, i);
    assert s[..|s|] == s;
  }

  /** Every item below the total is owned by exactly one piece, and no item at
      or beyond the total is owned by any. */
  lemma {:induction false} ExactlyOneOwner(s: seq<nat>, x: nat)
    ensures x < Sum(s) ==> exists i :: 0 <= i < |s| && Owns(s, i, x)
    ensures forall i, j :: 0 <= i < |s| && 0 <= j < |s| && Owns(s, i, x) && Owns(s, j, x) ==> i == j
    ensures x >= Sum(s) ==> forall i :: 0 <= i < |s| ==> !Owns(s, i, x)
  {
    if x < Sum(s) {
      OwnerExists(s, x);
    }
    forall i, j | 0 <= i < |s| && 0 <= j < |s| && Owns(s, i, x) && Owns(s, j, x)
      ensures i == j
    {
      if i < j {
        SumPrefixStep(s, i);
        SumPrefixMonotone(s, i + 1, j);
      } else if j < i {
        SumPrefixStep(s, j);
        SumPrefixMonotone(s, j + 1, i);
      }
    }
    forall i | 0 <= i < |s|
      ensures Sum(s[..i]) + s[i] <= Sum(s)
    {
      SumPrefixStep(s, i);
      SumPrefixMonotone(s, i + 1, |s|);
      assert s[..|s|] == s;
    }
  }

  lemma {:induction false} OwnerExists(s: seq<nat>, x: nat)
    requires x < Sum(s)
    ensures exists i :: 0 <= i < |s| && Owns(s, i, x)
  {
    var k := |s| - 1;
    var init := s[..k];
    if x < Sum(init) {
      OwnerExists(init, x);
      var i :| 0 <= i < |init| && Owns(init, i, x);
      assert init[..i] == s[..i];
      assert Owns(s, i, x);
    } else {
      assert Owns(s, k, x);
    }
  }
}
