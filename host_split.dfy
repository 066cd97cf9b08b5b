/**
 * Setup arithmetic of hybrid/saxpy/main.cpp: the host thread count, the
 * per-rank item count, the device ratio and the split of the local items
 * between the device and the host threads.
 */
module HostSplit {
  import opened Wrappers
  import opened Partition
  import BlockDecomposition

  /** `size_t` is 64 bits wide. */
  const SizeMod: nat := 0x1_0000_0000_0000_0000

  /** A thread count of 0 means "ask the hardware"; any other count is kept. */
  function ResolveThreadCount(nThreads: int, hardwareConcurrency: nat): (t: int)
    ensures nThreads == 0 ==> t == hardwareConcurrency
    ensures nThreads != 0 ==> t == nThreads
  {
    if nThreads == 0 then hardwareConcurrency else nThreads
  }

  /** `N = blockDecompositionCount(N_ITEMS) << 20`: the rank's share of the
      item count, which is given in units of 2^20, as a 64-bit count. */
  method LocalItems(nItems: nat, np: nat, rank: nat) returns (n: nat)
    requires rank < np
    ensures n == (Share(nItems, np, rank) * 0x10_0000) % SizeMod
    ensures Share(nItems, np, rank) < 0x1000_0000_0000 ==> n == Share(nItems, np, rank) * 0x10_0000
  {
    var count := BlockDecomposition.Count(nItems, np, rank);
    n := (count * 0x10_0000) % SizeMod;
  }

  /** The device ratio: a negative ratio asks for `CUs / (CUs + threads)`, a
      ratio above 1 is clamped to 1, any other is kept. `None` stands for the
      NaN that `0 / 0.0` gives when there are neither CUs nor threads. */
  function ResolveRatio(ratio: real, cus: nat, threads: nat): (r: Option<real>)
    ensures r.None? <==> ratio < 0.0 && cus + threads == 0
    ensures r.Some? ==> 0.0 <= r.value <= 1.0
    ensures 0.0 <= ratio <= 1.0 ==> r == Some(ratio)
    ensures ratio > 1.0 ==> r == Some(1.0)
    ensures ratio < 0.0 && cus + threads > 0 ==> r.Some? && r.value * (cus + threads) as real == cus as real
    ensures ratio < 0.0 && threads == 0 && cus > 0 ==> r == Some(1.0)
    ensures ratio < 0.0 && cus == 0 && threads > 0 ==> r == Some(0.0)
  {
    if ratio < 0.0 then
      if cus + threads == 0 then None
      else
        var units := (cus + threads) as real;
        var q := cus as real / units;
        assert q * units == cus as real;
        assert threads == 0 ==> q == 1.0 by {
          if threads == 0 {
            assert q * cus as real == 1.0 * cus as real;
          }
        }
        Some(q)
    else if ratio > 1.0 then Some(1.0)
    else Some(ratio)
  }

  /** The two shares of `n` local items for a resolved ratio: the device gets
      `n * ratio` rounded down, the host threads the rest. */
  function Split(n: nat, ratio: real): (shares: (nat, nat))
    requires 0.0 <= ratio <= 1.0
    ensures shares.0 + shares.1 == n
    ensures shares.0 <= n
    ensures shares.0 as real <= n as real * ratio < shares.0 as real + 1.0
    ensures ratio == 0.0 ==> shares.0 == 0
    ensures ratio == 1.0 ==> shares.1 == 0
  {
    var nGpu := (n as real * ratio).Floor;
    assert 0.0 <= n as real * ratio <= n as real;
    (nGpu, n - nGpu)
  }
}
