/**
 * Block decomposition of `N` items over the `np` ranks of the communicator
 * (hybrid/utils/mpi_utils.cpp). The communicator size and the caller's rank,
 * which the source asks MPI for, are parameters here. Every call recomputes
 * the loads from `(N, np)`: nothing is cached.
 */
module BlockDecomposition {
  import opened Partition

  /** `blockDecomposition(N)`: one load per rank, `N / np` each, then the first
      `N % np` ranks get one more. */
  method Loads(N: nat, np: nat) returns (loads: seq<nat>)
    requires np > 0
    ensures loads == Shares(N, np)
  {
    loads := [];
    var r := 0;
    while r < np
      invariant 0 <= r <= np
      invariant |loads| == r
      invariant forall k :: 0 <= k < r ==> loads[k] == N / np
    {
      loads := loads + [N / np];
      r := r + 1;
    }
    r := 0;
    while r < N % np
      invariant 0 <= r <= N % np
      invariant |loads| == np
      invariant forall k :: 0 <= k < np ==> loads[k] == N / np + (if k < r then 1 else 0)
    {
      loads := loads[r := loads[r] + 1];
      r := r + 1;
    }
  }

  /** `blockDecompositionCount(N)`: the load of the calling rank. */
  method Count(N: nat, np: nat, rank: nat) returns (count: nat)
    requires rank < np
    ensures count == N / np + (if rank < N % np then 1 else 0)
  {
    var loads := Loads(N, np);
    count := loads[rank];
  }

  /** `blockDecompositionOffset(N)`: the loads of all ranks before the caller,
      accumulated one by one. */
  method Offset(N: nat, np: nat, rank: nat) returns (offset: nat)
    requires rank < np
    ensures offset == Sum(Shares(N, np)[..rank])
    ensures offset == rank * (N / np) + Min(rank, N % np)
  {
    offset := 0;
    var loads := Loads(N, np);
    var r := 0;
    while r < rank
      invariant 0 <= r <= rank
      invariant offset == Sum(loads[..r])
    {
      SumPrefixStep(loads, r);
      offset := offset + loads[r];
      r := r + 1;
    }
    SumOfSharePrefix(N, np, rank);
  }

  /** The ranges `[Offset(r), Offset(r) + Count(r))` of the ranks tile `[0, N)`:
      rank 0 starts at 0, each rank starts where the previous one ends, the
      last one ends at `N`, and every item has exactly one owner. */
  lemma RanksTile(N: nat, np: nat, rank: nat, x: nat)
    requires rank < np
    ensures Offsets(Shares(N, np))[0] == 0
    ensures rank + 1 < np ==>
      Offsets(Shares(N, np))[rank + 1] == Offsets(Shares(N, np))[rank] + Share(N, np, rank)
    ensures rank + 1 == np ==> Offsets(Shares(N, np))[rank] + Share(N, np, rank) == N
    ensures x < N <==> exists r :: 0 <= r < np && Owns(Shares(N, np), r, x)
    ensures forall r, q ::
      0 <= r < np && 0 <= q < np && Owns(Shares(N, np), r, x) && Owns(Shares(N, np), q, x) ==> r == q
  {
    SumOfShares(N, np);
    OffsetsChain(Shares(N, np), rank);
    ExactlyOneOwner(Shares(N, np), x);
  }

  /** Ten items over three ranks: loads {4, 3, 3} at offsets {0, 4, 7}. */
  lemma TenOverThree()
    ensures Shares(10, 3) == [4, 3, 3]
    ensures Offsets(Shares(10, 3)) == [0, 4, 7]
  {
    var s := Shares(10, 3);
    assert s == [4, 3, 3];
    assert s[..0] == [] && s[..1] == [4] && s[..2] == [4, 3];
    assert Sum([4]) == 4 && Sum([4, 3]) == 7 by {
      assert [4, 3][..1] == [4];
    }
  }
}
