/**
 * The MPI helpers of hybrid_mpi_hip/utils/mpi_utils.h: a block decomposition
 * whose loads are computed on the first call and cached for every later one,
 * the compute-once lookup of the GPU assigned to the rank, and the map from
 * C++ element types to MPI datatypes.
 *
 * The answers MPI gives (communicator size, rank, node-local rank) are the
 * constants of a `RankState`; the two file-level statics `_loads` and
 * `_gpu_id` are its fields.
 */
module CachedDecomposition {
  import opened Wrappers
  import opened Partition
  import BlockDecomposition

  /** The exceptions the helpers throw. */
  datatype Failure =
    | OutOfRange(rank: nat, gpu: int, total: int)
    | InvalidArgument(what: string)

  class RankState {
    /** `getCommSize()` and `getCommRank()`. */
    const np: nat
    const rank: nat
    /** The rank within the node, as `MPI_Comm_split_type` would give it. */
    const nodeRank: int

    /** `_loads`: empty until the first decomposition. */
    var loads: seq<nat>
    /** The item count the cache was filled for. */
    ghost var firstN: nat
    /** `_gpu_id`: -1 until the first GPU lookup. */
    var gpuId: int

    ghost predicate Valid()
      reads this`loads, this`firstN
    {
      && 0 <= rank < np
      && (loads == [] || loads == Shares(firstN, np))
    }

    constructor (np: nat, rank: nat, nodeRank: int)
      requires rank < np
      ensures this.np == np && this.rank == rank && this.nodeRank == nodeRank
      ensures loads == [] && gpuId == -1
      ensures Valid()
    {
      this.np := np;
      this.rank := rank;
      this.nodeRank := nodeRank;
      loads := [];
      firstN := 0;
      gpuId := -1;
    }

    /** `blockDecomposition(N)`: the first call fills the cache with the
        near-equal loads of `N`; every later call returns the cache as it is,
        whatever `N` it passes. */
    method Decompose(N: nat) returns (r: seq<nat>)
      requires Valid()
      modifies this`loads, this`firstN
      ensures Valid()
      ensures old(loads) == [] ==> loads == Shares(N, np) && firstN == N
      ensures old(loads) != [] ==> loads == old(loads) && firstN == old(firstN)
      ensures r == loads && r == Shares(firstN, np)
    {
      if |loads| == 0 {
        loads := BlockDecomposition.Loads(N, np);
        firstN := N;
      }
      r := loads;
    }

    /** `blockDecompositionCount(N)`: the caller's load, read from the cache. */
    method Count(N: nat) returns (count: nat)
      requires Valid()
      modifies this`loads, this`firstN
      ensures Valid()
      ensures old(loads) == [] ==> firstN == N
      ensures old(loads) != [] ==> firstN == old(firstN) && loads == old(loads)
      ensures count == Share(firstN, np, rank)
    {
      var l := Decompose(N);
      count := l[rank];
    }

    /** `blockDecompositionOffset(N)`: the cached loads of the ranks before the
        caller, accumulated one by one. */
    method Offset(N: nat) returns (offset: nat)
      requires Valid()
      modifies this`loads, this`firstN
      ensures Valid()
      ensures old(loads) == [] ==> firstN == N
      ensures old(loads) != [] ==> firstN == old(firstN) && loads == old(loads)
      ensures offset == Offsets(Shares(firstN, np))[rank]
      ensures offset == rank * (firstN / np) + Min(rank, firstN % np)
    {
      offset := 0;
      var l := Decompose(N);
      var r := 0;
      while r < rank
        invariant 0 <= r <= rank
        invariant offset == Sum(l[..r])
        modifies {}
      {
        SumPrefixStep(l, r);
        offset := offset + l[r];
        r := r + 1;
      }
      SumOfSharePrefix(firstN, np, rank);
    }

    /** `getMyGPU(n_gpus)`: the first call stores the node-local rank and
        throws when it is not a valid GPU index; once an id is stored it is
        returned as it is. The id is stored before it is checked. */
    method GetMyGPU(nGpus: int) returns (r: Result<int, Failure>)
      modifies this`gpuId
      ensures old(gpuId) >= 0 ==> gpuId == old(gpuId) && r == Ok(old(gpuId))
      ensures old(gpuId) < 0 ==> gpuId == nodeRank
      ensures old(gpuId) < 0 && 0 <= nodeRank < nGpus ==> r == Ok(nodeRank)
      ensures old(gpuId) < 0 && !(0 <= nodeRank < nGpus) ==> r == Err(OutOfRange(rank, nodeRank, nGpus))
    {
      if gpuId < 0 {
        gpuId := nodeRank;
        if gpuId < 0 || gpuId >= nGpus {
          return Err(OutOfRange(rank, gpuId, nGpus));
        }
      }
      r := Ok(gpuId);
    }

    /** `getMyGPU(n_gpus)` storing the node-local rank only once it has been
        validated, so a rejected id is rejected again on the next call. */
    method GetMyGPUValidated(nGpus: int) returns (r: Result<int, Failure>)
      modifies this`gpuId
      ensures old(gpuId) >= 0 ==> gpuId == old(gpuId) && r == Ok(old(gpuId))
      ensures old(gpuId) < 0 && 0 <= nodeRank < nGpus ==> gpuId == nodeRank && r == Ok(nodeRank)
      ensures old(gpuId) < 0 && !(0 <= nodeRank < nGpus) ==> gpuId == old(gpuId) && r == Err(OutOfRange(rank, nodeRank, nGpus))
    {
      if gpuId < 0 {
        if nodeRank < 0 || nodeRank >= nGpus {
          return Err(OutOfRange(rank, nodeRank, nGpus));
        }
        gpuId := nodeRank;
      }
      r := Ok(gpuId);
    }
  }

  /** Two decompositions on one rank: the second one returns the loads of the
      first item count, not of its own. */
  method SecondDecompositionIsStale(np: nat, rank: nat, N1: nat, N2: nat) returns (first: seq<nat>, second: seq<nat>)
    requires rank < np
    ensures first == Shares(N1, np) && second == first
    ensures Sum(second) == N1
  {
    var st := new RankState(np, rank, 0);
    first := st.Decompose(N1);
    second := st.Decompose(N2);
    SumOfShares(N1, np);
  }

  /** With the cache filled for `N1`, the count and offset of a rank describe
      its block of `[0, N1)`, even when asked for `N2`; the blocks of all ranks
      tile `[0, N1)`. */
  method CachedBlock(np: nat, rank: nat, N1: nat, N2: nat) returns (offset: nat, count: nat)
    requires rank < np
    ensures count == Share(N1, np, rank)
    ensures offset == Offsets(Shares(N1, np))[rank]
    ensures offset + count <= N1
    ensures rank + 1 == np ==> offset + count == N1
    ensures forall x :: offset <= x < offset + count ==> Owns(Shares(N1, np), rank, x)
  {
    var st := new RankState(np, rank, 0);
    var _ := st.Decompose(N1);
    offset := st.Offset(N2);
    count := st.Count(N2);
    SumOfShares(N1, np);
    OffsetsChain(Shares(N1, np), rank);
    SumPrefixStep(Shares(N1, np), rank);
    SumPrefixMonotone(Shares(N1, np), rank + 1, np);
    assert Shares(N1, np)[..np] == Shares(N1, np);
  }

  /** A node-local rank that is not a valid GPU index: the first lookup throws,
      the second returns the rejected id. */
  method RetryAfterOutOfRange(nodeRank: int, nGpus: int) returns (first: Result<int, Failure>, second: Result<int, Failure>)
    requires nodeRank >= 0 && nodeRank >= nGpus
    ensures first == Err(OutOfRange(0, nodeRank, nGpus))
    ensures second == Ok(nodeRank)
  {
    var st := new RankState(1, 0, nodeRank);
    first := st.GetMyGPU(nGpus);
    second := st.GetMyGPU(nGpus);
  }

  /** The same two lookups with the id validated before it is stored: both
      throw. */
  method RetryAfterOutOfRangeValidated(nodeRank: int, nGpus: int) returns (first: Result<int, Failure>, second: Result<int, Failure>)
    requires nodeRank >= 0 && nodeRank >= nGpus
    ensures first == Err(OutOfRange(0, nodeRank, nGpus))
    ensures second == first
  {
    var st := new RankState(1, 0, nodeRank);
    first := st.GetMyGPUValidated(nGpus);
    second := st.GetMyGPUValidated(nGpus);
  }

  /** A valid node-local rank is looked up once and then returned on every
      call, whatever GPU count the later calls pass. */
  method LookupOnce(nodeRank: int, nGpus: int, laterGpus: int) returns (first: Result<int, Failure>, second: Result<int, Failure>)
    requires 0 <= nodeRank < nGpus
    ensures first == Ok(nodeRank) && second == Ok(nodeRank)
  {
    var st := new RankState(1, 0, nodeRank);
    first := st.GetMyGPU(nGpus);
    second := st.GetMyGPU(laterGpus);
  }

  /** The C++ element types `getDatatype<T>` is instantiated with. */
  datatype CppType = Int | Long | Float | Double | Unsupported(name: string)

  datatype MpiDatatype = MpiInt32 | MpiInt64 | MpiFloat | MpiDouble

  /** Width and kind of the C++ types on an LP64 platform. */
  function CppBits(t: CppType): nat
  {
    match t
    case Int => 32
    case Long => 64
    case Float => 32
    case Double => 64
    case Unsupported(_) => 0
  }

  predicate CppFloating(t: CppType)
  {
    t == Float || t == Double
  }

  /** Width and kind of the MPI datatypes. */
  function MpiBits(d: MpiDatatype): nat
  {
    match d
    case MpiInt32 => 32
    case MpiInt64 => 64
    case MpiFloat => 32
    case MpiDouble => 64
  }

  predicate MpiFloating(d: MpiDatatype)
  {
    d == MpiFloat || d == MpiDouble
  }

  /** `getDatatype<T>()`: the MPI datatype of the same width and kind, or an
      `invalid_argument` for any other type. */
  function GetDatatype(t: CppType): (r: Result<MpiDatatype, Failure>)
    ensures r.Ok? <==> !t.Unsupported?
    ensures r.Ok? ==> MpiBits(r.value) == CppBits(t) && (MpiFloating(r.value) <==> CppFloating(t))
    ensures r.Err? ==> r.error == InvalidArgument("Unsupported type")
  {
    match t
    case Int => Ok(MpiInt32)
    case Long => Ok(MpiInt64)
    case Float => Ok(MpiFloat)
    case Double => Ok(MpiDouble)
    case Unsupported(_) => Err(InvalidArgument("Unsupported type"))
  }

  /** Distinct supported types map to distinct MPI datatypes. */
  lemma GetDatatypeInjective(t: CppType, u: CppType)
    requires GetDatatype(t).Ok? && GetDatatype(t) == GetDatatype(u)
    ensures t == u
  {
  }
}
