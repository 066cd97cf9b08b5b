/**
 * `SAXPYLauncher` of hybrid/saxpy/saxpy.hip.cpp: the device share of AXPY,
 * split over several streams. Host and device buffers are arrays of integer
 * elements; every stream operation is executed when it is issued, one after
 * the other, which is one of the executions the streams allow because two
 * streams never touch the same index.
 */
module SaxpyLauncher {
  import opened Wrappers
  import opened Partition
  import opened StreamPlan
  import opened IssueOrder

  /** One fused multiply-add `a * x + y`, the single-shot functor. */
  function Axpy(a: int, x: int, y: int): int
  {
    a * x + y
  }

  /** `saxpy_functor::operator()`: starts from 0 and adds `a * x + y` 500
      times, so it returns 500 single-shot results, not one. */
  method SaxpyFunctor(a: int, x: int, y: int) returns (temp: int)
    ensures temp == 500 * Axpy(a, x, y)
  {
    temp := 0;
    var rounds := 0;
    while rounds < 500
      invariant 0 <= rounds <= 500
      invariant temp == rounds * Axpy(a, x, y)
    {
      temp := temp + a * x + y;
      rounds := rounds + 1;
    }
  }

  /** Index `j` belongs to the chunk of stream `i`. */
  predicate InChunk(p: Plan, i: nat, j: nat)
    requires i < |p.offsets| && i < |p.sizes|
  {
    p.offsets[i] <= j < p.offsets[i] + p.sizes[i]
  }

  /** Chunk `i` is `[Sum(sizes[..i]), Sum(sizes[..i + 1]))`, inside `[0, N)`,
      and the chunks together end at `N`. */
  lemma ChunkBounds(p: Plan, nstreams: nat, N: nat, i: nat)
    requires IsPlanFor(p, nstreams, N) && i < nstreams
    ensures p.offsets[i] == Sum(p.sizes[..i])
    ensures p.offsets[i] + p.sizes[i] == Sum(p.sizes[..i + 1]) <= N
    ensures Sum(p.sizes[..nstreams]) == N
  {
    SumPrefixStep(p.sizes, i);
    SumPrefixMonotone(p.sizes, i + 1, nstreams);
    SumOfShares(N, nstreams);
    assert p.sizes[..nstreams] == p.sizes;
  }

  class Launcher {
    const A: int
    /** Host vectors of the device share. */
    const X: array<int>
    const Y: array<int>
    const N: nat
    const nstreams: nat
    /** Device mirrors of `X` and `Y`; null until `Initialize`. */
    var devX: array?<int>
    var devY: array?<int>
    var plans: Option<Plan>
    /** Device buffers allocated and not yet freed: the runtime's table. */
    var live: set<array<int>>
    /** Every stream operation issued so far, in issue order. */
    ghost var issued: seq<Op>

    ghost predicate Valid()
      reads this`devX, this`devY, this`plans, this`live
    {
      && X != Y && X.Length == N && Y.Length == N
      && (devX != null && devY != null ==> devX != devY)
      && (plans.Some? ==>
            && IsPlanFor(plans.value, nstreams, N)
            && devX != null && devY != null
            && devX != X && devX != Y && devY != X && devY != Y
            && devX.Length == N && devY.Length == N
            && devX in live && devY in live)
    }

    /** Initialised: the plan exists and both device buffers are allocated. */
    ghost predicate Ready()
      reads this`devX, this`devY, this`plans, this`live
    {
      Valid() && plans.Some?
    }

    /** The constructor only records its arguments; nothing is allocated. */
    constructor (A: int, X: array<int>, Y: array<int>, N: nat, nstreams: nat)
      requires X != Y && X.Length == N && Y.Length == N
      ensures Valid()
      ensures this.A == A && this.X == X && this.Y == Y && this.N == N && this.nstreams == nstreams
      ensures devX == null && devY == null && plans == None && live == {} && issued == []
    {
      this.A, this.X, this.Y, this.N, this.nstreams := A, X, Y, N, nstreams;
      devX, devY, plans, live := null, null, None, {};
      issued := [];
    }

    /** `initialize()`: `createStreams` builds the plan, `mallocDevice`
        allocates one device buffer of `N` elements for each vector. */
    method Initialize()
      requires Valid() && nstreams > 0
      modifies this`devX, this`devY, this`plans, this`live
      ensures Ready() && IsPlanFor(plans.value, nstreams, N)
      ensures fresh(devX) && fresh(devY)
      ensures forall a :: a in live <==> a in old(live) || a == devX || a == devY
    {
      var p := NewPlans(nstreams, N);
      plans := Some(p);
      var dx := new int[N];
      var dy := new int[N];
      devX, devY := dx, dy;
      live := live + {dx, dy};
    }

    /** `memcpyHtoD(i)`: copy stream `i`'s chunk of `X` and of `Y` to the device. */
    method MemcpyHtoD(i: nat)
      requires Ready() && i < nstreams
      modifies devX, devY, this`issued
      ensures issued == old(issued) + [Op(HtoD, i)]
      ensures forall j :: 0 <= j < N ==>
        && devX[j] == (if InChunk(plans.value, i, j) then X[j] else old(devX[j]))
        && devY[j] == (if InChunk(plans.value, i, j) then Y[j] else old(devY[j]))
    {
      var p := plans.value;
      ChunkBounds(p, nstreams, N, i);
      var lo, hi := p.offsets[i], p.offsets[i] + p.sizes[i];
      forall j | lo <= j < hi {
        devX[j] := X[j];
      }
      forall j | lo <= j < hi {
        devY[j] := Y[j];
      }
      issued := issued + [Op(HtoD, i)];
    }

    /** `execute_thrust(i)`: transform stream `i`'s chunk of the device `Y`
        in place with the functor. */
    method ExecuteThrust(i: nat)
      requires Ready() && i < nstreams
      modifies devY, this`issued
      ensures issued == old(issued) + [Op(Compute, i)]
      ensures forall j :: 0 <= j < N ==>
        devY[j] == (if InChunk(plans.value, i, j) then 500 * Axpy(A, devX[j], old(devY[j])) else old(devY[j]))
    {
      var p := plans.value;
      ChunkBounds(p, nstreams, N, i);
      var lo, hi := p.offsets[i], p.offsets[i] + p.sizes[i];
      var j := lo;
      while j < hi
        invariant lo <= j <= hi
        invariant issued == old(issued)
        invariant forall k :: 0 <= k < N ==>
          devY[k] == (if lo <= k < j then 500 * Axpy(A, devX[k], old(devY[k])) else old(devY[k]))
      {
        var t := SaxpyFunctor(A, devX[j], devY[j]);
        devY[j] := t;
        j := j + 1;
      }
      issued := issued + [Op(Compute, i)];
    }

    /** `memcpyDtoH(i)`: copy stream `i`'s chunk of the device `Y` back;
        `X` is never copied back. */
    method MemcpyDtoH(i: nat)
      requires Ready() && i < nstreams
      modifies Y, this`issued
      ensures issued == old(issued) + [Op(DtoH, i)]
      ensures forall j :: 0 <= j < N ==> Y[j] == (if InChunk(plans.value, i, j) then devY[j] else old(Y[j]))
    {
      var p := plans.value;
      ChunkBounds(p, nstreams, N, i);
      var lo, hi := p.offsets[i], p.offsets[i] + p.sizes[i];
      forall j | lo <= j < hi {
        Y[j] := devY[j];
      }
      issued := issued + [Op(DtoH, i)];
    }

    /** `run(depth_first)`: issue the three operations of every stream in the
        chosen order. Either order leaves host `Y` holding the functor result
        for every index, `X` untouched, and the device mirrors in agreement. */
    method Run(depthFirst: bool)
      requires Ready()
      modifies Y, devX, devY, this`issued
      ensures issued == old(issued) + Schedule(depthFirst, nstreams)
      ensures forall j :: 0 <= j < N ==>
        && Y[j] == 500 * Axpy(A, X[j], old(Y[j]))
        && devX[j] == X[j]
        && devY[j] == Y[j]
      ensures X[..] == old(X[..])
    {
      if depthFirst {
        RunDepthFirst();
      } else {
        RunBreadthFirst();
      }
    }

    method RunDepthFirst()
      requires Ready()
      modifies Y, devX, devY, this`issued
      ensures issued == old(issued) + DepthFirst(nstreams)
      ensures forall j :: 0 <= j < N ==>
        && Y[j] == 500 * Axpy(A, X[j], old(Y[j]))
        && devX[j] == X[j]
        && devY[j] == Y[j]
    {
      var p := plans.value;
      var i := 0;
      while i < nstreams
        invariant 0 <= i <= nstreams
        invariant issued == old(issued) + DepthFirst(i)
        invariant forall j :: 0 <= j < N ==>
          if j < Sum(p.sizes[..i]) then
            devX[j] == X[j] && Y[j] == 500 * Axpy(A, X[j], old(Y[j])) && devY[j] == Y[j]
          else
            devX[j] == old(devX[j]) && devY[j] == old(devY[j]) && Y[j] == old(Y[j])
      {
        ChunkBounds(p, nstreams, N, i);
        MemcpyHtoD(i);
        ExecuteThrust(i);
        MemcpyDtoH(i);
        i := i + 1;
      }
      ChunkBounds(p, nstreams, N, 0);
    }

    method RunBreadthFirst()
      requires Ready()
      modifies Y, devX, devY, this`issued
      ensures issued == old(issued) + BreadthFirst(nstreams)
      ensures forall j :: 0 <= j < N ==>
        && Y[j] == 500 * Axpy(A, X[j], old(Y[j]))
        && devX[j] == X[j]
        && devY[j] == Y[j]
    {
      CopyInAll();
      ComputeAll();
      CopyOutAll();
    }

    /** The first loop of `run(false)`. */
    method CopyInAll()
      requires Ready()
      modifies devX, devY, this`issued
      ensures issued == old(issued) + EveryStream(HtoD, nstreams)
      ensures forall j :: 0 <= j < N ==> devX[j] == X[j] && devY[j] == Y[j]
    {
      var p := plans.value;
      ChunkBounds(p, nstreams, N, 0);
      var i := 0;
      while i < nstreams
        invariant 0 <= i <= nstreams
        invariant issued == old(issued) + EveryStream(HtoD, i)
        invariant forall j :: 0 <= j < N ==>
          if j < Sum(p.sizes[..i]) then devX[j] == X[j] && devY[j] == Y[j]
          else devX[j] == old(devX[j]) && devY[j] == old(devY[j])
      {
        ChunkBounds(p, nstreams, N, i);
        MemcpyHtoD(i);
        assert EveryStream(HtoD, i + 1) == EveryStream(HtoD, i) + [Op(HtoD, i)];
        i := i + 1;
      }
    }

    /** The second loop of `run(false)`. */
    method ComputeAll()
      requires Ready()
      modifies devY, this`issued
      ensures issued == old(issued) + EveryStream(Compute, nstreams)
      ensures forall j :: 0 <= j < N ==> devY[j] == 500 * Axpy(A, devX[j], old(devY[j]))
    {
      var p := plans.value;
      ChunkBounds(p, nstreams, N, 0);
      var i := 0;
      while i < nstreams
        invariant 0 <= i <= nstreams
        invariant issued == old(issued) + EveryStream(Compute, i)
        invariant forall j :: 0 <= j < N ==>
          devY[j] == (if j < Sum(p.sizes[..i]) then 500 * Axpy(A, devX[j], old(devY[j])) else old(devY[j]))
      {
        ChunkBounds(p, nstreams, N, i);
        ExecuteThrust(i);
        assert EveryStream(Compute, i + 1) == EveryStream(Compute, i) + [Op(Compute, i)];
        i := i + 1;
      }
    }

    /** The third loop of `run(false)`. */
    method CopyOutAll()
      requires Ready()
      modifies Y, this`issued
      ensures issued == old(issued) + EveryStream(DtoH, nstreams)
      ensures forall j :: 0 <= j < N ==> Y[j] == devY[j]
    {
      var p := plans.value;
      ChunkBounds(p, nstreams, N, 0);
      var i := 0;
      while i < nstreams
        invariant 0 <= i <= nstreams
        invariant issued == old(issued) + EveryStream(DtoH, i)
        invariant forall j :: 0 <= j < N ==> Y[j] == (if j < Sum(p.sizes[..i]) then devY[j] else old(Y[j]))
      {
        ChunkBounds(p, nstreams, N, i);
        MemcpyDtoH(i);
        assert EveryStream(DtoH, i + 1) == EveryStream(DtoH, i) + [Op(DtoH, i)];
        i := i + 1;
      }
    }

    /** `hipFree`: freeing null does nothing; freeing a live buffer releases
        it; freeing anything else is an invalid (double) free. */
    method Free(a: array?<int>) returns (ok: bool)
      modifies this`live
      ensures ok <==> a == null || a in old(live)
      ensures forall b :: b in live <==> b in old(live) && b != a
    {
      if a == null {
        ok := true;
      } else if a in live {
        live := live - {a};
        ok := true;
      } else {
        ok := false;
      }
    }

    /** The destructor as it is written: after freeing `dev_Y` it nulls
        `dev_X` a second time, so `dev_Y` keeps pointing at freed memory.
        `ok` is false when one of its frees was invalid. */
    method DestroyAsWritten() returns (ok: bool)
      requires Valid()
      modifies this`devX, this`plans, this`live
      ensures Valid()
      ensures devX == null && devY == old(devY) && plans == None
      ensures ok <==> (old(devX) == null || old(devX) in old(live)) && (devY == null || devY in old(live))
      ensures forall b :: b in live <==> b in old(live) && b != old(devX) && b != devY
    {
      var okX := Free(devX);
      devX := null;
      var okY := Free(devY);
      devX := null;
      plans := None;
      ok := okX && okY;
    }

    /** The destructor with `dev_Y` nulled after it is freed: running it again
        frees only null pointers. */
    method Destroy() returns (ok: bool)
      requires Valid()
      modifies this`devX, this`devY, this`plans, this`live
      ensures Valid()
      ensures devX == null && devY == null && plans == None
      ensures ok <==> (old(devX) == null || old(devX) in old(live)) && (old(devY) == null || old(devY) in old(live))
      ensures forall b :: b in live <==> b in old(live) && b != old(devX) && b != old(devY)
    {
      var okX := Free(devX);
      devX := null;
      var okY := Free(devY);
      devY := null;
      plans := None;
      ok := okX && okY;
    }
  }

  /** hybrid/saxpy/main.cpp destroys an initialised launcher twice: once
      explicitly, once at the end of its scope. With the destructor as
      written the second destruction frees `dev_Y` again. */
  method DoubleDestructionAsWritten(A: int, n: nat, nstreams: nat) returns (first: bool, second: bool)
    requires nstreams > 0
    ensures first && !second
  {
    var X := new int[n];
    var Y := new int[n];
    var launcher := new Launcher(A, X, Y, n, nstreams);
    launcher.Initialize();
    first := launcher.DestroyAsWritten();
    second := launcher.DestroyAsWritten();
  }

  /** The same two destructions with the corrected destructor both succeed. */
  method DoubleDestruction(A: int, n: nat, nstreams: nat) returns (first: bool, second: bool)
    requires nstreams > 0
    ensures first && second
  {
    var X := new int[n];
    var Y := new int[n];
    var launcher := new Launcher(A, X, Y, n, nstreams);
    launcher.Initialize();
    first := launcher.Destroy();
    second := launcher.Destroy();
  }
}
