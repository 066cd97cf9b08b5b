/**
 * The host share of AXPY in hybrid/saxpy/main.cpp: `T` workers, worker `tid`
 * visiting indices `tid, tid + T, tid + 2T, ...` and applying `Y = A * X + Y`
 * 500 times to each. The workers are run one after the other; a worker
 * starts at the value of `tid` it reads.
 */
module HostWorkers {

  /** The indices a worker starting at `start` visits when it steps by `T`
      below `n`, in visiting order. */
  function Stride(start: nat, T: nat, n: nat): (r: seq<nat>)
    requires T > 0
    ensures |r| > 0 ==> r[0] == start
    ensures forall k :: 0 <= k < |r| ==> start <= r[k] < n
    ensures forall k :: 0 <= k < |r| - 1 ==> r[k + 1] == r[k] + T
    decreases n - start
  {
    if start >= n then [] else [start] + Stride(start + T, T, n)
  }

  lemma MulAtLeast(d: int, T: nat)
    requires d >= 1
    ensures d * T >= T
  {
    if d > 1 {
      MulAtLeast(d - 1, T);
      assert d * T == (d - 1) * T + T;
    }
  }

  /** Division by a positive `T` is determined by the quotient and remainder. */
  lemma DivModUnique(a: int, T: nat, q: int, r: int)
    requires T > 0 && 0 <= r < T && a == q * T + r
    ensures a / T == q && a % T == r
  {
    var q0, r0 := a / T, a % T;
    assert q * T - q0 * T == (q - q0) * T;
    if q - q0 >= 1 {
      MulAtLeast(q - q0, T);
    } else if q0 - q >= 1 {
      MulAtLeast(q0 - q, T);
    }
  }

  lemma ModShift(x: nat, T: nat)
    requires 0 < T <= x
    ensures x % T == (x - T) % T
  {
    var q := (x - T) / T;
    assert (q + 1) * T == q * T + T;
    DivModUnique(x, T, q + 1, (x - T) % T);
  }

  /** A worker that starts at `start` and steps by `T` passes index `j`. */
  predicate Visits(start: nat, T: nat, j: nat)
    requires T > 0
  {
    start <= j && (j - start) % T == 0
  }

  /** Past its first index, a worker passes what a worker starting one step
      later passes. */
  lemma StepVisits(start: nat, T: nat, j: nat)
    requires T > 0 && j != start
    ensures Visits(start, T, j) <==> Visits(start + T, T, j)
  {
    if start < j < start + T {
      DivModUnique(j - start, T, 0, j - start);
    } else if j >= start + T {
      ModShift(j - start, T);
    }
  }

  /** The stride of a worker starting at `start` holds exactly the indices
      below `n` that it passes. */
  lemma {:induction false} StrideVisits(start: nat, T: nat, n: nat, j: nat)
    requires T > 0
    ensures j in Stride(start, T, n) <==> Visits(start, T, j) && j < n
    decreases n - start
  {
    if start < n {
      var rest := Stride(start + T, T, n);
      assert Stride(start, T, n) == [start] + rest;
      StrideVisits(start + T, T, n, j);
      if j == start {
        assert Visits(start, T, j);
      } else {
        StepVisits(start, T, j);
      }
    }
  }

  /** For a start below `T`, the indices passed are those with remainder
      `start` modulo `T`. */
  lemma ResidueVisits(tid: nat, T: nat, j: nat)
    requires tid < T
    ensures Visits(tid, T, j) <==> j % T == tid
  {
    if j % T == tid {
      assert j - tid == j / T * T;
      DivModUnique(j - tid, T, j / T, 0);
    }
    if Visits(tid, T, j) {
      var q := (j - tid) / T;
      assert j == q * T + tid;
      DivModUnique(j, T, q, tid);
    }
  }

  /** Over workers `0 .. T - 1`, every index below `n` is visited by exactly
      one worker, and no index at or beyond `n` by any. */
  lemma ExactlyOneWorker(T: nat, n: nat, j: nat)
    requires T > 0
    ensures j < n ==> j in Stride(j % T, T, n)
    ensures forall tid, tid' :: 0 <= tid < T && 0 <= tid' < T && j in Stride(tid, T, n) && j in Stride(tid', T, n) ==> tid == tid'
    ensures j >= n ==> forall tid :: 0 <= tid < T ==> j !in Stride(tid, T, n)
  {
    var r := j % T;
    forall tid | 0 <= tid < T
      ensures j in Stride(tid, T, n) <==> j < n && r == tid
    {
      StrideVisits(tid, T, n, j);
      ResidueVisits(tid, T, j);
    }
  }

  /** The body of a worker that starts at `start`: `i = start; while (i <
      N_cpu) { 500 rounds of Y[i] = A * X[i] + Y[i]; i += T; }`. Exactly the
      indices of its stride get their 500 updates. */
  method Worker(start: nat, T: nat, A: int, X: array<int>, Y: array<int>)
    requires T > 0 && X != Y && X.Length == Y.Length
    modifies Y
    ensures forall j :: 0 <= j < Y.Length ==>
      Y[j] == (if j in Stride(start, T, Y.Length) then old(Y[j]) + 500 * (A * X[j]) else old(Y[j]))
  {
    var n := Y.Length;
    var i := start;
    ghost var k := 0;
    while i < n
      invariant i == start + k * T
      invariant forall j :: 0 <= j < n ==>
        Y[j] == (if Visits(start, T, j) && j < i then old(Y[j]) + 500 * (A * X[j]) else old(Y[j]))
      decreases n - i
    {
      ghost var before := Y[..];
      var rounds := 0;
      while rounds < 500
        invariant 0 <= rounds <= 500
        invariant Y[i] == before[i] + rounds * (A * X[i])
        invariant forall j :: 0 <= j < n && j != i ==> Y[j] == before[j]
      {
        Y[i] := A * X[i] + Y[i];
        rounds := rounds + 1;
      }
      DivModUnique(k * T, T, k, 0);
      forall j | i < j < i + T
        ensures !Visits(start, T, j)
      {
        DivModUnique(j - start, T, k, j - i);
      }
      assert (k + 1) * T == k * T + T;
      i := i + T;
      k := k + 1;
    }
    forall j | 0 <= j < n
      ensures j in Stride(start, T, n) <==> Visits(start, T, j) && j < n
    {
      StrideVisits(start, T, n, j);
    }
  }

  /** How many of the workers starting at `starts` pass index `j`. */
  function CountVisits(starts: seq<nat>, T: nat, j: nat): nat
    requires T > 0
  {
    if starts == [] then 0
    else CountVisits(starts[..|starts| - 1], T, j) + (if Visits(starts[|starts| - 1], T, j) then 1 else 0)
  }

  /** The starts `0, 1, ..., n - 1`, one per spawned worker. */
  function OwnStarts(n: nat): (s: seq<nat>)
    ensures |s| == n && forall k :: 0 <= k < n ==> s[k] == k
  {
    seq(n, k requires 0 <= k => k)
  }

  lemma {:induction false} OwnStartsOnce(n: nat, T: nat, j: nat)
    requires 0 < T && n <= T
    ensures CountVisits(OwnStarts(n), T, j) == if j % T < n then 1 else 0
  {
    if n > 0 {
      assert OwnStarts(n)[..n - 1] == OwnStarts(n - 1);
      OwnStartsOnce(n - 1, T, j);
      ResidueVisits(n - 1, T, j);
    }
  }

  lemma MulStep(c: nat, m: int)
    ensures (c + 1) * m == c * m + m
  {
  }

  /** The spawning loop as written: each thread's lambda captures `tid` by
      reference and reads it once it runs, by which time the loop may have
      moved on, up to the value `T` that ends it. `starts[k]` is the value
      thread `k` reads. Index `j` is updated once per thread that passes it. */
  method RunWorkersShared(T: nat, starts: seq<nat>, A: int, X: array<int>, Y: array<int>)
    requires X != Y && X.Length == Y.Length
    requires |starts| == T && forall k :: 0 <= k < T ==> k <= starts[k] <= T
    modifies Y
    ensures forall j :: 0 <= j < Y.Length ==>
      Y[j] == old(Y[j]) + (if T > 0 then CountVisits(starts, T, j) else 0) * (500 * (A * X[j]))
  {
    var k := 0;
    while k < T
      invariant 0 <= k <= T
      invariant forall j :: 0 <= j < Y.Length ==>
        Y[j] == old(Y[j]) + (if T > 0 then CountVisits(starts[..k], T, j) else 0) * (500 * (A * X[j]))
    {
      Worker(starts[k], T, A, X, Y);
      forall j | 0 <= j < Y.Length
        ensures CountVisits(starts[..k + 1], T, j) == CountVisits(starts[..k], T, j) + (if Visits(starts[k], T, j) then 1 else 0)
        ensures j in Stride(starts[k], T, Y.Length) <==> Visits(starts[k], T, j)
      {
        assert starts[..k + 1][..k] == starts[..k];
        StrideVisits(starts[k], T, Y.Length, j);
      }
      forall j | 0 <= j < Y.Length
        ensures (CountVisits(starts[..k], T, j) + 1) * (500 * (A * X[j]))
          == CountVisits(starts[..k], T, j) * (500 * (A * X[j])) + 500 * (A * X[j])
      {
        MulStep(CountVisits(starts[..k], T, j), 500 * (A * X[j]));
      }
      k := k + 1;
    }
    assert starts[..T] == starts;
  }

  /** Two threads that both read `tid == 1`: index 0 is never updated and
      index 1 gets its 500 updates twice. */
  method BothReadOne(A: int, X: array<int>, Y: array<int>)
    requires X != Y && X.Length == 2 && Y.Length == 2
    modifies Y
    ensures Y[0] == old(Y[0])
    ensures Y[1] == old(Y[1]) + 2 * (500 * (A * X[1]))
  {
    RunWorkersShared(2, [1, 1], A, X, Y);
    assert [1, 1][..1] == [1];
    assert CountVisits([1, 1], 2, 0) == 0 && CountVisits([1, 1], 2, 1) == 2;
  }

  /** Two threads where the second reads `tid` after the loop's last
      increment, when it is 2: it starts past index 1, so index 1 is never
      updated and index 2 is updated by both threads. */
  method SecondReadsEnd(A: int, X: array<int>, Y: array<int>)
    requires X != Y && X.Length == 3 && Y.Length == 3
    modifies Y
    ensures Y[0] == old(Y[0]) + 500 * (A * X[0])
    ensures Y[1] == old(Y[1])
    ensures Y[2] == old(Y[2]) + 2 * (500 * (A * X[2]))
  {
    RunWorkersShared(2, [0, 2], A, X, Y);
    EndCounts();
  }

  lemma EndCounts()
    ensures CountVisits([0, 2], 2, 0) == 1 && CountVisits([0, 2], 2, 1) == 0 && CountVisits([0, 2], 2, 2) == 2
  {
    assert [0, 2][..1] == [0] && [0][..0] == [];
  }

  /** Spawning `T` workers that each start at their own index and joining
      them: with at least one worker every host index gets its 500 updates
      exactly once; with none, nothing runs. */
  method RunWorkers(T: nat, A: int, X: array<int>, Y: array<int>)
    requires X != Y && X.Length == Y.Length
    modifies Y
    ensures forall j :: 0 <= j < Y.Length ==>
      Y[j] == (if T > 0 then old(Y[j]) + 500 * (A * X[j]) else old(Y[j]))
  {
    RunWorkersShared(T, OwnStarts(T), A, X, Y);
    forall j | 0 <= j < Y.Length && T > 0
      ensures CountVisits(OwnStarts(T), T, j) == 1
    {
      OwnStartsOnce(T, T, j);
    }
  }
}
