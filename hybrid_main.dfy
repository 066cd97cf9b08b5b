/**
 * The computation of hybrid/saxpy/main.cpp once the setup is done: the local
 * items are split by the resolved ratio, the device share goes through a
 * `SAXPYLauncher`, the host share through the strided workers, and the
 * launcher is destroyed twice when it was initialised, once explicitly and
 * once at the end of its scope. A buffer the source leaves null because its
 * share is empty is an empty array here.
 *
 * The two halves work on disjoint buffers, so the model runs the device half
 * to completion, destructions included, before the host half; the source
 * interleaves them, which changes no result.
 */
module HybridMain {
  import opened HostSplit
  import opened SaxpyLauncher
  import opened HostWorkers

  /** The device half: `X = Y = init` copied through a launcher over `nGpu`
      items and destroyed, explicitly when initialised and always at scope
      exit. With the destructor as written a destruction fails exactly when
      the launcher was initialised. */
  method DeviceHalf(nGpu: nat, nstreams: nat, A: int, init: int, depthFirst: bool, destructorAsWritten: bool)
    returns (Yg: array<int>, cleanOk: bool)
    requires nGpu > 0 ==> nstreams > 0
    ensures Yg.Length == nGpu
    ensures forall j :: 0 <= j < nGpu ==> Yg[j] == 500 * Axpy(A, init, init)
    ensures cleanOk <==> nGpu == 0 || !destructorAsWritten
  {
    var Xg := new int[nGpu](_ => init);
    Yg := new int[nGpu](_ => init);
    var launcher := new Launcher(A, Xg, Yg, nGpu, nstreams);
    if nGpu > 0 {
      launcher.Initialize();
      launcher.Run(depthFirst);
    }
    cleanOk := true;
    if nGpu > 0 {
      if destructorAsWritten {
        cleanOk := launcher.DestroyAsWritten();
      } else {
        cleanOk := launcher.Destroy();
      }
    }
    var atScopeExit;
    if destructorAsWritten {
      atScopeExit := launcher.DestroyAsWritten();
    } else {
      atScopeExit := launcher.Destroy();
    }
    cleanOk := cleanOk && atScopeExit;
  }

  /** The host half: `X = Y = init` over `nCpu` items and `threads` workers,
      worker `k` starting at the value `starts[k]` of `tid` it reads. */
  method HostHalf(nCpu: nat, threads: nat, starts: seq<nat>, A: int, init: int) returns (Yc: array<int>)
    requires |starts| == threads && forall k :: 0 <= k < threads ==> k <= starts[k] <= threads
    ensures Yc.Length == nCpu
    ensures forall j :: 0 <= j < nCpu ==>
      Yc[j] == init + (if threads > 0 then CountVisits(starts, threads, j) else 0) * (500 * (A * init))
  {
    var Xc := new int[nCpu](_ => init);
    Yc := new int[nCpu](_ => init);
    if nCpu > 0 {
      RunWorkersShared(threads, starts, A, Xc, Yc);
    }
  }

  /** The computation as written: the destructor leaves `dev_Y` set, so the
      second destruction fails whenever the device share is non-empty, and
      host index `j` gets one batch of updates per thread that passes it. */
  method Compute(n: nat, ratio: real, threads: nat, starts: seq<nat>, nstreams: nat, A: int, init: int, depthFirst: bool)
    returns (Yg: array<int>, Yc: array<int>, cleanOk: bool)
    requires 0.0 <= ratio <= 1.0
    requires Split(n, ratio).0 > 0 ==> nstreams > 0
    requires |starts| == threads && forall k :: 0 <= k < threads ==> k <= starts[k] <= threads
    ensures Yg.Length == Split(n, ratio).0 && Yc.Length == Split(n, ratio).1
    ensures Yg.Length + Yc.Length == n
    ensures forall j :: 0 <= j < Yg.Length ==> Yg[j] == 500 * Axpy(A, init, init)
    ensures forall j :: 0 <= j < Yc.Length ==>
      Yc[j] == init + (if threads > 0 then CountVisits(starts, threads, j) else 0) * (500 * (A * init))
    ensures cleanOk <==> Split(n, ratio).0 == 0
  {
    var shares := Split(n, ratio);
    Yg, cleanOk := DeviceHalf(shares.0, nstreams, A, init, depthFirst, true);
    Yc := HostHalf(shares.1, threads, starts, A, init);
  }

  /** The computation with the corrected destructor and each thread starting
      at its own index: both destructions succeed and, with at least one
      thread, every host element gets its updates exactly once. */
  method ComputeCorrected(n: nat, ratio: real, threads: nat, nstreams: nat, A: int, init: int, depthFirst: bool)
    returns (Yg: array<int>, Yc: array<int>, cleanOk: bool)
    requires 0.0 <= ratio <= 1.0
    requires Split(n, ratio).0 > 0 ==> nstreams > 0
    ensures Yg.Length == Split(n, ratio).0 && Yc.Length == Split(n, ratio).1
    ensures Yg.Length + Yc.Length == n
    ensures forall j :: 0 <= j < Yg.Length ==> Yg[j] == 500 * Axpy(A, init, init)
    ensures forall j :: 0 <= j < Yc.Length ==> Yc[j] == (if threads > 0 then init + 500 * (A * init) else init)
    ensures cleanOk
  {
    var shares := Split(n, ratio);
    Yg, cleanOk := DeviceHalf(shares.0, nstreams, A, init, depthFirst, false);
    Yc := HostHalf(shares.1, threads, OwnStarts(threads), A, init);
    forall j | 0 <= j < Yc.Length && threads > 0
      ensures CountVisits(OwnStarts(threads), threads, j) == 1
    {
      OwnStartsOnce(threads, threads, j);
    }
  }

  /** The two halves agree exactly when the initial `Y` is 0: the device
      functor adds `Y` 500 times where the host loop keeps it once. */
  lemma HalvesAgree(A: int, x: int, y: int)
    ensures 500 * Axpy(A, x, y) == y + 500 * (A * x) <==> y == 0
  {
  }
}
