/**
 * The launcher's per-stream plan, `GPUPlans` in hybrid/saxpy/saxpy.hip.cpp:
 * one stream per chunk, the near-equal chunk sizes of the device share and
 * their running offsets.
 */
module StreamPlan {
  import opened Partition

  /** Handle of one HIP stream; stream creation is a runtime call, so a handle
      is represented by the index it was created for. */
  datatype Stream = Stream(id: nat)

  datatype Plan = Plan(streams: seq<Stream>, sizes: seq<nat>, offsets: seq<nat>)

  /** The plan that `GPUPlans(nstreams, N)` builds. */
  ghost predicate IsPlanFor(p: Plan, nstreams: nat, N: nat)
  {
    && nstreams > 0
    && |p.streams| == nstreams
    && (forall i :: 0 <= i < nstreams ==> p.streams[i] == Stream(i))
    && p.sizes == Shares(N, nstreams)
    && p.offsets == Offsets(p.sizes)
  }

  /** The `GPUPlans(nstreams, N)` constructor: create the streams, set every
      size to `N / nstreams`, bump the first `N % nstreams` of them, then lay
      the offsets out with a running total. `nstreams == 0` would divide by
      zero, so it is excluded. */
  method NewPlans(nstreams: nat, N: nat) returns (p: Plan)
    requires nstreams > 0
    ensures IsPlanFor(p, nstreams, N)
    ensures |p.sizes| == nstreams && |p.offsets| == nstreams
    ensures forall i :: 0 <= i < nstreams ==> p.sizes[i] == N / nstreams + (if i < N % nstreams then 1 else 0)
  {
    var streams: seq<Stream> := [];
    var i := 0;
    while i < nstreams
      invariant 0 <= i <= nstreams
      invariant |streams| == i
      invariant forall k :: 0 <= k < i ==> streams[k] == Stream(k)
    {
      streams := streams + [Stream(i)];
      i := i + 1;
    }

    var sizes := seq(nstreams, _ => 0);
    i := 0;
    while i < nstreams
      invariant 0 <= i <= nstreams
      invariant |sizes| == nstreams
      invariant forall k :: 0 <= k < nstreams ==> sizes[k] == (if k < i then N / nstreams else 0)
    {
      sizes := sizes[i := N / nstreams];
      i := i + 1;
    }
    i := 0;
    while i < N % nstreams
      invariant 0 <= i <= N % nstreams
      invariant |sizes| == nstreams
      invariant forall k :: 0 <= k < nstreams ==> sizes[k] == N / nstreams + (if k < i then 1 else 0)
    {
      sizes := sizes[i := sizes[i] + 1];
      i := i + 1;
    }
    assert sizes == Shares(N, nstreams);

    var offsets := seq(nstreams, _ => 0);
    var offset := 0;
    i := 0;
    while i < nstreams
      invariant 0 <= i <= nstreams
      invariant |offsets| == nstreams
      invariant offset == Sum(sizes[..i])
      invariant forall k :: 0 <= k < i ==> offsets[k] == Sum(sizes[..k])
    {
      offsets := offsets[i := offset];
      SumPrefixStep(sizes, i);
      offset := offset + sizes[i];
      i := i + 1;
    }
    p := Plan(streams, sizes, offsets);
  }

  /** The streams' chunks tile the device share `[0, N)`: the sizes add up
      to `N`, stream 0 starts at 0, each later stream starts where the
      previous one ends and the last one ends at `N`. */
  lemma PlanTilesShare(p: Plan, nstreams: nat, N: nat, i: nat)
    requires IsPlanFor(p, nstreams, N) && i < nstreams
    ensures Sum(p.sizes) == N
    ensures p.offsets[0] == 0
    ensures i + 1 < nstreams ==> p.offsets[i + 1] == p.offsets[i] + p.sizes[i]
    ensures p.offsets[nstreams - 1] + p.sizes[nstreams - 1] == N
  {
    SumOfShares(N, nstreams);
    OffsetsChain(p.sizes, i);
    OffsetsChain(p.sizes, nstreams - 1);
  }

  /** Offsets never decrease, and offset `i` is strictly below a later
      offset exactly when chunk `i` is non-empty; chunks are empty only when
      `N < nstreams`, from stream `N` on. */
  lemma PlanOffsetsOrdered(p: Plan, nstreams: nat, N: nat, i: nat, j: nat)
    requires IsPlanFor(p, nstreams, N) && i < j < nstreams
    ensures p.offsets[i] <= p.offsets[j]
    ensures p.offsets[i] < p.offsets[j] <==> p.sizes[i] > 0
    ensures p.sizes[i] == 0 <==> N < nstreams && i >= N
  {
    SmallShareIsEmpty(N, nstreams);
    assert p.sizes[i] == Share(N, nstreams, i);
    SumPrefixStep(p.sizes, i);
    SumPrefixMonotone(p.sizes, i + 1, j);
    if p.sizes[i] == 0 {
      FlatAfterEmpty(p.sizes, N, nstreams, i, j);
    }
  }

  lemma SmallShareIsEmpty(N: nat, nstreams: nat)
    requires nstreams > 0
    ensures N < nstreams ==> N / nstreams == 0 && N % nstreams == N
    ensures N >= nstreams ==> N / nstreams >= 1
  {
    var q, r := N / nstreams, N % nstreams;
    assert N == nstreams * q + r && 0 <= r < nstreams;
    if q > 0 {
      assert nstreams * q == nstreams * (q - 1) + nstreams;
      assert nstreams * (q - 1) >= 0;
    }
    if N < nstreams {
      assert q == 0;
    }
  }

  /** Once a chunk is empty all later ones are, so the running offset stays put. */
  lemma {:induction false} FlatAfterEmpty(s: seq<nat>, N: nat, nstreams: nat, i: nat, j: nat)
    requires nstreams > 0 && s == Shares(N, nstreams)
    requires i <= j < nstreams && s[i] == 0
    ensures Sum(s[..j]) == Sum(s[..i])
    decreases j - i
  {
    if i < j {
      FlatAfterEmpty(s, N, nstreams, i, j - 1);
      SumPrefixStep(s, j - 1);
    }
  }
}
