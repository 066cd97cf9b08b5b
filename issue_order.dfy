/**
 * The two orders in which `SAXPYLauncher::run` (hybrid/saxpy/saxpy.hip.cpp)
 * issues the per-stream operations: depth-first, where stream `i` gets its
 * host-to-device copy, its transform and its device-to-host copy before
 * stream `i + 1` gets anything, and breadth-first, where every stream gets its
 * host-to-device copy, then every stream its transform, then every stream its
 * device-to-host copy.
 */
module IssueOrder {

  /** The three operations issued on a stream, in pipeline order. */
  datatype Kind = HtoD | Compute | DtoH

  datatype Op = Op(kind: Kind, stream: nat)

  /** Position of an operation kind within one stream's pipeline. */
  function Stage(k: Kind): nat
  {
    match k
    case HtoD => 0
    case Compute => 1
    case DtoH => 2
  }

  /** The pipeline of one stream, as `run(true)` issues it. */
  function Pipeline(i: nat): seq<Op>
  {
    [Op(HtoD, i), Op(Compute, i), Op(DtoH, i)]
  }

  /** `run(true)` over the first `n` streams. */
  function DepthFirst(n: nat): (r: seq<Op>)
    ensures |r| == 3 * n
  {
    if n == 0 then [] else DepthFirst(n - 1) + Pipeline(n - 1)
  }

  /** One of the three loops of `run(false)`: operation `k` on every stream. */
  function EveryStream(k: Kind, n: nat): (r: seq<Op>)
    ensures |r| == n
  {
    seq(n, i requires 0 <= i < n => Op(k, i))
  }

  /** `run(false)` over `n` streams. */
  function BreadthFirst(n: nat): (r: seq<Op>)
    ensures |r| == 3 * n
  {
    EveryStream(HtoD, n) + EveryStream(Compute, n) + EveryStream(DtoH, n)
  }

  /** `run(depthFirst)` over `n` streams: either order issues each of the
      `3 * n` operations once, each stream in pipeline order. */
  function Schedule(depthFirst: bool, n: nat): (r: seq<Op>)
    ensures |r| == 3 * n
    ensures IssuesEachOnce(r, n) && PipelineOrdered(r)
  {
    if depthFirst then DepthFirstWellFormed(n); DepthFirst(n)
    else BreadthFirstWellFormed(n); BreadthFirst(n)
  }

  /** Every operation of every one of the `n` streams is issued, nothing else
      is, and nothing is issued twice. */
  ghost predicate IssuesEachOnce(s: seq<Op>, n: nat)
  {
    && (forall o :: o in s <==> o.stream < n)
    && (forall p, q :: 0 <= p < q < |s| ==> s[p] != s[q])
  }

  /** Within each stream, the host-to-device copy comes before the transform,
      which comes before the device-to-host copy. */
  ghost predicate PipelineOrdered(s: seq<Op>)
  {
    forall p, q :: 0 <= p < q < |s| && s[p].stream == s[q].stream ==> Stage(s[p].kind) < Stage(s[q].kind)
  }

  /** Streams are issued one after the other: no operation of a stream comes
      after an operation of a later stream. */
  ghost predicate StreamByStream(s: seq<Op>)
  {
    forall p, q :: 0 <= p < q < |s| ==> s[p].stream <= s[q].stream
  }

  /** Stages are issued one after the other: no operation of a stage comes
      after an operation of a later stage. */
  ghost predicate StageByStage(s: seq<Op>)
  {
    forall p, q :: 0 <= p < q < |s| ==> Stage(s[p].kind) <= Stage(s[q].kind)
  }

  lemma InPipeline(o: Op, i: nat)
    ensures o in Pipeline(i) <==> o.stream == i
  {
    if o.stream == i {
      match o.kind
      case HtoD => assert o == Pipeline(i)[0];
      case Compute => assert o == Pipeline(i)[1];
      case DtoH => assert o == Pipeline(i)[2];
    }
  }

  /** Depth-first issue: each operation once, each stream in pipeline order,
      and no operation of a stream before every operation of the streams
      before it. */
  lemma {:induction false} DepthFirstWellFormed(n: nat)
    ensures |DepthFirst(n)| == 3 * n
    ensures IssuesEachOnce(DepthFirst(n), n)
    ensures PipelineOrdered(DepthFirst(n))
    ensures StreamByStream(DepthFirst(n))
  {
    if n > 0 {
      DepthFirstWellFormed(n - 1);
      DepthFirstMembers(n);
      DepthFirstPairs(n);
    }
  }

  lemma DepthFirstMembers(n: nat)
    requires n > 0 && IssuesEachOnce(DepthFirst(n - 1), n - 1)
    ensures forall o :: o in DepthFirst(n) <==> o.stream < n
  {
    forall o
      ensures o in DepthFirst(n) <==> o.stream < n
    {
      InPipeline(o, n - 1);
    }
  }

  lemma DepthFirstPairs(n: nat)
    requires n > 0 && IssuesEachOnce(DepthFirst(n - 1), n - 1) && PipelineOrdered(DepthFirst(n - 1))
    requires StreamByStream(DepthFirst(n - 1))
    ensures forall p, q :: 0 <= p < q < |DepthFirst(n)| ==> DepthFirst(n)[p] != DepthFirst(n)[q]
    ensures PipelineOrdered(DepthFirst(n))
    ensures StreamByStream(DepthFirst(n))
  {
    var prev, last := DepthFirst(n - 1), Pipeline(n - 1);
    var s := DepthFirst(n);
    assert s == prev + last;
    forall p | 0 <= p < |prev|
      ensures prev[p].stream < n - 1
    {
      assert prev[p] in prev;
    }
    forall p, q | 0 <= p < q < |s|
      ensures s[p] != s[q]
      ensures s[p].stream <= s[q].stream
      ensures s[p].stream == s[q].stream ==> Stage(s[p].kind) < Stage(s[q].kind)
    {
      if q < |prev| {
        assert s[p] == prev[p] && s[q] == prev[q];
      } else if p < |prev| {
        assert s[p] == prev[p] && s[q] == last[q - |prev|];
      } else {
        assert s[p] == last[p - |prev|] && s[q] == last[q - |prev|];
      }
    }
  }

  /** Position `p` of the breadth-first order: stage `p / n`, stream `p % n`. */
  lemma BreadthFirstAt(n: nat, p: nat)
    requires p < 3 * n
    ensures |BreadthFirst(n)| == 3 * n
    ensures p < n ==> BreadthFirst(n)[p] == Op(HtoD, p)
    ensures n <= p < 2 * n ==> BreadthFirst(n)[p] == Op(Compute, p - n)
    ensures 2 * n <= p ==> BreadthFirst(n)[p] == Op(DtoH, p - 2 * n)
  {
  }

  /** Breadth-first issue: each operation once, each stream in pipeline order,
      and no transform before every host-to-device copy, no device-to-host
      copy before every transform. */
  lemma BreadthFirstWellFormed(n: nat)
    ensures |BreadthFirst(n)| == 3 * n
    ensures IssuesEachOnce(BreadthFirst(n), n)
    ensures PipelineOrdered(BreadthFirst(n))
    ensures StageByStage(BreadthFirst(n))
  {
    var s := BreadthFirst(n);
    forall o
      ensures o in s <==> o.stream < n
    {
      if o.stream < n {
        var p := Stage(o.kind) * n + o.stream;
        BreadthFirstAt(n, p);
        assert s[p] == o;
      } else if o in s {
        var p :| 0 <= p < |s| && s[p] == o;
        BreadthFirstAt(n, p);
      }
    }
    forall p, q | 0 <= p < q < |s|
      ensures s[p] != s[q]
      ensures s[p].stream == s[q].stream ==> Stage(s[p].kind) < Stage(s[q].kind)
      ensures Stage(s[p].kind) <= Stage(s[q].kind)
    {
      BreadthFirstAt(n, p);
      BreadthFirstAt(n, q);
    }
  }

  /** Both orders issue the same operations, only in a different sequence. */
  lemma {:induction false} SameOperations(n: nat)
    ensures multiset(DepthFirst(n)) == multiset(BreadthFirst(n))
  {
    DepthFirstWellFormed(n);
    BreadthFirstWellFormed(n);
    DistinctSameSetSameMultiset(DepthFirst(n), BreadthFirst(n));
  }

  lemma {:induction false} DistinctSameSetSameMultiset(a: seq<Op>, b: seq<Op>)
    requires forall p, q :: 0 <= p < q < |a| ==> a[p] != a[q]
    requires forall p, q :: 0 <= p < q < |b| ==> b[p] != b[q]
    requires forall o :: o in a <==> o in b
    ensures multiset(a) == multiset(b)
  {
    forall o
      ensures multiset(a)[o] == multiset(b)[o]
    {
      CountInDistinct(a, o);
      CountInDistinct(b, o);
    }
  }

  lemma {:induction false} CountInDistinct(a: seq<Op>, o: Op)
    requires forall p, q :: 0 <= p < q < |a| ==> a[p] != a[q]
    ensures multiset(a)[o] == if o in a then 1 else 0
  {
    if a != [] {
      var rest := a[1..];
      assert a == [a[0]] + rest;
      forall p, q | 0 <= p < q < |rest|
        ensures rest[p] != rest[q]
      {
        assert rest[p] == a[p + 1] && rest[q] == a[q + 1];
      }
      CountInDistinct(rest, o);
    }
  }
}
