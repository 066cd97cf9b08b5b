/**
 * `TinyTimer` (hybrid/utils/tinytimer.h): a stack of start time points and a
 * `TinyRecord` of accumulated durations per record name.
 *
 * The clock is read by the caller and passed in as a time point counted in
 * nanoseconds, the tick of `std::chrono::steady_clock` with libstdc++;
 * durations are kept in whole microseconds as in the source.
 */
module TinyTimerModel {
  import opened Wrappers
  import opened TinyRecordMap

  /** A record name and a duration in microseconds. */
  type Entry = (string, int)

  /** `duration_cast<microseconds>` of a span of nanoseconds: the quotient by
      1000, truncated toward zero. */
  function ToMicros(ns: int): (us: int)
    ensures ns >= 0 ==> us >= 0 && us * 1000 <= ns < us * 1000 + 1000
    ensures ns < 0 ==> us <= 0 && -ns - 1000 < -us * 1000 <= -ns
  {
    if ns >= 0 then ns / 1000 else -((-ns) / 1000)
  }

  /** `append(name, duration)` on the entries: an existing record of the name
      grows by the duration, otherwise a new record is inserted at the end. */
  function Accumulate(d: seq<Entry>, name: string, dur: int): (r: seq<Entry>)
    ensures |r| == |d| + (if Lookup(d, name).None? then 1 else 0)
  {
    match Lookup(d, name)
    case Some(total) => Inserted(d, name, total + dur)
    case None => Inserted(d, name, dur)
  }

  /** The records after appending every interval of `log`, oldest first. */
  function Totals(log: seq<Entry>): (r: seq<Entry>)
    ensures |r| <= |log|
  {
    if log == [] then []
    else
      var last := log[|log| - 1];
      Accumulate(Totals(log[..|log| - 1]), last.0, last.1)
  }

  /** The sum of the durations named `name` in `log`. */
  function Total(log: seq<Entry>, name: string): int
  {
    if log == [] then 0
    else
      var last := log[|log| - 1];
      Total(log[..|log| - 1], name) + (if last.0 == name then last.1 else 0)
  }

  /** The names of `log` in the order of their first appearance. */
  function Names(log: seq<Entry>): seq<string>
  {
    if log == [] then []
    else
      var p := Names(log[..|log| - 1]);
      var name := log[|log| - 1].0;
      if name in p then p else p + [name]
  }

  /** A name is listed exactly when some interval carries it; a name that
      never occurs totals zero. */
  lemma {:induction false} NamesOccur(log: seq<Entry>, name: string)
    ensures name in Names(log) <==> exists i :: 0 <= i < |log| && log[i].0 == name
    ensures name !in Names(log) ==> Total(log, name) == 0
  {
    if log != [] {
      var pre := log[..|log| - 1];
      NamesOccur(pre, name);
      if name in Names(pre) {
        var i :| 0 <= i < |pre| && pre[i].0 == name;
        assert log[i] == pre[i];
      }
      if exists i :: 0 <= i < |log| && log[i].0 == name {
        var i :| 0 <= i < |log| && log[i].0 == name;
        if i < |pre| {
          assert pre[i] == log[i];
        }
      }
    }
  }

  /** One `append` adds a new key at the end or keeps the keys as they are. */
  lemma AccumulateKeys(d: seq<Entry>, name: string, dur: int)
    ensures Keys(Accumulate(d, name, dur)) == Keys(d) + (if Lookup(d, name).None? then [name] else [])
    ensures UniqueKeys(d) ==> UniqueKeys(Accumulate(d, name, dur))
  {
    match Lookup(d, name)
    case Some(total) => InsertedKeys(d, name, total + dur);
    case None => InsertedKeys(d, name, dur);
  }

  /** One `append` adds the duration to its own name and to no other. */
  lemma AccumulateLookup(d: seq<Entry>, name: string, dur: int, other: string)
    ensures Lookup(Accumulate(d, name, dur), name) == Some(if Lookup(d, name).Some? then Lookup(d, name).value + dur else dur)
    ensures other != name ==> Lookup(Accumulate(d, name, dur), other) == Lookup(d, other)
  {
    match Lookup(d, name)
    case Some(total) => LookupInserted(d, name, total + dur, other);
    case None => LookupInserted(d, name, dur, other);
  }

  /** The records hold one entry per name, in first-appearance order. */
  lemma {:induction false} TotalsKeys(log: seq<Entry>)
    ensures UniqueKeys(Totals(log))
    ensures Keys(Totals(log)) == Names(log)
  {
    if log == [] {
      assert Keys(Totals(log)) == [];
    } else {
      var pre := log[..|log| - 1];
      var n := log[|log| - 1].0;
      TotalsKeys(pre);
      NamesOccur(pre, n);
      TotalsLookup(pre, n);
      AccumulateKeys(Totals(pre), n, log[|log| - 1].1);
    }
  }

  /** The record of a name holds the sum of its intervals, and a name never
      recorded has no record. */
  lemma {:induction false} TotalsLookup(log: seq<Entry>, name: string)
    ensures Lookup(Totals(log), name) == if name in Names(log) then Some(Total(log, name)) else None
  {
    if log != [] {
      var pre := log[..|log| - 1];
      var n, dur := log[|log| - 1].0, log[|log| - 1].1;
      assert Totals(log) == Accumulate(Totals(pre), n, dur);
      assert Total(log, name) == Total(pre, name) + (if n == name then dur else 0);
      assert name in Names(log) <==> name in Names(pre) || name == n;
      AccumulateLookup(Totals(pre), n, dur, name);
      if name == n {
        TotalsLookup(pre, n);
        NamesOccur(pre, n);
      } else {
        TotalsLookup(pre, name);
      }
    }
  }

  /** The records hold one entry per name, in first-appearance order, and each
      entry is the sum of the intervals of its name. */
  lemma TotalsMeaning(log: seq<Entry>)
    ensures UniqueKeys(Totals(log))
    ensures Keys(Totals(log)) == Names(log)
    ensures forall name :: Lookup(Totals(log), name) == if name in Names(log) then Some(Total(log, name)) else None
  {
    TotalsKeys(log);
    forall name
      ensures Lookup(Totals(log), name) == if name in Names(log) then Some(Total(log, name)) else None
    {
      TotalsLookup(log, name);
    }
  }

  class TinyTimer {
    /** `_start_times`, top of the stack last. */
    var startTimes: seq<int>
    /** `_records`. */
    const records: TinyRecord<string, int>
    /** Every interval appended since the last `clear()`, oldest first. */
    ghost var log: seq<Entry>

    ghost predicate Valid()
      reads this, records
    {
      records.data == Totals(log)
    }

    constructor ()
      ensures Valid() && fresh(records)
      ensures startTimes == [] && log == []
    {
      startTimes := [];
      log := [];
      records := new TinyRecord();
    }

    /** `start()`: push the current time point. */
    method Start(now: int)
      modifies this`startTimes
      ensures startTimes == old(startTimes) + [now]
    {
      startTimes := startTimes + [now];
    }

    /** `stop(name)`: pop the most recent start and record the time since
        it. With no start on the stack the duration is left uninitialised;
        `unset` stands for whatever value it holds. */
    method Stop(name: string, now: int, unset: int)
      requires Valid()
      modifies this`startTimes, this`log, records
      ensures Valid()
      ensures old(startTimes) != [] ==>
        && startTimes == old(startTimes)[..|old(startTimes)| - 1]
        && log == old(log) + [(name, ToMicros(now - old(startTimes)[|old(startTimes)| - 1]))]
      ensures old(startTimes) == [] ==> startTimes == [] && log == old(log) + [(name, unset)]
    {
      var elapsed := unset;
      if |startTimes| > 0 {
        elapsed := ToMicros(now - startTimes[|startTimes| - 1]);
        startTimes := startTimes[..|startTimes| - 1];
      }
      Append(name, elapsed);
    }

    /** `clear()`: drop the records; the start stack stays as it is. */
    method Clear()
      modifies this`log, records
      ensures Valid()
      ensures records.data == [] && log == [] && startTimes == old(startTimes)
    {
      records.Clear();
      log := [];
    }

    /** `append(name, duration)`: add the duration to the record of the name,
        or insert a new record at the end. */
    method Append(name: string, dur: int)
      requires Valid()
      modifies this`log, records
      ensures Valid()
      ensures log == old(log) + [(name, dur)]
      ensures records.data == Accumulate(old(records.data), name, dur)
    {
      var it := records.Find(name);
      if it != |records.data| {
        var cur := records.At(name);
        assert cur.Ok?;
        var _ := records.AssignAt(name, cur.value + dur);
      } else {
        records.Insert(name, dur);
      }
      log := log + [(name, dur)];
      assert log[..|log| - 1] == old(log);
    }

    /** `get(name)`: the accumulated duration of the name, zero for a name
        never recorded. */
    method Get(name: string) returns (d: int)
      requires Valid()
      ensures d == Total(log, name)
      ensures Lookup(records.data, name).None? ==> d == 0
      ensures Lookup(records.data, name).Some? ==> d == Lookup(records.data, name).value
    {
      TotalsMeaning(log);
      NamesOccur(log, name);
      var it := records.Find(name);
      if it == |records.data| {
        return 0;
      }
      var cur := records.At(name);
      assert cur.Ok?;
      d := cur.value;
    }

    /** `report()`: one line per record, in the order the names were first
        recorded, each with its accumulated duration. */
    method Report() returns (lines: seq<Entry>)
      requires Valid()
      ensures Keys(lines) == Names(log)
      ensures forall i :: 0 <= i < |lines| ==> lines[i].1 == Total(log, lines[i].0)
      ensures lines == records.data
    {
      TotalsMeaning(log);
      lines := [];
      var i := 0;
      while i < |records.data|
        invariant 0 <= i <= |records.data|
        invariant lines == records.data[..i]
      {
        var name := records.data[i].0;
        var d := Get(name);
        LookupUnique(records.data, name, records.data[i].1);
        lines := lines + [(name, d)];
        i := i + 1;
      }
      assert records.data[..i] == records.data;
    }
  }

  /** Starts and stops pair up last-in first-out: in `start; start; stop(inner);
      stop(outer)` the inner record spans the second start and the outer one
      the first. */
  method NestedIntervals(t0: int, t1: int, t2: int, t3: int) returns (inner: int, outer: int)
    ensures inner == ToMicros(t2 - t1) && outer == ToMicros(t3 - t0)
  {
    var timer := new TinyTimer();
    timer.Start(t0);
    timer.Start(t1);
    timer.Stop("inner", t2, 0);
    timer.Stop("outer", t3, 0);
    inner := timer.Get("inner");
    outer := timer.Get("outer");
  }

  /** Stopping the same name twice accumulates both intervals into one record. */
  method RepeatedName(t0: int, t1: int, t2: int, t3: int) returns (total: int, lines: seq<Entry>)
    ensures total == ToMicros(t1 - t0) + ToMicros(t3 - t2)
    ensures lines == [("step", total)]
  {
    var timer := new TinyTimer();
    timer.Start(t0);
    timer.Stop("step", t1, 0);
    timer.Start(t2);
    timer.Stop("step", t3, 0);
    total := timer.Get("step");
    lines := timer.Report();
  }
}
