/** `calculate_cpu_usage`: for each core `0 .. num_cpus - 1`, the share of
    the time elapsed between two samples that the core did not spend idle,
    as a percentage, stored under the name `CPU<i>` in the output table. */
module Usage {
  import opened Outcomes
  import opened Decimal
  import opened CpuTable

  /** Why the computation stopped; in the program each is an exception that
      ends the analyzer or printer thread. */
  datatype UsageError =
    | CoreMissing(core: nat)   // `IndexError`: a table has no entry for the core
    | ZeroDelta(core: nat)     // `ZeroDivisionError`: the total did not move

  /** Time accounted to a core: eight of the ten counters. `guest` and
      `guest_nice` are already included in `user` and `nice` by the kernel and
      are not added. */
  function Total(d: CpuData): (n: int) {
    d.user + d.nice + d.system + d.idle + d.iowait + d.irq + d.softirq + d.steal
  }

  /** The eight counted counters, in column order. */
  function Counted(d: CpuData): (cs: seq<int>) {
    [d.user, d.nice, d.system, d.idle, d.iowait, d.irq, d.softirq, d.steal]
  }

  function TotalDiff(prev: CpuData, curr: CpuData): (n: int) {
    Total(curr) - Total(prev)
  }

  function IdleDiff(prev: CpuData, curr: CpuData): (n: int) {
    curr.idle - prev.idle
  }

  /** Time spent in the seven non-idle states between the two samples. */
  function BusyDiff(prev: CpuData, curr: CpuData): (n: int) {
    (curr.user - prev.user) + (curr.nice - prev.nice) + (curr.system - prev.system)
    + (curr.iowait - prev.iowait) + (curr.irq - prev.irq)
    + (curr.softirq - prev.softirq) + (curr.steal - prev.steal)
  }

  /** No counted counter went backwards between the two samples. */
  predicate Advances(prev: CpuData, curr: CpuData) {
    && prev.user <= curr.user && prev.nice <= curr.nice && prev.system <= curr.system
    && prev.idle <= curr.idle && prev.iowait <= curr.iowait && prev.irq <= curr.irq
    && prev.softirq <= curr.softirq && prev.steal <= curr.steal
  }

  /** `((total_diff - idle_diff) / total_diff) * 100.0` for one core, in exact
      arithmetic. */
  function CoreUsage(prev: CpuData, curr: CpuData): (u: real)
    requires TotalDiff(prev, curr) != 0
  {
    var totalDiff := TotalDiff(prev, curr);
    var idleDiff := IdleDiff(prev, curr);
    ((totalDiff - idleDiff) as real / totalDiff as real) * 100.0
  }

  /** The usage is the share of the elapsed counted time spent in the seven
      non-idle states (`iowait` included), as a percentage. */
  lemma UsageIsBusyShare(prev: CpuData, curr: CpuData)
    requires TotalDiff(prev, curr) != 0
    ensures CoreUsage(prev, curr) * TotalDiff(prev, curr) as real == 100.0 * BusyDiff(prev, curr) as real
    ensures CoreUsage(prev, curr) == 100.0 * BusyDiff(prev, curr) as real / TotalDiff(prev, curr) as real
  {
    var t := TotalDiff(prev, curr) as real;
    assert BusyDiff(prev, curr) == TotalDiff(prev, curr) - IdleDiff(prev, curr);
    var b := BusyDiff(prev, curr) as real;
    assert CoreUsage(prev, curr) == (b / t) * 100.0;
    assert (b / t) * t == b;
  }

  /** With counters that only grow and time that has elapsed, the usage is a
      percentage: no clamp is needed, the formula itself stays in [0, 100]. */
  lemma UsageBounds(prev: CpuData, curr: CpuData)
    requires Advances(prev, curr)
    requires TotalDiff(prev, curr) > 0
    ensures 0.0 <= CoreUsage(prev, curr) <= 100.0
  {
    UsageIsBusyShare(prev, curr);
    ShareBounds(CoreUsage(prev, curr), BusyDiff(prev, curr) as real, TotalDiff(prev, curr) as real);
  }

  /** A percentage `u` of `t` equal to `b` lies in [0, 100] when `0 <= b <= t`. */
  lemma ShareBounds(u: real, b: real, t: real)
    requires 0.0 <= b <= t && 0.0 < t
    requires u * t == 100.0 * b
    ensures 0.0 <= u <= 100.0
  {
  }

  /** A percentage `u` of `t` equal to `b` is 100 when `b` is all of `t` and
      0 when `b` is nothing. */
  lemma PercentExtremes(u: real, b: real, t: real)
    requires t != 0.0 && u * t == 100.0 * b
    ensures b == t ==> u == 100.0
    ensures b == 0.0 ==> u == 0.0
  {
    if b == t {
      assert (u - 100.0) * t == 0.0;
    }
    if b == 0.0 {
      assert u * t == 0.0;
    }
  }

  /** With counters that only grow, the division is defined exactly when some
      counted counter moved; the result is 100 when `idle` did not move and 0
      when only `idle` moved. */
  lemma UsageDefinedWhenProgress(prev: CpuData, curr: CpuData)
    requires Advances(prev, curr)
    ensures TotalDiff(prev, curr) >= 0
    ensures TotalDiff(prev, curr) == 0 <==> Counted(prev) == Counted(curr)
    ensures TotalDiff(prev, curr) != 0 && IdleDiff(prev, curr) == 0 ==> CoreUsage(prev, curr) == 100.0
    ensures TotalDiff(prev, curr) != 0 && BusyDiff(prev, curr) == 0 ==> CoreUsage(prev, curr) == 0.0
  {
    if Counted(prev) == Counted(curr) {
      assert forall k :: 0 <= k < 8 ==> Counted(prev)[k] == Counted(curr)[k];
      assert prev.user == curr.user && prev.nice == curr.nice && prev.system == curr.system;
      assert prev.idle == curr.idle && prev.iowait == curr.iowait && prev.irq == curr.irq;
      assert prev.softirq == curr.softirq && prev.steal == curr.steal;
    }
    if TotalDiff(prev, curr) != 0 {
      UsageIsBusyShare(prev, curr);
      PercentExtremes(CoreUsage(prev, curr), BusyDiff(prev, curr) as real, TotalDiff(prev, curr) as real);
    }
  }

  /** The guest counters never enter the result. */
  lemma GuestNotCounted(prev: CpuData, curr: CpuData, g0: int, gn0: int, g1: int, gn1: int)
    requires TotalDiff(prev, curr) != 0
    ensures var prev' := prev.(guest := g0, guestNice := gn0);
      var curr' := curr.(guest := g1, guestNice := gn1);
      TotalDiff(prev', curr') == TotalDiff(prev, curr) && CoreUsage(prev', curr') == CoreUsage(prev, curr)
  {
  }

  /** The name the output entry of core `i` receives, `f"CPU{i}"`. */
  function UsageName(i: nat): (name: string) {
    "CPU" + ShowNat(i)
  }

  /** The first error core `i` raises, in the order the program evaluates:
      `prev_cpu_data[i]`, `curr_cpu_data[i]`, the division, `cpu_usage[i]`. */
  function CoreFault(prev: Table, curr: Table, outSize: nat, i: nat): (f: Option<UsageError>) {
    if i >= |prev| || i >= |curr| then Some(CoreMissing(i))
    else if TotalDiff(prev[i], curr[i]) == 0 then Some(ZeroDelta(i))
    else if i >= outSize then Some(CoreMissing(i))
    else None
  }

  /** The loop from core `i` on; `out` already holds the entries below `i`. */
  function CalculateFrom(prev: Table, curr: Table, numCpus: nat, out: seq<CpuUsage>, i: nat)
    : (r: Result<seq<CpuUsage>, UsageError>)
    requires i <= numCpus
    ensures r.Ok? <==> forall k :: i <= k < numCpus ==> CoreFault(prev, curr, |out|, k).None?
    ensures r.Ok? ==> |r.value| == |out|
    ensures r.Err? ==>
      exists k :: i <= k < numCpus && CoreFault(prev, curr, |out|, k) == Some(r.error)
        && forall j :: i <= j < k ==> CoreFault(prev, curr, |out|, j).None?
    decreases numCpus - i
  {
    if i == numCpus then Ok(out)
    else
      match CoreFault(prev, curr, |out|, i)
      case Some(e) => Err(e)
      case None =>
        var entry := CpuUsage(UsageName(i), CoreUsage(prev[i], curr[i]));
        CalculateFrom(prev, curr, numCpus, out[i := entry], i + 1)
  }

  /** What the loop from core `i` on writes: entries `i .. numCpus - 1` get
      their name and usage, every other entry keeps its value. */
  lemma {:induction false} CalculateFromEntries(prev: Table, curr: Table, numCpus: nat, out: seq<CpuUsage>, i: nat)
    requires i <= numCpus
    requires CalculateFrom(prev, curr, numCpus, out, i).Ok?
    ensures var r := CalculateFrom(prev, curr, numCpus, out, i).value;
      && |r| == |out|
      && (i < numCpus ==> numCpus <= |prev| && numCpus <= |curr| && numCpus <= |out|)
      && (forall k :: 0 <= k < |out| && !(i <= k < numCpus) ==> r[k] == out[k])
      && (forall k :: i <= k < numCpus && k < |out| ==>
            TotalDiff(prev[k], curr[k]) != 0
            && r[k] == CpuUsage(UsageName(k), CoreUsage(prev[k], curr[k])))
    decreases numCpus - i
  {
    if i < numCpus {
      assert CoreFault(prev, curr, |out|, i).None?;
      assert CoreFault(prev, curr, |out|, numCpus - 1).None?;
      var entry := CpuUsage(UsageName(i), CoreUsage(prev[i], curr[i]));
      var out' := out[i := entry];
      assert CalculateFrom(prev, curr, numCpus, out, i) == CalculateFrom(prev, curr, numCpus, out', i + 1);
      CalculateFromEntries(prev, curr, numCpus, out', i + 1);
      var r := CalculateFrom(prev, curr, numCpus, out', i + 1).value;
      assert r[i] == out'[i] == entry;
    }
  }

  /** No core below `n` faults exactly when every table reaches core `n - 1`
      and every core's counted total moved. */
  lemma NoFaultIff(prev: Table, curr: Table, n: nat, outSize: nat)
    ensures (forall k :: 0 <= k < n ==> CoreFault(prev, curr, outSize, k).None?) <==>
      && n <= |prev| && n <= |curr| && n <= outSize
      && forall k :: 0 <= k < n ==> TotalDiff(prev[k], curr[k]) != 0
  {
    if n > 0 && forall k :: 0 <= k < n ==> CoreFault(prev, curr, outSize, k).None? {
      assert CoreFault(prev, curr, outSize, n - 1).None?;
      forall k | 0 <= k < n
        ensures TotalDiff(prev[k], curr[k]) != 0
      {
        assert CoreFault(prev, curr, outSize, k).None?;
      }
    }
  }

  /** `calculate_cpu_usage(cpu_usage)` with the sample tables and the core
      count passed in: either every core `0 .. numCpus - 1` gets its name and
      usage and every other entry keeps its value, or the first core that
      cannot be computed is reported. */
  function CalculateCpuUsage(prev: Table, curr: Table, numCpus: nat, out: seq<CpuUsage>)
    : (r: Result<seq<CpuUsage>, UsageError>)
    ensures r.Ok? <==>
      && numCpus <= |prev| && numCpus <= |curr| && numCpus <= |out|
      && forall k :: 0 <= k < numCpus ==> TotalDiff(prev[k], curr[k]) != 0
    ensures r.Ok? ==>
      && |r.value| == |out|
      && (forall k :: numCpus <= k < |out| ==> r.value[k] == out[k])
      && (forall k :: 0 <= k < numCpus ==>
            r.value[k] == CpuUsage(UsageName(k), CoreUsage(prev[k], curr[k])))
    ensures r.Err? ==>
      exists k :: 0 <= k < numCpus && CoreFault(prev, curr, |out|, k) == Some(r.error)
        && forall j :: 0 <= j < k ==> CoreFault(prev, curr, |out|, j).None?
  {
    var r := CalculateFrom(prev, curr, numCpus, out, 0);
    NoFaultIff(prev, curr, numCpus, |out|);
    if r.Ok? then
      CalculateFromEntries(prev, curr, numCpus, out, 0);
      r
    else
      r
  }


  /** Deltas of user +10, system +5 and idle +10 give 60%. */
  lemma SixtyPercentExample(name: string)
    ensures CoreUsage(CpuData(name, 100, 0, 50, 850, 0, 0, 0, 0, 0, 0),
                      CpuData(name, 110, 0, 55, 860, 0, 0, 0, 0, 0, 0)) == 60.0
  {
  }

  /** Two identical samples leave the total unmoved, so the first core raises
      the division error; no value is produced for it. */
  lemma IdenticalSamplesRejected(t: Table, numCpus: nat, out: seq<CpuUsage>)
    requires 0 < numCpus <= |t| && numCpus <= |out|
    ensures CalculateCpuUsage(t, t, numCpus, out) == Err(ZeroDelta(0))
  {
    assert CoreFault(t, t, |out|, 0) == Some(ZeroDelta(0));
  }

  /** Over a whole table: when every monitored core's counters only grew, every
      usage the calculator writes is a percentage. */
  lemma TableUsageBounds(prev: Table, curr: Table, numCpus: nat, out: seq<CpuUsage>)
    requires CalculateCpuUsage(prev, curr, numCpus, out).Ok?
    requires forall k :: 0 <= k < numCpus ==> Advances(prev[k], curr[k])
    ensures forall k :: 0 <= k < numCpus ==>
      0.0 <= CalculateCpuUsage(prev, curr, numCpus, out).value[k].usage <= 100.0
  {
    var r := CalculateCpuUsage(prev, curr, numCpus, out).value;
    forall k | 0 <= k < numCpus
      ensures 0.0 <= r[k].usage <= 100.0
    {
      UsageDefinedWhenProgress(prev[k], curr[k]);
      UsageBounds(prev[k], curr[k]);
    }
  }
}
