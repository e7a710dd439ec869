/** The data flow of the reader and consumer threads: each reader tick reads
    `/proc/stat` into the current-sample table, and each consumer compares
    the previous-sample table with the current one. The threads themselves,
    their wake-ups and their sleeps are not modelled here; only what the
    tables hold when the calculator runs. */
module Sampling {
  import opened Outcomes
  import opened Decimal
  import opened CpuTable
  import opened ProcStat
  import opened Usage

  datatype Samples = Samples(prev: Table, curr: Table)

  /** Both tables as allocated at startup. */
  function Startup(): (s: Samples) {
    Samples(InitialTable(), InitialTable())
  }

  /** A reader tick as the program performs it: the current table is
      refreshed and the previous table is never assigned. */
  function ReadTickAsWritten(s: Samples, lines: seq<string>): (r: Result<Samples, ParseError>)
    ensures r.Ok? <==> ReadCpuData(lines, s.curr).Ok?
    ensures r.Ok? ==> r.value.prev == s.prev && r.value.curr == ReadCpuData(lines, s.curr).value
    ensures r.Ok? ==> |r.value.curr| == |s.curr|
  {
    match ReadCpuData(lines, s.curr)
    case Err(e) => Err(e)
    case Ok(t) => Ok(Samples(s.prev, t))
  }

  /** Successive ticks, one file content per tick. */
  function RunAsWritten(s: Samples, ticks: seq<seq<string>>): (r: Result<Samples, ParseError>)
    decreases |ticks|
  {
    if |ticks| == 0 then Ok(s)
    else
      match ReadTickAsWritten(s, ticks[0])
      case Err(e) => Err(e)
      case Ok(s1) => RunAsWritten(s1, ticks[1..])
  }

  /** However many ticks run, the previous-sample table keeps its startup
      value, so every usage is measured against all-zero counters. */
  lemma {:induction false} AsWrittenPrevNeverMoves(s: Samples, ticks: seq<seq<string>>)
    ensures RunAsWritten(s, ticks).Ok? ==> RunAsWritten(s, ticks).value.prev == s.prev
    decreases |ticks|
  {
    if |ticks| > 0 {
      match ReadTickAsWritten(s, ticks[0])
      case Err(_) =>
      case Ok(s1) => AsWrittenPrevNeverMoves(s1, ticks[1..]);
    }
  }

  /** Against the startup record the formula yields the average busy share
      since boot, not the share of the last interval. */
  lemma AsWrittenUsageIsSinceBoot(curr: CpuData)
    requires Total(curr) != 0
    ensures TotalDiff(EmptyCore, curr) == Total(curr)
    ensures CoreUsage(EmptyCore, curr) == 100.0 * (Total(curr) - curr.idle) as real / Total(curr) as real
  {
    UsageIsBusyShare(EmptyCore, curr);
  }

  const FirstCounters: seq<int> := [100, 0, 50, 850, 0, 0, 0, 0, 0, 0]
  const SecondCounters: seq<int> := [110, 0, 55, 860, 0, 0, 0, 0, 0, 0]

  /** The calculator over a single core writes entry 0 and nothing else. */
  lemma CalculateOneCore(prev: Table, curr: Table, out: seq<CpuUsage>)
    requires 0 < |prev| && 0 < |curr| && 0 < |out|
    requires TotalDiff(prev[0], curr[0]) != 0
    ensures CalculateCpuUsage(prev, curr, 1, out).Ok?
    ensures CalculateCpuUsage(prev, curr, 1, out).value[0].usage == CoreUsage(prev[0], curr[0])
  {
    NoFaultIff(prev, curr, 1, |out|);
  }

  /** Two as-written ticks that read `a` and then `b`. */
  lemma AsWrittenTwoTicks(s: Samples, a: seq<string>, b: seq<string>, t1: Table, t2: Table)
    requires ReadCpuData(a, s.curr) == Ok(t1) && ReadCpuData(b, t1) == Ok(t2)
    ensures RunAsWritten(s, [a, b]) == Ok(Samples(s.prev, t2))
  {
    var s1 := Samples(s.prev, t1);
    var s2 := Samples(s.prev, t2);
    assert ReadTickAsWritten(s, a) == Ok(s1);
    assert ReadTickAsWritten(s1, b) == Ok(s2);
    assert [a, b][0] == a && [a, b][1..] == [b];
    assert RunAsWritten(s, [a, b]) == RunAsWritten(s1, [b]);
    assert [b][0] == b && [b][1..] == [];
    assert RunAsWritten(s1, [b]) == RunAsWritten(s2, []);
  }

  /** The tables after the two example ticks of either kind. */
  lemma ExampleTables(s: Samples) returns (t1: Table, t2: Table)
    requires s == Startup()
    ensures ReadCpuData([FormatCoreLine(0, FirstCounters)], s.curr) == Ok(t1)
    ensures ReadCpuData([FormatCoreLine(0, SecondCounters)], t1) == Ok(t2)
    ensures t1[0] == CpuData(t1[0].cpuName, 100, 0, 50, 850, 0, 0, 0, 0, 0, 0)
    ensures t2[0] == CpuData(t1[0].cpuName, 110, 0, 55, 860, 0, 0, 0, 0, 0, 0)
    ensures s.prev[0] == EmptyCore && |t2| == MAX_CPUS
  {
    var name := "cpu" + ShowNat(0);
    t1 := s.curr[0 := Record(name, FirstCounters)];
    t2 := t1[0 := Record(name, SecondCounters)];
    ReadFormatCoreLine(0, FirstCounters, s.curr);
    ReadFormatCoreLine(0, SecondCounters, t1);
  }

  /** Two ticks whose interval usage of core 0 is 60%: the program as written
      reports 660/41 (about 16.1%), the since-boot average. */
  lemma AsWrittenReportsSinceBoot()
    ensures var r := RunAsWritten(Startup(), [[FormatCoreLine(0, FirstCounters)], [FormatCoreLine(0, SecondCounters)]]);
      && r.Ok?
      && CalculateCpuUsage(r.value.prev, r.value.curr, 1, InitialUsage()).Ok?
      && CalculateCpuUsage(r.value.prev, r.value.curr, 1, InitialUsage()).value[0].usage == 660.0 / 41.0
  {
    var s := Startup();
    var t1, t2 := ExampleTables(s);
    AsWrittenTwoTicks(s, [FormatCoreLine(0, FirstCounters)], [FormatCoreLine(0, SecondCounters)], t1, t2);
    SinceBootUsage(s.prev, t2, t1[0].cpuName);
    SinceBootValue(t1[0].cpuName);
  }

  /** The calculator over the startup table and the second example sample. */
  lemma SinceBootUsage(prev: Table, curr: Table, name: string)
    requires |prev| == |curr| == MAX_CPUS && prev[0] == EmptyCore
    requires curr[0] == CpuData(name, 110, 0, 55, 860, 0, 0, 0, 0, 0, 0)
    ensures CalculateCpuUsage(prev, curr, 1, InitialUsage()).Ok?
    ensures CalculateCpuUsage(prev, curr, 1, InitialUsage()).value[0].usage == CoreUsage(EmptyCore, curr[0])
  {
    CalculateOneCore(prev, curr, InitialUsage());
  }

  lemma SinceBootValue(name: string)
    ensures CoreUsage(EmptyCore, CpuData(name, 110, 0, 55, 860, 0, 0, 0, 0, 0, 0)) == 660.0 / 41.0
    ensures TotalDiff(EmptyCore, CpuData(name, 110, 0, 55, 860, 0, 0, 0, 0, 0, 0)) == 1025
    ensures 660.0 / 41.0 < 17.0
  {
  }

  /** The evidently intended tick: the sample just used becomes the previous
      one before the file is read again. */
  function ReadTick(s: Samples, lines: seq<string>): (r: Result<Samples, ParseError>)
    ensures r.Ok? <==> ReadCpuData(lines, s.curr).Ok?
    ensures r.Ok? ==> r.value.prev == s.curr && r.value.curr == ReadCpuData(lines, s.curr).value
    ensures r.Ok? ==> |r.value.curr| == |s.curr|
  {
    match ReadCpuData(lines, s.curr)
    case Err(e) => Err(e)
    case Ok(t) => Ok(Samples(s.curr, t))
  }

  function Run(s: Samples, ticks: seq<seq<string>>): (r: Result<Samples, ParseError>)
    decreases |ticks|
  {
    if |ticks| == 0 then Ok(s)
    else
      match ReadTick(s, ticks[0])
      case Err(e) => Err(e)
      case Ok(s1) => Run(s1, ticks[1..])
  }

  /** After at least one tick, the calculator compares the sample of the last
      tick with the sample of the tick before it. */
  lemma {:induction false} RunComparesLastTwoSamples(s: Samples, ticks: seq<seq<string>>, last: seq<string>)
    requires Run(s, ticks + [last]).Ok?
    ensures Run(s, ticks).Ok?
    ensures Run(s, ticks + [last]).value.prev == Run(s, ticks).value.curr
    ensures Run(s, ticks + [last]) == ReadTick(Run(s, ticks).value, last)
    decreases |ticks|
  {
    if |ticks| == 0 {
      assert ticks + [last] == [last];
      assert [last][1..] == [];
    } else {
      assert (ticks + [last])[0] == ticks[0];
      assert (ticks + [last])[1..] == ticks[1..] + [last];
      RunComparesLastTwoSamples(ReadTick(s, ticks[0]).value, ticks[1..], last);
    }
  }

  /** Two corrected ticks that read `a` and then `b`. */
  lemma TwoTicks(s: Samples, a: seq<string>, b: seq<string>, t1: Table, t2: Table)
    requires ReadCpuData(a, s.curr) == Ok(t1) && ReadCpuData(b, t1) == Ok(t2)
    ensures Run(s, [a, b]) == Ok(Samples(t1, t2))
  {
    var s1 := Samples(s.curr, t1);
    var s2 := Samples(t1, t2);
    assert ReadTick(s, a) == Ok(s1);
    assert ReadTick(s1, b) == Ok(s2);
    assert [a, b][0] == a && [a, b][1..] == [b];
    assert Run(s, [a, b]) == Run(s1, [b]);
    assert [b][0] == b && [b][1..] == [];
    assert Run(s1, [b]) == Run(s2, []);
  }

  /** The same two ticks as in `AsWrittenReportsSinceBoot`: with the corrected
      tick the calculator reports the interval usage, 60%. */
  lemma CorrectedReportsInterval()
    ensures var r := Run(Startup(), [[FormatCoreLine(0, FirstCounters)], [FormatCoreLine(0, SecondCounters)]]);
      && r.Ok?
      && CalculateCpuUsage(r.value.prev, r.value.curr, 1, InitialUsage()).Ok?
      && CalculateCpuUsage(r.value.prev, r.value.curr, 1, InitialUsage()).value[0].usage == 60.0
  {
    var s := Startup();
    var t1, t2 := ExampleTables(s);
    TwoTicks(s, [FormatCoreLine(0, FirstCounters)], [FormatCoreLine(0, SecondCounters)], t1, t2);
    SixtyPercentExample(t1[0].cpuName);
    CalculateOneCore(t1, t2, InitialUsage());
  }
}
