/** The records of the monitor: one core's cumulative time-in-state counters
    (`CPUData`), one core's computed usage (`CPUUsage`), and the fixed-size
    tables the program allocates for them at startup. */
module CpuTable {

  /** Capacity of every table: the program monitors at most 32 cores. */
  const MAX_CPUS: nat := 32

  /** Number of counters after the core name on a `cpu<N>` line. */
  const COUNTER_COUNT: nat := 10

  datatype CpuData = CpuData(
    cpuName: string,
    user: int,
    nice: int,
    system: int,
    idle: int,
    iowait: int,
    irq: int,
    softirq: int,
    steal: int,
    guest: int,
    guestNice: int)

  datatype CpuUsage = CpuUsage(cpuName: string, usage: real)

  /** A table indexed by core id. */
  type Table = seq<CpuData>

  /** The counters of a record in the column order of `/proc/stat`. */
  function Counters(d: CpuData): (cs: seq<int>)
    ensures |cs| == COUNTER_COUNT
  {
    [d.user, d.nice, d.system, d.idle, d.iowait, d.irq, d.softirq, d.steal, d.guest, d.guestNice]
  }

  /** The record holding `name` and the ten counters `cs`, in column order. */
  function Record(name: string, cs: seq<int>): (d: CpuData)
    requires |cs| == COUNTER_COUNT
    ensures d.cpuName == name && Counters(d) == cs
  {
    CpuData(name, cs[0], cs[1], cs[2], cs[3], cs[4], cs[5], cs[6], cs[7], cs[8], cs[9])
  }

  /** A freshly constructed `CPUData`: empty name, every counter zero. */
  const EmptyCore: CpuData := CpuData("", 0, 0, 0, 0, 0, 0, 0, 0, 0, 0)

  /** A freshly constructed `CPUUsage`: empty name, usage zero. */
  const EmptyUsage: CpuUsage := CpuUsage("", 0.0)

  /** The sample tables as allocated at startup. */
  function InitialTable(): (t: Table)
    ensures |t| == MAX_CPUS
    ensures forall i :: 0 <= i < |t| ==> t[i] == EmptyCore
  {
    seq(MAX_CPUS, _ => EmptyCore)
  }

  /** The per-thread usage table as allocated by the analyzer and printer. */
  function InitialUsage(): (u: seq<CpuUsage>)
    ensures |u| == MAX_CPUS
    ensures forall i :: 0 <= i < |u| ==> u[i] == EmptyUsage
  {
    seq(MAX_CPUS, _ => EmptyUsage)
  }
}
