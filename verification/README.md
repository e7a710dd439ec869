# CPU usage tracker: `/proc/stat` reader and usage calculator

This project models the computational core of the Linux CPU usage tracker:

- `read_cpu_data` scans the lines of `/proc/stat`. Every `cpu<N>` line
  overwrites entry `N` of the current-sample table with the core name and its
  ten counters. Every other line is ignored, including the aggregate `cpu` line.
  A malformed `cpu<N>` line makes the process exit.
- `calculate_cpu_usage` computes, for each core `0 .. num_cpus - 1`, the
  non-idle share of the time that elapsed between the previous and the current
  sample. It stores that share under the name `CPU<i>`.
- `CPUData` and `CPUUsage` are the records. The startup tables hold 32 of them.

Modules:

- `Outcomes` holds `Option` and `Result`.
- `Decimal` models Python's `int()` on decimal text and its inverse.
- `Text` models Python's argument-less `str.split()` and its inverse on tokens.
- `CpuTable` holds the records and the startup tables.
- `ProcStat` is the parser.
- `Usage` is the calculator.
- `Sampling` models what the reader thread leaves in the two tables between
  calculations, used for the finding below.

Choices made to match the code:

- Exceptions become `Err` values, because each one ends the process or the
  calling thread. These include `ValueError` from `int()`, `IndexError` from a
  missing field or an out-of-range core id, and `ZeroDivisionError` from a zero
  delta.
- Python's true division is modelled as exact `real` division.
- The core count `num_cpus` and the file's lines are parameters.

Two behaviours of the code are modelled as they are:

- The code has no guard against a zero total delta. The division raises and
  the exception ends the thread, so the model returns `ZeroDelta` and never
  reports 0% for such a core.
- The code has no clamp to [0, 100]. The model proves the bound from the
  formula itself, whenever no counted counter went backwards.

## Model

| member | source | states |
|---|---|---|
| CpuTable.Record | Linux/main.py:11-23 | a record holds the given name, and its ten counters read back in `/proc/stat` column order |
| CpuTable.InitialTable | Linux/main.py:32-33 | a startup sample table has `MAX_CPUS` = 32 entries, each with an empty name and all counters zero |
| CpuTable.InitialUsage | Linux/main.py:108 | a consumer's usage table has 32 entries, each with an empty name and usage 0.0 |
| Decimal.ParseInt | Linux/main.py:53 | `int()` on a token succeeds exactly on an optional sign followed by at least one digit; a negative result comes only from a leading `-` |
| Decimal.ParseShowInt | Linux/main.py:55-64 | reading the decimal text of any integer gives that integer back |
| Text.Split | Linux/main.py:50 | every field of `split()` is non-empty and contains no whitespace; a line that starts with a non-space character yields a first field equal to its first run of non-space characters |
| Text.SplitUnwords | Linux/main.py:50 | splitting tokens joined by single spaces, followed by any text that starts with whitespace, gives back the tokens followed by the split of that text |
| ProcStat.CoreToken | Linux/main.py:49-52 | a line is a per-core line exactly when it starts with `cpu` and its first field is not exactly `cpu`; that field is then longer than three characters and starts with `cpu` |
| ProcStat.ResolveSlot | Linux/main.py:54 | indexing a table of `size` entries succeeds exactly for ids in `-size .. size - 1`, and a negative id selects entry `size + id` |
| ProcStat.ParseCounters | Linux/main.py:55-64 | fields 1 to 10 are read in order; success exactly when each exists and is a number, and then the counters equal the numbers read; on failure the first bad field is reported |
| ProcStat.Store | Linux/main.py:49-64 | lines not starting with `cpu` and the aggregate `cpu` line change nothing; an accepted line stores a record exactly when it is a per-core line; a stored record carries the line's first field and counters 1..10 at the slot its id resolves to; an error arises exactly for a per-core line with a bad id, an out-of-range id or a bad or missing field |
| ProcStat.ParseLine | Linux/main.py:48-64 | one line is accepted exactly when its store is, and the table keeps its size |
| ProcStat.ReadCpuData | Linux/main.py:42-67 | reading keeps the table size; on failure the error is that of the first rejected line, and every earlier line was accepted |
| ProcStat.ReadCpuDataSpec | Linux/main.py:48-64 | a file is accepted exactly when every line is; each slot then holds the record of the last line that targets it, or its old value when no line does |
| ProcStat.LaterLineWins | Linux/main.py:54-64 | when the last line stores a record at a slot, that record is what the slot holds after reading, whatever earlier lines stored there |
| ProcStat.StoreFormatCoreLine | Linux/main.py:49-64 | a `cpu<n>` line written with ten counters is stored at slot `n` with exactly that name and those counters |
| ProcStat.ReadFormatCoreLine | Linux/main.py:48-64 | reading a one-line file with a formatted `cpu<n>` line changes slot `n` to that record and leaves every other slot unchanged |
| Usage.UsageIsBusyShare | Linux/main.py:72-94 | the usage is 100 times the time spent in the seven non-idle counted states divided by the elapsed counted time |
| Usage.UsageBounds | Linux/main.py:92-94 | with no counted counter going backwards and a positive delta, the usage lies in [0, 100] without any clamp |
| Usage.UsageDefinedWhenProgress | Linux/main.py:92-94 | with counters that only grow, the delta is zero exactly when none of the eight counted counters moved; an unmoved idle gives 100 and movement only in idle gives 0 |
| Usage.GuestNotCounted | Linux/main.py:72-91 | changing `guest` or `guest_nice` in either sample changes neither the total delta nor the usage |
| Usage.CalculateFrom | Linux/main.py:71-96 | the loop from core `i` succeeds exactly when no core from `i` on faults, and keeps the output length; on failure it reports the first faulting core |
| Usage.CalculateFromEntries | Linux/main.py:95-96 | the loop from core `i` writes each core from `i` to `num_cpus - 1` with name `CPU<k>` and its usage, and leaves every other entry unchanged |
| Usage.NoFaultIff | Linux/main.py:71-94 | no core below `n` faults exactly when all three tables have at least `n` entries and every such core's total delta is non-zero |
| Usage.CalculateCpuUsage | Linux/main.py:70-96 | succeeds exactly when the tables reach `num_cpus` entries and no core's delta is zero; entry `k < num_cpus` is then `CPU<k>` with that core's usage, and later entries keep their values; otherwise the first failing core is reported with its error kind |
| Usage.SixtyPercentExample | Linux/main.py:92-94 | deltas of user +10, system +5 and idle +10 over a total delta of 25 give exactly 60% |
| Usage.IdenticalSamplesRejected | Linux/main.py:92-94 | two identical samples are rejected with a division error at core 0; no 0% is produced |
| Usage.TableUsageBounds | Linux/main.py:70-96 | when every monitored core's counters only grew, every usage written is within [0, 100] |
| Sampling.ReadTickAsWritten | Linux/main.py:99-104 | a reader tick as written fails exactly when reading the file into the current table fails; otherwise the current table becomes the table read and the previous one is left as it was |
| Sampling.AsWrittenPrevNeverMoves | Linux/main.py:32 | however many ticks run, the previous-sample table keeps its startup value |
| Sampling.AsWrittenUsageIsSinceBoot | Linux/main.py:72-94 | against the startup record, the usage is the busy share of all time since boot |
| Sampling.CalculateOneCore | Linux/main.py:70-96 | the calculator over one core succeeds when that core's delta is non-zero, and entry 0 then holds that core's usage |
| Sampling.AsWrittenReportsSinceBoot | Linux/main.py:99-112 | for two ticks whose interval usage is 60%, the program as written reports 660/41, about 16.1% |
| Sampling.SinceBootValue | Linux/main.py:92-94 | the example's second sample measured against the all-zero record gives 660/41, which is below 17% |
| Sampling.ReadTick | Linux/main.py:99-104 | a corrected tick fails exactly when reading the file into the current table fails; otherwise the old current table becomes the previous one and the table read becomes the current one |
| Sampling.RunComparesLastTwoSamples | Linux/main.py:99-104 | with corrected ticks, after any sequence of ticks the previous table is the sample read by the tick before the last one |
| Sampling.CorrectedReportsInterval | Linux/main.py:72-96 | with corrected ticks, the two example ticks give exactly 60% |

## Left out

- Threads, the condition variable and its `notify` calls, the watchdog, the
  logger and the SIGTERM handler are left out, because they are concurrency
  and signal handling.
- Interleaving of reads and calculations is left out. The model assumes
  that each calculation sees a table no read is writing. In the program this
  does not hold. The reader writes `curr_cpu_data` one field at a time
  (Linux/main.py:54-64), outside the lock (line 101). The consumers compute
  outside the lock too (lines 112, 120). So a calculation can mix counters
  from two reads, even within one record.
- Opening `/proc/stat` and splitting the file into lines (`readlines`) are
  left out because they are I/O. The file's lines are an input. A
  `readlines` split on line terminators other than `\n` is not modelled.
- Printing the usages, the `.2f` rounding and the log file are left out
  because they are output formatting and I/O.
- `os.cpu_count()` becomes the parameter `numCpus`. The case where it returns
  `None` is not modelled.
- Floating point is modelled as exact rational arithmetic. Rounding of the
  IEEE double result is not modelled.
- Decimal.ParseInt: does not accept the underscores between digits (`1_000`)
  or the non-ASCII Unicode digits that Python's `int()` accepts. `/proc/stat`
  never contains them. It also does not model the limit on the length of
  decimal text (`sys.get_int_max_str_digits`, 4300 digits by default). Recent
  Python releases make `int()` raise `ValueError` above that limit. The model
  accepts text of any length, because no `/proc/stat` counter comes near it.
- ProcStat.ReadCpuData: does not model the fields an entry receives before a
  later field of the same line fails. The process exits at once, so that
  partial record is never observed.
- The psutil-based variant `main.py` at the top of the repository is not part
  of this model.

## Findings

| source | as written | input that shows it | evidently intended | confidence | as-written member | corrected member |
|---|---|---|---|---|---|---|
| Linux/main.py:32,99-104 | `prev_cpu_data` is created once at startup and never assigned, so every calculation compares the current sample with all-zero counters | two reads in which core 0 goes from user/system/idle 100/50/850 to 110/55/860: the interval usage is 60%, but the program reports 660/41 ≈ 16.1%, the average since boot | before each read, the sample just read becomes the previous sample, so each calculation covers the last interval | high, not executed | Sampling.AsWrittenReportsSinceBoot | Sampling.CorrectedReportsInterval |
