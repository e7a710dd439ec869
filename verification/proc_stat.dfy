/** `read_cpu_data`: the lines of `/proc/stat` are scanned in order; every
    `cpu<N>` line overwrites entry `N` of the sample table with its name and
    its ten counters, every other line (the aggregate `cpu` line included) is
    ignored, and a malformed `cpu<N>` line ends the process. */
module ProcStat {
  import opened Outcomes
  import opened Decimal
  import opened Text
  import opened CpuTable

  /** Why a `cpu<N>` line was rejected; in the program each of these is an
      exception that terminates the process with `EX_OSERR`. */
  datatype ParseError =
    | BadCoreId(text: string)      // `int()` refused the text after "cpu"
    | CoreOutOfRange(id: int)      // list index out of range for the table
    | MissingField(index: nat)     // the line has no field at this position
    | BadCounter(text: string)     // `int()` refused a counter field

  /** The first token of `line` when the line is a per-core line: it starts
      with "cpu" and its first token is longer than "cpu". */
  function CoreToken(line: string): (r: Option<string>)
    ensures r.Some? ==>
      && StartsWith(line, "cpu")
      && |Split(line)| > 0 && r.value == Split(line)[0]
      && |r.value| > 3 && StartsWith(r.value, "cpu")
    ensures r.None? <==>
      || !StartsWith(line, "cpu")
      || (|Split(line)| > 0 && Split(line)[0] == "cpu")
  {
    if StartsWith(line, "cpu") then
      CpuLineFirstToken(line);
      var name := Split(line)[0];
      if |name| > 3 && name[..3] == "cpu" then Some(name) else None
    else None
  }

  /** A line that starts with "cpu" has a first token that starts with "cpu". */
  lemma CpuLineFirstToken(line: string)
    requires StartsWith(line, "cpu")
    ensures |Split(line)| > 0 && StartsWith(Split(line)[0], "cpu")
  {
    assert line[0] == 'c' && line[1] == 'p' && line[2] == 'u';
    assert !IsSpace(line[0]) && !IsSpace(line[1]) && !IsSpace(line[2]);
  }

  /** Python list indexing: `t[id]` is entry `id`, or entry `size + id` for a
      negative `id`, and an `IndexError` outside `-size .. size - 1`. */
  function ResolveSlot(id: int, size: nat): (r: Option<nat>)
    ensures r.Some? <==> -(size as int) <= id < size
    ensures r.Some? ==> r.value < size && (r.value == id || r.value == size + id)
  {
    if 0 <= id < size then Some(id)
    else if -(size as int) <= id < 0 then Some(size + id)
    else None
  }

  /** Field `j` of a split line cannot be read as a counter. */
  predicate FieldFails(fields: seq<string>, j: nat) {
    j >= |fields| || ParseInt(fields[j]).None?
  }

  function FieldError(fields: seq<string>, j: nat): (e: ParseError) {
    if j < |fields| then BadCounter(fields[j]) else MissingField(j)
  }

  /** `int(fields[k])`, ..., `int(fields[10])`, in that order; the first field
      that is missing or not a number is the error. */
  function ParseCounters(fields: seq<string>, k: nat): (r: Result<seq<int>, ParseError>)
    requires 1 <= k <= COUNTER_COUNT + 1
    ensures r.Ok? <==> forall j :: k <= j <= COUNTER_COUNT ==> !FieldFails(fields, j)
    ensures r.Ok? ==>
      && |r.value| == COUNTER_COUNT + 1 - k
      && (k <= COUNTER_COUNT ==> |fields| > COUNTER_COUNT)
      && forall j :: k <= j <= COUNTER_COUNT ==> ParseInt(fields[j]) == Some(r.value[j - k])
    ensures r.Err? ==>
      exists j :: k <= j <= COUNTER_COUNT && FieldFails(fields, j) && r.error == FieldError(fields, j)
        && forall i :: k <= i < j ==> !FieldFails(fields, i)
    decreases COUNTER_COUNT + 1 - k
  {
    if k > COUNTER_COUNT then Ok([])
    else if k >= |fields| then
      assert FieldFails(fields, k);
      Err(MissingField(k))
    else
      match ParseInt(fields[k])
      case None =>
        assert FieldFails(fields, k);
        Err(BadCounter(fields[k]))
      case Some(v) =>
        match ParseCounters(fields, k + 1)
        case Err(e) => Err(e)
        case Ok(rest) =>
          CountersCons(fields, k, v, rest);
          Ok([v] + rest)
  }

  /** The counter read at field `k`, followed by those read after it, lines
      up with fields `k` onwards. */
  lemma CountersCons(fields: seq<string>, k: nat, v: int, rest: seq<int>)
    requires k < |fields| && ParseInt(fields[k]) == Some(v)
    requires k + |rest| < |fields|
    requires forall j :: k + 1 <= j < k + 1 + |rest| ==> ParseInt(fields[j]) == Some(rest[j - (k + 1)])
    ensures forall j :: k <= j < k + 1 + |rest| ==> ParseInt(fields[j]) == Some(([v] + rest)[j - k])
  {
  }

  /** The effect of one line on a table of `size` entries: nothing, a record
      stored at a slot, or the error that ends the process. */
  function Store(line: string, size: nat): (r: Result<Option<(nat, CpuData)>, ParseError>)
    ensures !StartsWith(line, "cpu") ==> r == Ok(None)
    ensures |Split(line)| > 0 && Split(line)[0] == "cpu" ==> r == Ok(None)
    ensures r.Ok? ==> (r.value.Some? <==> CoreToken(line).Some?)
    ensures r.Ok? && r.value.Some? ==>
      var (slot, rec) := r.value.value;
      var f := Split(line);
      && StartsWith(line, "cpu") && |f| > COUNTER_COUNT
      && rec.cpuName == f[0] && |f[0]| > 3
      && ParseInt(f[0][3..]).Some?
      && slot < size
      && (slot == ParseInt(f[0][3..]).value || slot == size + ParseInt(f[0][3..]).value)
      && forall j :: 1 <= j <= COUNTER_COUNT ==> ParseInt(f[j]) == Some(Counters(rec)[j - 1])
    ensures r.Err? <==>
      && CoreToken(line).Some?
      && var id := ParseInt(CoreToken(line).value[3..]);
         || id.None?
         || !(-(size as int) <= id.value < size)
         || exists j :: 1 <= j <= COUNTER_COUNT && FieldFails(Split(line), j)
    ensures r.Err? && CoreToken(line).Some? && ParseInt(CoreToken(line).value[3..]).None? ==>
      r.error == BadCoreId(CoreToken(line).value[3..])
  {
    match CoreToken(line)
    case None => Ok(None)
    case Some(name) =>
      match ParseInt(name[3..])
      case None => Err(BadCoreId(name[3..]))
      case Some(id) =>
        match ResolveSlot(id, size)
        case None => Err(CoreOutOfRange(id))
        case Some(slot) =>
          match ParseCounters(Split(line), 1)
          case Err(e) =>
            assert exists j :: 1 <= j <= COUNTER_COUNT && FieldFails(Split(line), j);
            Err(e)
          case Ok(cs) => Ok(Some((slot, Record(name, cs))))
  }

  /** One line applied to the table. */
  function ParseLine(line: string, t: Table): (r: Result<Table, ParseError>)
    ensures r.Ok? <==> Store(line, |t|).Ok?
    ensures r.Ok? ==> |r.value| == |t|
  {
    match Store(line, |t|)
    case Err(e) => Err(e)
    case Ok(None) => Ok(t)
    case Ok(Some((slot, rec))) => Ok(t[slot := rec])
  }

  /** `read_cpu_data` over the lines of the file, starting from table `t`. */
  function ReadCpuData(lines: seq<string>, t: Table): (r: Result<Table, ParseError>)
    ensures r.Ok? ==> |r.value| == |t|
    ensures r.Err? ==>
      exists j :: 0 <= j < |lines| && Store(lines[j], |t|) == Err(r.error)
        && forall i :: 0 <= i < j ==> Store(lines[i], |t|).Ok?
    decreases |lines|
  {
    if |lines| == 0 then Ok(t)
    else
      match ParseLine(lines[0], t)
      case Err(e) => Err(e)
      case Ok(t1) =>
        var r := ReadCpuData(lines[1..], t1);
        assert r.Err? ==>
          exists j :: (1 <= j < |lines| && Store(lines[j], |t|) == Err(r.error)
                       && forall i :: 0 <= i < j ==> Store(lines[i], |t|).Ok?) by {
          if r.Err? {
            var j :| 0 <= j < |lines[1..]| && Store(lines[1..][j], |t1|) == Err(r.error)
              && forall i :: 0 <= i < j ==> Store(lines[1..][i], |t1|).Ok?;
            assert Store(lines[j + 1], |t|) == Err(r.error);
            forall i | 1 <= i < j + 1
              ensures Store(lines[i], |t|).Ok?
            {
              assert lines[i] == lines[1..][i - 1];
            }
          }
        }
        r
  }

  /** The record the last line targeting slot `i` stores there, if any line
      does: the reference description of what reading a file leaves in a slot. */
  function LastStore(lines: seq<string>, size: nat, i: nat): (r: Option<CpuData>)
    decreases |lines|
  {
    if |lines| == 0 then None
    else
      match Store(lines[|lines| - 1], size)
      case Ok(Some((slot, rec))) =>
        if slot == i then Some(rec) else LastStore(lines[..|lines| - 1], size, i)
      case _ => LastStore(lines[..|lines| - 1], size, i)
  }

  /** What slot `i` holds after the lines are read into `t`. */
  function Expected(lines: seq<string>, t: Table, i: nat): (d: CpuData)
    requires i < |t|
  {
    match LastStore(lines, |t|, i)
    case Some(rec) => rec
    case None => t[i]
  }

  /** Reading `a + [l]` is reading `a` and then applying `l`. */
  lemma {:induction false} ReadCpuDataSnoc(a: seq<string>, l: string, t: Table)
    ensures ReadCpuData(a + [l], t) ==
      match ReadCpuData(a, t)
      case Err(e) => Err(e)
      case Ok(t1) => ParseLine(l, t1)
    decreases |a|
  {
    if |a| == 0 {
      assert a + [l] == [l];
      assert [l][1..] == [];
    } else {
      assert (a + [l])[0] == a[0];
      assert (a + [l])[1..] == a[1..] + [l];
      match ParseLine(a[0], t)
      case Err(e) =>
      case Ok(t1) =>
        ReadCpuDataSnoc(a[1..], l, t1);
    }
  }

  /** What the last line contributes to the reference description. */
  lemma ExpectedSnoc(a: seq<string>, l: string, t: Table, i: nat)
    requires i < |t|
    ensures Expected(a + [l], t, i) ==
      match Store(l, |t|)
      case Ok(Some((slot, rec))) => if slot == i then rec else Expected(a, t, i)
      case _ => Expected(a, t, i)
  {
    var lines := a + [l];
    assert lines[|lines| - 1] == l;
    assert lines[..|lines| - 1] == a;
  }

  /** Applying one more accepted line keeps the table equal to the reference
      description. */
  lemma ParseLineExpected(a: seq<string>, l: string, t: Table, t1: Table)
    requires |t1| == |t|
    requires forall i :: 0 <= i < |t| ==> t1[i] == Expected(a, t, i)
    requires ParseLine(l, t1).Ok?
    ensures forall i :: 0 <= i < |t| ==> ParseLine(l, t1).value[i] == Expected(a + [l], t, i)
  {
    forall i | 0 <= i < |t|
      ensures ParseLine(l, t1).value[i] == Expected(a + [l], t, i)
    {
      ExpectedSnoc(a, l, t, i);
    }
  }

  /** The file is accepted exactly when every line is, and then every slot
      holds the record of the last line that targets it, or its old value when
      no line does. In particular a later `cpu<N>` line overwrites an earlier
      one and slots no line names are left unchanged. */
  lemma {:induction false} ReadCpuDataSpec(lines: seq<string>, t: Table)
    ensures ReadCpuData(lines, t).Ok? <==> forall j :: 0 <= j < |lines| ==> Store(lines[j], |t|).Ok?
    ensures ReadCpuData(lines, t).Ok? ==>
      forall i :: 0 <= i < |t| ==> ReadCpuData(lines, t).value[i] == Expected(lines, t, i)
    decreases |lines|
  {
    if |lines| == 0 {
    } else {
      var a := lines[..|lines| - 1];
      var l := lines[|lines| - 1];
      assert lines == a + [l];
      ReadCpuDataSnoc(a, l, t);
      ReadCpuDataSpec(a, t);
      assert forall j :: 0 <= j < |a| ==> a[j] == lines[j];
      match ReadCpuData(a, t)
      case Err(e) =>
      case Ok(t1) =>
        if ParseLine(l, t1).Ok? {
          ParseLineExpected(a, l, t, t1);
        }
    }
  }

  /** A later line wins: when the last line stores `rec` at `slot`, the
      accepted file leaves `rec` there whatever earlier lines stored. */
  lemma LaterLineWins(lines: seq<string>, line: string, t: Table, slot: nat, rec: CpuData)
    requires Store(line, |t|) == Ok(Some((slot, rec)))
    requires ReadCpuData(lines + [line], t).Ok?
    ensures slot < |t| && ReadCpuData(lines + [line], t).value[slot] == rec
  {
    ReadCpuDataSpec(lines + [line], t);
    ExpectedSnoc(lines, line, t, slot);
  }

  lemma DigitsHaveNoSpace(s: string)
    requires AllDigits(s)
    ensures NoSpace(s)
  {
    assert forall k :: 0 <= k < |s| ==> IsDigit(s[k]);
  }

  /** The ten counters rendered as `/proc/stat` fields. */
  function CounterFields(cs: seq<int>): (fs: seq<string>)
    requires |cs| == COUNTER_COUNT
    ensures |fs| == COUNTER_COUNT
  {
    seq(COUNTER_COUNT, j requires 0 <= j < COUNTER_COUNT => ShowInt(cs[j]))
  }

  /** The line the kernel writes for core `n` with counters `cs`. */
  function FormatCoreLine(n: nat, cs: seq<int>): (line: string)
    requires |cs| == COUNTER_COUNT
  {
    Unwords(["cpu" + ShowNat(n)] + CounterFields(cs)) + "\n"
  }

  lemma FormatCoreLineSplit(n: nat, cs: seq<int>)
    requires |cs| == COUNTER_COUNT
    ensures Split(FormatCoreLine(n, cs)) == ["cpu" + ShowNat(n)] + CounterFields(cs)
  {
    var fs := ["cpu" + ShowNat(n)] + CounterFields(cs);
    assert forall k :: 0 <= k < |fs| ==> IsToken(fs[k]) by {
      CounterFieldsAreTokens(cs);
      DigitsHaveNoSpace(ShowNat(n));
      forall k | 0 <= k < |fs|
        ensures IsToken(fs[k])
      {
        if k > 0 {
          assert fs[k] == CounterFields(cs)[k - 1];
        }
      }
    }
    assert Split("\n") == [] by {
      assert "\n"[1..] == [];
    }
    SplitUnwords(fs, "\n");
  }

  lemma CounterFieldsAreTokens(cs: seq<int>)
    requires |cs| == COUNTER_COUNT
    ensures forall j :: 0 <= j < COUNTER_COUNT ==> IsToken(CounterFields(cs)[j])
  {
    forall j | 0 <= j < COUNTER_COUNT
      ensures IsToken(CounterFields(cs)[j])
    {
      var x := cs[j];
      if x < 0 {
        DigitsHaveNoSpace(ShowNat(-x));
        assert ShowInt(x) == "-" + ShowNat(-x);
      } else {
        DigitsHaveNoSpace(ShowNat(x));
      }
    }
  }

  lemma FormatCoreLineToken(n: nat, cs: seq<int>)
    requires |cs| == COUNTER_COUNT
    ensures CoreToken(FormatCoreLine(n, cs)) == Some("cpu" + ShowNat(n))
  {
    var line := FormatCoreLine(n, cs);
    FormatCoreLineSplit(n, cs);
    assert line[..3] == "cpu";
  }

  /** Fields 1..10 that read as the counters `cs` are parsed into `cs`. */
  lemma ParseCountersOk(fields: seq<string>, cs: seq<int>)
    requires |cs| == COUNTER_COUNT && |fields| > COUNTER_COUNT
    requires forall j :: 1 <= j <= COUNTER_COUNT ==> ParseInt(fields[j]) == Some(cs[j - 1])
    ensures ParseCounters(fields, 1) == Ok(cs)
  {
    var pc := ParseCounters(fields, 1);
    assert pc.Ok?;
    assert forall j :: 0 <= j < COUNTER_COUNT ==> ParseInt(fields[j + 1]) == Some(pc.value[j]);
    assert pc.value == cs;
  }

  lemma FormatCoreLineCounters(n: nat, cs: seq<int>)
    requires |cs| == COUNTER_COUNT
    ensures ParseCounters(Split(FormatCoreLine(n, cs)), 1) == Ok(cs)
  {
    FormatCoreLineSplit(n, cs);
    var f := ["cpu" + ShowNat(n)] + CounterFields(cs);
    forall j | 1 <= j <= COUNTER_COUNT
      ensures ParseInt(f[j]) == Some(cs[j - 1])
    {
      assert f[j] == ShowInt(cs[j - 1]);
      ParseShowInt(cs[j - 1]);
    }
    ParseCountersOk(f, cs);
  }

  /** Round trip: the line written for core `n` is read back into slot `n`
      with exactly the name and counters it was written from. */
  lemma StoreFormatCoreLine(n: nat, cs: seq<int>, size: nat)
    requires |cs| == COUNTER_COUNT
    requires n < size
    ensures Store(FormatCoreLine(n, cs), size) == Ok(Some((n, Record("cpu" + ShowNat(n), cs))))
  {
    var name := "cpu" + ShowNat(n);
    FormatCoreLineToken(n, cs);
    FormatCoreLineCounters(n, cs);
    assert name[3..] == ShowNat(n);
    ParseShowInt(n);
  }

  /** Reading a file made of one formatted core line stores that record and
      nothing else. */
  lemma ReadFormatCoreLine(n: nat, cs: seq<int>, t: Table)
    requires |cs| == COUNTER_COUNT
    requires n < |t|
    ensures ReadCpuData([FormatCoreLine(n, cs)], t) == Ok(t[n := Record("cpu" + ShowNat(n), cs)])
  {
    ReadOneLine(FormatCoreLine(n, cs), t);
    StoreFormatCoreLine(n, cs, |t|);
  }

  /** A file of one line is that line applied to the table. */
  lemma ReadOneLine(line: string, t: Table)
    ensures ReadCpuData([line], t) == ParseLine(line, t)
  {
    assert [line][0] == line;
    assert [line][1..] == [];
  }
}
