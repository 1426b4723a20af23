/**
 * The names of cpumon's signals: one per cpu line of `/proc/stat` and time
 * column, joined as "<cpu>_<time>", created in row-major order and appended
 * to the signal list as double entries.
 */
module Signals {

  import opened Decimal
  import opened Entries

  /** The time columns the kernel documents, in column order. */
  const KNOWN_TIMES: seq<string> :=
    ["user", "nice", "system", "idle", "iowait", "irq", "softirq", "steal", "guest", "guest_nice"]

  /** Line 0 of `/proc/stat` is the summary "cpu"; line i > 0 is cpu number i - 1. */
  function CpuName(index: nat): string
  {
    if index == 0 then "cpu" else "cpu" + Dec(index - 1)
  }

  /** Known columns by their documented name, the rest as "time<index>". */
  function TimeName(index: nat): string
  {
    if index < |KNOWN_TIMES| then KNOWN_TIMES[index] else "time" + Dec(index)
  }

  function SignalName(cpu: nat, time: nat): string
  {
    CpuName(cpu) + "_" + TimeName(time)
  }

  /** The signals of one cpu line, one per time column. */
  function RowSignals(cpu: nat, times: nat): (r: seq<Entry>)
    ensures |r| == times
  {
    seq(times, t requires 0 <= t < times => DoubleEntry(SignalName(cpu, t)))
  }

  /** The signals of the first `cpus` cpu lines, row after row. */
  function TimeSignals(cpus: nat, times: nat): seq<Entry>
  {
    if cpus == 0 then [] else TimeSignals(cpus - 1, times) + RowSignals(cpus - 1, times)
  }

  // ------------------------------------------------------------ the C code

  /** collect_strings: the supplier's strings for indexes 0 .. count - 1. */
  method CollectStrings(count: nat, supplier: nat -> string) returns (result: seq<string>)
    ensures |result| == count
    ensures forall i :: 0 <= i < count ==> result[i] == supplier(i)
  {
    result := [];
    var i := 0;
    while i < count
      invariant i <= count && |result| == i
      invariant forall k :: 0 <= k < i ==> result[k] == supplier(k)
    {
      result := result + [supplier(i)];
      i := i + 1;
    }
  }

  /**
   * checked_create_time_signals: for each cpu line, for each time column, a
   * double entry named "<cpu>_<time>" is added at the end of `signals`.
   */
  method CreateTimeSignals(cpuCount: nat, timeCount: nat, signals: seq<Entry>) returns (result: seq<Entry>)
    ensures result == signals + TimeSignals(cpuCount, timeCount)
  {
    var cpuNames := CollectStrings(cpuCount, CpuName);
    var timeNames := CollectStrings(timeCount, TimeName);
    result := signals;
    var cpu := 0;
    while cpu < cpuCount
      invariant cpu <= cpuCount
      invariant result == signals + TimeSignals(cpu, timeCount)
    {
      result := AddRow(result, cpuNames[cpu], timeNames, cpu);
      AppendRow(signals, cpu, timeCount);
      cpu := cpu + 1;
    }
  }

  lemma {:induction false} AppendRow(signals: seq<Entry>, cpu: nat, times: nat)
    ensures signals + TimeSignals(cpu + 1, times) == (signals + TimeSignals(cpu, times)) + RowSignals(cpu, times)
  {
  }

  /** The inner loop of checked_create_time_signals, for one cpu line. */
  method AddRow(signals: seq<Entry>, cpuName: string, timeNames: seq<string>, ghost cpu: nat)
    returns (result: seq<Entry>)
    requires cpuName == CpuName(cpu)
    requires forall t :: 0 <= t < |timeNames| ==> timeNames[t] == TimeName(t)
    ensures result == signals + RowSignals(cpu, |timeNames|)
  {
    result := signals;
    var time := 0;
    while time < |timeNames|
      invariant time <= |timeNames|
      invariant result == signals + RowSignals(cpu, time)
    {
      var name := cpuName + "_" + timeNames[time];
      result := result + [DoubleEntry(name)];
      assert RowSignals(cpu, time + 1) == RowSignals(cpu, time) + [DoubleEntry(SignalName(cpu, time))];
      time := time + 1;
    }
  }

  // ------------------------------------------------------------ properties

  function Position(cpu: nat, time: nat, times: nat): nat
  {
    cpu * times + time
  }

  /**
   * The signal of cpu line c and time column t sits at position c * T + t:
   * the same row-major order in which the `/proc/stat` values are read.
   */
  lemma {:induction false} SignalAt(cpus: nat, times: nat, c: nat, t: nat)
    requires c < cpus && t < times
    ensures |TimeSignals(cpus, times)| == cpus * times
    ensures Position(c, t, times) < |TimeSignals(cpus, times)|
    ensures TimeSignals(cpus, times)[Position(c, t, times)] == DoubleEntry(SignalName(c, t))
  {
    SignalsLength(cpus - 1, times);
    var before := TimeSignals(cpus - 1, times);
    assert cpus * times == (cpus - 1) * times + times;
    if c < cpus - 1 {
      SignalAt(cpus - 1, times, c, t);
    } else {
      assert Position(c, t, times) == |before| + t;
    }
  }

  lemma {:induction false} SignalsLength(cpus: nat, times: nat)
    ensures |TimeSignals(cpus, times)| == cpus * times
  {
    if cpus > 0 {
      SignalsLength(cpus - 1, times);
      assert cpus * times == (cpus - 1) * times + times;
    }
  }

  /** The cpu name is "cpu" followed, for lines past the summary, by the decimal cpu number. */
  lemma {:induction false} CpuNameDigits(index: nat)
    ensures |CpuName(index)| >= 3 && CpuName(index)[..3] == "cpu"
    ensures index == 0 <==> |CpuName(index)| == 3
    ensures index > 0 ==> AllDigits(CpuName(index)[3..]) && DigitsValue(CpuName(index)[3..]) + 1 == index
  {
    if index > 0 {
      DecRoundTrip(index - 1);
      assert CpuName(index)[3..] == Dec(index - 1);
    }
  }

  /** A column past the known ones is named "time" and its decimal index. */
  lemma {:induction false} TimeNameDigits(index: nat)
    requires index >= |KNOWN_TIMES|
    ensures |TimeName(index)| > 4 && TimeName(index)[..4] == "time"
    ensures AllDigits(TimeName(index)[4..]) && DigitsValue(TimeName(index)[4..]) == index
  {
    DecRoundTrip(index);
    assert TimeName(index)[4..] == Dec(index);
  }

  lemma {:induction false} CpuNameInjective(a: nat, b: nat)
    requires CpuName(a) == CpuName(b)
    ensures a == b
  {
    CpuNameDigits(a);
    CpuNameDigits(b);
  }

  lemma KnownTimesDistinct()
    ensures forall i, j :: 0 <= i < j < |KNOWN_TIMES| ==> KNOWN_TIMES[i] != KNOWN_TIMES[j]
    ensures forall i :: 0 <= i < |KNOWN_TIMES| ==> KNOWN_TIMES[i] != [] && KNOWN_TIMES[i][0] != 't'
  {
  }

  /** Only the generated names start with 't'. */
  lemma {:induction false} TimeNameStart(index: nat)
    ensures |TimeName(index)| > 0
    ensures TimeName(index)[0] == 't' <==> index >= |KNOWN_TIMES|
  {
    KnownTimesDistinct();
  }

  lemma {:induction false} TimeNameInjective(a: nat, b: nat)
    requires TimeName(a) == TimeName(b)
    ensures a == b
  {
    TimeNameStart(a);
    TimeNameStart(b);
    if a >= |KNOWN_TIMES| {
      TimeNameDigits(a);
      TimeNameDigits(b);
    } else {
      KnownTimesDistinct();
    }
  }

  /** In a signal name, the first separator follows the cpu name. */
  lemma {:induction false} SeparatorAfterCpu(cpu: nat, time: nat)
    ensures |CpuName(cpu)| < |SignalName(cpu, time)|
    ensures SignalName(cpu, time)[|CpuName(cpu)|] == '_'
    ensures forall i :: 0 <= i < |CpuName(cpu)| ==> SignalName(cpu, time)[i] != '_'
  {
    if cpu > 0 {
      DecRoundTrip(cpu - 1);
      assert forall i :: 3 <= i < |CpuName(cpu)| ==> CpuName(cpu)[i] == Dec(cpu - 1)[i - 3];
    }
  }

  /**
   * Different (cpu line, time column) pairs get different signal names, so
   * every signal of the schema has a name of its own.
   */
  lemma {:induction false} SignalNamesDistinct(c1: nat, t1: nat, c2: nat, t2: nat)
    requires SignalName(c1, t1) == SignalName(c2, t2)
    ensures c1 == c2 && t1 == t2
  {
    var a, b := CpuName(c1), CpuName(c2);
    var s := SignalName(c1, t1);
    SeparatorAfterCpu(c1, t1);
    SeparatorAfterCpu(c2, t2);
    assert |a| == |b|;
    assert a == s[..|a|];
    assert b == s[..|b|];
    CpuNameInjective(c1, c2);
    assert TimeName(t1) == s[|a| + 1..];
    assert TimeName(t2) == s[|b| + 1..];
    TimeNameInjective(t1, t2);
  }
}
