/**
 * The three readers of `/proc/stat` text in cpumon.c: the number of leading
 * lines that open with exactly three characters from {c, p, u}, not followed
 * by a fourth, and end in a newline; the number of time columns on the summary
 * line, and the time values of all cpu lines in row-major order. Each C
 * function walks a `current` pointer over the text; the model walks a
 * position `pos` in `text`, and the C library calls they make (`strspn`,
 * `strchr`, `strstr`, `sscanf`) are functions of the text and a position.
 */
module ProcStat {

  import opened Util
  import opened Decimal

  // ------------------------------------------------------- C library calls

  /** isspace in the C locale. */
  predicate IsSpace(c: char)
  {
    c == ' ' || c == '\t' || c == '\n' || c == '\U{000B}' || c == '\U{000C}' || c == '\r'
  }

  /** Where the white space that a white-space directive of scanf skips from `pos` ends. */
  function SpaceRun(s: string, pos: nat): (end: nat)
    requires pos <= |s|
    ensures pos <= end <= |s|
    ensures end < |s| ==> !IsSpace(s[end])
    decreases |s| - pos
  {
    if pos < |s| && IsSpace(s[pos]) then SpaceRun(s, pos + 1) else pos
  }

  /** Everything SpaceRun skips is white space. */
  lemma {:induction false} SpaceRunSpaces(s: string, pos: nat, i: nat)
    requires pos <= |s| && pos <= i < SpaceRun(s, pos)
    ensures IsSpace(s[i])
    decreases |s| - pos
  {
    if i > pos {
      SpaceRunSpaces(s, pos + 1, i);
    }
  }

  /** Where the digits that start at `pos` end. */
  function DigitRun(s: string, pos: nat): (end: nat)
    requires pos <= |s|
    ensures pos <= end <= |s|
    ensures end < |s| ==> !IsDigit(s[end])
    decreases |s| - pos
  {
    if pos < |s| && IsDigit(s[pos]) then DigitRun(s, pos + 1) else pos
  }

  /** Everything DigitRun covers is a digit. */
  lemma {:induction false} DigitRunDigits(s: string, pos: nat, i: nat)
    requires pos <= |s| && pos <= i < DigitRun(s, pos)
    ensures IsDigit(s[i])
    decreases |s| - pos
  {
    if i > pos {
      DigitRunDigits(s, pos + 1, i);
    }
  }

  /** The value of the digits from `start` up to `end`, most significant first. */
  function DigitsAt(s: string, start: nat, end: nat): nat
    requires start <= |s| && start <= end <= DigitRun(s, start)
    decreases end
  {
    if end == start then 0
    else
      DigitRunDigits(s, start, end - 1);
      10 * DigitsAt(s, start, end - 1) + DigitValue(s[end - 1])
  }

  /** strspn(s + pos, "cpu"): how many of the letters c, p and u follow `pos`. */
  function CpuSpan(s: string, pos: nat): (n: nat)
    requires pos <= |s|
    ensures pos + n <= |s|
    decreases |s| - pos
  {
    if pos < |s| && s[pos] in "cpu" then 1 + CpuSpan(s, pos + 1) else 0
  }

  /** strchr(s + pos, c): the first position of `c` from `pos` on, or NULL. */
  function Find(s: string, pos: nat, c: char): (r: Option<nat>)
    requires pos <= |s|
    ensures r.Some? ==> pos <= r.value < |s| && s[r.value] == c
    decreases |s| - pos
  {
    if pos == |s| then None
    else if s[pos] == c then Some(pos)
    else Find(s, pos + 1, c)
  }

  /** `pat` occurs in `s` at position `at`. */
  predicate MatchesAt(s: string, at: nat, pat: string)
  {
    at + |pat| <= |s| && forall k :: 0 <= k < |pat| ==> s[at + k] == pat[k]
  }

  /** strstr(s + pos, pat): the first position from `pos` on where `pat` occurs, or NULL. */
  function Search(s: string, pos: nat, pat: string): (r: Option<nat>)
    requires pos <= |s|
    ensures r.Some? ==> pos <= r.value && MatchesAt(s, r.value, pat)
    decreases |s| - pos
  {
    if |s| - pos < |pat| then None
    else if MatchesAt(s, pos, pat) then Some(pos)
    else Search(s, pos + 1, pat)
  }

  /** A number `sscanf` has read: its value and the characters it used up, as `%n` reports them. */
  datatype Scan = Scan(value: nat, length: nat)

  /**
   * The value strtoull gives an optionally signed digit string: a minus sign
   * negates modulo 2^64, and a magnitude beyond 2^64 - 1 gives ULLONG_MAX.
   */
  function U64Value(negative: bool, magnitude: nat): (r: nat)
    ensures r < SIZE_MOD
  {
    if magnitude >= SIZE_MOD then SIZE_MOD - 1
    else if negative then (SIZE_MOD - magnitude) % SIZE_MOD
    else magnitude
  }

  /**
   * `sscanf(s + pos, "%" SCNu64 "%n", &value, &length) == 1`: white space,
   * an optional sign and at least one digit; `None` when it reads no number.
   */
  function ScanU64(s: string, pos: nat): (r: Option<Scan>)
    requires pos <= |s|
    ensures r.Some? ==> 0 < r.value.length <= |s| - pos && r.value.value < SIZE_MOD
  {
    var w := SpaceRun(s, pos);
    var signed := w < |s| && (s[w] == '+' || s[w] == '-');
    var start := if signed then w + 1 else w;
    var end := DigitRun(s, start);
    if end == start then None
    else Some(Scan(U64Value(signed && s[w] == '-', DigitsAt(s, start, end)), end - pos))
  }

  // ------------------------------------------------------------ cpu lines

  /**
   * proc_stat_get_cpu_count from `pos`: a line counts while the text there
   * starts with exactly three of the letters c, p, u and a newline ends the
   * line; a last line without a newline does not count.
   */
  function CpuLines(s: string, pos: nat): nat
    requires pos <= |s|
    decreases |s| - pos
  {
    if CpuSpan(s, pos) != 3 then 0
    else
      match Find(s, pos, '\n')
      case None => 0
      case Some(i) => 1 + CpuLines(s, i + 1)
  }

  /**
   * proc_stat_get_cpu_count: counts the lines while each opens with exactly
   * three characters from {c, p, u} and ends in a newline.
   */
  method CpuCount(text: string) returns (result: nat)
    ensures result == CpuLines(text, 0)
  {
    result := 0;
    var pos := 0;
    while true
      invariant pos <= |text| && CpuLines(text, 0) == result + CpuLines(text, pos)
      decreases |text| - pos
    {
      if CpuSpan(text, pos) != 3 {
        return;
      }
      var newline := Find(text, pos, '\n');
      if newline.None? {
        return;
      }
      pos := newline.value + 1;
      result := result + 1;
    }
  }

  // ---------------------------------------------------------- time columns

  /** How many numbers `sscanf` reads one after the other from `pos`. */
  function Numbers(s: string, pos: nat): nat
    requires pos <= |s|
    decreases |s| - pos
  {
    match ScanU64(s, pos)
    case None => 0
    case Some(scan) => 1 + Numbers(s, pos + scan.length)
  }

  /** proc_stat_get_time_count: the numbers after the first "cpu " of the text. */
  function TimeColumns(text: string): nat
  {
    match Search(text, 0, "cpu ")
    case None => 0
    case Some(i) => Numbers(text, i + 4)
  }

  /** proc_stat_get_time_count: finds "cpu " and counts the numbers `sscanf` reads after it. */
  method TimeCount(text: string) returns (result: nat)
    ensures result == TimeColumns(text)
  {
    result := 0;
    var found := Search(text, 0, "cpu ");
    if found.Some? {
      var pos := found.value + 4;
      var scan := ScanU64(text, pos);
      while scan.Some?
        invariant pos <= |text| && scan == ScanU64(text, pos)
        invariant TimeColumns(text) == result + Numbers(text, pos)
        decreases |text| - pos
      {
        pos := pos + scan.value.length;
        result := result + 1;
        scan := ScanU64(text, pos);
      }
    }
  }

  // ----------------------------------------------------------- time values

  /** The number of time values of a sample: one per time column of each cpu line. */
  function ValueCount(cpus: nat, times: nat): nat
  {
    cpus * times
  }

  /**
   * The values proc_stat_parse_times writes from `pos` on, at most `count`
   * of them: while "cpu" occurs somewhere further on, it moves to the next
   * space and reads the columns from there.
   */
  function Parse(s: string, pos: nat, count: nat): (r: seq<nat>)
    requires pos <= |s|
    ensures |r| <= count
    decreases |s| - pos, 2
  {
    if Search(s, pos, "cpu").None? then []
    else
      match Find(s, pos, ' ')
      case None => []
      case Some(i) => Columns(s, i, count)
  }

  /**
   * The columns read from `pos`: each number is written while fewer than
   * `count` are; a number read beyond `count` ends the parse. When no number
   * follows, the `"\n%n"` scan skips the white space before the next line
   * and the parse goes on. The second component of `decreases` orders the
   * calls that do not move on: a position at white space always moves.
   */
  function Columns(s: string, pos: nat, count: nat): (r: seq<nat>)
    requires pos <= |s|
    ensures |r| <= count
    decreases |s| - pos, if pos < |s| && IsSpace(s[pos]) then 1 else 3
  {
    match ScanU64(s, pos)
    case Some(scan) => if count == 0 then [] else [scan.value] + Columns(s, pos + scan.length, count - 1)
    case None => Parse(s, SpaceRun(s, pos), count)
  }

  /** (a + b) + c == a + (b + c) for the values read. */
  lemma {:induction false} Regroup(a: seq<nat>, b: seq<nat>, c: seq<nat>)
    ensures (a + b) + c == a + (b + c)
  {
  }

  /**
   * proc_stat_parse_times: writes the values it reads into consecutive slots
   * of `values`, at most `count` of them, and returns how many it wrote.
   */
  method ParseTimes(text: string, count: nat, values: array<nat>) returns (result: nat)
    requires count <= values.Length
    modifies values
    ensures result == |Parse(text, 0, count)| <= count
    ensures values[..result] == Parse(text, 0, count)
    ensures values[result..] == old(values[result..])
  {
    result := 0;
    var pos := 0;
    ghost var acc: seq<nat> := [];
    while true
      invariant pos <= |text| && result == |acc| <= count
      invariant acc + Parse(text, pos, count - result) == Parse(text, 0, count)
      invariant values[..result] == acc
      invariant forall i :: result <= i < values.Length ==> values[i] == old(values[i])
      decreases |text| - pos
    {
      if Search(text, pos, "cpu").None? {
        assert acc + [] == acc;
        return;
      }
      var space := Find(text, pos, ' ');
      if space.None? {
        assert acc + [] == acc;
        return;
      }
      ghost var start := pos;
      result, pos, acc := ParseColumns(text, count, values, result, space.value, acc);
      assert start < pos;
    }
  }

  /**
   * The inner loop of proc_stat_parse_times from position `pos`, then the
   * `"\n%n"` skip of the white space before the next line. `acc` holds the
   * values written before.
   */
  method ParseColumns(text: string, count: nat, values: array<nat>, written: nat, pos: nat, ghost acc: seq<nat>)
    returns (result: nat, next: nat, ghost acc': seq<nat>)
    requires pos < |text| && text[pos] == ' ' && written == |acc| <= count <= values.Length
    requires values[..written] == acc
    modifies values
    ensures written <= result == |acc'| <= count && pos < next <= |text|
    ensures acc' + Parse(text, next, count - result) == acc + Columns(text, pos, count - written)
    ensures values[..result] == acc'
    ensures forall i :: result <= i < values.Length ==> values[i] == old(values[i])
  {
    var stopped;
    result, next, acc', stopped := ColumnsLoop(text, count, values, written, pos, acc);
    if !stopped {
      next := SpaceRun(text, next);
    }
  }

  /**
   * The loop `while (sscanf(current, "%" SCNu64 "%n", ...) == 1)` of
   * proc_stat_parse_times: `stopped` when it read a number beyond `count`,
   * which ends the parse; otherwise it ends where no number follows.
   */
  method ColumnsLoop(text: string, count: nat, values: array<nat>, written: nat, pos: nat, ghost acc: seq<nat>)
    returns (result: nat, next: nat, ghost acc': seq<nat>, stopped: bool)
    requires pos < |text| && text[pos] == ' ' && written == |acc| <= count <= values.Length
    requires values[..written] == acc
    modifies values
    ensures written <= result == |acc'| <= count && pos <= next <= |text|
    ensures stopped ==> pos < next && result == count && acc' == acc + Columns(text, pos, count - written)
    ensures !stopped ==> ScanU64(text, next).None? && (next == pos ==> result == written)
    ensures !stopped ==> acc' + Columns(text, next, count - result) == acc + Columns(text, pos, count - written)
    ensures values[..result] == acc'
    ensures forall i :: result <= i < values.Length ==> values[i] == old(values[i])
  {
    result := written;
    next := pos;
    acc' := acc;
    stopped := false;
    var scan := ScanU64(text, next);
    while scan.Some?
      invariant pos <= next <= |text| && written <= result == |acc'| <= count && scan == ScanU64(text, next)
      invariant next == pos ==> result == written
      invariant acc' + Columns(text, next, count - result) == acc + Columns(text, pos, count - written)
      invariant values[..result] == acc'
      invariant forall i :: result <= i < values.Length ==> values[i] == old(values[i])
      decreases |text| - next
    {
      next := next + scan.value.length;
      if result >= count {
        assert acc' + [] == acc';
        stopped := true;
        return;
      }
      Regroup(acc', [scan.value.value], Columns(text, next, count - result - 1));
      acc' := Store(values, result, scan.value.value, acc');
      result := result + 1;
      scan := ScanU64(text, next);
    }
  }

  /** `values->as_unsigned = value; values++`: the slot after the `acc` written so far gets `v`. */
  method Store(values: array<nat>, written: nat, v: nat, ghost acc: seq<nat>) returns (ghost acc': seq<nat>)
    requires written < values.Length && values[..written] == acc
    modifies values
    ensures acc' == acc + [v] && values[..written + 1] == acc'
    ensures forall i :: written < i < values.Length ==> values[i] == old(values[i])
  {
    values[written] := v;
    acc' := acc + [v];
    assert values[..written + 1] == values[..written] + [v];
  }
}
