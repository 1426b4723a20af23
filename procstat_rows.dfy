/**
 * What the three `/proc/stat` readers of cpumon.c return on text laid out
 * the way the kernel writes it: one line per cpu, each a name starting with
 * "cpu", some blanks and the decimal time columns, then further lines with
 * no "cpu" in them. The text is built from rows, and each reader is proved
 * to give back what the rows hold.
 */
module ProcStatRows {

  import opened Util
  import opened Decimal
  import opened ProcStat

  // ---------------------------------------------------------------- layout

  /** One cpu line: its name ("cpu", "cpu0", ...), extra blanks after it and the time columns. */
  datatype CpuRow = CpuRow(name: string, gap: nat, columns: seq<nat>)

  function Spaces(k: nat): string
  {
    seq(k, _ => ' ')
  }

  /** Each column as a blank and its decimal digits. */
  function Cells(vs: seq<nat>): string
  {
    if vs == [] then "" else " " + Dec(vs[0]) + Cells(vs[1..])
  }

  function RowText(r: CpuRow): string
  {
    r.name + Spaces(r.gap) + Cells(r.columns) + "\n"
  }

  function RowsText(rows: seq<CpuRow>): string
  {
    if rows == [] then "" else RowText(rows[0]) + RowsText(rows[1..])
  }

  /** All columns of all rows, row after row. */
  function Flatten(rows: seq<CpuRow>): seq<nat>
  {
    if rows == [] then [] else rows[0].columns + Flatten(rows[1..])
  }

  /** The first `c` values, or all of them when there are fewer. */
  function Take(vs: seq<nat>, c: nat): seq<nat>
  {
    if c <= |vs| then vs[..c] else vs
  }

  /**
   * A cpu line the readers take apart as the kernel means it: the name
   * starts with exactly three of the letters c, p, u, holds no white space,
   * and at least one column follows, each an unsigned 64-bit number.
   */
  predicate WellFormedRow(r: CpuRow)
  {
    && |r.name| >= 3 && r.name[0] == 'c' && r.name[1] == 'p' && r.name[2] == 'u'
    && (|r.name| == 3 || r.name[3] !in "cpu")
    && (forall i :: 0 <= i < |r.name| ==> !IsSpace(r.name[i]))
    && r.columns != []
    && (forall i :: 0 <= i < |r.columns| ==> r.columns[i] < SIZE_MOD)
  }

  /** A character that no scan of a number or of white space goes past. */
  predicate Stops(c: char)
  {
    !IsSpace(c) && !IsDigit(c) && c != '+' && c != '-'
  }

  /**
   * The lines after the cpu lines ("intr ...", "ctxt ..."): they start with
   * a character that is neither white space, a digit, a sign nor one of
   * c, p, u, and "cpu" does not occur in them.
   */
  predicate WellFormedRest(rest: string)
  {
    && (rest == [] || (Stops(rest[0]) && rest[0] !in "cpu"))
    && Search(rest, 0, "cpu").None?
  }

  /** A text position after which the readers stop, or the end of the text. */
  predicate EndsAt(T: string, e: nat)
  {
    e <= |T| && (e == |T| || Stops(T[e]))
  }

  // ------------------------------------------------------- layout helpers

  lemma {:induction false} MatchesSplit(T: string, o: nat, a: string, b: string)
    requires MatchesAt(T, o, a + b)
    ensures MatchesAt(T, o, a) && MatchesAt(T, o + |a|, b)
  {
    forall k | 0 <= k < |a| ensures T[o + k] == a[k] {
      assert (a + b)[k] == a[k];
    }
    forall k | 0 <= k < |b| ensures T[o + |a| + k] == b[k] {
      assert (a + b)[|a| + k] == b[k];
    }
  }

  lemma {:induction false} CellsChars(vs: seq<nat>)
    ensures forall i :: 0 <= i < |Cells(vs)| ==> Cells(vs)[i] == ' ' || IsDigit(Cells(vs)[i])
    decreases |vs|
  {
    if vs != [] {
      CellsChars(vs[1..]);
      DecRoundTrip(vs[0]);
      var d := Dec(vs[0]);
      assert Cells(vs) == " " + d + Cells(vs[1..]);
      forall i | 0 <= i < |Cells(vs)| ensures Cells(vs)[i] == ' ' || IsDigit(Cells(vs)[i]) {
        if 1 <= i < 1 + |d| {
          assert Cells(vs)[i] == d[i - 1];
        } else if i >= 1 + |d| {
          assert Cells(vs)[i] == Cells(vs[1..])[i - 1 - |d|];
        }
      }
    }
  }

  /** The blanks after the name and the cells: `k + 1` blanks, then the first column's digits. */
  lemma {:induction false} TailShape(k: nat, vs: seq<nat>)
    requires vs != []
    ensures Spaces(k) + Cells(vs) + "\n" == Spaces(k + 1) + Dec(vs[0]) + Cells(vs[1..]) + "\n"
  {
    var d := Dec(vs[0]);
    var cs := Cells(vs[1..]);
    assert Cells(vs) == " " + d + cs;
    assert Spaces(k) + " " == Spaces(k + 1);
    calc {
      Spaces(k) + Cells(vs) + "\n";
      Spaces(k) + (" " + d + cs) + "\n";
      { Regroup4(Spaces(k), " ", d, cs); }
      (Spaces(k) + " ") + d + cs + "\n";
    }
  }

  lemma {:induction false} Regroup4(a: string, b: string, c: string, d: string)
    ensures a + (b + c + d) == (a + b) + c + d
  {
  }

  /** The cells of the columns after the first: one blank, then the next column's digits. */
  lemma {:induction false} CellsShape(vs: seq<nat>)
    requires vs != []
    ensures Cells(vs) + "\n" == Spaces(1) + Dec(vs[0]) + Cells(vs[1..]) + "\n"
  {
    assert Spaces(1) == " ";
  }

  /** A text matched from `p` as the blanks, the digits, the cells and the line end, split after the digits. */
  lemma {:induction false} LineSplit(T: string, p: nat, k: nat, d: string, vs: seq<nat>)
    requires MatchesAt(T, p, Spaces(k) + d + Cells(vs) + "\n")
    ensures MatchesAt(T, p, Spaces(k) + d) && MatchesAt(T, p + k + |d|, Cells(vs) + "\n")
    ensures |Spaces(k) + d + Cells(vs) + "\n"| == k + |d| + |Cells(vs) + "\n"|
  {
    assert Spaces(k) + d + Cells(vs) + "\n" == (Spaces(k) + d) + (Cells(vs) + "\n");
    MatchesSplit(T, p, Spaces(k) + d, Cells(vs) + "\n");
  }

  // ------------------------------------------------------ scanning a column

  lemma {:induction false} SpaceRunAt(T: string, p: nat, k: nat)
    requires p + k <= |T| && (EndsAt(T, p + k) || (p + k < |T| && IsDigit(T[p + k])))
    requires forall i :: p <= i < p + k ==> IsSpace(T[i])
    ensures SpaceRun(T, p) == p + k
    decreases k
  {
    if k > 0 {
      SpaceRunAt(T, p + 1, k - 1);
    }
  }

  lemma {:induction false} DigitRunAt(T: string, p: nat, w: string)
    requires MatchesAt(T, p, w) && AllDigits(w)
    requires p + |w| == |T| || !IsDigit(T[p + |w|])
    ensures DigitRun(T, p) == p + |w|
    decreases |w|
  {
    if w != [] {
      assert T[p] == w[0];
      assert MatchesAt(T, p + 1, w[1..]) by {
        forall k | 0 <= k < |w[1..]| ensures T[p + 1 + k] == w[1..][k] {
          assert T[p + (k + 1)] == w[k + 1];
        }
      }
      DigitRunAt(T, p + 1, w[1..]);
    }
  }

  lemma {:induction false} DigitsAtValue(T: string, p: nat, w: string)
    requires MatchesAt(T, p, w) && AllDigits(w) && p + |w| <= DigitRun(T, p)
    ensures DigitsAt(T, p, p + |w|) == DigitsValue(w)
    decreases |w|
  {
    if w != [] {
      var u := w[..|w| - 1];
      assert MatchesAt(T, p, u) && AllDigits(u) by {
        forall k | 0 <= k < |u| ensures T[p + k] == u[k] && IsDigit(u[k]) {
          assert u[k] == w[k];
        }
      }
      DigitsAtValue(T, p, u);
      assert T[p + |w| - 1] == w[|w| - 1];
    }
  }

  lemma {:induction false} SpacesAt(T: string, p: nat, k: nat)
    requires MatchesAt(T, p, Spaces(k))
    ensures forall i :: p <= i < p + k ==> IsSpace(T[i])
  {
    forall i | p <= i < p + k ensures IsSpace(T[i]) {
      assert T[p + (i - p)] == Spaces(k)[i - p];
    }
  }

  /** sscanf with `%SCNu64` reads back a column written as blanks and decimal digits `d` of value `v`. */
  lemma {:induction false} ScanCell(T: string, p: nat, k: nat, d: string, v: nat)
    requires v < SIZE_MOD && |d| >= 1 && AllDigits(d) && DigitsValue(d) == v
    requires MatchesAt(T, p, Spaces(k) + d)
    requires p + k + |d| == |T| || !IsDigit(T[p + k + |d|])
    ensures ScanU64(T, p) == Some(Scan(v, k + |d|))
  {
    MatchesSplit(T, p, Spaces(k), d);
    assert T[p + k] == d[0];
    SpacesAt(T, p, k);
    SpaceRunAt(T, p, k);
    DigitRunAt(T, p + k, d);
    DigitsAtValue(T, p + k, d);
    ScanDigits(T, p, p + k, p + k + |d|, v, k + |d|);
  }

  /** sscanf with `%SCNu64` where the blanks end at `w` and the digits there, with no sign, end at `end`. */
  lemma {:induction false} ScanDigits(T: string, p: nat, w: nat, end: nat, v: nat, length: nat)
    requires p <= w < end <= |T| && end == p + length && SpaceRun(T, p) == w && IsDigit(T[w])
    requires DigitRun(T, w) == end && DigitsAt(T, w, end) == v && v < SIZE_MOD
    ensures ScanU64(T, p) == Some(Scan(v, length))
  {
  }

  /** At a line end followed by a stopping character there is no number to read. */
  lemma {:induction false} ScanLineEnd(T: string, p: nat)
    requires p < |T| && T[p] == '\n' && EndsAt(T, p + 1)
    ensures ScanU64(T, p).None? && SpaceRun(T, p) == p + 1
  {
    SpaceRunAt(T, p, 1);
  }

  // ---------------------------------------------------- reading one line

  /** The columns of a line after `k` blanks: the first one's digits, the other cells and the line end. */
  function LineText(k: nat, vs: seq<nat>): string
    requires vs != []
  {
    Spaces(k) + Dec(vs[0]) + Cells(vs[1..]) + "\n"
  }

  /**
   * sscanf reads the first column of a line; what follows it is either the
   * line end, where no number follows, or the next column after one blank.
   */
  lemma {:induction false} FirstColumn(T: string, p: nat, k: nat, vs: seq<nat>)
    requires vs != [] && forall i :: 0 <= i < |vs| ==> vs[i] < SIZE_MOD
    requires MatchesAt(T, p, LineText(k, vs)) && EndsAt(T, p + |LineText(k, vs)|)
    ensures var q := p + k + |Dec(vs[0])|;
      && ScanU64(T, p) == Some(Scan(vs[0], q - p))
      && (|vs| == 1 ==> q + 1 == p + |LineText(k, vs)| && ScanU64(T, q).None? && SpaceRun(T, q) == q + 1)
      && (|vs| > 1 ==> MatchesAt(T, q, LineText(1, vs[1..])) && q + |LineText(1, vs[1..])| == p + |LineText(k, vs)|)
  {
    var d := Dec(vs[0]);
    var q := p + k + |d|;
    LineSplit(T, p, k, d, vs[1..]);
    CellsChars(vs[1..]);
    assert T[q] == (Cells(vs[1..]) + "\n")[0];
    DecRoundTrip(vs[0]);
    ScanCell(T, p, k, d, vs[0]);
    if vs[1..] == [] {
      ScanLineEnd(T, q);
    } else {
      CellsShape(vs[1..]);
    }
  }

  /**
   * What sscanf reads from `p` on: the numbers `vs` one after the other,
   * then no number, and the white space after them ends at `e`.
   */
  predicate Scans(T: string, p: nat, vs: seq<nat>, e: nat)
    decreases |vs|
  {
    && p <= |T| && e <= |T| && vs != []
    && match ScanU64(T, p)
       case None => false
       case Some(scan) =>
         && scan.value == vs[0]
         && var q := p + scan.length;
         if |vs| == 1 then ScanU64(T, q).None? && SpaceRun(T, q) == e
         else Scans(T, q, vs[1..], e)
  }

  /** The columns of a line, from the blanks before the first one, are what sscanf reads there. */
  lemma {:induction false} LineScans(T: string, p: nat, k: nat, vs: seq<nat>, e: nat)
    requires vs != [] && forall i :: 0 <= i < |vs| ==> vs[i] < SIZE_MOD
    requires MatchesAt(T, p, LineText(k, vs)) && e == p + |LineText(k, vs)| && EndsAt(T, e)
    ensures Scans(T, p, vs, e)
    decreases |vs|
  {
    var q := p + k + |Dec(vs[0])|;
    FirstColumn(T, p, k, vs);
    if |vs| > 1 {
      LineScans(T, q, 1, vs[1..], e);
    }
    ScansCons(T, p, q, vs, e);
  }

  /** Scans, one number read at a time: the first at `p`, up to `q`, and the rest from `q` on. */
  lemma {:induction false} ScansCons(T: string, p: nat, q: nat, vs: seq<nat>, e: nat)
    requires p <= q && p <= |T| && e <= |T| && vs != [] && ScanU64(T, p) == Some(Scan(vs[0], q - p))
    requires |vs| == 1 ==> ScanU64(T, q).None? && SpaceRun(T, q) == e
    requires |vs| > 1 ==> Scans(T, q, vs[1..], e)
    ensures Scans(T, p, vs, e)
  {
  }

  /** proc_stat_parse_times, when it may write no more than the numbers that follow: the first `c` of them. */
  lemma {:induction false} ColumnsWithin(T: string, p: nat, vs: seq<nat>, e: nat, c: nat)
    requires Scans(T, p, vs, e) && c <= |vs|
    ensures Columns(T, p, c) == vs[..c]
    decreases |vs|
  {
    if c == 0 {
      assert Columns(T, p, c) == [] == vs[..c];
    } else {
      var q := ScansColumns(T, p, vs, e, c, c - 1);
      if c == 1 {
        assert Columns(T, q, c - 1) == [];
        assert vs[..c] == [vs[0]];
      } else {
        ColumnsWithin(T, q, vs[1..], e, c - 1);
        ConsTake(vs, c);
      }
    }
  }

  /**
   * proc_stat_parse_times, when it may write `left` more than the numbers
   * that follow: all of them and then whatever comes after the white space
   * that ends at `e`.
   */
  lemma {:induction false} ColumnsBeyond(T: string, p: nat, vs: seq<nat>, e: nat, c: nat, left: nat)
    requires Scans(T, p, vs, e) && c == |vs| + left
    ensures Columns(T, p, c) == Cat(vs, Parse(T, e, left))
    decreases |vs|, 1
  {
    if |vs| == 1 {
      ColumnsLast(T, p, vs, e, c, left);
    } else {
      ColumnsMore(T, p, vs, e, c, left);
    }
  }

  /** ColumnsBeyond when more than one number follows: the first one, then the others. */
  lemma {:induction false} ColumnsMore(T: string, p: nat, vs: seq<nat>, e: nat, c: nat, left: nat)
    requires Scans(T, p, vs, e) && |vs| > 1 && c == |vs| + left
    ensures Columns(T, p, c) == Cat(vs, Parse(T, e, left))
    decreases |vs|, 0
  {
    var q := ScansColumns(T, p, vs, e, c, c - 1);
    ColumnsBeyond(T, q, vs[1..], e, c - 1, left);
    ConsCat(vs, Columns(T, p, c), Columns(T, q, c - 1), Parse(T, e, left));
  }

  /**
   * The numbers `a` and then `b`, one at a time: the same as `a + b`
   * (CatAppend), written out so that each read adds one number in front.
   */
  function Cat(a: seq<nat>, b: seq<nat>): seq<nat>
    decreases |a|
  {
    if a == [] then b else [a[0]] + Cat(a[1..], b)
  }

  lemma {:induction false} ConsCat(vs: seq<nat>, all: seq<nat>, tail: seq<nat>, more: seq<nat>)
    requires vs != [] && all == [vs[0]] + tail && tail == Cat(vs[1..], more)
    ensures all == Cat(vs, more)
  {
  }

  lemma {:induction false} CatAppend(a: seq<nat>, b: seq<nat>)
    ensures Cat(a, b) == a + b
    decreases |a|
  {
    if a != [] {
      CatAppend(a[1..], b);
      assert a == [a[0]] + a[1..];
      Regroup([a[0]], a[1..], b);
    }
  }

  /** The last of the numbers that follow, then whatever comes after the white space that ends at `e`. */
  lemma {:induction false} ColumnsLast(T: string, p: nat, vs: seq<nat>, e: nat, c: nat, left: nat)
    requires Scans(T, p, vs, e) && |vs| == 1 && c == left + 1
    ensures Columns(T, p, c) == Cat(vs, Parse(T, e, left))
  {
    var q := ScansColumns(T, p, vs, e, c, left);
    ConsCat(vs, Columns(T, p, c), Columns(T, q, left), Parse(T, e, left));
  }

  /** The first number sscanf reads at `p`, and where the parse goes on after it. */
  lemma {:induction false} ScansColumns(T: string, p: nat, vs: seq<nat>, e: nat, c: nat, c1: nat) returns (q: nat)
    requires Scans(T, p, vs, e) && c == c1 + 1
    ensures p < q <= |T| && ScanU64(T, p) == Some(Scan(vs[0], q - p))
    ensures Columns(T, p, c) == [vs[0]] + Columns(T, q, c1)
    ensures |vs| == 1 ==> Columns(T, q, c1) == Parse(T, e, c1)
    ensures |vs| > 1 ==> Scans(T, q, vs[1..], e)
  {
    q := p + ScanU64(T, p).value.length;
    ColumnsCons(T, p, q, vs[0], c, c1);
    if |vs| == 1 {
      ColumnsEnd(T, q, e, c1);
    }
  }

  /** A column read at `p` and what is read after it, up to `q`. */
  lemma {:induction false} ColumnsCons(T: string, p: nat, q: nat, v: nat, c: nat, c1: nat)
    requires p < q <= |T| && ScanU64(T, p) == Some(Scan(v, q - p)) && c == c1 + 1
    ensures Columns(T, p, c) == [v] + Columns(T, q, c1)
  {
  }

  /** Where no number follows, the parse goes on after the white space. */
  lemma {:induction false} ColumnsEnd(T: string, q: nat, e: nat, c: nat)
    requires q <= |T| && ScanU64(T, q).None? && SpaceRun(T, q) == e
    ensures Columns(T, q, c) == Parse(T, e, c)
  {
  }

  lemma {:induction false} ConsTake(vs: seq<nat>, c: nat)
    requires 0 < c <= |vs|
    ensures vs[..c] == [vs[0]] + vs[1..][..c - 1]
  {
  }

  /** proc_stat_get_time_count counts the numbers sscanf reads. */
  lemma {:induction false} NumbersScans(T: string, p: nat, vs: seq<nat>, e: nat)
    requires Scans(T, p, vs, e)
    ensures Numbers(T, p) == |vs|
    decreases |vs|
  {
    if |vs| > 1 {
      NumbersScans(T, p + ScanU64(T, p).value.length, vs[1..], e);
    }
  }

  /** A well-formed line at `o` has no blank before the end of its name. */
  lemma {:induction false} FindAt(T: string, o: nat, q: nat, c: char)
    requires o <= q < |T| && T[q] == c
    requires forall i :: o <= i < q ==> T[i] != c
    ensures Find(T, o, c) == Some(q)
    decreases q - o
  {
    if o < q {
      FindAt(T, o + 1, q, c);
    }
  }

  /** The text of a well-formed row at `o`, split where the readers look at it. */
  lemma {:induction false} RowShape(T: string, o: nat, r: CpuRow)
    requires WellFormedRow(r) && MatchesAt(T, o, RowText(r))
    ensures MatchesAt(T, o, r.name)
    ensures MatchesAt(T, o + |r.name|, LineText(r.gap + 1, r.columns))
    ensures |RowText(r)| == |r.name| + |LineText(r.gap + 1, r.columns)|
    ensures T[o] == 'c' && T[o + 1] == 'p' && T[o + 2] == 'u' && T[o + |r.name|] == ' '
    ensures forall i :: o <= i < o + |RowText(r)| - 1 ==> T[i] != '\n'
    ensures T[o + |RowText(r)| - 1] == '\n'
  {
    var tail := Spaces(r.gap) + Cells(r.columns) + "\n";
    assert RowText(r) == r.name + tail;
    TailShape(r.gap, r.columns);
    MatchesSplit(T, o, r.name, tail);
    assert T[o] == r.name[0] && T[o + 1] == r.name[1] && T[o + 2] == r.name[2];
    assert T[o + |r.name|] == tail[0];
    CellsChars(r.columns);
    forall i | o <= i < o + |RowText(r)| - 1 ensures T[i] != '\n' {
      if i < o + |r.name| {
        assert T[i] == r.name[i - o];
      } else {
        var j := i - o - |r.name|;
        assert T[i] == tail[j];
        if j < r.gap {
          assert tail[j] == Spaces(r.gap)[j];
        } else {
          assert tail[j] == Cells(r.columns)[j - r.gap];
        }
      }
    }
    assert T[o + |RowText(r)| - 1] == RowText(r)[|RowText(r)| - 1];
  }

  /** proc_stat_parse_times at a well-formed line finds "cpu" there and reads from the blank after the name. */
  lemma {:induction false} ParseRowStart(T: string, o: nat, r: CpuRow, c: nat)
    requires WellFormedRow(r) && MatchesAt(T, o, RowText(r))
    ensures Parse(T, o, c) == Columns(T, o + |r.name|, c)
  {
    RowShape(T, o, r);
    assert MatchesAt(T, o, "cpu");
    assert Search(T, o, "cpu") == Some(o);
    forall i | o <= i < o + |r.name| ensures T[i] != ' ' {
      assert T[i] == r.name[i - o];
    }
    FindAt(T, o, o + |r.name|, ' ');
  }

  /** proc_stat_parse_times on a well-formed line, when it may write no more than the line holds. */
  lemma {:induction false} ParseRowWithin(T: string, o: nat, r: CpuRow, e: nat, c: nat)
    requires WellFormedRow(r) && MatchesAt(T, o, RowText(r)) && e == o + |RowText(r)| && EndsAt(T, e)
    requires c <= |r.columns|
    ensures Parse(T, o, c) == r.columns[..c]
  {
    ParseRowStart(T, o, r, c);
    RowShape(T, o, r);
    LineScans(T, o + |r.name|, r.gap + 1, r.columns, e);
    ColumnsWithin(T, o + |r.name|, r.columns, e, c);
  }

  /** proc_stat_parse_times on a well-formed line, when it may write `left` more than the line holds. */
  lemma {:induction false} ParseRowBeyond(T: string, o: nat, r: CpuRow, e: nat, c: nat, left: nat)
    requires WellFormedRow(r) && MatchesAt(T, o, RowText(r)) && e == o + |RowText(r)| && EndsAt(T, e)
    requires c == |r.columns| + left
    ensures Parse(T, o, c) == r.columns + Parse(T, e, left)
  {
    ParseRowStart(T, o, r, c);
    RowShape(T, o, r);
    LineScans(T, o + |r.name|, r.gap + 1, r.columns, e);
    ColumnsBeyond(T, o + |r.name|, r.columns, e, c, left);
    CatAppend(r.columns, Parse(T, e, left));
  }

  /** proc_stat_get_cpu_count on a well-formed line: the line counts and the count goes on after it. */
  lemma {:induction false} CpuLinesRow(T: string, o: nat, r: CpuRow)
    requires WellFormedRow(r) && MatchesAt(T, o, RowText(r))
    ensures CpuLines(T, o) == 1 + CpuLines(T, o + |RowText(r)|)
  {
    RowShape(T, o, r);
    if |r.name| == 3 {
      assert T[o + 3] == ' ';
    } else {
      assert T[o + 3] == r.name[3];
    }
    assert CpuSpan(T, o + 3) == 0;
    assert CpuSpan(T, o + 2) == 1;
    assert CpuSpan(T, o + 1) == 2;
    assert CpuSpan(T, o) == 3;
    FindAt(T, o, o + |RowText(r)| - 1, '\n');
  }

  // ---------------------------------------------------- reading all lines

  predicate AllWellFormed(rows: seq<CpuRow>)
  {
    forall i :: 0 <= i < |rows| ==> WellFormedRow(rows[i])
  }

  /**
   * The rows one after the other from `o` to `end`, each followed by a
   * character at which the readers stop.
   */
  predicate RowsAt(T: string, o: nat, rows: seq<CpuRow>, end: nat)
    decreases |rows|
  {
    && end <= |T|
    && if rows == [] then o == end && EndsAt(T, o)
    else
      && WellFormedRow(rows[0]) && MatchesAt(T, o, RowText(rows[0]))
      && EndsAt(T, o + |RowText(rows[0])|)
      && RowsAt(T, o + |RowText(rows[0])|, rows[1..], end)
  }

  /** A well-formed row starts with the 'c' of its name. */
  lemma {:induction false} RowStart(T: string, o: nat, r: CpuRow)
    requires WellFormedRow(r) && MatchesAt(T, o, RowText(r))
    ensures T[o] == 'c'
  {
    assert T[o] == RowText(r)[0];
    assert RowText(r)[0] == r.name[0];
  }

  /** The text of the rows at `o`, followed by a stopping character, lays them out one after the other. */
  lemma {:induction false} RowsAtText(T: string, o: nat, rows: seq<CpuRow>, end: nat)
    requires AllWellFormed(rows) && MatchesAt(T, o, RowsText(rows))
    requires end == o + |RowsText(rows)| && EndsAt(T, end)
    ensures RowsAt(T, o, rows, end)
    decreases |rows|
  {
    if rows != [] {
      var e := o + |RowText(rows[0])|;
      MatchesSplit(T, o, RowText(rows[0]), RowsText(rows[1..]));
      if rows[1..] != [] {
        MatchesSplit(T, e, RowText(rows[1..][0]), RowsText(rows[1..][1..]));
        RowStart(T, e, rows[1..][0]);
      }
      RowsAtText(T, e, rows[1..], end);
    }
  }

  /** Taking from two parts: within the first, or all of it and some of the second. */
  lemma {:induction false} TakeAppend(a: seq<nat>, b: seq<nat>, c: nat)
    ensures Take(a + b, c) == if c <= |a| then a[..c] else a + Take(b, c - |a|)
  {
    if c <= |a| {
      assert (a + b)[..c] == a[..c];
    } else if c - |a| <= |b| {
      assert (a + b)[..c] == a + b[..c - |a|];
    }
  }

  /** proc_stat_parse_times from the start of the rows at `o`, where the rows end at `end`. */
  lemma {:induction false} ParseFrom(T: string, o: nat, rows: seq<CpuRow>, end: nat, c: nat)
    requires RowsAt(T, o, rows, end) && Search(T, end, "cpu").None?
    ensures Parse(T, o, c) == Take(Flatten(rows), c)
    decreases |rows|
  {
    if rows == [] {
      assert Parse(T, o, c) == [] == Take(Flatten(rows), c);
    } else {
      var r := rows[0];
      var e := o + |RowText(r)|;
      var f := Flatten(rows[1..]);
      assert Flatten(rows) == r.columns + f;
      TakeAppend(r.columns, f, c);
      if c <= |r.columns| {
        ParseRowWithin(T, o, r, e, c);
      } else {
        ParseRowBeyond(T, o, r, e, c, c - |r.columns|);
        ParseFrom(T, e, rows[1..], end, c - |r.columns|);
      }
    }
  }

  /** proc_stat_get_cpu_count from the start of the rows at `o`, where the rows end at `end`. */
  lemma {:induction false} CpuLinesFrom(T: string, o: nat, rows: seq<CpuRow>, end: nat)
    requires RowsAt(T, o, rows, end)
    requires end == |T| || T[end] !in "cpu"
    ensures CpuLines(T, o) == |rows|
    decreases |rows|
  {
    if rows == [] {
      assert CpuSpan(T, o) == 0;
    } else {
      CpuLinesRow(T, o, rows[0]);
      CpuLinesFrom(T, o + |RowText(rows[0])|, rows[1..], end);
    }
  }

  /** Search from inside the rest of a text finds what it finds in the rest alone, shifted. */
  lemma {:induction false} SearchShift(A: string, B: string, q: nat, pat: string)
    requires q <= |B|
    ensures Search(A + B, |A| + q, pat).None? == Search(B, q, pat).None?
    decreases |B| - q
  {
    var T := A + B;
    assert MatchesAt(T, |A| + q, pat) == MatchesAt(B, q, pat) by {
      if |B| - q >= |pat| {
        forall j | q <= j < q + |pat| ensures T[|A| + j] == B[j] {}
      }
    }
    if |B| - q >= |pat| && !MatchesAt(B, q, pat) {
      SearchShift(A, B, q + 1, pat);
    }
  }

  /** The text of the rows and the rest, as the kernel writes `/proc/stat`. */
  function StatText(rows: seq<CpuRow>, rest: string): string
  {
    RowsText(rows) + rest
  }

  lemma {:induction false} StatShape(rows: seq<CpuRow>, rest: string)
    requires AllWellFormed(rows) && WellFormedRest(rest)
    ensures RowsAt(StatText(rows, rest), 0, rows, |RowsText(rows)|)
    ensures Search(StatText(rows, rest), |RowsText(rows)|, "cpu").None?
    ensures |RowsText(rows)| == |StatText(rows, rest)| || StatText(rows, rest)[|RowsText(rows)|] !in "cpu"
  {
    var T := StatText(rows, rest);
    forall k | 0 <= k < |RowsText(rows)| ensures T[k] == RowsText(rows)[k] {}
    if rest != [] {
      assert T[|RowsText(rows)|] == rest[0];
    }
    SearchShift(RowsText(rows), rest, 0, "cpu");
    RowsAtText(T, 0, rows, |RowsText(rows)|);
  }

  // -------------------------------------------------------------- results

  /** proc_stat_parse_times gives back the columns of all cpu lines, row after row, at most `count` of them. */
  lemma {:induction false} ParseWellFormed(rows: seq<CpuRow>, rest: string, count: nat)
    requires AllWellFormed(rows) && WellFormedRest(rest)
    ensures Parse(StatText(rows, rest), 0, count) == Take(Flatten(rows), count)
  {
    StatShape(rows, rest);
    ParseFrom(StatText(rows, rest), 0, rows, |RowsText(rows)|, count);
  }

  /** proc_stat_get_cpu_count counts the cpu lines. */
  lemma {:induction false} CpuLinesWellFormed(rows: seq<CpuRow>, rest: string)
    requires AllWellFormed(rows) && WellFormedRest(rest)
    ensures CpuLines(StatText(rows, rest), 0) == |rows|
  {
    StatShape(rows, rest);
    CpuLinesFrom(StatText(rows, rest), 0, rows, |RowsText(rows)|);
  }

  /** proc_stat_get_time_count counts the columns of the summary line "cpu". */
  lemma {:induction false} TimeColumnsWellFormed(rows: seq<CpuRow>, rest: string)
    requires AllWellFormed(rows) && WellFormedRest(rest)
    requires rows != [] && rows[0].name == "cpu"
    ensures TimeColumns(StatText(rows, rest)) == |rows[0].columns|
  {
    var T := StatText(rows, rest);
    StatShape(rows, rest);
    SummaryColumns(T, rows[0]);
  }

  /** The summary line at the start of the text: "cpu ", then its columns. */
  lemma {:induction false} SummaryColumns(T: string, r: CpuRow)
    requires WellFormedRow(r) && r.name == "cpu"
    requires MatchesAt(T, 0, RowText(r)) && EndsAt(T, |RowText(r)|)
    ensures TimeColumns(T) == |r.columns|
  {
    RowShape(T, 0, r);
    assert MatchesAt(T, 0, "cpu ");
    assert Search(T, 0, "cpu ") == Some(0);
    SummaryScans(T, r);
    NumbersScans(T, 4, r.columns, |RowText(r)|);
  }

  /** After "cpu " of the summary line, sscanf reads its columns. */
  lemma {:induction false} SummaryScans(T: string, r: CpuRow)
    requires WellFormedRow(r) && r.name == "cpu"
    requires MatchesAt(T, 0, RowText(r)) && EndsAt(T, |RowText(r)|)
    ensures Scans(T, 4, r.columns, |RowText(r)|)
  {
    RowShape(T, 0, r);
    var line := LineText(r.gap, r.columns);
    assert LineText(r.gap + 1, r.columns) == " " + line;
    MatchesSplit(T, 3, " ", line);
    LineScans(T, 4, r.gap, r.columns, |RowText(r)|);
  }


  lemma {:induction false} FlattenLength(rows: seq<CpuRow>, n: nat)
    requires forall i :: 0 <= i < |rows| ==> |rows[i].columns| == n
    ensures |Flatten(rows)| == ValueCount(|rows|, n)
    decreases |rows|
  {
    if rows != [] {
      FlattenLength(rows[1..], n);
      assert ValueCount(|rows|, n) == n + ValueCount(|rows| - 1, n) by {
        assert |rows| * n == (|rows| - 1) * n + n;
      }
    }
  }

  /**
   * cpumon_main keeps a sample when proc_stat_parse_times reads as many
   * values as the cpu count times the time count found at start-up: on
   * well-formed text whose lines all have the summary line's columns, it
   * does, and the values are the columns row after row.
   */
  lemma {:induction false} SampleAccepted(rows: seq<CpuRow>, rest: string)
    requires AllWellFormed(rows) && WellFormedRest(rest)
    requires rows != [] && rows[0].name == "cpu"
    requires forall i :: 0 <= i < |rows| ==> |rows[i].columns| == |rows[0].columns|
    ensures var T := StatText(rows, rest);
      var count := ValueCount(CpuLines(T, 0), TimeColumns(T));
      Parse(T, 0, count) == Flatten(rows) && |Parse(T, 0, count)| == count
  {
    var T := StatText(rows, rest);
    CpuLinesWellFormed(rows, rest);
    TimeColumnsWellFormed(rows, rest);
    FlattenLength(rows, |rows[0].columns|);
    ParseWellFormed(rows, rest, ValueCount(|rows|, |rows[0].columns|));
  }
}
