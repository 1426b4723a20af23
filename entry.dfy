/**
 * Named entries of `entry.h` / `entry.c`: a name, a link for the intrusive
 * list, and a pair of formatters, one for a value and one for the type. The
 * union `entry_value` becomes a datatype with one variant per member; each
 * formatter reads one member, so it accepts one variant. The link lives in an
 * `Arena` of the intrusive list: an entry is identified there by its node.
 * `gmtime_r` and the `%f` conversion are not modelled; they are the two
 * functions of an `Env`, passed in.
 */
module Entries {

  import opened Util
  import opened Decimal
  import opened StringBuffer
  import IntrusiveList

  /** struct timespec. */
  datatype Timespec = Timespec(sec: int, nsec: int)

  /** The fields of struct tm that the datetime formatter prints. */
  datatype Tm = Tm(year: int, mon: int, mday: int, hour: int, min: int, sec: int)

  /** gmtime_r and the `%f` rendering of a double. */
  datatype Env = Env(gmtime: int -> Tm, fixed: real -> string)

  /** union entry_value, one variant per member. */
  datatype Value =
    | Signed(asSigned: int)
    | Unsigned(asUnsigned: nat)
    | Boolean(asBoolean: bool)
    | Double(asDouble: real)
    | Str(asString: string)
    | Time(asTimespec: Timespec)

  /** The value formatters: the five of entry.c and cpumon's id formatter. */
  datatype ValueFormat = BooleanValue | SignedValue | DoubleValue | StringValue | DatetimeValue | IdValue

  /** The type formatters of entry.c. */
  datatype TypeFormat = BooleanType | SignedType | DoubleType | StringType | DatetimeType

  /** struct entry, without its link. */
  datatype Entry = Entry(name: Option<string>, formatValue: ValueFormat, formatType: TypeFormat)

  /** The union member each value formatter reads. */
  predicate Accepts(f: ValueFormat, v: Value)
  {
    match f
    case BooleanValue => v.Boolean?
    case SignedValue => v.Signed?
    case DoubleValue => v.Double?
    case StringValue => v.Str?
    case DatetimeValue => v.Time?
    case IdValue => v.Time?
  }

  /** The JSON type name of the kind of value a variant holds. */
  function KindName(v: Value): string
  {
    match v
    case Signed(_) => "integer"
    case Unsigned(_) => "integer"
    case Boolean(_) => "boolean"
    case Double(_) => "double"
    case Str(_) => "string"
    case Time(_) => "datetime"
  }

  /** The tag each type formatter prints. */
  function TypeTag(f: TypeFormat): string
  {
    match f
    case BooleanType => "boolean"
    case SignedType => "integer"
    case DoubleType => "double"
    case StringType => "string"
    case DatetimeType => "datetime"
  }

  function Quoted(s: string): string
  {
    "\"" + s + "\""
  }

  /** The key part `"<name>": ` that every fragment starts with. */
  function Key(name: string): string
  {
    Quoted(name) + ": "
  }

  /** C `/` on integers: the quotient truncated toward zero. */
  function CDiv(a: int, b: nat): int
    requires b > 0
  {
    if a >= 0 then a / b else -((-a) / b)
  }

  /** `%04d-%02d-%02dT%02d:%02d:%02d.%03dZ` of a broken-down time and the milliseconds. */
  function DatetimeText(t: Tm, nsec: int): string
  {
    DateText(t) + ClockText(t, CDiv(nsec, 1000000))
  }

  /** The `%04d-%02d-%02dT` part. */
  function DateText(t: Tm): string
  {
    ZeroPadded(1900 + t.year, 4) + "-" + (ZeroPadded(t.mon + 1, 2) + "-" + (ZeroPadded(t.mday, 2) + "T"))
  }

  /** The `%02d:%02d:%02d.%03dZ` part. */
  function ClockText(t: Tm, ms: int): string
  {
    ZeroPadded(t.hour, 2) + ":" + (ZeroPadded(t.min, 2) + ":" + (ZeroPadded(t.sec, 2) + "." + (ZeroPadded(ms, 3) + "Z")))
  }

  /**
   * What cpumon's id formatter intends: the seconds of the timestamp as `%011d`
   * prints an integer of their own width.
   */
  function IdDigits(sec: int): string
  {
    ZeroPadded(sec, 11)
  }

  /** The `int` that `%d` reads from a 64-bit `time_t` argument: its low 32 bits, two's complement. */
  function Int32Of(x: int): (r: int)
    ensures -0x8000_0000 <= r < 0x8000_0000
    ensures (r - x) % 0x1_0000_0000 == 0
  {
    var low := x % 0x1_0000_0000;
    if low < 0x8000_0000 then low else low - 0x1_0000_0000
  }

  /** cpumon's id formatter as written: `%011d` given the 64-bit seconds. */
  function IdDigitsAsWritten(sec: int): string
  {
    ZeroPadded(Int32Of(sec), 11)
  }

  /**
   * From 2^31 seconds (2038-01-19T03:14:08Z) on, the id as written prints a
   * negative number where the seconds are meant: the text starts with '-'.
   */
  lemma {:induction false} IdDigitsWrapAt2038(sec: int)
    requires 0x8000_0000 <= sec < 0x1_0000_0000
    ensures |IdDigitsAsWritten(sec)| >= 1 && IdDigitsAsWritten(sec)[0] == '-'
    ensures IdDigitsAsWritten(sec) != IdDigits(sec)
  {
    assert Int32Of(sec) == sec - 0x1_0000_0000;
    DecRoundTrip(sec);
    var fill := if |Dec(sec)| < 11 then 11 - |Dec(sec)| else 0;
    assert IdDigits(sec) == Zeros(fill) + Dec(sec);
    ZerosDigits(fill);
    assert IsDigit(IdDigits(sec)[0]) by {
      if fill == 0 { assert IdDigits(sec)[0] == Dec(sec)[0]; }
    }
  }

  /** The id as intended: eleven digits that read back as the seconds, for any time up to year 5138. */
  lemma {:induction false} IdDigitsReadBack(sec: int)
    requires 0 <= sec < 100000000000
    ensures |IdDigits(sec)| == 11 && AllDigits(IdDigits(sec)) && DigitsValue(IdDigits(sec)) == sec
  {
    assert Pow10(11) == 100000000000;
    ZeroPaddedExact(sec, 11);
  }

  /**
   * The text of the value part of each formatter. A formatter handed a value
   * of another kind would read another member of the union; the model gives
   * such a value no text. The id prints as intended (`IdDigits`), not as the
   * C's `%011d` prints it from 2^31 seconds on (`IdDigitsAsWritten`).
   */
  function ValueOnly(f: ValueFormat, v: Value, env: Env): string
  {
    match (f, v)
    case (BooleanValue, Boolean(b)) => if b then "true" else "false"
    case (SignedValue, Signed(i)) => SignedDec(i)
    case (DoubleValue, Double(x)) => env.fixed(x)
    case (StringValue, Str(s)) => Quoted(s)
    case (DatetimeValue, Time(t)) => Quoted(DatetimeText(env.gmtime(t.sec), t.nsec))
    case (IdValue, Time(t)) => Quoted(IdDigits(t.sec))
    case _ => ""
  }

  /** entry_format_X_value: the fragment `"<name>": <value>`. */
  function ValueText(name: string, f: ValueFormat, v: Value, env: Env): string
  {
    Key(name) + ValueOnly(f, v, env)
  }

  /** entry_format_X_type: the fragment `"<name>": "<tag>"`. */
  function TypeText(name: string, f: TypeFormat): string
  {
    Key(name) + Quoted(TypeTag(f))
  }

  /**
   * entry_generic: the name and both formatters. The link is not part of the
   * value: the C sets it to point at the constructor's own local copy, which
   * the caller receives by value. The model instead gives each entry a node
   * of the arena that starts self-linked, and every entry cpumon links is
   * first added to a list, which overwrites both pointers.
   */
  function Generic(name: string, formatValue: ValueFormat, formatType: TypeFormat): (e: Entry)
    ensures NameOf(e) == name && e.name.Some?
    ensures e.formatValue == formatValue && e.formatType == formatType
  {
    Entry(Some(name), formatValue, formatType)
  }

  function BooleanEntry(name: string): Entry { Generic(name, BooleanValue, BooleanType) }
  function SignedEntry(name: string): Entry { Generic(name, SignedValue, SignedType) }
  function DoubleEntry(name: string): Entry { Generic(name, DoubleValue, DoubleType) }
  function StringEntry(name: string): Entry { Generic(name, StringValue, StringType) }
  function DatetimeEntry(name: string): Entry { Generic(name, DatetimeValue, DatetimeType) }

  /** The name `%s` prints for an entry: a destroyed entry's NULL name prints as glibc's `(null)`. */
  function NameOf(e: Entry): string
  {
    if e.name.Some? then e.name.value else "(null)"
  }

  /** The five typed constructors of entry.h. */
  predicate IsTyped(e: Entry)
  {
    e.name.Some? && e in {BooleanEntry(e.name.value), SignedEntry(e.name.value), DoubleEntry(e.name.value),
                          StringEntry(e.name.value), DatetimeEntry(e.name.value)}
  }

  /**
   * Each typed constructor pairs a value formatter with the type formatter of
   * the same kind: whatever value the first accepts, the second names its kind.
   */
  lemma {:induction false} TypedEntriesAgree(e: Entry, v: Value)
    requires IsTyped(e) && Accepts(e.formatValue, v)
    ensures TypeTag(e.formatType) == KindName(v)
  {
  }

  /** Both fragments of a named entry are JSON members keyed by the name. */
  lemma {:induction false} FragmentsShareKey(name: string, f: ValueFormat, t: TypeFormat, v: Value, env: Env)
    ensures ValueText(name, f, v, env)[..|Key(name)|] == Key(name)
    ensures TypeText(name, t)[..|Key(name)|] == Key(name)
  {
  }

  /** A boolean prints as `true` exactly when it holds. */
  lemma {:induction false} BooleanText(name: string, b: bool, env: Env)
    ensures ValueText(name, BooleanValue, Boolean(b), env) == Key(name) + (if b then "true" else "false")
    ensures ValueOnly(BooleanValue, Boolean(b), env) == "true" <==> b
  {
  }

  /** A signed value prints as decimal text that reads back as the value, sign included. */
  lemma {:induction false} SignedText(name: string, i: int, env: Env)
    ensures var s := ValueOnly(SignedValue, Signed(i), env);
      && ValueText(name, SignedValue, Signed(i), env) == Key(name) + s
      && |s| >= 1 && AllDigits(if s[0] == '-' then s[1..] else s)
      && Decimal.SignedValue(s) == i
  {
    SignedDecRoundTrip(i);
  }

  /** A string prints between quotes, as it is: nothing is escaped. */
  lemma {:induction false} StringText(name: string, s: string, env: Env)
    ensures var r := ValueText(name, StringValue, Str(s), env);
      && |r| == |Key(name)| + |s| + 2
      && r[|Key(name)|] == '"' && r[|r| - 1] == '"'
      && r[|Key(name)| + 1..|r| - 1] == s
  {
  }

  /** The broken-down time fields that print in their fixed widths. */
  predicate InRange(t: Tm, nsec: int)
  {
    && 0 <= 1900 + t.year < 10000 && 0 <= t.mon < 12 && 1 <= t.mday <= 31
    && 0 <= t.hour < 24 && 0 <= t.min < 60 && 0 <= t.sec <= 60
    && 0 <= nsec < 1000000000
  }

  lemma {:induction false} Pow10Values()
    ensures Pow10(2) == 100 && Pow10(3) == 1000 && Pow10(4) == 10000
  {
  }

  /** A field of the given width at offset `off` of `s`, then a separator, then `rest`. */
  lemma {:induction false} FieldAt(s: string, off: nat, n: nat, width: nat, sep: char, rest: string)
    requires 1 <= width && n < Pow10(width) && off <= |s|
    requires s[off..] == ZeroPadded(n, width) + [sep] + rest
    ensures off + width < |s| && s[off + width] == sep && s[off + width + 1..] == rest
    ensures AllDigits(s[off..off + width]) && DigitsValue(s[off..off + width]) == n
  {
    ZeroPaddedExact(n, width);
    assert s[off..off + width] == s[off..][..width] == ZeroPadded(n, width);
    assert s[off + width + 1..] == s[off..][width + 1..];
  }

  lemma {:induction false} ClockLayout(t: Tm, ms: int)
    requires 0 <= t.hour < 24 && 0 <= t.min < 60 && 0 <= t.sec <= 60 && 0 <= ms < 1000
    ensures var u := ClockText(t, ms);
      && |u| == 13 && u[2] == ':' && u[5] == ':' && u[8] == '.' && u[12] == 'Z'
      && AllDigits(u[0..2]) && DigitsValue(u[0..2]) == t.hour
      && AllDigits(u[3..5]) && DigitsValue(u[3..5]) == t.min
      && AllDigits(u[6..8]) && DigitsValue(u[6..8]) == t.sec
      && AllDigits(u[9..12]) && DigitsValue(u[9..12]) == ms
  {
    Pow10Values();
    var u3 := ZeroPadded(ms, 3) + "Z";
    var u2 := ZeroPadded(t.sec, 2) + "." + u3;
    var u1 := ZeroPadded(t.min, 2) + ":" + u2;
    var u := ZeroPadded(t.hour, 2) + ":" + u1;
    FieldAt(u, 0, t.hour, 2, ':', u1);
    FieldAt(u, 3, t.min, 2, ':', u2);
    FieldAt(u, 6, t.sec, 2, '.', u3);
    FieldAt(u, 9, ms, 3, 'Z', "");
  }

  lemma {:induction false} DateLayout(t: Tm)
    requires 0 <= 1900 + t.year < 10000 && 0 <= t.mon < 12 && 1 <= t.mday <= 31
    ensures var s := DateText(t);
      && |s| == 11 && s[4] == '-' && s[7] == '-' && s[10] == 'T'
      && AllDigits(s[0..4]) && DigitsValue(s[0..4]) == 1900 + t.year
      && AllDigits(s[5..7]) && DigitsValue(s[5..7]) == t.mon + 1
      && AllDigits(s[8..10]) && DigitsValue(s[8..10]) == t.mday
  {
    Pow10Values();
    var s2 := ZeroPadded(t.mday, 2) + "T";
    var s1 := ZeroPadded(t.mon + 1, 2) + "-" + s2;
    var s := ZeroPadded(1900 + t.year, 4) + "-" + s1;
    FieldAt(s, 0, 1900 + t.year, 4, '-', s1);
    FieldAt(s, 5, t.mon + 1, 2, '-', s2);
    FieldAt(s, 8, t.mday, 2, 'T', "");
  }

  /**
   * For fields in range the datetime value is the 24 characters
   * `YYYY-MM-DDTHH:MM:SS.mmmZ`: the date part of DateLayout, then the clock
   * part of ClockLayout, whose milliseconds are the nanoseconds divided by
   * 10^6, truncated.
   */
  lemma {:induction false} DatetimeLayout(t: Tm, nsec: int)
    requires InRange(t, nsec)
    ensures |DatetimeText(t, nsec)| == 24
    ensures DatetimeText(t, nsec) == DateText(t) + ClockText(t, nsec / 1000000)
    ensures 0 <= nsec / 1000000 < 1000
  {
    DateLayout(t);
    ClockLayout(t, nsec / 1000000);
  }

  /**
   * entry_format_value: appends the entry's value fragment, formatted by the
   * entry's own value formatter; a fragment too long for `vsnprintf` to
   * report fails and appends nothing.
   */
  method FormatValue(e: Entry, v: Value, env: Env, output: SBuf) returns (ok: bool)
    requires output.Valid() && output.Room(Put(ValueText(NameOf(e), e.formatValue, v, env)))
    modifies output, output.data
    ensures output.Valid()
    ensures ok <==> |ValueText(NameOf(e), e.formatValue, v, env)| <= INT_MAX
    ensures output.contents == old(output.contents) + Put(ValueText(NameOf(e), e.formatValue, v, env))
    ensures output.data == old(output.data) || fresh(output.data)
  {
    ok := output.Format(Reported(ValueText(NameOf(e), e.formatValue, v, env)));
  }

  /** entry_format_type: appends the entry's type fragment, or fails and appends nothing as entry_format_value does. */
  method FormatType(e: Entry, output: SBuf) returns (ok: bool)
    requires output.Valid() && output.Room(Put(TypeText(NameOf(e), e.formatType)))
    modifies output, output.data
    ensures output.Valid()
    ensures ok <==> |TypeText(NameOf(e), e.formatType)| <= INT_MAX
    ensures output.contents == old(output.contents) + Put(TypeText(NameOf(e), e.formatType))
    ensures output.data == old(output.data) || fresh(output.data)
  {
    ok := output.Format(Reported(TypeText(NameOf(e), e.formatType)));
  }

  /**
   * entry_destroy: unlinks the entry's link node from the list holding it
   * (nothing happens to lists when it is not linked), then drops the name.
   */
  method DestroyEntry(arena: IntrusiveList.Arena, link: nat, e: Entry, ghost h: nat, ghost k: nat) returns (r: Entry)
    requires arena.Valid()
    requires (link in arena.Lists && arena.Lists[link] == [])
          || (h in arena.Lists && k < |arena.Lists[h]| && arena.Lists[h][k] == link)
    modifies arena, arena.prev, arena.next
    ensures arena.Valid() && link in arena.Lists && arena.Lists[link] == []
    ensures arena.Lists == if link in old(arena.Lists) then old(arena.Lists) else IntrusiveList.AfterRemove(old(arena.Lists), h, k)
    ensures r == e.(name := None)
  {
    if link !in arena.Lists {
      assert arena.Lists[h][k] == link;
    }
    if !arena.IsEmpty(link) {
      arena.Remove(link, h, k);
    }
    r := e.(name := None);
  }
}
