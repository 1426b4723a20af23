/**
 * The request serialiser and the result classification of `fivis.c`.
 *
 * The serialiser appends a JSON document to an `SBuf`: a header with the
 * partner and signal-set ids, an optional schema block listing the type
 * fragment of every signal, and a data array of records, one value fragment
 * per signal. The signal lists are lists of the intrusive-list `Arena`; the
 * entry embedding each link node is given by a map from node to `Entry`
 * (what `list_item_var` recovers). The `next_value` callback and its state
 * are a `Cursor` that yields a sequence of values and then NULL for ever.
 */
module Fivis {

  import opened Util
  import opened StringBuffer
  import opened Entries
  import IntrusiveList

  /** fivis_result_t, with the numbering of `fivis.h`. */
  datatype FivisResult = Ok | ErrGeneral | ErrRequest | ErrNetwork | ErrLocation | ErrServer
  {
    function Code(): (c: nat)
      ensures c <= 5 && (c == 0 <==> this == Ok)
    {
      match this
      case Ok => 0
      case ErrGeneral => 1
      case ErrRequest => 2
      case ErrNetwork => 3
      case ErrLocation => 4
      case ErrServer => 5
    }
  }

  /** The CURLcode values the classification tells apart; every other code is `OtherError`. */
  datatype CurlCode = CurleOk | CouldntResolveProxy | CouldntResolveHost | CouldntConnect | HttpReturnedError | OtherError

  /**
   * The `next_value` callback with its state: each call yields the next of
   * `values`, and once they are used up it yields NULL (`None`) on every call.
   */
  class Cursor {
    const values: seq<Value>
    var pos: nat

    ghost predicate Valid()
      reads this
    {
      pos <= |values|
    }

    constructor (values: seq<Value>)
      ensures Valid() && this.values == values && pos == 0
    {
      this.values := values;
      pos := 0;
    }

    method Next() returns (v: Option<Value>)
      requires Valid()
      modifies this
      ensures Valid()
      ensures old(pos) < |values| ==> v == Some(values[old(pos)]) && pos == old(pos) + 1
      ensures old(pos) == |values| ==> v == None && pos == old(pos)
    {
      if pos < |values| {
        v := Some(values[pos]);
        pos := pos + 1;
      } else {
        v := None;
      }
    }
  }

  /** Every node of the list has its entry. */
  predicate Listed(s: seq<nat>, entryOf: map<nat, Entry>)
  {
    forall i :: 0 <= i < |s| ==> s[i] in entryOf
  }

  /** The entries of a list, in list order. */
  function EntriesAt(s: seq<nat>, entryOf: map<nat, Entry>): (r: seq<Entry>)
    requires Listed(s, entryOf)
    ensures |r| == |s| && forall i :: 0 <= i < |s| ==> r[i] == entryOf[s[i]]
  {
    seq(|s|, i requires 0 <= i < |s| => entryOf[s[i]])
  }

  /** A list pointer that is NULL or the head of a list whose nodes all have their entry. */
  ghost predicate ListArg(arena: IntrusiveList.Arena, h: Option<nat>, entryOf: map<nat, Entry>)
    reads arena
  {
    h.Some? ==> h.value in arena.Lists && Listed(arena.Lists[h.value], entryOf)
  }

  /** The entries behind a list pointer; NULL has none to offer. */
  ghost function ListEntries(arena: IntrusiveList.Arena, h: Option<nat>, entryOf: map<nat, Entry>): Option<seq<Entry>>
    requires ListArg(arena, h, entryOf)
    reads arena
  {
    if h.Some? then Some(EntriesAt(arena.Lists[h.value], entryOf)) else None
  }

  /** The signals a record walks: none when the list pointer is NULL. */
  ghost function SignalEntries(arena: IntrusiveList.Arena, h: Option<nat>, entryOf: map<nat, Entry>): seq<Entry>
    requires ListArg(arena, h, entryOf)
    reads arena
  {
    if h.Some? then EntriesAt(arena.Lists[h.value], entryOf) else []
  }

  /** The values a `next_value` callback has still to yield; no callback, no values. */
  ghost function Pending(cursor: Cursor?): Option<seq<Value>>
    requires cursor != null ==> cursor.Valid()
    reads cursor
  {
    if cursor != null then Some(cursor.values[cursor.pos..]) else None
  }

  /** A text the output can hold: the buffer grown to it, in 64-byte steps, has a size a `size_t` holds. */
  predicate Fits(text: string)
  {
    |text| + 64 < SIZE_MOD
  }

  /** Appending is associative; the proofs below regroup appended pieces with it. */
  lemma {:induction false} Assoc(a: string, b: string, c: string)
    ensures (a + b) + c == a + (b + c)
  {
  }

  /** Appending nothing leaves a text as it is. */
  lemma {:induction false} AppendNothing(a: string)
    ensures a + "" == a
  {
  }

  function Min(a: nat, b: nat): nat
  {
    if a <= b then a else b
  }

  /**
   * The list `s` behind `head`, linked by `nx`, with the entry of each node:
   * what a walk over it with list_for_each_item sees.
   */
  ghost predicate Walkable(nx: seq<nat>, pv: seq<nat>, head: nat, s: seq<nat>, entryOf: map<nat, Entry>, es: seq<Entry>)
  {
    && IntrusiveList.Ring(nx, pv, head, s)
    && (forall i :: 0 <= i < |s| ==> s[i] != head)
    && |es| == |s| && (forall i :: 0 <= i < |s| ==> s[i] in entryOf && entryOf[s[i]] == es[i])
  }

  // ------------------------------------------------------------ the schema

  /** The type fragment entry_format_type writes for each entry, in order. */
  function TypeFragments(es: seq<Entry>): (r: seq<string>)
    ensures |r| == |es|
  {
    if es == [] then [] else [TypeText(NameOf(es[0]), es[0].formatType)] + TypeFragments(es[1..])
  }

  /**
   * Every entry's type fragment can be formatted: format_schema asserts that
   * entry_format_type never fails on the schema list.
   */
  predicate TypesFit(es: seq<Entry>)
  {
    forall i :: 0 <= i < |es| ==> |TypeText(NameOf(es[i]), es[i].formatType)| <= INT_MAX
  }

  /** Part i of the schema is the type fragment of entry i. */
  lemma {:induction false} TypeFragmentAt(es: seq<Entry>, i: nat)
    requires i < |es|
    ensures TypeFragments(es)[i] == TypeText(NameOf(es[i]), es[i].formatType)
  {
    if i > 0 {
      TypeFragmentAt(es[1..], i - 1);
    }
  }

  /** Texts joined by ", ", front to back. */
  function Joined(parts: seq<string>): string
  {
    if parts == [] then ""
    else if |parts| == 1 then parts[0]
    else parts[0] + ", " + Joined(parts[1..])
  }

  lemma {:induction false} JoinedAppend(parts: seq<string>, x: string)
    requires parts != []
    ensures Joined(parts + [x]) == Joined(parts) + ", " + x
    decreases |parts|
  {
    var longer := parts + [x];
    assert longer[1..] == parts[1..] + [x];
    if |parts| > 1 {
      JoinedAppend(parts[1..], x);
      var rest := Joined(parts[1..]);
      Assoc(parts[0] + ", ", rest, ", ");
      Assoc(parts[0] + ", ", rest + ", ", x);
    }
  }

  /** A join holds its first part whole. */
  lemma {:induction false} JoinedHoldsFirst(parts: seq<string>)
    requires parts != []
    ensures |Joined(parts)| >= |parts[0]|
  {
  }

  /**
   * format_schema as it grows the output `s`: the first part, then ", " and
   * each further part, for the first `n` parts.
   */
  function SchemaAfter(s: string, parts: seq<string>, n: nat): string
    requires n <= |parts|
  {
    if n == 0 then s
    else if n == 1 then s + parts[0]
    else SchemaAfter(s, parts, n - 1) + ", " + parts[n - 1]
  }

  lemma {:induction false} SchemaPrefixJoined(s: string, parts: seq<string>, n: nat)
    requires n <= |parts|
    ensures SchemaAfter(s, parts, n) == s + Joined(parts[..n])
  {
    if n == 0 {
      AppendNothing(s);
    } else if n == 1 {
      assert parts[..1] == [parts[0]];
    } else {
      SchemaPrefixJoined(s, parts, n - 1);
      JoinedAppend(parts[..n - 1], parts[n - 1]);
      assert parts[..n - 1] + [parts[n - 1]] == parts[..n];
      var init := Joined(parts[..n - 1]);
      Assoc(s, init, ", ");
      Assoc(s, init + ", ", parts[n - 1]);
    }
  }

  /** The schema appended is its parts joined by ", ": no separator before the first or after the last. */
  lemma {:induction false} SchemaIsJoin(s: string, parts: seq<string>)
    ensures SchemaAfter(s, parts, |parts|) == s + Joined(parts)
  {
    SchemaPrefixJoined(s, parts, |parts|);
    assert parts[..|parts|] == parts;
  }

  /** A schema is empty exactly when there are no entries: every type fragment has text. */
  lemma {:induction false} SchemaEmpty(es: seq<Entry>)
    ensures Joined(TypeFragments(es)) == "" <==> es == []
  {
    var parts := TypeFragments(es);
    if es != [] {
      JoinedHoldsFirst(parts);
      TypeFragmentAt(es, 0);
      assert |parts[0]| > 0;
    }
  }

  /** Fewer parts never give a longer schema. */
  lemma {:induction false} SchemaGrows(s: string, parts: seq<string>, j: nat, n: nat)
    requires j <= n <= |parts|
    ensures |SchemaAfter(s, parts, j)| <= |SchemaAfter(s, parts, n)|
    decreases n
  {
    if j < n {
      SchemaGrows(s, parts, j, n - 1);
    }
  }

  // -------------------------------------------------------------- the data

  /** What entry_format_value writes for an entry and a value, through the entry's `format_value`. */
  type Formatter = (Entry, Value) -> string

  /**
   * The formatter of the entries of this library, over the environment's
   * number and time formatting: a fragment too long for `vsnprintf` adds nothing.
   */
  function Fragment(env: Env): Formatter
  {
    (e: Entry, v: Value) => Put(ValueText(NameOf(e), e.formatValue, v, env))
  }

  /**
   * `frag` writes each value as entry_format_value does under `env`. The
   * walks of format_data carry this fact and use it only where a fragment
   * is written.
   */
  ghost predicate RendersAs(frag: Formatter, env: Env)
  {
    forall e: Entry, v: Value {:trigger ValueText(NameOf(e), e.formatValue, v, env)} ::
      frag(e, v) == Put(ValueText(NameOf(e), e.formatValue, v, env))
  }

  /**
   * The fields of a record as format_data grows the output `s`: it pulls
   * one value per signal, the first `n` signals, starting at value `p`; a
   * pulled value is written as ", " and the signal's fragment, and a pull
   * that finds the values used up writes nothing.
   */
  function Fields(s: string, sig: seq<Entry>, values: seq<Value>, p: nat, n: nat, frag: Formatter): string
    requires n <= |sig|
  {
    if n == 0 then s
    else
      var f := Fields(s, sig, values, p, n - 1, frag);
      if p + n - 1 < |values| then f + ", " + frag(sig[n - 1], values[p + n - 1]) else f
  }

  /**
   * The records from value `pos` on: `\n{ `, the id fragment of that value,
   * the fields; then the closing pull decides: another value opens the next
   * record after ` },`, none ends the data with ` }\n`.
   */
  function Records(s: string, id: Entry, sig: seq<Entry>, values: seq<Value>, pos: nat, frag: Formatter): string
    requires pos < |values|
    decreases |values| - pos
  {
    var opening := s + "\n{ " + frag(id, values[pos]);
    var body := Fields(opening, sig, values, pos + 1, |sig|, frag);
    var after := pos + 1 + |sig|;
    if after < |values| then Records(body + " },", id, sig, values, after, frag)
    else body + " }\n"
  }

  /** One record of Records: what follows its body depends on whether a value is left for the closing pull. */
  lemma {:induction false} RecordsStep(s: string, id: Entry, sig: seq<Entry>, values: seq<Value>, pos: nat, frag: Formatter)
    requires pos < |values|
    ensures var body := Fields(s + "\n{ " + frag(id, values[pos]), sig, values, pos + 1, |sig|, frag);
      Records(s, id, sig, values, pos, frag) ==
        if pos + 1 + |sig| < |values| then Records(body + " },", id, sig, values, pos + 1 + |sig|, frag) else body + " }\n"
  {
  }

  /**
   * The record opened by the value at `p - 1`, within records that fit the output: its
   * opening and its fields fit with room for the 3-byte closing, and where
   * its walk stops tells how it ends: before the last value the next record
   * follows ` },`, at the last ` }\n` ends the data.
   */
  lemma {:induction false} RecordPlan(s: string, id: Entry, sig: seq<Entry>, values: seq<Value>, p: nat, frag: Formatter)
    requires 0 < p <= |values| && Fits(Records(s, id, sig, values, p - 1, frag))
    ensures var opening := s + "\n{ " + frag(id, values[p - 1]);
      var body := Fields(opening, sig, values, p, |sig|, frag);
      var stop := Min(p + |sig|, |values|);
      && Fits(opening) && Fits(body) && |body| + 3 + 64 < SIZE_MOD
      && (stop < |values| ==> Records(s, id, sig, values, p - 1, frag) == Records(body + " },", id, sig, values, stop, frag))
      && (stop == |values| ==> Records(s, id, sig, values, p - 1, frag) == body + " }\n")
  {
    var opening := s + "\n{ " + frag(id, values[p - 1]);
    var body := Fields(opening, sig, values, p, |sig|, frag);
    RecordsStep(s, id, sig, values, p - 1, frag);
    FieldsGrow(opening, sig, values, p, 0, |sig|, frag);
    var after := p + |sig|;
    if after < |values| {
      RecordsIsText(body + " },", id, sig, values, after, frag);
    }
  }

  /** format_data from value `pos` on: the records, or nothing when the first pull finds no value. */
  function Data(s: string, id: Entry, sig: seq<Entry>, values: seq<Value>, pos: nat, frag: Formatter): string
    requires pos <= |values|
  {
    if pos < |values| then Records(s, id, sig, values, pos, frag) else s
  }

  /** A reference definition of a record's fields: ", " and a fragment per value, signal i for value i. */
  function FieldsText(sig: seq<Entry>, vs: seq<Value>, frag: Formatter): string
    requires |vs| <= |sig|
  {
    if vs == [] then ""
    else
      var n := |vs| - 1;
      FieldsText(sig, vs[..n], frag) + ", " + frag(sig[n], vs[n])
  }

  /** One record without its closing: `\n{ ` and the id fragment, then the fields. */
  function RecordText(id: Entry, sig: seq<Entry>, chunk: seq<Value>, frag: Formatter): string
    requires 1 <= |chunk| <= |sig| + 1
  {
    "\n{ " + frag(id, chunk[0]) + FieldsText(sig, chunk[1..], frag)
  }

  /**
   * The data part, defined on the values by chunks: a record per 1 + |sig|
   * values (the last one possibly shorter); each record but the last is
   * closed by ` },`, the last by ` }\n`.
   */
  function DataText(id: Entry, sig: seq<Entry>, vs: seq<Value>, frag: Formatter): string
    decreases |vs|
  {
    var k := |sig| + 1;
    if vs == [] then ""
    else if |vs| <= k then RecordText(id, sig, vs, frag) + " }\n"
    else RecordText(id, sig, vs[..k], frag) + " }," + DataText(id, sig, vs[k..], frag)
  }

  /** The pulls of a record's fields append the fields of the values still there, and nothing for the others. */
  lemma {:induction false} FieldsIsText(s: string, sig: seq<Entry>, values: seq<Value>, p: nat, n: nat, frag: Formatter)
    requires n <= |sig| && p <= |values|
    ensures Fields(s, sig, values, p, n, frag) == s + FieldsText(sig, values[p..Min(p + n, |values|)], frag)
  {
    if n == 0 {
      assert values[p..p] == [];
      AppendNothing(s);
    } else {
      FieldsIsText(s, sig, values, p, n - 1, frag);
      FieldsOneMore(s, sig, values, p, n, frag);
    }
  }

  /** One pull more: a field more when a value is left, the same text when the values are used up. */
  lemma {:induction false} FieldsOneMore(s: string, sig: seq<Entry>, values: seq<Value>, p: nat, n: nat, frag: Formatter)
    requires 0 < n <= |sig| && p <= |values|
    requires Fields(s, sig, values, p, n - 1, frag) == s + FieldsText(sig, values[p..Min(p + n - 1, |values|)], frag)
    ensures Fields(s, sig, values, p, n, frag) == s + FieldsText(sig, values[p..Min(p + n, |values|)], frag)
  {
    if p + n - 1 < |values| {
      assert Min(p + n, |values|) == p + n && Min(p + n - 1, |values|) == p + n - 1;
      var vs := values[p..p + n];
      assert vs[..n - 1] == values[p..p + n - 1];
      assert vs[n - 1] == values[p + n - 1];
      var init := FieldsText(sig, vs[..n - 1], frag);
      Assoc(s, init, ", ");
      Assoc(s, init + ", ", frag(sig[n - 1], vs[n - 1]));
    } else {
      assert Min(p + n, |values|) == Min(p + n - 1, |values|);
    }
  }

  /** The opening and the fields of the record from value `pos` are that record's text. */
  lemma {:induction false} RecordIsText(s: string, id: Entry, sig: seq<Entry>, values: seq<Value>, pos: nat, frag: Formatter)
    requires pos < |values|
    ensures Fields(s + "\n{ " + frag(id, values[pos]), sig, values, pos + 1, |sig|, frag) ==
            s + RecordText(id, sig, values[pos..Min(pos + 1 + |sig|, |values|)], frag)
  {
    var first := frag(id, values[pos]);
    var end := Min(pos + 1 + |sig|, |values|);
    var chunk := values[pos..end];
    var opening := s + "\n{ " + first;
    FieldsIsText(opening, sig, values, pos + 1, |sig|, frag);
    assert chunk[1..] == values[pos + 1..end];
    Assoc(s, "\n{ ", first);
    Assoc(s, "\n{ " + first, FieldsText(sig, chunk[1..], frag));
  }

  /** The records format_data writes from value `pos` on are the data part of the values left. */
  lemma {:induction false} RecordsIsText(s: string, id: Entry, sig: seq<Entry>, values: seq<Value>, pos: nat, frag: Formatter)
    requires pos < |values|
    ensures Records(s, id, sig, values, pos, frag) == s + DataText(id, sig, values[pos..], frag)
    decreases |values| - pos
  {
    var after := pos + 1 + |sig|;
    if after < |values| {
      var body := Fields(s + "\n{ " + frag(id, values[pos]), sig, values, pos + 1, |sig|, frag);
      RecordsIsText(body + " },", id, sig, values, after, frag);
      RecordsMore(s, id, sig, values, pos, frag);
    } else {
      RecordsLast(s, id, sig, values, pos, frag);
    }
  }

  /** A record that another follows: its text, ` },`, then the text of the records after it. */
  lemma {:induction false} RecordsMore(s: string, id: Entry, sig: seq<Entry>, values: seq<Value>, pos: nat, frag: Formatter)
    requires pos + 1 + |sig| < |values|
    requires var body := Fields(s + "\n{ " + frag(id, values[pos]), sig, values, pos + 1, |sig|, frag);
      Records(body + " },", id, sig, values, pos + 1 + |sig|, frag) == body + " }," + DataText(id, sig, values[pos + 1 + |sig|..], frag)
    ensures Records(s, id, sig, values, pos, frag) == s + DataText(id, sig, values[pos..], frag)
  {
    var k := |sig| + 1;
    var after := pos + 1 + |sig|;
    assert after == pos + k;
    var vs := values[pos..];
    RecordsStep(s, id, sig, values, pos, frag);
    RecordIsText(s, id, sig, values, pos, frag);
    var record := RecordText(id, sig, values[pos..after], frag);
    assert Min(after, |values|) == after;
    var rest := DataText(id, sig, values[after..], frag);
    assert vs[..k] == values[pos..after] && vs[k..] == values[after..];
    assert DataText(id, sig, vs, frag) == record + " }," + rest;
    Assoc(s, record, " },");
    Assoc(s, record + " },", rest);
  }

  /** The last record: its text and ` }\n`. */
  lemma {:induction false} RecordsLast(s: string, id: Entry, sig: seq<Entry>, values: seq<Value>, pos: nat, frag: Formatter)
    requires pos < |values| <= pos + 1 + |sig|
    ensures Records(s, id, sig, values, pos, frag) == s + DataText(id, sig, values[pos..], frag)
  {
    RecordsStep(s, id, sig, values, pos, frag);
    RecordIsText(s, id, sig, values, pos, frag);
    var record := RecordText(id, sig, values[pos..|values|], frag);
    assert Min(pos + 1 + |sig|, |values|) == |values|;
    assert values[pos..|values|] == values[pos..];
    Assoc(s, record, " }\n");
  }

  /** format_data from value `pos` on appends exactly the data part of the values left. */
  lemma {:induction false} DataIsText(s: string, id: Entry, sig: seq<Entry>, values: seq<Value>, pos: nat, frag: Formatter)
    requires pos <= |values|
    ensures Data(s, id, sig, values, pos, frag) == s + DataText(id, sig, values[pos..], frag)
  {
    if pos < |values| {
      RecordsIsText(s, id, sig, values, pos, frag);
    } else {
      assert values[pos..] == [];
      AppendNothing(s);
    }
  }

  /** Fewer pulls never give longer fields. */
  lemma {:induction false} FieldsGrow(s: string, sig: seq<Entry>, values: seq<Value>, p: nat, j: nat, n: nat, frag: Formatter)
    requires j <= n <= |sig|
    ensures |Fields(s, sig, values, p, j, frag)| <= |Fields(s, sig, values, p, n, frag)|
    decreases n
  {
    if j < n {
      FieldsGrow(s, sig, values, p, j, n - 1, frag);
    }
  }

  /** A non-empty data part opens with the first record's id fragment and ends with ` }\n`. */
  lemma {:induction false} DataEnds(id: Entry, sig: seq<Entry>, vs: seq<Value>, frag: Formatter)
    requires vs != []
    ensures var d := DataText(id, sig, vs, frag);
      && "\n{ " + frag(id, vs[0]) <= d
      && |d| >= 3 && d[|d| - 3..] == " }\n"
    decreases |vs|
  {
    var k := |sig| + 1;
    var d := DataText(id, sig, vs, frag);
    var opening := "\n{ " + frag(id, vs[0]);
    if |vs| > k {
      DataEnds(id, sig, vs[k..], frag);
      var tail := DataText(id, sig, vs[k..], frag);
      var fields := FieldsText(sig, vs[..k][1..], frag);
      Assoc(opening, fields, " },");
      Assoc(opening, fields + " },", tail);
      assert d == opening + (fields + " }," + tail);
      assert d[|d| - 3..] == tail[|tail| - 3..];
    } else {
      var fields := FieldsText(sig, vs[1..], frag);
      Assoc(opening, fields, " }\n");
      assert d == opening + (fields + " }\n");
    }
  }

  /** Values laid out as one whole record and more: the record, closed by ` },` when values follow and by ` }\n` when none do. */
  lemma {:induction false} WholeRecord(id: Entry, sig: seq<Entry>, c: seq<Value>, rest: seq<Value>, frag: Formatter)
    requires |c| == |sig| + 1
    ensures DataText(id, sig, c + rest, frag) ==
      RecordText(id, sig, c, frag) + (if rest == [] then " }\n" else " }," + DataText(id, sig, rest, frag))
  {
    var vs := c + rest;
    if rest == [] {
      assert vs == c;
    } else {
      assert vs[..|c|] == c;
      assert vs[|c|..] == rest;
      Assoc(RecordText(id, sig, c, frag), " },", DataText(id, sig, rest, frag));
    }
  }

  // ----------------------------------------------------------- the request

  /** The partner id member, as `"partnerId": "%s"` formats it. */
  function PartnerMember(partnerId: string): string
  {
    "\"partnerId\": \"" + partnerId + "\""
  }

  /** The signal-set id member, as `,\n"signalSetId": "%s"` formats it. */
  function SignalSetMember(signalSetId: string): string
  {
    ",\n\"signalSetId\": \"" + signalSetId + "\""
  }

  /** The opening brace and the two id members. */
  function HeaderText(partnerId: string, signalSetId: string): string
  {
    "{\n" + Put(PartnerMember(partnerId)) + Put(SignalSetMember(signalSetId))
  }

  /** The schema member: present exactly when a schema list is given. */
  function SchemaBlock(schema: Option<seq<Entry>>): string
  {
    if schema.Some? then ",\n\"schema\": {\n" + Joined(TypeFragments(schema.value)) + "\n}" else ""
  }

  /** The data member and the closing brace: an empty array when there is no `next_value`. */
  function DataBlock(id: Entry, sig: seq<Entry>, values: Option<seq<Value>>, env: Env): string
  {
    ",\n\"data\": [" + (if values.Some? then DataText(id, sig, values.value, Fragment(env)) else "") + "]" + "\n}\n"
  }

  /** fivis_signals_format_request: the text appended to the output buffer. */
  function RequestText(partnerId: string, signalSetId: string, schema: Option<seq<Entry>>,
                       id: Entry, sig: seq<Entry>, values: Option<seq<Value>>, env: Env): string
  {
    HeaderText(partnerId, signalSetId) + SchemaBlock(schema) + DataBlock(id, sig, values, env)
  }

  /** The header appends of fivis_signals_format_request, growing the output `s`. */
  function HeaderAfter(s: string, partnerId: string, signalSetId: string): string
  {
    s + "{\n" + Put(PartnerMember(partnerId)) + Put(SignalSetMember(signalSetId))
  }

  /** The schema appends, growing the output `s`: none without a schema list. */
  function SchemaMemberAfter(s: string, schema: Option<seq<Entry>>): string
  {
    if schema.Some? then s + ",\n\"schema\": {\n" + Joined(TypeFragments(schema.value)) + "\n}" else s
  }

  /** The data appends, growing the output `s`: the records only with a `next_value` callback. */
  function DataMemberAfter(s: string, id: Entry, sig: seq<Entry>, values: Option<seq<Value>>, env: Env): string
  {
    var begun := s + ",\n\"data\": [";
    (if values.Some? then begun + DataText(id, sig, values.value, Fragment(env)) else begun) + "]"
  }

  /** The schema member, then the data member and the closing brace, growing the output `s`. */
  function BodyAfter(s: string, schema: Option<seq<Entry>>, id: Entry, sig: seq<Entry>, values: Option<seq<Value>>, env: Env): string
  {
    DataMemberAfter(SchemaMemberAfter(s, schema), id, sig, values, env) + "\n}\n"
  }

  /** Each member after the header only appends to the output. */
  lemma {:induction false} BodyGrows(s: string, schema: Option<seq<Entry>>, id: Entry, sig: seq<Entry>, values: Option<seq<Value>>, env: Env)
    ensures |s| <= |SchemaMemberAfter(s, schema)| <= |BodyAfter(s, schema, id, sig, values, env)|
  {
  }

  /** fivis_signals_format_request as it grows the output `s`, one append after the other. */
  function RequestAfter(s: string, partnerId: string, signalSetId: string, schema: Option<seq<Entry>>,
                        id: Entry, sig: seq<Entry>, values: Option<seq<Value>>, env: Env): string
  {
    BodyAfter(HeaderAfter(s, partnerId, signalSetId), schema, id, sig, values, env)
  }

  /** The appends of the request add up to the request text. */
  lemma {:induction false} RequestIsText(s: string, partnerId: string, signalSetId: string, schema: Option<seq<Entry>>,
                      id: Entry, sig: seq<Entry>, values: Option<seq<Value>>, env: Env)
    ensures RequestAfter(s, partnerId, signalSetId, schema, id, sig, values, env) ==
            s + RequestText(partnerId, signalSetId, schema, id, sig, values, env)
  {
    var h := HeaderText(partnerId, signalSetId);
    var b := SchemaBlock(schema);
    var d := DataBlock(id, sig, values, env);
    var header := HeaderAfter(s, partnerId, signalSetId);
    Assoc(s, "{\n", Put(PartnerMember(partnerId)));
    Assoc(s, "{\n" + Put(PartnerMember(partnerId)), Put(SignalSetMember(signalSetId)));
    assert header == s + h;
    var described := if schema.Some? then header + ",\n\"schema\": {\n" + Joined(TypeFragments(schema.value)) + "\n}" else header;
    if schema.Some? {
      var list := Joined(TypeFragments(schema.value));
      Assoc(header, ",\n\"schema\": {\n", list);
      Assoc(header, ",\n\"schema\": {\n" + list, "\n}");
    } else {
      AppendNothing(header);
    }
    assert described == header + b == SchemaMemberAfter(header, schema);
    Assoc(s, h, b);
    var open := ",\n\"data\": [";
    var text := if values.Some? then DataText(id, sig, values.value, Fragment(env)) else "";
    var filled := if values.Some? then described + open + text else described + open;
    if values.None? {
      AppendNothing(open);
      AppendNothing(described + open);
    }
    assert filled == described + open + text;
    Assoc(described, open, text);
    Assoc(described, open + text, "]");
    Assoc(described, open + text + "]", "\n}\n");
    assert filled + "]" == DataMemberAfter(described, id, sig, values, env);
    assert filled + "]" + "\n}\n" == described + d;
    Assoc(s, h + b, d);
  }

  /**
   * Giving a schema inserts exactly the schema block between the header and
   * the data, and changes nothing else; without one the request is just the
   * header and the data.
   */
  lemma {:induction false} SchemaOnlyInserts(partnerId: string, signalSetId: string, es: seq<Entry>,
                          id: Entry, sig: seq<Entry>, values: Option<seq<Value>>, env: Env)
    ensures var h := HeaderText(partnerId, signalSetId); var d := DataBlock(id, sig, values, env);
      && RequestText(partnerId, signalSetId, None, id, sig, values, env) == h + d
      && RequestText(partnerId, signalSetId, Some(es), id, sig, values, env) ==
         h + ",\n\"schema\": {\n" + Joined(TypeFragments(es)) + "\n}" + d
  {
    var h := HeaderText(partnerId, signalSetId);
    var list := Joined(TypeFragments(es));
    AppendNothing(h);
    Assoc(h, ",\n\"schema\": {\n", list);
    Assoc(h, ",\n\"schema\": {\n" + list, "\n}");
  }

  /** Without a `next_value` callback the data member is the empty array `[]`. */
  lemma {:induction false} NoCallbackNoData(partnerId: string, signalSetId: string, schema: Option<seq<Entry>>,
                         id: Entry, sig: seq<Entry>, env: Env)
    ensures var r := RequestText(partnerId, signalSetId, schema, id, sig, None, env);
      var tail := ",\n\"data\": []\n}\n";
      |r| >= |tail| && r[|r| - |tail|..] == tail
  {
    var r := RequestText(partnerId, signalSetId, schema, id, sig, None, env);
    var tail := ",\n\"data\": []\n}\n";
    assert DataBlock(id, sig, None, env) == tail;
    assert r == HeaderText(partnerId, signalSetId) + SchemaBlock(schema) + tail;
  }

  /**
   * The header spelled out as one literal with the ids in their places, when
   * both id members can be formatted (an id member too long for `vsnprintf`
   * is missing from the header).
   */
  lemma {:induction false} HeaderLiteral(partnerId: string, signalSetId: string)
    ensures |PartnerMember(partnerId)| <= INT_MAX && |SignalSetMember(signalSetId)| <= INT_MAX ==>
            HeaderText(partnerId, signalSetId) ==
            "{\n\"partnerId\": \"" + partnerId + "\",\n\"signalSetId\": \"" + signalSetId + "\""
  {
    if |PartnerMember(partnerId)| <= INT_MAX && |SignalSetMember(signalSetId)| <= INT_MAX {
      assert Put(PartnerMember(partnerId)) == PartnerMember(partnerId);
      assert Put(SignalSetMember(signalSetId)) == SignalSetMember(signalSetId);
      assert HeaderText(partnerId, signalSetId) == "{\n" + PartnerMember(partnerId) + SignalSetMember(signalSetId);
      MembersSpelled(partnerId, signalSetId);
    }
  }

  lemma {:induction false} MembersSpelled(partnerId: string, signalSetId: string)
    ensures "{\n" + PartnerMember(partnerId) + SignalSetMember(signalSetId) ==
            "{\n\"partnerId\": \"" + partnerId + "\",\n\"signalSetId\": \"" + signalSetId + "\""
  {
  }

  /** Every request opens with `{`, then the two id members whenever they can be formatted, whatever follows. */
  lemma {:induction false} RequestOpens(partnerId: string, signalSetId: string, schema: Option<seq<Entry>>,
                     id: Entry, sig: seq<Entry>, values: Option<seq<Value>>, env: Env)
    ensures "{\n" <= RequestText(partnerId, signalSetId, schema, id, sig, values, env)
    ensures |PartnerMember(partnerId)| <= INT_MAX && |SignalSetMember(signalSetId)| <= INT_MAX ==>
            "{\n\"partnerId\": \"" + partnerId + "\",\n\"signalSetId\": \"" + signalSetId + "\""
            <= RequestText(partnerId, signalSetId, schema, id, sig, values, env)
  {
    var h := HeaderText(partnerId, signalSetId);
    var r := RequestText(partnerId, signalSetId, schema, id, sig, values, env);
    HeaderLiteral(partnerId, signalSetId);
    Assoc(h, SchemaBlock(schema), DataBlock(id, sig, values, env));
    assert r == h + (SchemaBlock(schema) + DataBlock(id, sig, values, env));
    assert "{\n" <= h;
  }

  /** Every request closes the document with `\n}\n`. */
  lemma {:induction false} RequestCloses(partnerId: string, signalSetId: string, schema: Option<seq<Entry>>,
                      id: Entry, sig: seq<Entry>, values: Option<seq<Value>>, env: Env)
    ensures var r := RequestText(partnerId, signalSetId, schema, id, sig, values, env);
      |r| >= 3 && r[|r| - 3..] == "\n}\n"
  {
    var r := RequestText(partnerId, signalSetId, schema, id, sig, values, env);
    var d := DataBlock(id, sig, values, env);
    assert r == HeaderText(partnerId, signalSetId) + SchemaBlock(schema) + d;
    assert d[|d| - 3..] == "\n}\n";
    assert r[|r| - 3..] == d[|d| - 3..];
  }

  // ------------------------------------------------------- the serialiser

  /** sbuf_append of one of the literal pieces of the request: the contents grow by exactly the piece. */
  method Emit(output: SBuf, piece: string)
    requires output.Valid() && |piece| <= INT_MAX && output.Room(piece)
    modifies output, output.data
    ensures output.Valid() && output.contents == old(output.contents) + piece
    ensures output.data == old(output.data) || fresh(output.data)
  {
    var _ := output.Append(piece);
  }

  /** format_schema over the list of `schema`, walking its links as the C code does. */
  method FormatSchema(arena: IntrusiveList.Arena, schema: nat, entryOf: map<nat, Entry>, output: SBuf)
    requires arena.Valid() && schema in arena.Lists && Listed(arena.Lists[schema], entryOf)
    requires TypesFit(EntriesAt(arena.Lists[schema], entryOf))
    requires output.Valid() && output.Room(Joined(TypeFragments(EntriesAt(arena.Lists[schema], entryOf))))
    modifies output, output.data
    ensures output.Valid()
    ensures output.contents == old(output.contents) + Joined(TypeFragments(EntriesAt(arena.Lists[schema], entryOf)))
    ensures output.data == old(output.data) || fresh(output.data)
  {
    ghost var s := arena.Lists[schema];
    ghost var es := EntriesAt(s, entryOf);
    SchemaIsJoin(output.contents, TypeFragments(es));
    var empty := arena.IsEmpty(schema);
    if !empty {
      arena.RingOf(schema);
      SchemaWalk(arena.next, schema, s, arena.prev[..], es, entryOf, output);
    }
  }

  /** The loop of format_schema over a non-empty list `s`, linked by `next` behind `head`. */
  method SchemaWalk(next: array<nat>, head: nat, ghost s: seq<nat>, ghost pv: seq<nat>, ghost es: seq<Entry>,
                    entryOf: map<nat, Entry>, output: SBuf)
    requires Walkable(next[..], pv, head, s, entryOf, es) && s != [] && TypesFit(es)
    requires output.Valid() && Fits(SchemaAfter(output.contents, TypeFragments(es), |es|))
    modifies output, output.data
    ensures output.Valid() && output.contents == SchemaAfter(old(output.contents), TypeFragments(es), |es|)
    ensures output.data == old(output.data) || fresh(output.data)
  {
    ghost var base := output.contents;
    var first := SchemaFirst(next, head, s, pv, es, entryOf, output);
    SchemaLoop(next, head, s, pv, es, entryOf, first, base, output);
  }

  /** format_schema's loop, after the first entry: ", " and the next type fragment until the link leads back to the head. */
  method SchemaLoop(next: array<nat>, head: nat, ghost s: seq<nat>, ghost pv: seq<nat>, ghost es: seq<Entry>,
                    entryOf: map<nat, Entry>, first: nat, ghost base: string, output: SBuf)
    requires Walkable(next[..], pv, head, s, entryOf, es) && s != [] && first == s[0] && TypesFit(es)
    requires output.Valid() && output.contents == SchemaAfter(base, TypeFragments(es), 1)
    requires Fits(SchemaAfter(base, TypeFragments(es), |es|))
    modifies output, output.data
    ensures output.Valid() && output.contents == SchemaAfter(base, TypeFragments(es), |es|)
    ensures output.data == old(output.data) || fresh(output.data)
  {
    ghost var nx := next[..];
    var other := first;
    ghost var j := 0;
    while next[other] != head
      invariant j < |s| && other == s[j]
      invariant output.Valid() && output.contents == SchemaAfter(base, TypeFragments(es), j + 1)
      invariant output.data == old(output.data) || fresh(output.data)
      decreases |s| - j
    {
      other := SchemaStep(next, head, s, pv, es, entryOf, other, j, base, output);
      j := j + 1;
    }
    WalkEnds(nx, pv, head, s, entryOf, es, j);
  }

  /** From item `s[j]`, whose link does not lead back to the head: the next item, and its part j + 1 of the schema. */
  method SchemaStep(next: array<nat>, head: nat, ghost s: seq<nat>, ghost pv: seq<nat>, ghost es: seq<Entry>,
                    entryOf: map<nat, Entry>, other: nat, ghost j: nat, ghost base: string, output: SBuf)
    returns (item: nat)
    requires Walkable(next[..], pv, head, s, entryOf, es) && TypesFit(es)
    requires j < |s| && other == s[j] && next[other] != head
    requires output.Valid() && output.contents == SchemaAfter(base, TypeFragments(es), j + 1)
    requires Fits(SchemaAfter(base, TypeFragments(es), |es|))
    modifies output, output.data
    ensures j + 1 < |s| && item == s[j + 1]
    ensures output.Valid() && output.contents == SchemaAfter(base, TypeFragments(es), j + 2)
    ensures output.data == old(output.data) || fresh(output.data)
  {
    IntrusiveList.RingStep(next[..], pv, head, s, j);
    item := next[other];
    SchemaItem(entryOf[item], es, j, base, output);
  }

  /** A walk reaches the head again only from the last item of the list. */
  lemma {:induction false} WalkEnds(nx: seq<nat>, pv: seq<nat>, head: nat, s: seq<nat>, entryOf: map<nat, Entry>, es: seq<Entry>, j: nat)
    requires Walkable(nx, pv, head, s, entryOf, es) && j < |s| && s[j] < |nx| && nx[s[j]] == head
    ensures j + 1 == |es|
  {
    IntrusiveList.RingStep(nx, pv, head, s, j);
  }

  /** Before format_schema's loop: the type fragment of the first entry `e`, part 0. */
  method SchemaFirst(next: array<nat>, head: nat, ghost s: seq<nat>, ghost pv: seq<nat>, ghost es: seq<Entry>,
                     entryOf: map<nat, Entry>, output: SBuf)
    returns (first: nat)
    requires Walkable(next[..], pv, head, s, entryOf, es) && s != [] && TypesFit(es)
    requires output.Valid() && Fits(SchemaAfter(output.contents, TypeFragments(es), |es|))
    modifies output, output.data
    ensures first == s[0]
    ensures output.Valid() && output.contents == SchemaAfter(old(output.contents), TypeFragments(es), 1)
    ensures output.data == old(output.data) || fresh(output.data)
  {
    SchemaGrows(output.contents, TypeFragments(es), 1, |es|);
    TypeFragmentAt(es, 0);
    first := next[head];
    var ok := FormatType(entryOf[first], output);
    assert ok;
  }

  /** One turn of format_schema's loop: ", " and the type fragment of the next entry `e`, part j + 1. */
  method SchemaItem(e: Entry, ghost es: seq<Entry>, ghost j: nat, ghost base: string, output: SBuf)
    requires j + 1 < |es| && es[j + 1] == e && TypesFit(es)
    requires output.Valid() && output.contents == SchemaAfter(base, TypeFragments(es), j + 1)
    requires Fits(SchemaAfter(base, TypeFragments(es), |es|))
    modifies output, output.data
    ensures output.Valid() && output.contents == SchemaAfter(base, TypeFragments(es), j + 2)
    ensures output.data == old(output.data) || fresh(output.data)
  {
    SchemaGrows(base, TypeFragments(es), j + 2, |es|);
    TypeFragmentAt(es, j + 1);
    assert Put(TypeText(NameOf(e), e.formatType)) == TypeFragments(es)[j + 1];
    Emit(output, ", ");
    var ok := FormatType(e, output);
    assert ok;
  }

  /**
   * format_data: pulls values from the cursor until it yields NULL and
   * appends the data part of the values it had left.
   */
  method FormatData(id: Entry, arena: IntrusiveList.Arena, signals: Option<nat>, entryOf: map<nat, Entry>,
                    cursor: Cursor, env: Env, output: SBuf)
    requires arena.Valid() && ListArg(arena, signals, entryOf)
    requires cursor.Valid() && output.Valid()
    requires output.Room(DataText(id, SignalEntries(arena, signals, entryOf), cursor.values[cursor.pos..], Fragment(env)))
    modifies output, output.data, cursor
    ensures cursor.Valid() && cursor.pos == |cursor.values|
    ensures output.Valid()
    ensures output.contents == old(output.contents) +
      DataText(id, SignalEntries(arena, signals, entryOf), old(cursor.values[cursor.pos..]), Fragment(env))
    ensures output.data == old(output.data) || fresh(output.data)
  {
    ghost var sig := SignalEntries(arena, signals, entryOf);
    DataIsText(output.contents, id, sig, cursor.values, cursor.pos, Fragment(env));
    if signals.Some? {
      arena.RingOf(signals.value);
    }
    var head := if signals.Some? then signals.value else 0;
    ghost var s := if signals.Some? then arena.Lists[head] else [];
    ghost var frag := Fragment(env);
    assert RendersAs(frag, env) by {
      forall e: Entry, v: Value ensures frag(e, v) == Put(ValueText(NameOf(e), e.formatValue, v, env)) {}
    }
    DataWalk(id, arena.next, signals.Some?, head, s, arena.prev[..], sig, entryOf, cursor, env, frag, output);
  }

  /** The loop of format_data: a record for each value the cursor yields, until it yields NULL. */
  method DataWalk(id: Entry, next: array<nat>, hasSignals: bool, head: nat, ghost s: seq<nat>, ghost pv: seq<nat>,
                  ghost sig: seq<Entry>, entryOf: map<nat, Entry>, cursor: Cursor, env: Env, ghost frag: Formatter, output: SBuf)
    requires RendersAs(frag, env)
    requires hasSignals ==> Walkable(next[..], pv, head, s, entryOf, sig)
    requires !hasSignals ==> sig == []
    requires cursor.Valid() && output.Valid()
    requires Fits(Data(output.contents, id, sig, cursor.values, cursor.pos, frag))
    modifies output, output.data, cursor
    ensures cursor.Valid() && cursor.pos == |cursor.values|
    ensures output.Valid() && output.contents == Data(old(output.contents), id, sig, cursor.values, old(cursor.pos), frag)
    ensures output.data == old(output.data) || fresh(output.data)
  {
    ghost var target := Data(output.contents, id, sig, cursor.values, cursor.pos, frag);
    var value := cursor.Next();
    while value.Some?
      invariant cursor.Valid() && output.Valid() && Fits(target)
      invariant output.data == old(output.data) || fresh(output.data)
      invariant value.Some? ==> 0 < cursor.pos && value.value == cursor.values[cursor.pos - 1]
                                && Records(output.contents, id, sig, cursor.values, cursor.pos - 1, frag) == target
      invariant value.None? ==> cursor.pos == |cursor.values| && output.contents == target
      decreases |cursor.values| - cursor.pos + (if value.Some? then 1 else 0)
    {
      value := DataRecord(id, next, hasSignals, head, s, pv, sig, entryOf, value.value, cursor, env, frag, output, target);
    }
  }

  /**
   * One turn of format_data's loop for the value `v` just pulled: the record
   * it opens, its fields, and the closing pull that decides how it ends.
   */
  method DataRecord(id: Entry, next: array<nat>, hasSignals: bool, head: nat, ghost s: seq<nat>, ghost pv: seq<nat>,
                    ghost sig: seq<Entry>, entryOf: map<nat, Entry>, v: Value, cursor: Cursor, env: Env, ghost frag: Formatter,
                    output: SBuf, ghost target: string)
    returns (value: Option<Value>)
    requires RendersAs(frag, env)
    requires hasSignals ==> Walkable(next[..], pv, head, s, entryOf, sig)
    requires !hasSignals ==> sig == []
    requires cursor.Valid() && 0 < cursor.pos && v == cursor.values[cursor.pos - 1]
    requires output.Valid() && Fits(target)
    requires Records(output.contents, id, sig, cursor.values, cursor.pos - 1, frag) == target
    modifies output, output.data, cursor
    ensures cursor.Valid() && output.Valid()
    ensures output.data == old(output.data) || fresh(output.data)
    ensures value.Some? ==> old(cursor.pos) < cursor.pos && value.value == cursor.values[cursor.pos - 1]
                            && Records(output.contents, id, sig, cursor.values, cursor.pos - 1, frag) == target
    ensures value.None? ==> cursor.pos == |cursor.values| && output.contents == target
  {
    ghost var values := cursor.values;
    ghost var p := cursor.pos;
    ghost var body := Fields(output.contents + "\n{ " + frag(id, v), sig, values, p, |sig|, frag);
    RecordPlan(output.contents, id, sig, values, p, frag);
    OpenRecord(id, v, env, frag, output);
    value := RecordRest(next, hasSignals, head, s, pv, sig, entryOf, cursor, env, frag, output, body);
  }

  /** The fields of a record already opened, and its closing pull: `body` is the text they leave before the closing. */
  method RecordRest(next: array<nat>, hasSignals: bool, head: nat, ghost s: seq<nat>, ghost pv: seq<nat>,
                    ghost sig: seq<Entry>, entryOf: map<nat, Entry>, cursor: Cursor, env: Env, ghost frag: Formatter,
                    output: SBuf, ghost body: string)
    returns (value: Option<Value>)
    requires RendersAs(frag, env)
    requires hasSignals ==> Walkable(next[..], pv, head, s, entryOf, sig)
    requires !hasSignals ==> sig == []
    requires cursor.Valid() && output.Valid()
    requires body == Fields(output.contents, sig, cursor.values, cursor.pos, |sig|, frag)
    requires Fits(body) && |body| + 3 + 64 < SIZE_MOD
    modifies output, output.data, cursor
    ensures cursor.Valid() && output.Valid()
    ensures output.data == old(output.data) || fresh(output.data)
    ensures var stop := Min(old(cursor.pos) + |sig|, |cursor.values|);
      && (stop < |cursor.values| ==>
            value == Some(cursor.values[stop]) && cursor.pos == stop + 1 && output.contents == body + " },")
      && (stop == |cursor.values| ==>
            value == None && cursor.pos == stop && output.contents == body + " }\n")
  {
    if hasSignals {
      RecordWalk(next, head, s, pv, sig, entryOf, cursor, env, frag, output);
    }
    value := CloseRecord(cursor, output);
  }

  /** The start of a record: `\n{ ` and the id signal's fragment of the value `v`. */
  method OpenRecord(id: Entry, v: Value, env: Env, ghost frag: Formatter, output: SBuf)
    requires RendersAs(frag, env)
    requires output.Valid() && Fits(output.contents + "\n{ " + frag(id, v))
    modifies output, output.data
    ensures output.Valid() && output.contents == old(output.contents) + "\n{ " + frag(id, v)
    ensures output.data == old(output.data) || fresh(output.data)
  {
    Emit(output, "\n{ ");
    var _ := FormatValue(id, v, env, output);
    assert frag(id, v) == Put(ValueText(NameOf(id), id.formatValue, v, env));
  }

  /** The closing pull of a record: another value closes it with ` },`, none with ` }\n`. */
  method CloseRecord(cursor: Cursor, output: SBuf) returns (value: Option<Value>)
    requires cursor.Valid() && output.Valid() && |output.contents| + 3 + 64 < SIZE_MOD
    modifies output, output.data, cursor
    ensures cursor.Valid() && output.Valid()
    ensures output.data == old(output.data) || fresh(output.data)
    ensures old(cursor.pos) < |cursor.values| ==>
      value == Some(cursor.values[old(cursor.pos)]) && cursor.pos == old(cursor.pos) + 1 &&
      output.contents == old(output.contents) + " },"
    ensures old(cursor.pos) == |cursor.values| ==>
      value == None && cursor.pos == old(cursor.pos) && output.contents == old(output.contents) + " }\n"
  {
    value := cursor.Next();
    if value.Some? {
      Emit(output, " },");
    } else {
      Emit(output, " }\n");
    }
  }

  /** list_for_each_item over the signals within a record: one pull, and the field if it yields a value, per signal. */
  method RecordWalk(next: array<nat>, head: nat, ghost s: seq<nat>, ghost pv: seq<nat>, ghost sig: seq<Entry>,
                    entryOf: map<nat, Entry>, cursor: Cursor, env: Env, ghost frag: Formatter, output: SBuf)
    requires RendersAs(frag, env)
    requires Walkable(next[..], pv, head, s, entryOf, sig)
    requires cursor.Valid() && output.Valid()
    requires Fits(Fields(output.contents, sig, cursor.values, cursor.pos, |sig|, frag))
    modifies output, output.data, cursor
    ensures cursor.Valid() && cursor.pos == Min(old(cursor.pos) + |sig|, |cursor.values|)
    ensures output.Valid() && output.contents == Fields(old(output.contents), sig, cursor.values, old(cursor.pos), |sig|, frag)
    ensures output.data == old(output.data) || fresh(output.data)
  {
    ghost var start := output.contents;
    ghost var p := cursor.pos;
    var curr := next[head];
    ghost var j := 0;
    while curr != head
      invariant j <= |s| && curr == (if j < |s| then s[j] else head)
      invariant cursor.Valid() && cursor.pos == Min(p + j, |cursor.values|)
      invariant output.Valid() && output.contents == Fields(start, sig, cursor.values, p, j, frag)
      invariant output.data == old(output.data) || fresh(output.data)
      decreases |s| - j
    {
      IntrusiveList.RingStep(next[..], pv, head, s, j);
      PullField(entryOf[curr], sig, j, cursor, env, frag, output, start, p);
      curr := next[curr];
      j := j + 1;
    }
  }

  /** One turn of the walk over the signals: pull a value and, if there is one, write the field of signal `j`. */
  method PullField(e: Entry, ghost sig: seq<Entry>, ghost j: nat, cursor: Cursor, env: Env, ghost frag: Formatter,
                   output: SBuf, ghost start: string, ghost p: nat)
    requires RendersAs(frag, env)
    requires j < |sig| && e == sig[j]
    requires cursor.Valid() && cursor.pos == Min(p + j, |cursor.values|)
    requires output.Valid() && output.contents == Fields(start, sig, cursor.values, p, j, frag)
    requires Fits(Fields(start, sig, cursor.values, p, |sig|, frag))
    modifies output, output.data, cursor
    ensures cursor.Valid() && cursor.pos == Min(p + j + 1, |cursor.values|)
    ensures output.Valid() && output.contents == Fields(start, sig, cursor.values, p, j + 1, frag)
    ensures output.data == old(output.data) || fresh(output.data)
  {
    FieldsGrow(start, sig, cursor.values, p, j + 1, |sig|, frag);
    var value := cursor.Next();
    if value.Some? {
      Emit(output, ", ");
      var _ := FormatValue(e, value.value, env, output);
      assert frag(e, value.value) == Put(ValueText(NameOf(e), e.formatValue, value.value, env));
    }
  }

  /**
   * fivis_signals_format_request: appends the request for the given ids, the
   * optional schema list, the id signal, the signals (a NULL list gives
   * records of the id alone) and the optional `next_value` cursor, and
   * returns the buffer's string.
   */
  method FormatRequest(partnerId: string, signalSetId: string, schema: Option<nat>, id: Entry,
                       arena: IntrusiveList.Arena, signals: Option<nat>, entryOf: map<nat, Entry>,
                       cursor: Cursor?, env: Env, output: SBuf) returns (r: string)
    requires arena.Valid() && ListArg(arena, schema, entryOf) && ListArg(arena, signals, entryOf)
    requires schema.Some? ==> TypesFit(EntriesAt(arena.Lists[schema.value], entryOf))
    requires cursor != null ==> cursor.Valid()
    requires output.Valid()
    requires output.Room(RequestText(partnerId, signalSetId, ListEntries(arena, schema, entryOf), id,
                                     SignalEntries(arena, signals, entryOf), Pending(cursor), env))
    modifies output, output.data, cursor
    ensures cursor != null ==> cursor.Valid() && cursor.pos == |cursor.values|
    ensures output.Valid() && r == output.contents
    ensures output.contents == old(output.contents) + RequestText(partnerId, signalSetId, ListEntries(arena, schema, entryOf), id,
                                                                  SignalEntries(arena, signals, entryOf), old(Pending(cursor)), env)
  {
    ghost var base := output.contents;
    ghost var es := ListEntries(arena, schema, entryOf);
    ghost var sig := SignalEntries(arena, signals, entryOf);
    ghost var values := Pending(cursor);
    RequestIsText(base, partnerId, signalSetId, es, id, sig, values, env);
    BodyGrows(HeaderAfter(base, partnerId, signalSetId), es, id, sig, values, env);
    FormatHeader(partnerId, signalSetId, output);
    FormatBody(arena, schema, id, signals, entryOf, cursor, env, output, es, sig, values);
    r := output.String();
  }

  /** The header of the request: the opening brace, then the two ids formatted with `%s`. */
  method FormatHeader(partnerId: string, signalSetId: string, output: SBuf)
    requires output.Valid() && Fits(HeaderAfter(output.contents, partnerId, signalSetId))
    modifies output, output.data
    ensures output.Valid() && output.contents == HeaderAfter(old(output.contents), partnerId, signalSetId)
    ensures output.data == old(output.data) || fresh(output.data)
  {
    Emit(output, "{\n");
    FormatMember(PartnerMember(partnerId), output);
    FormatMember(SignalSetMember(signalSetId), output);
  }

  /** sbuf_format of an id member: the member, or nothing when `vsnprintf` cannot report its length. */
  method FormatMember(member: string, output: SBuf)
    requires output.Valid() && output.Room(Put(member))
    modifies output, output.data
    ensures output.Valid() && output.contents == old(output.contents) + Put(member)
    ensures output.data == old(output.data) || fresh(output.data)
  {
    var _ := output.Format(Reported(member));
  }

  /**
   * What follows the header: the schema member, only when there is a schema
   * list, the data member and the closing brace. `es`, `sig` and `values`
   * name the schema entries, the signal entries and the pending values.
   */
  method FormatBody(arena: IntrusiveList.Arena, schema: Option<nat>, id: Entry, signals: Option<nat>, entryOf: map<nat, Entry>,
                    cursor: Cursor?, env: Env, output: SBuf,
                    ghost es: Option<seq<Entry>>, ghost sig: seq<Entry>, ghost values: Option<seq<Value>>)
    requires arena.Valid() && ListArg(arena, schema, entryOf) && ListArg(arena, signals, entryOf)
    requires cursor != null ==> cursor.Valid()
    requires es == ListEntries(arena, schema, entryOf) && sig == SignalEntries(arena, signals, entryOf) && values == Pending(cursor)
    requires es.Some? ==> TypesFit(es.value)
    requires output.Valid() && Fits(BodyAfter(output.contents, es, id, sig, values, env))
    modifies output, output.data, cursor
    ensures cursor != null ==> cursor.Valid() && cursor.pos == |cursor.values|
    ensures output.Valid() && output.contents == BodyAfter(old(output.contents), es, id, sig, values, env)
    ensures output.data == old(output.data) || fresh(output.data)
  {
    BodyGrows(output.contents, es, id, sig, values, env);
    FormatSchemaMember(arena, schema, entryOf, output, es);
    FormatTail(id, arena, signals, entryOf, cursor, env, output, sig, values);
  }

  /** The data member, then the closing brace of the request. */
  method FormatTail(id: Entry, arena: IntrusiveList.Arena, signals: Option<nat>, entryOf: map<nat, Entry>,
                    cursor: Cursor?, env: Env, output: SBuf, ghost sig: seq<Entry>, ghost values: Option<seq<Value>>)
    requires arena.Valid() && ListArg(arena, signals, entryOf)
    requires cursor != null ==> cursor.Valid()
    requires sig == SignalEntries(arena, signals, entryOf) && values == Pending(cursor)
    requires output.Valid() && Fits(DataMemberAfter(output.contents, id, sig, values, env) + "\n}\n")
    modifies output, output.data, cursor
    ensures cursor != null ==> cursor.Valid() && cursor.pos == |cursor.values|
    ensures output.Valid() && output.contents == DataMemberAfter(old(output.contents), id, sig, values, env) + "\n}\n"
    ensures output.data == old(output.data) || fresh(output.data)
  {
    FormatDataMember(id, arena, signals, entryOf, cursor, env, output, sig, values);
    Emit(output, "\n}\n");
  }

  /** The schema member of the request, only when there is a schema list. */
  method FormatSchemaMember(arena: IntrusiveList.Arena, schema: Option<nat>, entryOf: map<nat, Entry>, output: SBuf,
                            ghost es: Option<seq<Entry>>)
    requires arena.Valid() && ListArg(arena, schema, entryOf) && es == ListEntries(arena, schema, entryOf)
    requires es.Some? ==> TypesFit(es.value)
    requires output.Valid() && Fits(SchemaMemberAfter(output.contents, es))
    modifies output, output.data
    ensures output.Valid() && output.contents == SchemaMemberAfter(old(output.contents), es)
    ensures output.data == old(output.data) || fresh(output.data)
  {
    if schema.Some? {
      Emit(output, ",\n\"schema\": {\n");
      FormatSchema(arena, schema.value, entryOf, output);
      Emit(output, "\n}");
    }
  }

  /** The data member of the request: the records only when there is a `next_value` cursor. */
  method FormatDataMember(id: Entry, arena: IntrusiveList.Arena, signals: Option<nat>, entryOf: map<nat, Entry>,
                          cursor: Cursor?, env: Env, output: SBuf, ghost sig: seq<Entry>, ghost values: Option<seq<Value>>)
    requires arena.Valid() && ListArg(arena, signals, entryOf)
    requires cursor != null ==> cursor.Valid()
    requires sig == SignalEntries(arena, signals, entryOf) && values == Pending(cursor)
    requires output.Valid() && Fits(DataMemberAfter(output.contents, id, sig, values, env))
    modifies output, output.data, cursor
    ensures cursor != null ==> cursor.Valid() && cursor.pos == |cursor.values|
    ensures output.Valid() && output.contents == DataMemberAfter(old(output.contents), id, sig, values, env)
    ensures output.data == old(output.data) || fresh(output.data)
  {
    Emit(output, ",\n\"data\": [");
    if cursor != null {
      FormatData(id, arena, signals, entryOf, cursor, env, output);
    }
    Emit(output, "]");
  }

  // -------------------------------------------------------- classification

  /**
   * The result of fivis_signals_perform_request from what curl reports:
   * setting the POST data, setting its size (only attempted for a non-empty
   * body, `None` otherwise), the transfer, and the response code.
   */
  function Classify(setData: CurlCode, setSize: Option<CurlCode>, perform: CurlCode, responseCode: int): FivisResult
  {
    if setData != CurleOk then ErrRequest
    else if setSize.Some? && setSize.value != CurleOk then ErrRequest
    else if perform != CurleOk then
      match perform
      case CouldntResolveProxy => ErrNetwork
      case CouldntResolveHost => ErrNetwork
      case CouldntConnect => ErrNetwork
      case HttpReturnedError => ErrServer
      case _ => ErrGeneral
    else if 300 <= responseCode < 400 then ErrLocation
    else Ok
  }

  /** The curl steps a request of `size` bytes goes through, with the size option set only when size > 0. */
  function PerformRequest(size: nat, setData: CurlCode, setSize: CurlCode, perform: CurlCode, responseCode: int): (r: FivisResult)
    ensures size == 0 ==> r == Classify(setData, None, perform, responseCode)
    ensures size > 0 ==> r == Classify(setData, Some(setSize), perform, responseCode)
  {
    Classify(setData, if size > 0 then Some(setSize) else None, perform, responseCode)
  }

  /**
   * The classification, case by case: a request error exactly when an option
   * cannot be set; otherwise a network error exactly for the three
   * resolve/connect failures, a server error for an HTTP error, a general
   * error for any other failure; a location error for a 3xx response of a
   * transfer that succeeded; and OK for everything else.
   */
  lemma {:induction false} ClassifyCases(setData: CurlCode, setSize: Option<CurlCode>, perform: CurlCode, responseCode: int)
    ensures var r := Classify(setData, setSize, perform, responseCode);
      var optionsSet := setData == CurleOk && (setSize.Some? ==> setSize.value == CurleOk);
      && (r == ErrRequest <==> !optionsSet)
      && (r == ErrNetwork <==> optionsSet && perform in {CouldntResolveProxy, CouldntResolveHost, CouldntConnect})
      && (r == ErrServer <==> optionsSet && perform == HttpReturnedError)
      && (r == ErrGeneral <==> optionsSet && perform == OtherError)
      && (r == ErrLocation <==> optionsSet && perform == CurleOk && 300 <= responseCode < 400)
      && (r == Ok <==> optionsSet && perform == CurleOk && !(300 <= responseCode < 400))
  {
  }
}
