/**
 * cpumon_next_value: the `next_value` callback that streams a batch of
 * samples into the request, one value per call: for each sample in list
 * order its `id` value, its `ts` value and then each of its time values;
 * after the last one, NULL on every call. The callback's state,
 * `struct next_value_state`, is a class; the batch list is the sequence of
 * the samples it holds, in list order, and `next_value`, a pointer into one
 * of them, is a `Slot`.
 */
module NextValue {

  import opened Util
  import opened Entries

  /** A sample of the batch as the callback reads it. */
  datatype Record = Record(id: Value, ts: Value, times: seq<Value>)

  /** Where `next_value` points: a value of the sample at a batch position, or NULL. */
  datatype Slot = IdOf(s: nat) | TsOf(s: nat) | TimeOf(s: nat, k: nat) | Null

  /** The samples of a batch all hold `count` time values. */
  predicate Uniform(batch: seq<Record>, count: nat)
  {
    forall j :: 0 <= j < |batch| ==> |batch[j].times| == count
  }

  /** The values one sample contributes, in the order they are yielded. */
  function Row(r: Record): seq<Value>
  {
    [r.id, r.ts] + r.times
  }

  /** Every value of the batch, sample after sample. */
  function Flatten(batch: seq<Record>): seq<Value>
  {
    if batch == [] then [] else Flatten(batch[..|batch| - 1]) + Row(batch[|batch| - 1])
  }

  /** The values of the first `j` samples come first. */
  lemma {:induction false} FlattenPrefix(batch: seq<Record>, j: nat)
    requires j <= |batch|
    ensures Flatten(batch[..j]) <= Flatten(batch)
    decreases |batch| - j
  {
    if j < |batch| {
      FlattenPrefix(batch, j + 1);
      assert batch[..j + 1][..j] == batch[..j];
      assert Flatten(batch[..j + 1]) == Flatten(batch[..j]) + Row(batch[j]);
    } else {
      assert batch[..j] == batch;
    }
  }

  /** The k-th value of sample j sits right after the values of the samples before it. */
  lemma {:induction false} FlattenAt(batch: seq<Record>, j: nat, k: nat)
    requires j < |batch| && k < |batch[j].times| + 2
    ensures |Flatten(batch[..j])| + k < |Flatten(batch)|
    ensures Flatten(batch)[|Flatten(batch[..j])| + k] == Row(batch[j])[k]
  {
    FlattenPrefix(batch, j + 1);
    assert batch[..j + 1][..j] == batch[..j];
    assert Flatten(batch[..j + 1]) == Flatten(batch[..j]) + Row(batch[j]);
  }

  /** The values of the first j + 1 samples: those of the first j, then the row of sample j. */
  lemma {:induction false} FlattenStep(batch: seq<Record>, j: nat)
    requires j < |batch|
    ensures |Flatten(batch[..j + 1])| == |Flatten(batch[..j])| + |batch[j].times| + 2
  {
    assert batch[..j + 1][..j] == batch[..j];
  }

  /** A batch of K samples with M time values each yields K * (M + 2) values. */
  lemma {:induction false} FlattenLength(batch: seq<Record>, count: nat)
    requires Uniform(batch, count)
    ensures |Flatten(batch)| == |batch| * (count + 2)
  {
    if batch != [] {
      var before := batch[..|batch| - 1];
      assert Uniform(before, count);
      FlattenLength(before, count);
      assert |Flatten(batch)| == |before| * (count + 2) + (count + 2);
    }
  }

  /**
   * Where the pointers of the callback stand after `pos` values of the batch:
   * nowhere before the first call; on the id of sample j not yet served, on
   * its ts, on one of its time values (with `next_index` one past it), or,
   * after the last value of the last sample, on NULL.
   */
  ghost predicate At(batch: seq<Record>, count: nat, sample: Option<nat>, slot: Slot, index: nat, pos: nat)
  {
    && Uniform(batch, count)
    && (sample.None? ==> pos == 0 && slot == Null)
    && (sample.Some? ==>
          var j := sample.value;
          && j < |batch|
          && var before := |Flatten(batch[..j])|;
          match slot
          case IdOf(s) => s == j && pos == before
          case TsOf(s) => s == j && index == 0 && pos == before + 1
          case TimeOf(s, k) => s == j && k < count && index == k + 1 && pos == before + 2 + k
          case Null => j == |batch| - 1 && index == count && pos == before + 2 + count)
  }

  /** The value a slot points at; NULL points at none. */
  function Deref(batch: seq<Record>, slot: Slot): Option<Value>
    requires slot != Null ==> slot.s < |batch|
    requires slot.TimeOf? ==> slot.k < |batch[slot.s].times|
  {
    match slot
    case IdOf(s) => Some(batch[s].id)
    case TsOf(s) => Some(batch[s].ts)
    case TimeOf(s, k) => Some(batch[s].times[k])
    case Null => None
  }

  /** The first call finds the first sample and points at its id. */
  lemma {:induction false} Begin(batch: seq<Record>, count: nat, index: nat)
    requires Uniform(batch, count) && batch != []
    ensures At(batch, count, Some(0), IdOf(0), index, 0)
  {
    assert batch[..0] == [];
  }

  /** Serving the id of sample j: it is value `pos` of the batch, and ts is next. */
  lemma {:induction false} ServeId(batch: seq<Record>, count: nat, j: nat, index: nat, pos: nat)
    requires At(batch, count, Some(j), IdOf(j), index, pos)
    ensures pos < |Flatten(batch)| && Deref(batch, IdOf(j)) == Some(Flatten(batch)[pos])
    ensures At(batch, count, Some(j), TsOf(j), 0, pos + 1)
  {
    FlattenAt(batch, j, 0);
  }

  /** Serving the ts or a time value of sample j while time values remain: the next one follows. */
  lemma {:induction false} ServeTime(batch: seq<Record>, count: nat, j: nat, slot: Slot, index: nat, pos: nat)
    requires At(batch, count, Some(j), slot, index, pos) && slot != IdOf(j) && index < count
    ensures slot != Null && slot.s < |batch| && (slot.TimeOf? ==> slot.k < |batch[slot.s].times|)
    ensures pos < |Flatten(batch)| && Deref(batch, slot) == Some(Flatten(batch)[pos])
    ensures At(batch, count, Some(j), TimeOf(j, index), index + 1, pos + 1)
  {
    FlattenAt(batch, j, pos - |Flatten(batch[..j])|);
  }

  /** Serving the last value of a sample that has a successor: the successor's id is next. */
  lemma {:induction false} ServeLastOf(batch: seq<Record>, count: nat, j: nat, slot: Slot, index: nat, pos: nat)
    requires At(batch, count, Some(j), slot, index, pos) && slot != IdOf(j) && index >= count && j + 1 < |batch|
    ensures slot != Null && slot.s < |batch| && (slot.TimeOf? ==> slot.k < |batch[slot.s].times|)
    ensures pos < |Flatten(batch)| && Deref(batch, slot) == Some(Flatten(batch)[pos])
    ensures At(batch, count, Some(j + 1), IdOf(j + 1), index, pos + 1)
  {
    FlattenAt(batch, j, pos - |Flatten(batch[..j])|);
    FlattenStep(batch, j);
  }

  /** Serving the last value of the last sample: NULL is next. */
  lemma {:induction false} ServeFinal(batch: seq<Record>, count: nat, j: nat, slot: Slot, index: nat, pos: nat)
    requires At(batch, count, Some(j), slot, index, pos) && slot != IdOf(j) && index >= count
    requires j + 1 >= |batch| && slot != Null
    ensures slot.s < |batch| && (slot.TimeOf? ==> slot.k < |batch[slot.s].times|)
    ensures pos < |Flatten(batch)| && Deref(batch, slot) == Some(Flatten(batch)[pos])
    ensures At(batch, count, Some(j), Null, index, pos + 1)
  {
    FlattenAt(batch, j, pos - |Flatten(batch[..j])|);
  }

  /** Once NULL is reached, or when the batch is empty, every value has been served. */
  lemma {:induction false} Exhausted(batch: seq<Record>, count: nat, sample: Option<nat>, index: nat, pos: nat)
    requires At(batch, count, sample, Null, index, pos)
    requires sample.None? ==> batch == []
    ensures pos == |Flatten(batch)|
  {
    if sample.Some? {
      FlattenStep(batch, sample.value);
      assert batch[..sample.value + 1] == batch;
    }
  }

  /** struct next_value_state, over a batch that stays as it is while the request is formatted. */
  class State {
    /** The `samples` list. */
    const samples: seq<Record>
    /** value_count: the time values of each sample. */
    const valueCount: nat
    /** The current sample; NULL before the first call. */
    var sample: Option<nat>
    var nextValue: Slot
    var nextIndex: nat
    /** How many values have been yielded. */
    ghost var pos: nat

    ghost predicate Valid()
      reads this
    {
      At(samples, valueCount, sample, nextValue, nextIndex, pos)
    }

    /** main: the drained samples and the value count; the rest starts zeroed. */
    constructor (samples: seq<Record>, valueCount: nat)
      requires Uniform(samples, valueCount)
      ensures Valid() && this.samples == samples && this.valueCount == valueCount
      ensures sample == None && pos == 0
    {
      this.samples := samples;
      this.valueCount := valueCount;
      sample := None;
      nextValue := Null;
      nextIndex := 0;
      pos := 0;
    }

    /**
     * cpumon_next_value: serves the value `next_value` points at and moves
     * the pointer on. The values come out in the order of Flatten(samples),
     * one per call, and once they are used up every call gives NULL.
     */
    method Next() returns (v: Option<Value>)
      requires Valid()
      modifies this
      ensures Valid()
      ensures old(pos) < |Flatten(samples)| ==> v == Some(Flatten(samples)[old(pos)]) && pos == old(pos) + 1
      ensures old(pos) >= |Flatten(samples)| ==> v == None && pos == old(pos)
    {
      if sample.None? {
        if samples == [] {
          Exhausted(samples, valueCount, sample, nextIndex, pos);
          return None;
        }
        Begin(samples, valueCount, nextIndex);
        sample := Some(0);
        nextValue := IdOf(0);
      }
      var j := sample.value;
      var value := nextValue;
      if value == IdOf(j) {
        ServeId(samples, valueCount, j, nextIndex, pos);
        nextValue := TsOf(j);
        nextIndex := 0;
      } else if nextIndex < valueCount {
        ServeTime(samples, valueCount, j, value, nextIndex, pos);
        nextValue := TimeOf(j, nextIndex);
        nextIndex := nextIndex + 1;
      } else if j + 1 < |samples| {
        ServeLastOf(samples, valueCount, j, value, nextIndex, pos);
        sample := Some(j + 1);
        nextValue := IdOf(j + 1);
      } else if value != Null {
        ServeFinal(samples, valueCount, j, value, nextIndex, pos);
        nextValue := Null;
      } else {
        Exhausted(samples, valueCount, sample, nextIndex, pos);
      }
      v := Deref(samples, value);
      if value != Null {
        pos := pos + 1;
      }
    }
  }
}
