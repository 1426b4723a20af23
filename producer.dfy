/**
 * The sampling thread of cpumon (cpumon_main), one pass of its loop per
 * call. Sleeping, the real-time clock and the reading of `/proc/stat` are
 * inputs: the clock reading (None when clock_gettime fails) and the file
 * text (None when the read fails). A read of no bytes is retried like a
 * failed one. The mutex-protected regions are the
 * atomic methods of the pool; the wait for an empty sample ends the pass,
 * and `Wake` resumes it when the condition variable is signalled.
 */
module Producer {

  import opened Util
  import opened Entries
  import opened Samples
  import opened SamplePool
  import ProcStat

  /** How a pass of the loop ended. */
  datatype Outcome =
    | ClockFailed   // clock_gettime failed: retry
    | NotLater      // the clock did not move past the last accepted time: retry
    | ReadFailed    // /proc/stat could not be read, or read empty: retry
    | Blocked       // no empty sample: waiting on the condition variable
    | Terminated    // woken with the stop flag set: the thread ends
    | ShortParse    // fewer values than expected: retry, keeping the sample
    | Produced      // a delta sample was added to the full list

  class Cpumon {
    /** time_values_count: cpu lines times time columns. */
    const count: nat
    const pool: Pool
    /** The samples of the pool, by index. */
    const store: seq<Sample>
    /** last_sample[2]: the double buffer of raw readings. */
    const slots: seq<Sample>

    var lastTs: Timespec
    var lastIndex: nat
    var lastSample: Sample
    /** In the wait for an empty sample, with the time and text of the pass. */
    var waiting: bool
    var pendingTs: Timespec
    var pendingText: string
    /** The raw readings turned into samples so far. */
    ghost var raws: seq<seq<nat>>

    /** The fixed layout: 300 samples and two last-sample buffers, no array shared. */
    ghost predicate Shape()
    {
      && |store| == SAMPLE_COUNT && |slots| == 2
      && slots[0].times != slots[1].times
      && slots[0].times.Length == count && slots[1].times.Length == count
      && (forall i :: 0 <= i < |store| ==> store[i].times.Length == count)
      && (forall i :: 0 <= i < |store| ==> store[i].times != slots[0].times && store[i].times != slots[1].times)
      && (forall i, j :: 0 <= i < |store| && 0 <= j < |store| && i != j ==> store[i] != store[j] && store[i].times != store[j].times)
    }

    ghost predicate Valid()
      reads this, pool, lastSample.times
    {
      && Shape()
      && pool.Valid()
      && lastIndex < 2 && lastSample == slots[lastIndex]
      && Uniform(raws, count)
      && lastSample.times[..count] == Previous(raws, count)
      && (waiting ==> pool.held.None?)
    }

    /**
     * main allocates the two last-sample buffers and the pool; cpumon_main
     * starts from index 0, a zeroed last sample and time 0.
     */
    constructor (count: nat)
      ensures Valid() && !waiting
      ensures raws == [] && lastTs == Timespec(0, 0) && lastIndex == 0
      ensures pool.empty == Ids(SAMPLE_COUNT) && pool.full == [] && pool.held == None && pool.batch == []
    {
      this.count := count;
      var s0 := new Sample(count);
      var s1 := new Sample(count);
      slots := [s0, s1];
      var samples := Cpumon.Allocate(count, s0.times, s1.times);
      store := samples;
      pool := new Pool();
      lastTs := Timespec(0, 0);
      lastIndex := 0;
      lastSample := s0;
      waiting := false;
      pendingTs := Timespec(0, 0);
      pendingText := "";
      raws := [];
      new;
      assert Shape();
      ZeroTimes(lastSample, count);
      assert lastSample.times[..count] == Previous(raws, count);
    }

    /** main: the samples of the pool, each with room for `count` values. */
    static method Allocate(count: nat, a0: array<nat>, a1: array<nat>) returns (samples: seq<Sample>)
      ensures |samples| == SAMPLE_COUNT
      ensures forall k :: 0 <= k < |samples| ==> samples[k].times.Length == count
      ensures forall k :: 0 <= k < |samples| ==> samples[k].times != a0 && samples[k].times != a1
      ensures forall k, l :: 0 <= k < |samples| && 0 <= l < |samples| && k != l ==> samples[k] != samples[l] && samples[k].times != samples[l].times
    {
      samples := [];
      var i := 0;
      while i < SAMPLE_COUNT
        invariant |samples| == i <= SAMPLE_COUNT
        invariant forall k :: 0 <= k < i ==> samples[k].times.Length == count
        invariant forall k :: 0 <= k < i ==> samples[k].times != a0 && samples[k].times != a1
        invariant forall k, l :: 0 <= k < i && 0 <= l < i && k != l ==> samples[k] != samples[l] && samples[k].times != samples[l].times
      {
        var s := new Sample(count);
        samples := samples + [s];
        i := i + 1;
      }
    }

    /**
     * One pass of the loop of cpumon_main, from the sleep to the end of the
     * pass. The time is accepted only if it is strictly later than the last
     * accepted one, and it is recorded before the text is parsed.
     */
    method Cycle(clock: Option<Timespec>, text: Option<string>) returns (outcome: Outcome)
      requires Valid() && !waiting
      modifies this, pool, Target(), slots[0].times, slots[1].times
      ensures Valid()
      ensures clock.None? ==> outcome == ClockFailed && unchanged(this, pool)
      ensures clock.Some? && !Before(old(lastTs), clock.value) ==> outcome == NotLater && unchanged(this, pool)
      ensures clock.Some? && Before(old(lastTs), clock.value) && (text.None? || text.value == "") ==>
        outcome == ReadFailed && unchanged(this, pool)
      ensures clock.Some? && Before(old(lastTs), clock.value) && text.Some? && text.value != "" ==>
        lastTs == clock.value && outcome in {Blocked, ShortParse, Produced}
      ensures outcome == Blocked <==>
        clock.Some? && Before(old(lastTs), clock.value) && text.Some? && text.value != "" && old(pool.held).None? && old(pool.empty) == []
      ensures outcome == Blocked ==>
        waiting && pendingTs == clock.value && pendingText == text.value && raws == old(raws)
        && pool.empty == old(pool.empty) && pool.full == old(pool.full) && pool.held == old(pool.held)
      ensures outcome !in {ShortParse, Produced} ==> SamplesKept(None) && pool.batch == old(pool.batch)
      ensures outcome in {ShortParse, Produced} ==>
        && !waiting
        && pool.empty == (if old(pool.held).Some? then old(pool.empty) else old(pool.empty)[1..])
        && Filled(if old(pool.held).Some? then old(pool.held).value else old(pool.empty)[0], clock.value, text.value, outcome)
    {
      if clock.None? {
        return ClockFailed;
      }
      var ts := clock.value;
      if Compare(lastTs, ts) >= 0 {
        return NotLater;
      }
      if text.None? || text.value == "" {
        return ReadFailed;
      }
      outcome := Accept(ts, text.value);
    }

    /** A pass whose time is later and whose text was read: the time is recorded, then the sample is filled. */
    method Accept(ts: Timespec, text: string) returns (outcome: Outcome)
      requires Valid() && !waiting
      modifies this, pool, Target(), slots[0].times, slots[1].times
      ensures Valid() && lastTs == ts && outcome in {Blocked, ShortParse, Produced}
      ensures outcome == Blocked <==> old(pool.held).None? && old(pool.empty) == []
      ensures outcome == Blocked ==>
        waiting && pendingTs == ts && pendingText == text && raws == old(raws)
        && pool.empty == old(pool.empty) && pool.full == old(pool.full) && pool.held == old(pool.held)
        && SamplesKept(None) && pool.batch == old(pool.batch)
      ensures outcome in {ShortParse, Produced} ==>
        && !waiting
        && pool.empty == (if old(pool.held).Some? then old(pool.empty) else old(pool.empty)[1..])
        && Filled(if old(pool.held).Some? then old(pool.held).value else old(pool.empty)[0], ts, text, outcome)
    {
      lastTs := ts;
      outcome := Proceed(ts, text);
    }

    /**
     * The rest of an accepted pass: the held sample is filled again; without
     * one, the first empty sample is taken, or the thread waits for one.
     */
    method Proceed(ts: Timespec, text: string) returns (outcome: Outcome)
      requires Valid() && !waiting
      modifies this, pool, Target(), slots[0].times, slots[1].times
      ensures Valid() && lastTs == old(lastTs)
      ensures old(pool.held).Some? ==>
        && !waiting && outcome in {ShortParse, Produced} && pool.empty == old(pool.empty)
        && Filled(old(pool.held).value, ts, text, outcome)
      ensures old(pool.held).None? && old(pool.empty) != [] ==>
        && !waiting && outcome in {ShortParse, Produced} && pool.empty == old(pool.empty)[1..]
        && Filled(old(pool.empty)[0], ts, text, outcome)
      ensures old(pool.held).None? && old(pool.empty) == [] ==>
        && outcome == Blocked && waiting && pendingTs == ts && pendingText == text && raws == old(raws)
        && pool.empty == old(pool.empty) && pool.full == old(pool.full) && pool.held == old(pool.held)
        && pool.batch == old(pool.batch) && SamplesKept(None)
    {
      if pool.held.Some? {
        HeldInRange();
        outcome := Fill(pool.held.value, ts, text);
      } else {
        outcome := Start(ts, text);
      }
    }

    /** Without a held sample: take the first empty one, or wait for one. */
    method Start(ts: Timespec, text: string) returns (outcome: Outcome)
      requires Valid() && !waiting && pool.held.None?
      modifies this, pool, Target(), slots[0].times, slots[1].times
      ensures Valid() && lastTs == old(lastTs)
      ensures old(pool.empty) != [] ==>
        && !waiting && outcome in {ShortParse, Produced} && pool.empty == old(pool.empty)[1..]
        && Filled(old(pool.empty)[0], ts, text, outcome)
      ensures old(pool.empty) == [] ==>
        && outcome == Blocked && waiting && pendingTs == ts && pendingText == text && raws == old(raws)
        && pool.empty == old(pool.empty) && pool.full == old(pool.full) && pool.held == old(pool.held)
        && pool.batch == old(pool.batch) && SamplesKept(None)
    {
      var r := pool.Acquire();
      if r.Waiting? {
        waiting, pendingTs, pendingText := true, ts, text;
        return Blocked;
      }
      HeldInRange();
      outcome := Fill(pool.held.value, ts, text);
    }

    /**
     * The condition variable was signalled while waiting for an empty
     * sample: a stop request ends the thread, otherwise the pass goes on
     * with the first empty sample and the time and text it had read, or
     * waits again.
     */
    method Wake(stop: bool) returns (outcome: Outcome)
      requires Valid() && waiting
      modifies this, pool, Target(), slots[0].times, slots[1].times
      ensures Valid()
      ensures stop ==> outcome == Terminated && unchanged(this)
      ensures !stop && old(pool.empty) == [] ==> outcome == Blocked && unchanged(this)
      ensures outcome in {Terminated, Blocked} ==>
        && pool.empty == old(pool.empty) && pool.full == old(pool.full) && pool.held == old(pool.held)
        && pool.batch == old(pool.batch) && SamplesKept(None)
      ensures !stop && old(pool.empty) != [] ==>
        && !waiting && outcome in {ShortParse, Produced} && pool.empty == old(pool.empty)[1..]
        && Filled(old(pool.empty)[0], old(pendingTs), old(pendingText), outcome)
    {
      var r := pool.Wake(stop);
      if r.Stopped? {
        return Terminated;
      } else if r.Waiting? {
        return Blocked;
      }
      waiting := false;
      HeldInRange();
      outcome := Fill(pool.held.value, pendingTs, pendingText);
    }

    /**
     * What filling sample h from `text` leaves: the sample carries the time
     * of the pass; after a short parse it is still held and nothing is
     * published; otherwise it holds the delta of the new reading against the
     * previous one and is last in the full list.
     */
    twostate predicate Filled(h: nat, ts: Timespec, text: string, outcome: Outcome)
      reads this, pool, set i | 0 <= i < |store| :: store[i], set i | 0 <= i < |store| :: store[i].times
    {
      && h < |store| && count <= store[h].times.Length
      && Uniform(old(raws), count)
      && store[h].id == ts && store[h].ts == ts
      && pool.batch == old(pool.batch)
      && (outcome == ShortParse <==> |ProcStat.Parse(text, 0, count)| != count)
      && (outcome == ShortParse ==> pool.held == Some(h) && pool.full == old(pool.full) && raws == old(raws))
      && (outcome == Produced ==>
            && pool.held == None && pool.full == old(pool.full) + [h]
            && raws == old(raws) + [ProcStat.Parse(text, 0, count)]
            && store[h].times[..count] == Delta(ProcStat.Parse(text, 0, count), Previous(old(raws), count)))
    }

    /** No sample of the pool but `h` (none at all when `h` is None) has changed its id, time or values. */
    twostate predicate SamplesKept(h: Option<nat>)
      reads this, set i | 0 <= i < |store| :: store[i], set i | 0 <= i < |store| :: store[i].times
    {
      forall i :: 0 <= i < |store| && h != Some(i) ==>
        && store[i].id == old(store[i].id) && store[i].ts == old(store[i].ts)
        && store[i].times[..] == old(store[i].times[..])
    }

    /** The sample a pass fills: the held one, otherwise the first empty one. */
    ghost function Chosen(): Option<nat>
      reads pool
    {
      if pool.held.Some? then pool.held else if pool.empty != [] then Some(pool.empty[0]) else None
    }

    /** What a pass may write among the samples of the pool: the chosen sample and its values, nothing else. */
    ghost function Target(): set<object>
      reads pool
    {
      var h := Chosen();
      if h.Some? && h.value < |store| then {store[h.value], store[h.value].times} else {}
    }

    lemma HeldInRange()
      requires pool.Valid() && pool.held.Some?
      ensures pool.held.value < SAMPLE_COUNT
    {
      Conservation(pool);
      assert pool.held.value in multiset(pool.empty + pool.full + pool.Held() + pool.batch);
    }

    /** Fill in the id and time of the held sample, parse, and publish a delta. */
    method Fill(h: nat, ts: Timespec, text: string) returns (outcome: Outcome)
      requires Valid() && !waiting && pool.held == Some(h) && h < |store|
      modifies this, pool, store[h], store[h].times, slots[0].times, slots[1].times
      ensures Valid() && !waiting
      ensures lastTs == old(lastTs) && pool.empty == old(pool.empty)
      ensures outcome in {ShortParse, Produced} && Filled(h, ts, text, outcome)
      ensures outcome == ShortParse ==> lastIndex == old(lastIndex)
      ensures outcome == Produced ==> lastIndex == 1 - old(lastIndex)
    {
      var sample := store[h];
      sample.id := ts;
      sample.ts := ts;
      var read := ProcStat.ParseTimes(text, count, sample.times);
      if read != count {
        return ShortParse;
      }
      Produce(h);
      outcome := Produced;
    }

    /** Take the delta of the filled sample and publish it. */
    method Produce(h: nat)
      requires Valid() && !waiting && pool.held == Some(h) && h < |store|
      modifies this, pool, store[h].times, slots[0].times, slots[1].times
      ensures Valid() && !waiting
      ensures lastTs == old(lastTs) && pool.empty == old(pool.empty)
      ensures pool.held == None && pool.full == old(pool.full) + [h] && pool.batch == old(pool.batch)
      ensures raws == old(raws) + [old(store[h].times[..count])]
      ensures store[h].times[..count] == Delta(old(store[h].times[..count]), Previous(old(raws), count))
      ensures lastIndex == 1 - old(lastIndex)
    {
      ghost var reading := store[h].times[..count];
      Snapshot(store[h]);
      pool.Publish();
      raws := raws + [reading];
    }

    /**
     * The double buffer: the other slot receives a copy of the new reading,
     * the sample becomes the delta against the last reading, and the copy
     * becomes the last reading.
     */
    method Snapshot(sample: Sample)
      requires Valid() && sample in store
      modifies this, sample.times, slots[0].times, slots[1].times
      ensures lastIndex == 1 - old(lastIndex) && lastSample == slots[lastIndex]
      ensures lastSample.times[..count] == old(sample.times[..count])
      ensures sample.times[..count] == Delta(old(sample.times[..count]), old(lastSample.times[..count]))
      ensures lastTs == old(lastTs) && waiting == old(waiting) && raws == old(raws)
      ensures pendingTs == old(pendingTs) && pendingText == old(pendingText)
    {
      lastIndex := (lastIndex + 1) % 2;
      var snap := slots[lastIndex];
      CopyFrom(snap, count, sample);
      DiffUnsigned(sample, count, lastSample);
      lastSample := snap;
    }
  }

  /**
   * Each produced sample is the delta of its reading against the previous
   * reading (zeros before the first), so the deltas published so far add
   * up, modulo 2^64, to the latest reading, which the last-sample buffer holds.
   */
  lemma {:induction false} DeltasAddUp(m: Cpumon)
    requires m.Valid()
    ensures Total(Deltas(m.raws, m.count), m.count) == Wrapped(m.lastSample.times[..m.count])
  {
    Telescope(m.raws, m.count);
  }
}
