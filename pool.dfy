/**
 * cpumon's sample pool. A fixed number of samples, allocated once, move
 * between four places: the `empty` list, the producer's held sample, the
 * `full` list and the consumer's private batch. Samples are known by their
 * index in the allocation order; each mutex-protected region of the C code
 * is one method.
 */
module SamplePool {

  import opened Util

  const SAMPLE_PERIOD_SECS: nat := 12
  /** One hour of samples. */
  const SAMPLE_COUNT: nat := 3600 / SAMPLE_PERIOD_SECS
  /** Below this many empty samples a failed request is dropped. */
  const DUMP_EMPTY_MIN: nat := SAMPLE_COUNT / 10

  /** The sample indexes 0 .. n - 1, in allocation order. */
  function Ids(n: nat): (s: seq<nat>)
    ensures |s| == n
  {
    seq(n, i requires 0 <= i < n => i)
  }

  /** What the producer's attempt to take an empty sample gave. */
  datatype Acquire = Acquired(id: nat) | Waiting | Stopped

  class Pool {
    var empty: seq<nat>
    var full: seq<nat>
    var held: Option<nat>
    var batch: seq<nat>

    function Held(): seq<nat>
      reads this
    {
      if held.Some? then [held.value] else []
    }

    /** Every sample is in exactly one of the four places. */
    ghost predicate Valid()
      reads this
    {
      multiset(empty + full + Held() + batch) == multiset(Ids(SAMPLE_COUNT))
    }

    /** main: the samples are allocated one by one and added to the end of `empty`. */
    constructor ()
      ensures Valid()
      ensures empty == Ids(SAMPLE_COUNT) && full == [] && held == None && batch == []
    {
      empty, full, held, batch := [], [], None, [];
      new;
      var i := 0;
      while i < SAMPLE_COUNT
        invariant i <= SAMPLE_COUNT && empty == Ids(i)
        invariant full == [] && held == None && batch == []
      {
        empty := empty + [i];
        i := i + 1;
      }
    }

    /** cpumon_main, without a held sample: take the first empty one if there is one. */
    method Acquire() returns (r: Acquire)
      requires Valid() && held.None?
      modifies this
      ensures Valid()
      ensures old(empty) != [] ==> r == Acquired(old(empty)[0]) && held == Some(old(empty)[0]) && empty == old(empty)[1..]
      ensures old(empty) == [] ==> r == Waiting && empty == old(empty) && held == old(held)
      ensures full == old(full) && batch == old(batch)
    {
      if empty == [] {
        r := Waiting;
      } else {
        r := Acquired(empty[0]);
        held := Some(empty[0]);
        assert empty == [empty[0]] + empty[1..];
        empty := empty[1..];
      }
    }

    /**
     * cpumon_main, woken in the wait for an empty sample: a stop request ends
     * the wait before `empty` is looked at again.
     */
    method Wake(stop: bool) returns (r: Acquire)
      requires Valid() && held.None?
      modifies this
      ensures Valid()
      ensures stop ==> r == Stopped && empty == old(empty) && held == old(held)
      ensures !stop && old(empty) != [] ==> r == Acquired(old(empty)[0]) && held == Some(old(empty)[0]) && empty == old(empty)[1..]
      ensures !stop && old(empty) == [] ==> r == Waiting && empty == old(empty) && held == old(held)
      ensures full == old(full) && batch == old(batch)
    {
      if stop {
        r := Stopped;
      } else {
        r := Acquire();
      }
    }

    /** cpumon_main: the filled sample goes to the end of `full`. */
    method Publish()
      requires Valid() && held.Some?
      modifies this
      ensures Valid()
      ensures full == old(full) + [old(held).value] && held == None
      ensures empty == old(empty) && batch == old(batch)
    {
      full := full + [held.value];
      held := None;
    }

    /** main: every full sample, first to last, moves to the end of the batch. */
    method Drain()
      requires Valid()
      modifies this
      ensures Valid()
      ensures batch == old(batch) + old(full) && full == []
      ensures empty == old(empty) && held == old(held)
    {
      while full != []
        invariant Valid()
        invariant batch + full == old(batch) + old(full)
        invariant empty == old(empty) && held == old(held)
        decreases |full|
      {
        var item := full[0];
        MoveFromFull(empty, full, Held(), batch);
        Shift(batch, full);
        full := full[1..];
        batch := batch + [item];
      }
    }

    /** main: every batch sample, first to last, returns to the end of `empty`. */
    method Recycle()
      requires Valid()
      modifies this
      ensures Valid()
      ensures empty == old(empty) + old(batch) && batch == []
      ensures full == old(full) && held == old(held)
    {
      while batch != []
        invariant Valid()
        invariant empty + batch == old(empty) + old(batch)
        invariant full == old(full) && held == old(held)
        decreases |batch|
      {
        var item := batch[0];
        MoveFromBatch(empty, full, Held(), batch);
        Shift(empty, batch);
        batch := batch[1..];
        empty := empty + [item];
      }
    }
  }

  /**
   * In a valid pool the four places hold SAMPLE_COUNT samples between them,
   * each sample index below SAMPLE_COUNT exactly once.
   */
  lemma {:induction false} Conservation(p: Pool)
    requires p.Valid()
    ensures |p.empty| + |p.full| + |p.Held()| + |p.batch| == SAMPLE_COUNT
    ensures forall id :: id in multiset(p.empty + p.full + p.Held() + p.batch) <==> 0 <= id < SAMPLE_COUNT
    ensures forall id :: multiset(p.empty + p.full + p.Held() + p.batch)[id] <= 1
  {
    var all := p.empty + p.full + p.Held() + p.batch;
    assert |multiset(all)| == |all|;
    IdsOnce(SAMPLE_COUNT);
  }

  lemma {:induction false} IdsOnce(n: nat)
    ensures forall id :: id in multiset(Ids(n)) <==> 0 <= id < n
    ensures forall id :: multiset(Ids(n))[id] <= 1
  {
    if n > 0 {
      IdsOnce(n - 1);
      assert Ids(n) == Ids(n - 1) + [n - 1];
      var m, m' := multiset(Ids(n)), multiset(Ids(n - 1));
      assert m == m' + multiset([n - 1]);
      forall id
        ensures (id in m <==> 0 <= id < n) && m[id] <= 1
      {
        assert m[id] == m'[id] + multiset([n - 1])[id];
      }
    } else {
      assert Ids(n) == [];
    }
  }

  lemma {:induction false} MoveFromFull(e: seq<nat>, f: seq<nat>, h: seq<nat>, b: seq<nat>)
    requires f != []
    ensures multiset(e + f[1..] + h + (b + [f[0]])) == multiset(e + f + h + b)
  {
    assert f == [f[0]] + f[1..];
  }

  lemma {:induction false} MoveFromBatch(e: seq<nat>, f: seq<nat>, h: seq<nat>, b: seq<nat>)
    requires b != []
    ensures multiset((e + [b[0]]) + f + h + b[1..]) == multiset(e + f + h + b)
  {
    assert b == [b[0]] + b[1..];
  }

  lemma {:induction false} Shift(a: seq<nat>, b: seq<nat>)
    requires b != []
    ensures (a + [b[0]]) + b[1..] == a + b
  {
    assert b == [b[0]] + b[1..];
  }
}
