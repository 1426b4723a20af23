/**
 * cpumon's samples: the timestamp order that gates a sampling cycle, and the
 * in-place copy, subtraction and zeroing of a sample's time values. Time
 * values are `uint64_t`: subtraction wraps around modulo 2^64.
 */
module Samples {

  import opened Util
  import opened Entries

  // ------------------------------------------------------------ timestamps

  /** Seconds first, then nanoseconds: a strict lexicographic order. */
  predicate Before(a: Timespec, b: Timespec)
  {
    a.sec < b.sec || (a.sec == b.sec && a.nsec < b.nsec)
  }

  /** compare_timespec: the sign of a - b in the (sec, nsec) order. */
  function Compare(a: Timespec, b: Timespec): (r: int)
    ensures -1 <= r <= 1
    ensures r == 0 <==> a == b
    ensures r < 0 <==> Before(a, b)
    ensures r > 0 <==> Before(b, a)
  {
    if a.sec < b.sec then -1
    else if a.sec > b.sec then 1
    else if a.nsec < b.nsec then -1
    else if a.nsec > b.nsec then 1
    else 0
  }

  lemma CompareAntisymmetric(a: Timespec, b: Timespec)
    ensures Compare(a, b) == -Compare(b, a)
  {
  }

  lemma BeforeTransitive(a: Timespec, b: Timespec, c: Timespec)
    requires Before(a, b) && Before(b, c)
    ensures Before(a, c)
  {
  }

  // ------------------------------------------------------ values modulo 2^64

  /** Element-wise `now - before` in `uint64_t`. */
  function Delta(now: seq<nat>, before: seq<nat>): (d: seq<nat>)
    requires |now| == |before|
    ensures |d| == |now|
  {
    seq(|now|, i requires 0 <= i < |now| => (now[i] - before[i]) % SIZE_MOD)
  }

  /** Element-wise `a + b` in `uint64_t`. */
  function Sum(a: seq<nat>, b: seq<nat>): (s: seq<nat>)
    requires |a| == |b|
    ensures |s| == |a|
  {
    seq(|a|, i requires 0 <= i < |a| => (a[i] + b[i]) % SIZE_MOD)
  }

  /** The values as `uint64_t` holds them. */
  function Wrapped(a: seq<nat>): (w: seq<nat>)
    ensures |w| == |a|
  {
    seq(|a|, i requires 0 <= i < |a| => a[i] % SIZE_MOD)
  }

  function Zeros(count: nat): (z: seq<nat>)
    ensures |z| == count
  {
    seq(count, i => 0)
  }

  lemma {:induction false} SubtractThenAdd(a: int, b: int)
    ensures ((a - b) % SIZE_MOD + b) % SIZE_MOD == a % SIZE_MOD
  {
    var q, r := (a - b) / SIZE_MOD, (a - b) % SIZE_MOD;
    assert r + b == (a / SIZE_MOD - q) * SIZE_MOD + a % SIZE_MOD by {
      MulDistributes(a / SIZE_MOD, q, SIZE_MOD);
    }
    DivModUnique(r + b, a / SIZE_MOD - q, a % SIZE_MOD, SIZE_MOD);
  }

  /** Adding back what was subtracted restores the values: the delta loses nothing. */
  lemma {:induction false} DeltaRestores(now: seq<nat>, before: seq<nat>)
    requires |now| == |before|
    ensures Sum(Delta(now, before), before) == Wrapped(now)
  {
    forall i | 0 <= i < |now|
      ensures Sum(Delta(now, before), before)[i] == Wrapped(now)[i]
    {
      SubtractThenAdd(now[i], before[i]);
    }
  }

  /** The first delta, taken against zeros, is the values themselves. */
  lemma {:induction false} DeltaFromZeros(now: seq<nat>)
    ensures Delta(now, Zeros(|now|)) == Wrapped(now)
  {
  }

  lemma {:induction false} SumCommutes(a: seq<nat>, b: seq<nat>)
    requires |a| == |b|
    ensures Sum(a, b) == Sum(b, a)
  {
  }

  lemma {:induction false} SumOfWrapped(a: seq<nat>, b: seq<nat>)
    requires |a| == |b|
    ensures Sum(Wrapped(a), b) == Sum(a, b)
  {
    forall i | 0 <= i < |a|
      ensures Sum(Wrapped(a), b)[i] == Sum(a, b)[i]
    {
      var q := a[i] / SIZE_MOD;
      assert a[i] + b[i] == q * SIZE_MOD + (a[i] % SIZE_MOD + b[i]);
      AddMultiple(a[i] % SIZE_MOD + b[i], q);
    }
  }

  lemma {:induction false} AddMultiple(x: int, q: int)
    ensures (q * SIZE_MOD + x) % SIZE_MOD == x % SIZE_MOD
  {
    DivModUnique(q * SIZE_MOD + x, q + x / SIZE_MOD, x % SIZE_MOD, SIZE_MOD);
  }

  // -------------------------------------------------- successive readings

  predicate Uniform(raws: seq<seq<nat>>, count: nat)
  {
    forall k :: 0 <= k < |raws| ==> |raws[k]| == count
  }

  /** The reading the next delta is taken against: zeros before the first one. */
  function Previous(raws: seq<seq<nat>>, count: nat): (p: seq<nat>)
    requires Uniform(raws, count)
    ensures |p| == count
  {
    if raws == [] then Zeros(count) else raws[|raws| - 1]
  }

  /** The delta of each reading against the one before it. */
  function Deltas(raws: seq<seq<nat>>, count: nat): (ds: seq<seq<nat>>)
    requires Uniform(raws, count)
    ensures |ds| == |raws| && Uniform(ds, count)
  {
    if raws == [] then []
    else
      var before := raws[..|raws| - 1];
      Deltas(before, count) + [Delta(raws[|raws| - 1], Previous(before, count))]
  }

  /** The `uint64_t` sum of all deltas. */
  function Total(ds: seq<seq<nat>>, count: nat): (t: seq<nat>)
    requires Uniform(ds, count)
    ensures |t| == count
  {
    if ds == [] then Zeros(count) else Sum(Total(ds[..|ds| - 1], count), ds[|ds| - 1])
  }

  /** The total after one more reading: the earlier total plus the newest delta. */
  lemma {:induction false} TotalStep(raws: seq<seq<nat>>, count: nat)
    requires Uniform(raws, count) && raws != []
    ensures var before := raws[..|raws| - 1];
      Total(Deltas(raws, count), count)
        == Sum(Total(Deltas(before, count), count), Delta(raws[|raws| - 1], Previous(before, count)))
  {
    var ds := Deltas(raws, count);
    assert ds[..|ds| - 1] == Deltas(raws[..|raws| - 1], count);
  }

  /**
   * The deltas telescope: summing every delta published so far gives back the
   * latest reading, so no interval is lost or counted twice.
   */
  lemma {:induction false} Telescope(raws: seq<seq<nat>>, count: nat)
    requires Uniform(raws, count)
    ensures Total(Deltas(raws, count), count) == Wrapped(Previous(raws, count))
  {
    if raws != [] {
      var before := raws[..|raws| - 1];
      var now, p := raws[|raws| - 1], Previous(before, count);
      TotalStep(raws, count);
      Telescope(before, count);
      SumOfWrapped(p, Delta(now, p));
      SumCommutes(p, Delta(now, p));
      DeltaRestores(now, p);
    }
  }

  // ---------------------------------------------------------- the sample

  /**
   * struct sample: the list link lives in the pool (samples are known by an
   * index there), the `id` and `ts` values hold the sampling time and the
   * flexible array holds the time values.
   */
  class Sample {
    var id: Timespec
    var ts: Timespec
    const times: array<nat>

    constructor (count: nat)
      ensures times.Length == count && fresh(times)
    {
      id := Timespec(0, 0);
      ts := Timespec(0, 0);
      times := new nat[count](i => 0);
    }
  }

  /** sample_copy_from: the first `count` time values of `src` into `dst`. */
  method CopyFrom(dst: Sample, count: nat, src: Sample)
    requires count <= dst.times.Length && count <= src.times.Length
    requires dst.times != src.times
    modifies dst.times
    ensures dst.times[..count] == src.times[..count]
    ensures dst.times[count..] == old(dst.times[count..])
  {
    forall i | 0 <= i < count {
      dst.times[i] := src.times[i];
    }
  }

  /** sample_diff_unsigned: `dst -= src` on the first `count` values, modulo 2^64. */
  method DiffUnsigned(dst: Sample, count: nat, src: Sample)
    requires count <= dst.times.Length && count <= src.times.Length
    modifies dst.times
    ensures dst.times[..count] == Delta(old(dst.times[..count]), old(src.times[..count]))
    ensures dst.times[count..] == old(dst.times[count..])
  {
    var i := 0;
    while i < count
      invariant i <= count
      invariant dst.times[..i] == Delta(old(dst.times[..i]), old(src.times[..i]))
      invariant dst.times[i..] == old(dst.times[i..])
      invariant src.times[i..count] == old(src.times[i..count])
    {
      assert src.times[i] == old(src.times[i]);
      dst.times[i] := (dst.times[i] - src.times[i]) % SIZE_MOD;
      i := i + 1;
    }
  }

  /** sample_zero_times: the first `count` values become 0. */
  method ZeroTimes(sample: Sample, count: nat)
    requires count <= sample.times.Length
    modifies sample.times
    ensures sample.times[..count] == Zeros(count)
    ensures sample.times[count..] == old(sample.times[count..])
  {
    forall i | 0 <= i < count {
      sample.times[i] := 0;
    }
  }
}
