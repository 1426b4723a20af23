/**
 * The flush loop of cpumon's `main`: every dump period it drains the full
 * samples into a batch, formats one request for them (with the schema until
 * a request has succeeded), sends it until it succeeds or until the empty
 * samples run low, and returns the batch to the empty list. Sleeping and
 * the real-time clock are not modelled; what the sends return and the
 * empty-sample counts seen at each check are inputs, in the order the loop
 * meets them (the counts fall while the sampling thread goes on taking
 * empty samples).
 */
module Publisher {

  import opened Util
  import opened Entries
  import opened SamplePool
  import opened Fivis
  import opened NextValue

  const DUMP_PERIOD_SECS: nat := 60
  /** How long a failed request waits before it is sent again. */
  const DUMP_RETRY_SECS: nat := 20
  /** How often the empty samples are counted while waiting. */
  const DUMP_CHECK_SECS: nat := 5
  /** The checks of one wait: 20 seconds counted down in steps of 5. */
  const CHECKS: nat := 4

  /** How the sends of one batch ended. */
  datatype Verdict =
    | Sent(attempts: nat)                  // the attempts-th send returned FIVIS_OK
    | Dropped(attempts: nat, checks: nat)  // the checks-th count was at most DUMP_EMPTY_MIN
    | Retrying                             // still going when the inputs end

  /** What the wait after a failed send decided. */
  datatype Wait = Resend | Drop(checks: nat) | Watching

  /**
   * The wait after a failed send, after `done` checks that all found enough
   * empty samples: the request is dropped at the first count at most
   * DUMP_EMPTY_MIN, and sent again after CHECKS counts above it.
   */
  function WaitFrom(counts: seq<nat>, done: nat): Wait
    decreases CHECKS - done
  {
    if done >= CHECKS then Resend
    else if done >= |counts| then Watching
    else if counts[done] <= DUMP_EMPTY_MIN then Drop(done + 1)
    else WaitFrom(counts, done + 1)
  }

  /** A verdict seen from `attempts` sends and `checks` counts earlier. */
  function Later(v: Verdict, attempts: nat, checks: nat): Verdict
  {
    match v
    case Sent(a) => Sent(a + attempts)
    case Dropped(a, c) => Dropped(a + attempts, c + checks)
    case Retrying => Retrying
  }

  /**
   * The request loop: send; on FIVIS_OK stop; on any other result wait, then
   * drop the batch or send again.
   */
  function Publish(results: seq<FivisResult>, counts: seq<nat>): Verdict
    decreases |results|
  {
    if results == [] then Retrying
    else if results[0] == Ok then Sent(1)
    else match WaitFrom(counts, 0)
      case Drop(c) => Dropped(1, c)
      case Watching => Retrying
      case Resend => Later(Publish(results[1..], counts[CHECKS..]), 1, CHECKS)
  }

  /** Every count of `counts[from..to]` is above the low-water mark. */
  predicate AllAbove(counts: seq<nat>, from: nat, to: nat)
    requires from <= to <= |counts|
  {
    forall k :: from <= k < to ==> counts[k] > DUMP_EMPTY_MIN
  }

  /** The wait drops exactly at the first low count among the CHECKS, and resends when there is none. */
  lemma {:induction false} WaitCases(counts: seq<nat>, done: nat)
    requires done <= CHECKS && done <= |counts| && AllAbove(counts, 0, done)
    ensures WaitFrom(counts, done) == Resend <==> CHECKS <= |counts| && AllAbove(counts, 0, CHECKS)
    ensures forall c: nat :: WaitFrom(counts, done) == Drop(c) <==>
              0 < c <= CHECKS && c <= |counts| && AllAbove(counts, 0, c - 1) && counts[c - 1] <= DUMP_EMPTY_MIN
    decreases CHECKS - done
  {
    if done < CHECKS && done < |counts| && counts[done] > DUMP_EMPTY_MIN {
      WaitCases(counts, done + 1);
    }
  }

  /** The counts of the first wait, then those of the waits after it. */
  lemma {:induction false} AllAboveSplit(counts: seq<nat>, m: nat)
    requires CHECKS + m <= |counts|
    ensures AllAbove(counts, 0, CHECKS + m) <==> AllAbove(counts, 0, CHECKS) && AllAbove(counts[CHECKS..], 0, m)
  {
    assert forall k :: 0 <= k < m ==> counts[CHECKS..][k] == counts[CHECKS + k];
  }

  /**
   * The batch goes out at the n-th send exactly when that send returns
   * FIVIS_OK, every earlier send failed, whatever its error, and each wait
   * in between found more than DUMP_EMPTY_MIN empty samples at each of its
   * CHECKS counts.
   */
  lemma {:induction false} SentExactly(results: seq<FivisResult>, counts: seq<nat>, n: nat)
    ensures Publish(results, counts) == Sent(n) <==>
      && 0 < n <= |results| && results[n - 1] == Ok
      && (forall i :: 0 <= i < n - 1 ==> results[i] != Ok)
      && CHECKS * (n - 1) <= |counts| && AllAbove(counts, 0, CHECKS * (n - 1))
    decreases |results|
  {
    if results == [] || results[0] == Ok || n <= 1 {
      if n > 1 && results != [] && n <= |results| && CHECKS * (n - 1) <= |counts| {
        WaitCases(counts, 0);
        assert CHECKS <= CHECKS * (n - 1);
      }
    } else {
      WaitCases(counts, 0);
      var m := CHECKS * (n - 2);
      assert CHECKS * (n - 1) == CHECKS + m;
      if WaitFrom(counts, 0) == Resend {
        var rest := counts[CHECKS..];
        SentExactly(results[1..], rest, n - 1);
        if CHECKS + m <= |counts| {
          AllAboveSplit(counts, m);
        }
        assert forall i :: 1 <= i < |results| ==> results[i] == results[1..][i - 1];
      } else if CHECKS + m <= |counts| {
        AllAboveSplit(counts, m);
      }
    }
  }

  /**
   * The batch is dropped at the c-th count during the wait after the n-th
   * send: every send so far failed, that count was at most DUMP_EMPTY_MIN,
   * every count before it was above, and it belongs to the n-th wait.
   */
  lemma {:induction false} DroppedAt(results: seq<FivisResult>, counts: seq<nat>, n: nat, c: nat)
    requires Publish(results, counts) == Dropped(n, c)
    ensures 0 < n <= |results| && forall i :: 0 <= i < n ==> results[i] != Ok
    ensures CHECKS * (n - 1) < c <= CHECKS * n && c <= |counts|
    ensures counts[c - 1] <= DUMP_EMPTY_MIN && AllAbove(counts, 0, c - 1)
    decreases |results|
  {
    WaitCases(counts, 0);
    if WaitFrom(counts, 0) == Resend {
      var rest := counts[CHECKS..];
      var v := Publish(results[1..], rest);
      DroppedAt(results[1..], rest, v.attempts, v.checks);
      assert forall i :: 1 <= i < n ==> results[i] == results[1..][i - 1];
      assert forall k :: CHECKS <= k < c ==> counts[k] == rest[k - CHECKS];
    }
  }

  /**
   * The nested loops of `main` around fivis_signals_perform_request: the
   * request is sent again after each failed wait, and `request_done` ends
   * the loops when a count is at most DUMP_EMPTY_MIN.
   */
  method PerformWithRetry(results: seq<FivisResult>, counts: seq<nat>) returns (verdict: Verdict)
    ensures verdict == Publish(results, counts)
  {
    var i, c := 0, 0;
    var requestDone := false;
    verdict := Retrying;
    while !requestDone
      invariant i <= |results| && c <= |counts|
      invariant !requestDone ==> c == CHECKS * i
      invariant !requestDone ==> Publish(results, counts) == Later(Publish(results[i..], counts[c..]), i, c)
      invariant requestDone ==> verdict == Publish(results, counts)
      decreases |results| - i, if requestDone then 0 else 1
    {
      if i == |results| {
        return Retrying;
      }
      var result := results[i];
      i := i + 1;
      if result == Ok {
        verdict := Later(Sent(1), i - 1, c);
        break;
      }
      var rest := counts[c..];
      var retryDelay := DUMP_RETRY_SECS;
      var done := 0;
      while retryDelay > 0
        invariant done <= CHECKS && retryDelay == DUMP_RETRY_SECS - DUMP_CHECK_SECS * done
        invariant c + done <= |counts|
        invariant WaitFrom(rest, 0) == WaitFrom(rest, done)
        decreases retryDelay
      {
        retryDelay := retryDelay - DUMP_CHECK_SECS;
        if c + done == |counts| {
          return Retrying;
        }
        var emptyCount := counts[c + done];
        done := done + 1;
        if emptyCount <= DUMP_EMPTY_MIN {
          verdict := Later(Dropped(1, done), i - 1, c);
          requestDone := true;
          break;
        }
      }
      if !requestDone {
        assert WaitFrom(rest, 0) == Resend;
        assert results[i - 1..][1..] == results[i..];
        assert rest[CHECKS..] == counts[c + CHECKS..];
        c := c + CHECKS;
      }
    }
  }

  /** Sample indexes of the pool. */
  predicate InPool(ids: seq<nat>)
  {
    forall k :: 0 <= k < |ids| ==> ids[k] < SAMPLE_COUNT
  }

  /** The samples of the batch as the `next_value` callback reads them. */
  function BatchRecords(converted: seq<Record>, batch: seq<nat>): (r: seq<Record>)
    requires |converted| == SAMPLE_COUNT && InPool(batch)
    ensures |r| == |batch| && forall k :: 0 <= k < |batch| ==> r[k] == converted[batch[k]]
  {
    seq(|batch|, k requires 0 <= k < |batch| => converted[batch[k]])
  }

  /** How one turn of the flush loop ended. */
  datatype Flushed =
    | Idle                 // no full samples: nothing to send
    | Published(v: Verdict)

  /**
   * The flush side of `main`: the pool it shares with the sampling thread,
   * and the `schema` pointer, which is the signal list until the first
   * successful request and NULL from then on.
   */
  class Flusher {
    const pool: Pool
    var schemaPending: bool
    /** The requests that returned FIVIS_OK so far. */
    ghost var successes: nat

    ghost predicate Valid()
      reads this, pool
    {
      pool.Valid() && (schemaPending <==> successes == 0)
    }

    /** `struct list * schema = &signals`, before any request. */
    constructor (pool: Pool)
      requires pool.Valid()
      ensures Valid() && this.pool == pool && schemaPending && successes == 0
    {
      this.pool := pool;
      schemaPending := true;
      successes := 0;
    }

    /**
     * One turn of the flush loop. `converted` holds each sample's values once
     * the times are percentages, by sample index; `results` and `counts` are
     * what the sends return and what the empty-sample checks count. When
     * there are full samples they become the batch, the request for them is
     * formatted (the schema block only while no request has succeeded), and,
     * once the sends end, the whole batch goes back to the end of the empty
     * list whether or not the request got through. The request is always
     * there to send: fivis_signals_format_request returns the buffer's
     * string, which is never NULL, so `main`'s check for a NULL request never
     * leaves the loop.
     */
    method Flush(partnerId: string, signalSetId: string, id: Entry, signals: seq<Entry>, env: Env,
                 converted: seq<Record>, results: seq<FivisResult>, counts: seq<nat>)
      returns (outcome: Flushed, request: string)
      requires Valid() && pool.batch == [] && |converted| == SAMPLE_COUNT
      modifies this, pool
      ensures Valid() && pool.held == old(pool.held)
      ensures old(pool.full) == [] <==> outcome == Idle
      ensures outcome == Idle ==> unchanged(this, pool)
      ensures outcome != Idle ==>
        && pool.full == [] && InPool(old(pool.full))
        && request == RequestText(partnerId, signalSetId, if old(successes) == 0 then Some(signals) else None,
                                  id, signals, Some(Flatten(BatchRecords(converted, old(pool.full)))), env)
        && outcome == Published(Publish(results, counts))
      ensures outcome.Published? && outcome.v.Sent? ==> successes == old(successes) + 1 && !schemaPending
      ensures !(outcome.Published? && outcome.v.Sent?) ==> successes == old(successes) && schemaPending == old(schemaPending)
      ensures outcome.Published? && !outcome.v.Retrying? ==>
        pool.empty == old(pool.empty) + old(pool.full) && pool.batch == []
      ensures outcome == Published(Retrying) ==>
        pool.empty == old(pool.empty) && pool.batch == old(pool.full)
    {
      request := "";
      if pool.full == [] {
        outcome := Idle;
        return;
      }
      var records := Collect(converted);
      request := RequestText(partnerId, signalSetId, if schemaPending then Some(signals) else None,
                             id, signals, Some(Flatten(records)), env);
      var verdict := PerformWithRetry(results, counts);
      Settle(verdict);
      outcome := Published(verdict);
    }

    /** Under the mutex: every full sample, in order, moves to the batch. */
    method Collect(converted: seq<Record>) returns (records: seq<Record>)
      requires Valid() && pool.batch == [] && |converted| == SAMPLE_COUNT
      modifies pool
      ensures Valid() && InPool(old(pool.full)) && records == BatchRecords(converted, old(pool.full))
      ensures pool.batch == old(pool.full) && pool.full == []
      ensures pool.empty == old(pool.empty) && pool.held == old(pool.held)
    {
      Conservation(pool);
      forall k | 0 <= k < |pool.full|
        ensures pool.full[k] < SAMPLE_COUNT
      {
        assert pool.full[k] in multiset(pool.empty + pool.full + pool.Held() + pool.batch);
      }
      records := BatchRecords(converted, pool.full);
      pool.Drain();
    }

    /**
     * After the sends: a success clears the schema pointer, and unless the
     * sends are still going on, the batch returns to the end of the empty list.
     */
    method Settle(verdict: Verdict)
      requires Valid()
      modifies this, pool
      ensures Valid() && pool.held == old(pool.held) && pool.full == old(pool.full)
      ensures verdict.Sent? ==> successes == old(successes) + 1 && !schemaPending
      ensures !verdict.Sent? ==> successes == old(successes) && schemaPending == old(schemaPending)
      ensures !verdict.Retrying? ==> pool.empty == old(pool.empty) + old(pool.batch) && pool.batch == []
      ensures verdict.Retrying? ==> pool.empty == old(pool.empty) && pool.batch == old(pool.batch)
    {
      if verdict.Sent? {
        schemaPending := false;
        successes := successes + 1;
      }
      if !verdict.Retrying? {
        pool.Recycle();
      }
    }
  }

  /**
   * The schema goes out with the first request that succeeds and with none
   * after it: after any turns of the flush loop, a request carries the
   * schema block exactly when no earlier request returned FIVIS_OK.
   */
  lemma {:induction false} SchemaOnce(successes: nat, partnerId: string, signalSetId: string, id: Entry,
                                      signals: seq<Entry>, values: seq<Value>, env: Env)
    ensures var r := RequestText(partnerId, signalSetId, if successes == 0 then Some(signals) else None,
                                 id, signals, Some(values), env);
      var h := HeaderText(partnerId, signalSetId);
      var d := DataBlock(id, signals, Some(values), env);
      && (successes == 0 ==> r == h + ",\n\"schema\": {\n" + Joined(TypeFragments(signals)) + "\n}" + d)
      && (successes > 0 ==> r == h + d)
  {
    SchemaOnlyInserts(partnerId, signalSetId, signals, id, signals, Some(values), env);
  }
}
