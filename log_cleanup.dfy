/**
 * The standard log store's cleanup task: delete log records older than the
 * configured lifetime, in batches, stopping after a time budget.
 */
module LogCleanup {
  /** Rows fetched (and so deleted) per batch. */
  const QueryLimit: nat := 131072

  /** Seconds of deletion allowed per run before the task gives up until next time. */
  const TimeBudget: int := 300

  /** Seconds in a day. */
  const DaySeconds: int := 3600 * 24

  /** A row of logstore_standard_log: its creation time and the rest of the row. */
  datatype LogRecord = LogRecord(timecreated: int, payload: string)

  /** How execute ended: lifetime off, nothing old left, or out of time. */
  datatype CleanupOutcome = Disabled | Finished | TimedOut

  /** The cutoff: records created before it are old enough to delete. */
  function Cutoff(now: int, lifetime: int): int {
    now - lifetime * DaySeconds
  }

  /** The ids of the records created before the cutoff. */
  function OldIds(records: map<int, LogRecord>, cutoff: int): set<int> {
    set id | id in records && records[id].timecreated < cutoff
  }

  /** The rows created at or after the cutoff: what a finished cleanup leaves. */
  function YoungRows(records: map<int, LogRecord>, cutoff: int): map<int, LogRecord> {
    map id | id in records && records[id].timecreated >= cutoff :: records[id]
  }

  /** delete_records_select on a list of ids: those rows go, every other row stays as it was. */
  function DeleteBatch(records: map<int, LogRecord>, batch: set<int>): (r: map<int, LogRecord>)
    ensures forall id :: id in r <==> id in records && id !in batch
    ensures forall id :: id in r ==> r[id] == records[id]
  {
    map id | id in records && id !in batch :: records[id]
  }

  /** Deleting a non-empty batch of old ids lowers the number of old records by the batch size. */
  lemma BatchShrinksOldRecords(records: map<int, LogRecord>, cutoff: int, batch: set<int>)
    requires batch <= OldIds(records, cutoff)
    ensures OldIds(DeleteBatch(records, batch), cutoff) == OldIds(records, cutoff) - batch
    ensures |OldIds(DeleteBatch(records, batch), cutoff)| == |OldIds(records, cutoff)| - |batch|
  {
    var before := OldIds(records, cutoff);
    var after := OldIds(DeleteBatch(records, batch), cutoff);
    assert after == before - batch;
    assert before == after + batch;
    assert after * batch == {};
  }

  /** A set has subsets of every size up to its own: the select can always fill its batch. */
  lemma {:induction false} SubsetOfSize(s: set<int>, n: nat)
    requires n <= |s|
    ensures exists t :: t <= s && |t| == n
  {
    if n > 0 {
      var x := PickElement(s);
      SubsetOfSize(s - {x}, n - 1);
      var t :| t <= s - {x} && |t| == n - 1;
      assert t + {x} <= s && |t + {x}| == n;
    } else {
      assert {} <= s;
    }
  }

  /** Some member of a non-empty set. */
  lemma PickElement(s: set<int>) returns (x: int)
    requires s != {}
    ensures x in s
  {
    if forall y :: y !in s {
      assert false;
    }
    x :| x in s;
  }

  /**
   * What the loop of execute keeps true of the table and the batches deleted
   * so far, starting from the table orig: rows only go, each deleted row was
   * old, each batch holds between one and QueryLimit deleted ids, and every
   * deleted row is in some batch.
   */
  predicate Accounted(orig: map<int, LogRecord>, records: map<int, LogRecord>, batches: seq<set<int>>, cutoff: int) {
    && (forall id :: id in records ==> id in orig && records[id] == orig[id])
    && (forall id :: id in orig && id !in records ==> orig[id].timecreated < cutoff)
    && (forall i :: 0 <= i < |batches| ==> 0 < |batches[i]| <= QueryLimit)
    && (forall i, id :: 0 <= i < |batches| && id in batches[i] ==> id in orig && id !in records)
    && (forall id :: id in orig && id !in records ==> exists i :: 0 <= i < |batches| && id in batches[i])
  }

  /** Deleting one more batch of old ids keeps the loop's bookkeeping true. */
  lemma AccountedStep(orig: map<int, LogRecord>, records: map<int, LogRecord>, batches: seq<set<int>>,
                      cutoff: int, batch: set<int>)
    requires Accounted(orig, records, batches, cutoff)
    requires batch <= OldIds(records, cutoff) && 0 < |batch| <= QueryLimit
    ensures Accounted(orig, DeleteBatch(records, batch), batches + [batch], cutoff)
  {
    var after := DeleteBatch(records, batch);
    var more := batches + [batch];
    forall id | id in orig && id !in after
      ensures exists i :: 0 <= i < |more| && id in more[i]
    {
      if id in batch {
        assert id in more[|batches|];
      } else {
        var i :| 0 <= i < |batches| && id in batches[i];
        assert id in more[i];
      }
    }
    forall i, id | 0 <= i < |more| && id in more[i]
      ensures id in orig && id !in after
    {
      if i < |batches| {
        assert id in batches[i];
      }
    }
  }

  /** Once no old row is left, the table is exactly the young rows of the table it started from. */
  lemma NothingOldLeft(orig: map<int, LogRecord>, records: map<int, LogRecord>, batches: seq<set<int>>, cutoff: int)
    requires Accounted(orig, records, batches, cutoff)
    requires OldIds(records, cutoff) == {}
    ensures records == YoungRows(orig, cutoff)
  {
    var young := YoungRows(orig, cutoff);
    forall id | id in records
      ensures id in young && young[id] == records[id]
    {
      assert id !in OldIds(records, cutoff);
    }
    forall id | id in young
      ensures id in records
    {
      assert orig[id].timecreated >= cutoff;
    }
    assert records.Keys == young.Keys;
  }

  /** The time() reading taken after batch i (the first two readings fix the cutoff and the start). */
  function AfterBatch(clock: nat -> int, i: nat): int {
    clock(2 + i)
  }

  /** The readings after each of the first n batches were within the budget from start. */
  predicate WithinBudget(clock: nat -> int, start: int, n: nat) {
    forall i :: 0 <= i < n ==> AfterBatch(clock, i) <= start + TimeBudget
  }

  /** One more batch whose reading was within the budget. */
  lemma WithinBudgetStep(clock: nat -> int, start: int, n: nat)
    requires WithinBudget(clock, start, n) && AfterBatch(clock, n) <= start + TimeBudget
    ensures WithinBudget(clock, start, n + 1)
  {
  }

  /** The logstore_standard_log table, by id. */
  class LogStore {
    var records: map<int, LogRecord>

    constructor (records: map<int, LogRecord>)
      ensures this.records == records
    {
      this.records := records;
    }

    /**
     * execute: with a positive lifetime (days), fix the cutoff from the first
     * clock reading and the start from the second, then repeatedly fetch up
     * to QueryLimit old ids (in whatever order the database returns them),
     * delete them, and stop once a fetch comes back empty or, after a batch,
     * the clock has passed start + TimeBudget. clock(k) is the value of the
     * k-th time() call.
     */
    method Execute(lifetime: int, clock: nat -> int) returns (outcome: CleanupOutcome, batches: seq<set<int>>)
      modifies this
      ensures lifetime <= 0 ==> outcome == Disabled && batches == [] && records == old(records)
      ensures lifetime > 0 ==> outcome != Disabled
      ensures forall id :: id in records ==> id in old(records) && records[id] == old(records)[id]
      ensures forall id :: id in old(records) && id !in records ==>
        lifetime > 0 && old(records)[id].timecreated < Cutoff(clock(0), lifetime)
      ensures forall i :: 0 <= i < |batches| ==> 0 < |batches[i]| <= QueryLimit
      ensures forall i, id :: 0 <= i < |batches| && id in batches[i] ==> id in old(records) && id !in records
      ensures forall id :: id in old(records) && id !in records ==> exists i :: 0 <= i < |batches| && id in batches[i]
      ensures outcome == Finished ==> OldIds(records, Cutoff(clock(0), lifetime)) == {}
      ensures outcome == Finished ==> records == YoungRows(old(records), Cutoff(clock(0), lifetime))
      ensures outcome == Finished ==> WithinBudget(clock, clock(1), |batches|)
      ensures outcome == TimedOut ==>
        && |batches| > 0
        && AfterBatch(clock, |batches| - 1) > clock(1) + TimeBudget
        && WithinBudget(clock, clock(1), |batches| - 1)
    {
      batches := [];
      if lifetime == 0 || lifetime < 0 {
        return Disabled, batches;
      }
      var cutoff := Cutoff(clock(0), lifetime);
      var start := clock(1);
      while true
        invariant Accounted(old(records), records, batches, cutoff)
        invariant WithinBudget(clock, start, |batches|)
        decreases |OldIds(records, cutoff)|
      {
        var candidates := OldIds(records, cutoff);
        if candidates == {} {
          NothingOldLeft(old(records), records, batches, cutoff);
          return Finished, batches;
        }
        var size := if |candidates| < QueryLimit then |candidates| else QueryLimit;
        SubsetOfSize(candidates, size);
        var batch :| batch <= candidates && |batch| == size;
        BatchShrinksOldRecords(records, cutoff, batch);
        AccountedStep(old(records), records, batches, cutoff, batch);
        records := DeleteBatch(records, batch);
        var now := AfterBatch(clock, |batches|);
        ghost var done := |batches|;
        batches := batches + [batch];
        if now > start + TimeBudget {
          assert done == |batches| - 1;
          return TimedOut, batches;
        }
        WithinBudgetStep(clock, start, done);
      }
    }
  }
}
