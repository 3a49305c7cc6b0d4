/** The run history ring. */
module History {

  import opened Wrappers

  const HISTORY_CAP: nat := 500

  datatype RunOutcome = Success | Partial(failedIndices: seq<nat>) | Failure

  datatype RunRecord = RunRecord(
    ruleId: string, firedMs: int, outcome: RunOutcome, actionsExecuted: nat, error: Option<string>)

  /** The last n elements, or all of them. */
  function LastN<T>(s: seq<T>, n: nat): (t: seq<T>)
    ensures |t| == if n < |s| then n else |s|
    ensures forall k :: 0 <= k < |t| ==> t[k] == s[|s| - |t| + k]
  {
    if n < |s| then s[|s| - n..] else s
  }

  lemma LastOfSuffix<T>(p: seq<T>, r: seq<T>, n: nat)
    requires n <= |r|
    ensures LastN(p + r, n) == LastN(r, n)
  {
  }

  /** Trimming early loses nothing that later trims would have kept. */
  lemma TrimEarly<T>(a: seq<T>, b: seq<T>, n: nat)
    ensures LastN(LastN(a, n) + b, n) == LastN(a + b, n)
  {
    if n < |a| {
      var p, r := a[..|a| - n], LastN(a, n);
      assert a + b == p + (r + b);
      LastOfSuffix(p, r + b, n);
    }
  }

  class RunHistory {
    var records: seq<RunRecord>

    constructor (stored: seq<RunRecord>)
      ensures records == stored
    {
      records := stored;
    }

    method Push(record: RunRecord)
      modifies this
      ensures records == LastN(old(records) + [record], HISTORY_CAP)
    {
      records := records + [record];
      var overflow := if |records| > HISTORY_CAP then |records| - HISTORY_CAP else 0;
      if overflow > 0 {
        records := records[overflow..];
      }
    }

    /** Old to new; never more than the ring holds. */
    method Runs(limit: Option<nat>) returns (runs: seq<RunRecord>)
      ensures runs == LastN(records, if limit.Some? && limit.value < HISTORY_CAP then limit.value else HISTORY_CAP)
    {
      var limited := match limit case None => HISTORY_CAP case Some(n) => n;
      var want := if limited < HISTORY_CAP then limited else HISTORY_CAP;
      if want >= |records| {
        return records;
      }
      return records[|records| - want..];
    }
  }

  function PushAll(records: seq<RunRecord>, log: seq<RunRecord>): seq<RunRecord> {
    if log == [] then records
    else LastN(PushAll(records, log[..|log| - 1]) + [log[|log| - 1]], HISTORY_CAP)
  }

  /** After any pushes the ring is the last 500 records of everything ever pushed. */
  lemma {:induction false} RingIsLastOfLog(stored: seq<RunRecord>, log: seq<RunRecord>)
    requires log != []
    ensures PushAll(stored, log) == LastN(stored + log, HISTORY_CAP)
  {
    var init, last := log[..|log| - 1], log[|log| - 1];
    assert stored + log == stored + init + [last];
    if init == [] {
      assert stored + init == stored;
    } else {
      RingIsLastOfLog(stored, init);
      TrimEarly(stored + init, [last], HISTORY_CAP);
    }
  }

  lemma LastOfLast<T>(s: seq<T>, m: nat, n: nat)
    requires n <= m
    ensures LastN(LastN(s, m), n) == LastN(s, n)
  {
  }

  /** A limited read is the tail of the full log, and never more than 500 records of it. */
  lemma LimitedReadIsTailOfLog(stored: seq<RunRecord>, log: seq<RunRecord>, limit: nat)
    requires log != []
    ensures var n := if limit < HISTORY_CAP then limit else HISTORY_CAP;
            LastN(PushAll(stored, log), n) == LastN(stored + log, n)
  {
    RingIsLastOfLog(stored, log);
    LastOfLast(stored + log, HISTORY_CAP, if limit < HISTORY_CAP then limit else HISTORY_CAP);
  }
}
