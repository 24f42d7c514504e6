/**
 * Usage logs and the aggregation both the status page and the profile page
 * run over them: filter by user, sum `amount`, keep the logs of the last week,
 * count, and take the newest timestamp. Timestamps are integer milliseconds.
 */
module UsageLogs {
  import opened Wrappers
  import opened TableStore

  datatype UsageLog = UsageLog(userId: UserId, amount: int, createdAt: int)

  /** One week in milliseconds (`7 * 24 * 60 * 60 * 1000`). */
  const WeekMillis: int := 7 * 24 * 60 * 60 * 1000

  /** A log list ordered newest first, as the queries request (`order('created_at', descending)`). */
  predicate NewestFirst(logs: seq<UsageLog>) {
    forall i, j :: 0 <= i < j < |logs| ==> logs[j].createdAt <= logs[i].createdAt
  }

  // ------------------------------------------------------------------ filters

  /** `filter(log => log.user_id === id)`. */
  function LogsOf(logs: seq<UsageLog>, id: UserId): (r: seq<UsageLog>)
    ensures |r| <= |logs|
    ensures forall x :: x in r <==> x in logs && x.userId == id
  {
    if logs == [] then []
    else (if logs[0].userId == id then [logs[0]] else []) + LogsOf(logs[1..], id)
  }

  /** `filter(log => new Date(log.created_at) >= weekAgo)`. */
  function Since(logs: seq<UsageLog>, cutoff: int): (r: seq<UsageLog>)
    ensures |r| <= |logs|
    ensures forall x :: x in r <==> x in logs && x.createdAt >= cutoff
  {
    if logs == [] then []
    else (if logs[0].createdAt >= cutoff then [logs[0]] else []) + Since(logs[1..], cutoff)
  }

  /** The logs `Since` drops: the ones older than the cutoff. */
  function Before(logs: seq<UsageLog>, cutoff: int): seq<UsageLog> {
    if logs == [] then []
    else (if logs[0].createdAt < cutoff then [logs[0]] else []) + Before(logs[1..], cutoff)
  }

  /** Filtering by user keeps, with its multiplicity, every log of that user and no other. */
  lemma {:induction false} LogsOfMultiset(logs: seq<UsageLog>, id: UserId)
    ensures forall x :: multiset(LogsOf(logs, id))[x] == if x.userId == id then multiset(logs)[x] else 0
  {
    if logs != [] {
      LogsOfMultiset(logs[1..], id);
      assert logs == [logs[0]] + logs[1..];
    }
  }

  /** The week filter picks a sub-multiset of what it is given. */
  lemma {:induction false} SinceSubMultiset(logs: seq<UsageLog>, cutoff: int)
    ensures multiset(Since(logs, cutoff)) <= multiset(logs)
  {
    if logs != [] {
      SinceSubMultiset(logs[1..], cutoff);
      assert logs == [logs[0]] + logs[1..];
    }
  }

  /** Each filter keeps the relative order of what it keeps, so newest-first survives. */
  lemma {:induction false} LogsOfNewestFirst(logs: seq<UsageLog>, id: UserId)
    requires NewestFirst(logs)
    ensures NewestFirst(LogsOf(logs, id))
  {
    if logs != [] {
      var rest := logs[1..];
      assert NewestFirst(rest) by {
        forall i, j | 0 <= i < j < |rest| ensures rest[j].createdAt <= rest[i].createdAt {
          assert rest[i] == logs[i + 1] && rest[j] == logs[j + 1];
        }
      }
      LogsOfNewestFirst(rest, id);
      var tail := LogsOf(rest, id);
      forall x | x in tail ensures x.createdAt <= logs[0].createdAt {
        var k :| 0 <= k < |rest| && rest[k] == x;
        assert logs[k + 1] == x;
      }
    }
  }

  // ------------------------------------------------------------------- sums

  /** `reduce((sum, log) => sum + log.amount, 0)`: a left fold, last log added last. */
  function SumAmount(logs: seq<UsageLog>): int {
    if logs == [] then 0 else SumAmount(logs[..|logs| - 1]) + logs[|logs| - 1].amount
  }

  lemma {:induction false} SumAmountAppend(a: seq<UsageLog>, b: seq<UsageLog>)
    ensures SumAmount(a + b) == SumAmount(a) + SumAmount(b)
  {
    if b != [] {
      var n := |b| - 1;
      assert (a + b)[..|a + b| - 1] == a + b[..n];
      assert (a + b)[|a + b| - 1] == b[n];
      SumAmountAppend(a, b[..n]);
      assert SumAmount(b) == SumAmount(b[..n]) + b[n].amount;
    } else {
      assert a + b == a;
    }
  }

  lemma SumAmountCons(x: UsageLog, rest: seq<UsageLog>)
    ensures SumAmount([x] + rest) == x.amount + SumAmount(rest)
  {
    SumAmountAppend([x], rest);
    assert [x][..0] == [];
  }

  /** The total splits into the part of the last week and the part before it. */
  lemma {:induction false} SumSplitsAtCutoff(logs: seq<UsageLog>, cutoff: int)
    ensures SumAmount(logs) == SumAmount(Since(logs, cutoff)) + SumAmount(Before(logs, cutoff))
  {
    if logs != [] {
      var x, rest := logs[0], logs[1..];
      assert logs == [x] + rest;
      SumSplitsAtCutoff(rest, cutoff);
      SumAmountCons(x, rest);
      if x.createdAt >= cutoff {
        assert Since(logs, cutoff) == [x] + Since(rest, cutoff) && Before(logs, cutoff) == Before(rest, cutoff);
        SumAmountCons(x, Since(rest, cutoff));
      } else {
        assert Since(logs, cutoff) == Since(rest, cutoff) && Before(logs, cutoff) == [x] + Before(rest, cutoff);
        SumAmountCons(x, Before(rest, cutoff));
      }
    }
  }

  predicate NonNegativeAmounts(logs: seq<UsageLog>) {
    forall i :: 0 <= i < |logs| ==> logs[i].amount >= 0
  }

  lemma {:induction false} SumNonNegative(logs: seq<UsageLog>)
    requires NonNegativeAmounts(logs)
    ensures SumAmount(logs) >= 0
  {
    if logs != [] {
      SumNonNegative(logs[..|logs| - 1]);
    }
  }

  lemma {:induction false} BeforeNonNegative(logs: seq<UsageLog>, cutoff: int)
    requires NonNegativeAmounts(logs)
    ensures NonNegativeAmounts(Before(logs, cutoff))
  {
    if logs != [] {
      BeforeNonNegative(logs[1..], cutoff);
    }
  }

  /** With non-negative amounts the week's usage never exceeds the total. */
  lemma WeekWithinTotal(logs: seq<UsageLog>, cutoff: int)
    requires NonNegativeAmounts(logs)
    ensures 0 <= SumAmount(Since(logs, cutoff)) <= SumAmount(logs)
  {
    SumSplitsAtCutoff(logs, cutoff);
    BeforeNonNegative(logs, cutoff);
    SumNonNegative(Before(logs, cutoff));
    SinceNonNegative(logs, cutoff);
    SumNonNegative(Since(logs, cutoff));
  }

  lemma {:induction false} SinceNonNegative(logs: seq<UsageLog>, cutoff: int)
    requires NonNegativeAmounts(logs)
    ensures NonNegativeAmounts(Since(logs, cutoff))
  {
    if logs != [] {
      SinceNonNegative(logs[1..], cutoff);
    }
  }

  /** A cutoff no later than every log keeps the whole week equal to the total. */
  lemma {:induction false} SinceAll(logs: seq<UsageLog>, cutoff: int)
    requires forall i :: 0 <= i < |logs| ==> logs[i].createdAt >= cutoff
    ensures Since(logs, cutoff) == logs
  {
    if logs != [] {
      SinceAll(logs[1..], cutoff);
    }
  }

  // ---------------------------------------------------------------- newest

  /** `logs[0]?.created_at`: the first log's time, none for an empty list. */
  function LastUsed(logs: seq<UsageLog>): (t: Option<int>)
    ensures t.None? <==> logs == []
  {
    if logs == [] then None else Some(logs[0].createdAt)
  }

  /** On a newest-first list the first timestamp is the latest one, and it belongs to a log. */
  lemma LastUsedIsLatest(logs: seq<UsageLog>)
    requires NewestFirst(logs) && logs != []
    ensures forall x :: x in logs ==> x.createdAt <= LastUsed(logs).value
    ensures exists x :: x in logs && x.createdAt == LastUsed(logs).value
  {
    assert logs[0] in logs;
  }

  // ------------------------------------------------------------ the cutoff

  /** The errors the aggregation can end in. */
  datatype Failure = QueryFailed(err: StoreError) | ReferenceError(name: string)

  /**
   * `new Date(<name>.getTime() - 7 * 24 * 60 * 60 * 1000)` evaluated where the
   * declared names are `scope`: a name that is not declared throws.
   */
  function WeekCutoffIn(scope: map<string, int>, name: string): (r: Result<int, Failure>)
    ensures r.Ok? <==> name in scope
    ensures r.Ok? ==> r.value == scope[name] - WeekMillis
    ensures r.Err? ==> r.error == ReferenceError(name)
  {
    if name in scope then Result.Ok(scope[name] - WeekMillis) else Err(ReferenceError(name))
  }

  /** The only name the fetch handlers declare before the cutoff: `now`. */
  function HandlerScope(now: int): map<string, int> {
    map["now" := now]
  }

  /** The cutoff as written: it reads `today`, which is never declared. */
  function WeekCutoffAsWritten(now: int): Result<int, Failure> {
    WeekCutoffIn(HandlerScope(now), "today")
  }

  /** The cutoff as evidently intended: a week before `now`. */
  function WeekCutoff(now: int): Result<int, Failure> {
    WeekCutoffIn(HandlerScope(now), "now")
  }

  /** Whatever the clock says, the written cutoff throws and the intended one is a week back. */
  lemma CutoffAsWrittenAlwaysThrows(now: int)
    ensures WeekCutoffAsWritten(now) == Err(ReferenceError("today"))
    ensures WeekCutoff(now) == Result.Ok(now - 604800000)
  {
  }
}
