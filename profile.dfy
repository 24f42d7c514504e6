/**
 * The profile page: the signed-in user's own usage logs and the three figures
 * computed from them (total, this week, number of uses).
 */
module ProfilePage {
  import opened Wrappers
  import opened TableStore
  import opened UsageLogs
  import StatusPage

  datatype ProfileStats = ProfileStats(totalUsage: int, thisWeekUsage: int, usageCount: nat)

  /** The figures for a log list (`logs?.reduce(...) || 0` and so on): all 0 when the list is missing. */
  function ProfileStatsOf(logs: Option<seq<UsageLog>>, cutoff: int): (s: ProfileStats)
    ensures logs.None? ==> s == ProfileStats(0, 0, 0)
    ensures logs.Some? ==> s.usageCount == |logs.value|
    ensures logs.Some? ==> s.totalUsage == SumAmount(logs.value)
    ensures logs.Some? ==> s.thisWeekUsage == SumAmount(Since(logs.value, cutoff))
  {
    if logs.None? then ProfileStats(0, 0, 0)
    else ProfileStats(SumAmount(logs.value), SumAmount(Since(logs.value, cutoff)), |logs.value|)
  }

  datatype ProfileState = ProfileState(usageLogs: seq<UsageLog>, stats: ProfileStats, loading: bool)

  /** The page before its first fetch: no logs, zero figures, loading. */
  const Initial := ProfileState([], ProfileStats(0, 0, 0), true)

  /**
   * `fetchUsageData` with the week cutoff read from the variable `cutoffName`:
   * nothing happens without a signed-in user; a failed query leaves logs and
   * figures as they were; otherwise the logs are shown (`logs || []`) and the
   * figures are replaced only when the cutoff evaluates. Loading is cleared
   * whenever a user is signed in.
   */
  function FetchUsageDataWith(st: ProfileState, user: Option<UserId>, reply: StatusPage.Query<seq<UsageLog>>,
                              now: int, cutoffName: string): (r: ProfileState)
    ensures user.None? ==> r == st
    ensures user.Some? ==> !r.loading
    ensures user.Some? && reply.QueryError? ==> r == st.(loading := false)
    ensures user.Some? && reply.Rows? ==> r.usageLogs == reply.data.GetOr([])
    ensures user.Some? && reply.Rows? ==> var c := WeekCutoffIn(HandlerScope(now), cutoffName);
      r.stats == if c.Ok? then ProfileStatsOf(reply.data, c.value) else st.stats
  {
    if user.None? then st
    else if reply.QueryError? then st.(loading := false)
    else
      var shown := st.(usageLogs := reply.data.GetOr([]));
      match WeekCutoffIn(HandlerScope(now), cutoffName)
      case Err(_) => shown.(loading := false)
      case Ok(cutoff) => shown.(stats := ProfileStatsOf(reply.data, cutoff), loading := false)
  }

  /** `fetchUsageData` as written: the cutoff reads the undeclared `today`, so the figures never change. */
  function FetchUsageDataAsWritten(st: ProfileState, user: Option<UserId>, reply: StatusPage.Query<seq<UsageLog>>,
                                   now: int): (r: ProfileState)
    ensures r.stats == st.stats
    ensures user.Some? && reply.Rows? ==> r == ProfileState(reply.data.GetOr([]), st.stats, false)
  {
    FetchUsageDataWith(st, user, reply, now, "today")
  }

  /** `fetchUsageData` with the cutoff a week before `now`. */
  function FetchUsageData(st: ProfileState, user: Option<UserId>, reply: StatusPage.Query<seq<UsageLog>>,
                          now: int): (r: ProfileState)
    ensures user.None? ==> r == st
    ensures user.Some? && reply.QueryError? ==> r == st.(loading := false)
    ensures user.Some? && reply.Rows? ==>
      r == ProfileState(reply.data.GetOr([]), ProfileStatsOf(reply.data, now - WeekMillis), false)
  {
    FetchUsageDataWith(st, user, reply, now, "now")
  }

  /** Without a signed-in user the fetch returns before touching anything, so the page keeps its spinner. */
  lemma NoUserKeepsLoading(reply: StatusPage.Query<seq<UsageLog>>, now: int)
    ensures FetchUsageData(Initial, None, reply, now).loading
  {
  }

  /** The query the page sends: every log of the user (`eq('user_id', id)`). */
  function OwnLogs(all: seq<UsageLog>, id: UserId): StatusPage.Query<seq<UsageLog>> {
    StatusPage.Rows(Some(LogsOf(all, id)))
  }

  /** As written, however many logs the user has, the page keeps showing zero figures. */
  lemma AsWrittenShowsZero(all: seq<UsageLog>, id: UserId, now: int)
    ensures var r := FetchUsageDataAsWritten(Initial, Some(id), OwnLogs(all, id), now);
      && r.usageLogs == LogsOf(all, id)
      && r.stats == ProfileStats(0, 0, 0)
      && !r.loading
  {
  }

  /**
   * With the intended cutoff, the profile's figures agree with the user's row
   * on the status page computed over the same log table.
   */
  lemma ProfileMatchesStatus(all: seq<UsageLog>, u: StatusPage.User, now: int, st: ProfileState)
    ensures var p := FetchUsageData(st, Some(u.id), OwnLogs(all, u.id), now).stats;
            var s := StatusPage.StatsFor(u, Some(all), now - WeekMillis);
      && p.totalUsage == s.totalUsage
      && p.thisWeekUsage == s.thisWeekUsage
      && p.usageCount == s.usageCount
  {
  }

  /** With non-negative amounts the week's figure is part of the total, and the count is that of the user's logs. */
  lemma ProfileFiguresBounded(all: seq<UsageLog>, id: UserId, now: int, st: ProfileState)
    requires NonNegativeAmounts(all)
    ensures var p := FetchUsageData(st, Some(id), OwnLogs(all, id), now).stats;
      && 0 <= p.thisWeekUsage <= p.totalUsage
      && p.usageCount <= |all|
  {
    var mine := LogsOf(all, id);
    assert NonNegativeAmounts(mine) by {
      forall i | 0 <= i < |mine| ensures mine[i].amount >= 0 {
        assert mine[i] in all;
      }
    }
    WeekWithinTotal(mine, now - WeekMillis);
  }
}
