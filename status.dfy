/**
 * The system status page: per-user usage statistics computed from the users
 * list and the usage log list (`fetchUserStats`), the whole-system counters
 * (`fetchSystemStats`), and the number of proxies still available.
 */
module StatusPage {
  import opened Wrappers
  import opened TableStore
  import opened UsageLogs

  /** A row of the users query. */
  datatype User = User(id: UserId, row: UserRow)

  datatype UserStats = UserStats(
    user: User, totalUsage: int, thisWeekUsage: int, usageCount: nat, lastUsed: Option<int>)

  /**
   * The stats entry for one user: that user's logs (none when the log list is
   * missing), their total, the total of those not older than `cutoff`, how
   * many there are, and the time of the first one.
   */
  function StatsFor(u: User, logs: Option<seq<UsageLog>>, cutoff: int): (s: UserStats)
    ensures s.user == u
    ensures logs.None? ==> s == UserStats(u, 0, 0, 0, None)
    ensures logs.Some? ==>
      && s.usageCount == |LogsOf(logs.value, u.id)|
      && s.totalUsage == SumAmount(LogsOf(logs.value, u.id))
      && s.thisWeekUsage == SumAmount(Since(LogsOf(logs.value, u.id), cutoff))
      && (s.lastUsed.None? <==> forall x :: x in logs.value ==> x.userId != u.id)
    // a user without logs shows zero usage
    ensures (logs.Some? ==> forall x :: x in logs.value ==> x.userId != u.id) ==>
      s.totalUsage == 0 && s.thisWeekUsage == 0 && s.usageCount == 0
  {
    var mine := if logs.Some? then LogsOf(logs.value, u.id) else [];
    assert mine != [] ==> mine[0] in mine;
    UserStats(u, SumAmount(mine), SumAmount(Since(mine, cutoff)), |mine|, LastUsed(mine))
  }

  /** `users?.map(...) || []`: one entry per user, in the users list's order. */
  function ComputeStats(users: Option<seq<User>>, logs: Option<seq<UsageLog>>, cutoff: int): (r: seq<UserStats>)
    ensures users.None? ==> r == []
    ensures users.Some? ==> |r| == |users.value|
    ensures users.Some? ==> forall i :: 0 <= i < |r| ==> r[i] == StatsFor(users.value[i], logs, cutoff)
  {
    if users.None? then []
    else seq(|users.value|, i requires 0 <= i < |users.value| => StatsFor(users.value[i], logs, cutoff))
  }

  /** A user's last-used time is the newest of that user's logs when the list is newest-first. */
  lemma LastUsedIsNewest(u: User, logs: seq<UsageLog>, cutoff: int)
    requires NewestFirst(logs)
    ensures var s := StatsFor(u, Some(logs), cutoff);
      s.lastUsed.Some? ==>
        && (forall x :: x in logs && x.userId == u.id ==> x.createdAt <= s.lastUsed.value)
        && (exists x :: x in logs && x.userId == u.id && x.createdAt == s.lastUsed.value)
  {
    var mine := LogsOf(logs, u.id);
    LogsOfNewestFirst(logs, u.id);
    if mine != [] {
      LastUsedIsLatest(mine);
    }
  }

  /** A user's weekly usage is part of the total, and is the total less what is older than a week. */
  lemma WeekIsPartOfTotal(u: User, logs: seq<UsageLog>, cutoff: int)
    requires NonNegativeAmounts(logs)
    ensures var s := StatsFor(u, Some(logs), cutoff);
      && 0 <= s.thisWeekUsage <= s.totalUsage
      && s.totalUsage - s.thisWeekUsage == SumAmount(Before(LogsOf(logs, u.id), cutoff))
  {
    var mine := LogsOf(logs, u.id);
    assert NonNegativeAmounts(mine) by {
      forall i | 0 <= i < |mine| ensures mine[i].amount >= 0 {
        assert mine[i] in logs;
      }
    }
    WeekWithinTotal(mine, cutoff);
    SumSplitsAtCutoff(mine, cutoff);
  }

  // ---------------------------------------------------------- system counts

  datatype SystemStats = SystemStats(totalUsers: int, activeUsers: int, totalProxies: int, usedProxies: int)

  /** The four `count` results; a count the store does not return is `None`. */
  datatype Counts = Counts(totalUsers: Option<int>, activeUsers: Option<int>, totalProxies: Option<int>,
                           usedProxies: Option<int>)

  /** `count || 0`: a missing count, and a count of 0, both give 0. */
  function OrZero(c: Option<int>): (n: int)
    ensures c.None? ==> n == 0
    ensures c.Some? ==> n == c.value
  {
    if c.Some? && c.value != 0 then c.value else 0
  }

  function SystemStatsOf(c: Counts): (s: SystemStats)
    ensures s.totalUsers == OrZero(c.totalUsers) && s.activeUsers == OrZero(c.activeUsers)
    ensures s.totalProxies == OrZero(c.totalProxies) && s.usedProxies == OrZero(c.usedProxies)
  {
    SystemStats(OrZero(c.totalUsers), OrZero(c.activeUsers), OrZero(c.totalProxies), OrZero(c.usedProxies))
  }

  /** `systemStats.totalProxies - systemStats.usedProxies`. */
  function AvailableProxies(s: SystemStats): int {
    s.totalProxies - s.usedProxies
  }

  /** The counts the store answers for its own tables. */
  function CountsOf(store: map<string, bool>, users: map<UserId, UserRow>): Counts {
    var active := set u | u in users && users[u].isActive;
    Counts(Some(|users|), Some(|active|), Some(|store|), Some(UsedCount(store)))
  }

  /** With every count answered, the available figure is exactly the number of unclaimed proxies. */
  lemma AvailableIsUnused(proxies: map<string, bool>, users: map<UserId, UserRow>)
    ensures var unused := set v | v in proxies && !proxies[v];
      AvailableProxies(SystemStatsOf(CountsOf(proxies, users))) == |unused| >= 0
  {
    var used := set v | v in proxies && proxies[v];
    var unused := set v | v in proxies && !proxies[v];
    assert used !! unused && used + unused == proxies.Keys;
    assert |used + unused| == |used| + |unused|;
  }

  /** A failed total count next to an answered used count makes the available figure negative. */
  lemma AvailableGoesNegative(used: int)
    requires used > 0
    ensures AvailableProxies(SystemStatsOf(Counts(Some(1), Some(1), None, Some(used)))) == -used
  {
  }

  // ------------------------------------------------------------ page state

  /** What the users or the logs query answers: rows (possibly `null`), or an error / a throw. */
  datatype Query<T> = Rows(data: Option<T>) | QueryError(err: StoreError)

  datatype StatusState = StatusState(userStats: seq<UserStats>, loading: bool, systemStats: SystemStats)

  /**
   * `fetchUserStats`, with the week cutoff read from the variable `cutoffName`:
   * any failure (a query error or an exception) leaves the stats as they were;
   * every path ends with loading cleared.
   */
  function FetchUserStatsWith(st: StatusState, users: Query<seq<User>>, logs: Query<seq<UsageLog>>,
                              now: int, cutoffName: string): (r: StatusState)
    ensures !r.loading && r.systemStats == st.systemStats
    ensures var c := WeekCutoffIn(HandlerScope(now), cutoffName);
      r.userStats == if users.Rows? && logs.Rows? && c.Ok? then ComputeStats(users.data, logs.data, c.value)
                     else st.userStats
  {
    if users.QueryError? || logs.QueryError? then st.(loading := false)
    else
      match WeekCutoffIn(HandlerScope(now), cutoffName)
      case Err(_) => st.(loading := false)
      case Ok(cutoff) => st.(userStats := ComputeStats(users.data, logs.data, cutoff), loading := false)
  }

  /** `fetchUserStats` as written: the cutoff reads `today`, which is not declared. */
  function FetchUserStatsAsWritten(st: StatusState, users: Query<seq<User>>, logs: Query<seq<UsageLog>>,
                                   now: int): (r: StatusState)
    ensures r == st.(loading := false)
  {
    CutoffAsWrittenAlwaysThrows(now);
    FetchUserStatsWith(st, users, logs, now, "today")
  }

  /** `fetchUserStats` with the cutoff a week before `now`. */
  function FetchUserStats(st: StatusState, users: Query<seq<User>>, logs: Query<seq<UsageLog>>,
                          now: int): (r: StatusState)
    ensures !r.loading && r.systemStats == st.systemStats
    ensures users.Rows? && logs.Rows? ==> r.userStats == ComputeStats(users.data, logs.data, now - WeekMillis)
    ensures users.QueryError? || logs.QueryError? ==> r.userStats == st.userStats
  {
    CutoffAsWrittenAlwaysThrows(now);
    FetchUserStatsWith(st, users, logs, now, "now")
  }

  /**
   * `fetchSystemStats`: the counts become the system stats (missing ones as
   * 0); a throw leaves them as they were. The user stats are not touched.
   */
  function FetchSystemStats(st: StatusState, counts: Option<Counts>): (r: StatusState)
    ensures r.userStats == st.userStats && r.loading == st.loading
    ensures counts.Some? ==> r.systemStats == SystemStatsOf(counts.value)
    ensures counts.None? ==> r.systemStats == st.systemStats
  {
    if counts.Some? then st.(systemStats := SystemStatsOf(counts.value)) else st
  }

  /** As written, no answer of the store ever changes the user stats: the table stays empty. */
  lemma AsWrittenNeverShowsStats(users: Query<seq<User>>, logs: Query<seq<UsageLog>>, now: int, system: SystemStats)
    ensures FetchUserStatsAsWritten(StatusState([], true, system), users, logs, now).userStats == []
  {
  }

  /** With the intended cutoff, a successful fetch shows one entry per user, even when there are users but no logs. */
  lemma FetchShowsEveryUser(st: StatusState, users: seq<User>, logs: Query<seq<UsageLog>>, now: int)
    requires logs.Rows?
    ensures var r := FetchUserStats(st, Rows(Some(users)), logs, now);
      && |r.userStats| == |users|
      && forall i :: 0 <= i < |users| ==> r.userStats[i].user == users[i]
  {
  }
}
