/**
 * The admin screen's handlers over the table store: the proxy upload
 * (`handleFileUpload`) and the history and user-management actions beside it.
 * Page state that the handlers set (progress dialog, counters, form) lives in
 * the fields of `Admin`; the tables live in its `Store`.
 */
module AdminPage {
  import opened Wrappers
  import opened TextOps
  import opened TableStore
  import opened Ingestion
  import Dialog = UploadProgressDialog

  datatype UploadFile = UploadFile(name: string, text: string)

  datatype NewUserForm = NewUserForm(username: string, accessKey: string, role: Role)

  /** The create-user form as it starts and as a successful create leaves it. */
  const BlankForm := NewUserForm("", "", UserRole)

  /** How the outside world answers during one upload: reading the file, each insert, the history write. */
  datatype UploadFaults = UploadFaults(readFails: bool, inserts: seq<Fault>, history: Fault)

  /** The toast an upload ends with. */
  datatype Notice = UploadSummary(summary: Summary) | NoValidProxies | UploadFailed

  class Admin {
    const store: Store
    /** The logged-in user from the authentication context. */
    const user: Option<UserId>

    var file: Option<UploadFile>
    var position: Placement
    var loading: bool
    var newUser: NewUserForm
    var uploadProgress: real
    /** Every value pushed to `uploadProgress`, oldest first. */
    ghost var progressTrace: seq<real>
    var showUploadProgress: bool
    var uploadComplete: bool
    var uploadStats: UploadStats
    var lastUploadCount: nat
    var showLimitWarning: bool
    var notice: Option<Notice>

    ghost predicate Valid()
      reads store
    {
      store.Valid()
    }

    /** The props the page passes to the progress dialog. */
    function DialogProps(): Dialog.Props
      reads this
    {
      Dialog.Props(showUploadProgress, uploadProgress, uploadComplete,
                   if file.Some? then Some(file.value.name) else None,
                   Some(uploadStats.duplicateCount), Some(uploadStats.totalProcessed), Some(uploadStats.successCount))
    }

    constructor (store: Store, user: Option<UserId>)
      requires store.Valid()
      ensures Valid()
      ensures this.store == store && this.user == user
      ensures file == None && position == Append && !loading && newUser == BlankForm
      ensures uploadProgress == 0.0 && progressTrace == [] && !showUploadProgress && !uploadComplete
      ensures uploadStats == UploadStats(0, 0, 0) && lastUploadCount == 0 && !showLimitWarning && notice == None
    {
      this.store, this.user := store, user;
      file, position, loading, newUser := None, Append, false, BlankForm;
      uploadProgress, progressTrace := 0.0, [];
      showUploadProgress, uploadComplete := false, false;
      uploadStats, lastUploadCount, showLimitWarning, notice := UploadStats(0, 0, 0), 0, false, None;
    }

    /** The file input's `onChange`. */
    method SelectFile(f: Option<UploadFile>)
      modifies this`file
      ensures file == f
    {
      file := f;
    }

    method SetProgress(p: real)
      modifies this`uploadProgress, this`progressTrace
      ensures uploadProgress == p && progressTrace == old(progressTrace) + [p]
    {
      uploadProgress, progressTrace := p, progressTrace + [p];
    }

    /**
     * `handleFileUpload`: with a file selected and a user logged in, parse the
     * file, insert every non-blank line (trimmed) one at a time, tally each
     * answer, push progress, record one history row, and pick the summary
     * message; otherwise do nothing.
     */
    method HandleFileUpload(faults: UploadFaults)
      requires Valid()
      modifies this, store
      ensures Valid()
      ensures store.users == old(store.users) && position == old(position) && newUser == old(newUser)
      // no file selected or nobody logged in: nothing happens
      ensures old(file).None? || user.None? ==>
        && unchanged(this) && store.proxies == old(store.proxies) && store.history == old(store.history)
      ensures old(file).Some? && user.Some? ==>
        Uploaded(old(file).value, faults, old(store.proxies), old(store.history), old(store.nextHistoryId),
                 old(progressTrace), old(lastUploadCount), old(showLimitWarning))
    {
      if file.None? || user.None? {
        return;
      }
      UploadSelected(file.value, faults);
    }

    /**
     * How an upload of `picked` ends, from the table, history, progress trace,
     * last upload count and limit-warning flag it started with: loading cleared
     * in every case, and then one of
     *  - the file cannot be read: error toast, dialog closed, no store call;
     *  - no non-blank line: "no valid proxies" toast, dialog closed, no store call;
     *  - otherwise `UploadOutcome`.
     */
    ghost predicate Uploaded(picked: UploadFile, faults: UploadFaults, proxies0: map<string, bool>,
                             history0: seq<HistoryRow>, nextId: HistoryId, trace0: seq<real>,
                             count0: nat, warn0: bool)
      reads this, store
    {
      var candidates := Candidates(picked.text);
      && !loading
      && (faults.readFails ==>
            && store.proxies == proxies0 && store.history == history0
            && progressTrace == trace0 + [0.0, 10.0] && uploadProgress == 10.0
            && notice == Some(UploadFailed) && !showUploadProgress && !uploadComplete
            && uploadStats == UploadStats(0, 0, 0) && file == Some(picked)
            && lastUploadCount == count0 && showLimitWarning == warn0)
      && (!faults.readFails && candidates == [] ==>
            && store.proxies == proxies0 && store.history == history0
            && progressTrace == trace0 + [0.0, 10.0, 20.0] && uploadProgress == 20.0
            && notice == Some(NoValidProxies) && !showUploadProgress && !uploadComplete
            && uploadStats == UploadStats(0, 0, 0) && file == Some(picked)
            && lastUploadCount == count0 && showLimitWarning == warn0)
      && (!faults.readFails && candidates != [] ==>
            UploadOutcome(picked, candidates, faults.inserts, faults.history, proxies0, history0, nextId, trace0,
                          count0, warn0))
    }

    /** The body of `handleFileUpload` past its guard. */
    method UploadSelected(picked: UploadFile, faults: UploadFaults)
      requires Valid() && user.Some? && file == Some(picked)
      modifies this`uploadProgress, this`progressTrace, this`uploadStats, this`notice, this`showUploadProgress,
               this`loading, this`uploadComplete, this`file, this`lastUploadCount, this`showLimitWarning
      modifies store`proxies, store`history, store`nextHistoryId
      ensures Valid()
      ensures Uploaded(picked, faults, old(store.proxies), old(store.history), old(store.nextHistoryId),
                       old(progressTrace), old(lastUploadCount), old(showLimitWarning))
    {
      BeginUpload();
      if faults.readFails {
        CatchUploadError();
        return;
      }
      var text := picked.text;
      SetProgress(20.0);

      var proxies := Candidates(text);
      if |proxies| == 0 {
        notice := Some(NoValidProxies);
        showUploadProgress := false;
        loading := false;
        return;
      }
      UploadBatch(picked, proxies, faults.inserts, faults.history, old(progressTrace));
    }

    /** The handler's opening: the dialog opens at 0, the stats reset, loading starts, then 10 (reading). */
    method BeginUpload()
      modifies this`showUploadProgress, this`uploadProgress, this`progressTrace, this`uploadComplete,
               this`uploadStats, this`loading
      ensures showUploadProgress && !uploadComplete && uploadStats == UploadStats(0, 0, 0) && loading
      ensures progressTrace == old(progressTrace) + [0.0, 10.0] && uploadProgress == 10.0
    {
      showUploadProgress := true;
      SetProgress(0.0);
      uploadComplete := false;
      uploadStats := UploadStats(0, 0, 0);
      loading := true;
      SetProgress(10.0);
    }

    /**
     * What an upload of `picked`, whose non-blank lines are `proxies`, leaves
     * behind: the proxies table after the insert run, the stats of that run, one
     * history row unless the history write failed, the complete progress trace,
     * and either the summary toast (history write answered) or the error toast
     * (history write threw).
     */
    ghost predicate UploadOutcome(picked: UploadFile, proxies: seq<string>, inserts: seq<Fault>, history: Fault,
                                  proxies0: map<string, bool>, history0: seq<HistoryRow>, nextId: HistoryId,
                                  trace0: seq<real>, count0: nat, warn0: bool)
      requires proxies != []
      reads this, store
    {
      var values := Values(proxies);
      var run := Run(proxies0, values, inserts);
      var stats := StatsOf(run.replies);
      && store.proxies == run.proxies
      && progressTrace == trace0 + UploadTrace(run.replies, |values|, PlainReply(history))
      && Finished(picked, stats, history, history0, nextId, count0, warn0)
    }

    /**
     * The state after the insert loop, once the stats are in: one history row
     * unless the history write failed, the progress bar at 85 or 100, and the
     * matching toast; the last upload count and the limit warning change only
     * when the upload completes.
     */
    ghost predicate Finished(picked: UploadFile, stats: UploadStats, history: Fault,
                             history0: seq<HistoryRow>, nextId: HistoryId, count0: nat, warn0: bool)
      reads this, store
    {
      var h := PlainReply(history);
      && user.Some?
      && uploadStats == stats
      && store.history == history0
           + (if h.Ok? then [HistoryRow(nextId, user.value, picked.name, stats.successCount, Append)] else [])
      && !loading
      && uploadProgress == (if h.Thrown? then 85.0 else 100.0)
      && (h.Thrown? ==>
            && notice == Some(UploadFailed) && !showUploadProgress && !uploadComplete && file == Some(picked)
            && lastUploadCount == count0 && showLimitWarning == warn0)
      && (!h.Thrown? ==>
            && notice == Some(UploadSummary(SummaryFor(stats.successCount, stats.duplicateCount)))
            && showUploadProgress && uploadComplete && file == None
            && lastUploadCount == stats.successCount && showLimitWarning)
    }

    /** The part of `handleFileUpload` after parsing: the insert loop, then `FinishUpload`. */
    method UploadBatch(picked: UploadFile, proxies: seq<string>, inserts: seq<Fault>, history: Fault,
                       ghost trace0: seq<real>)
      requires Valid() && proxies != [] && user.Some? && file == Some(picked) && showUploadProgress && !uploadComplete
      requires progressTrace == trace0 + [0.0, 10.0, 20.0]
      modifies this`uploadProgress, this`progressTrace, this`uploadStats, this`notice, this`showUploadProgress,
               this`loading, this`uploadComplete, this`file, this`lastUploadCount, this`showLimitWarning
      modifies store`proxies, store`history, store`nextHistoryId
      ensures Valid()
      ensures UploadOutcome(picked, proxies, inserts, history, old(store.proxies), old(store.history),
                            old(store.nextHistoryId), trace0, old(lastUploadCount), old(showLimitWarning))
    {
      ghost var run := Run(store.proxies, Values(proxies), inserts);
      var totalProxies := |proxies|;
      ghost var replies;
      var successCount, duplicateCount;
      successCount, duplicateCount, replies := InsertProxies(proxies, inserts);
      assert replies == run.replies && |replies| == totalProxies;
      FinishUpload(picked, UploadStats(totalProxies, successCount, duplicateCount), history);
      assert progressTrace == trace0 + UploadTrace(replies, totalProxies, PlainReply(history));
    }

    /**
     * From `setUploadStats` to the end of `handleFileUpload`: record the stats,
     * write the history row (an error answer is ignored, a throw ends in the
     * catch block) and, unless it threw, complete the upload.
     */
    method FinishUpload(picked: UploadFile, stats: UploadStats, history: Fault)
      requires Valid() && user.Some? && file == Some(picked) && showUploadProgress && !uploadComplete
      modifies this`uploadProgress, this`progressTrace, this`uploadStats, this`notice, this`showUploadProgress,
               this`loading, this`uploadComplete, this`file, this`lastUploadCount, this`showLimitWarning
      modifies store`history, store`nextHistoryId
      ensures Valid()
      ensures Finished(picked, stats, history, old(store.history), old(store.nextHistoryId),
                       old(lastUploadCount), old(showLimitWarning))
      ensures progressTrace == old(progressTrace) + [85.0]
        + (if PlainReply(history).Thrown? then [] else [95.0, 100.0])
    {
      uploadStats := stats;
      SetProgress(85.0);
      var h := store.InsertHistory(user.value, picked.name, stats.successCount, Append, history);
      if h.Thrown? {
        CatchUploadError();
      } else {
        CompleteUpload(stats);
      }
    }

    /** The handler's `catch`: the error toast, the dialog closed, then `setLoading(false)`. */
    method CatchUploadError()
      modifies this`notice, this`showUploadProgress, this`loading
      ensures notice == Some(UploadFailed) && !showUploadProgress && !loading
    {
      notice := Some(UploadFailed);
      showUploadProgress := false;
      loading := false;
    }

    /** The last pushes to 95 and 100, the summary toast, and the reset of the file input. */
    method CompleteUpload(stats: UploadStats)
      modifies this`uploadProgress, this`progressTrace, this`uploadComplete, this`notice, this`file,
               this`lastUploadCount, this`showLimitWarning, this`loading
      ensures progressTrace == old(progressTrace) + [95.0, 100.0] && uploadProgress == 100.0
      ensures uploadComplete && file == None && !loading
      ensures notice == Some(UploadSummary(SummaryFor(stats.successCount, stats.duplicateCount)))
      ensures lastUploadCount == stats.successCount && showLimitWarning
    {
      SetProgress(95.0);
      SetProgress(100.0);
      uploadComplete := true;
      notice := Some(UploadSummary(SummaryFor(stats.successCount, stats.duplicateCount)));
      file := None;
      lastUploadCount := stats.successCount;
      showLimitWarning := true;
      loading := false;
    }

    /**
     * One pass of the insert loop's body: insert the trimmed line, tally the
     * answer, and push progress unless the insert threw.
     */
    method InsertOne(proxy: string, f: Fault, processedCount: nat, totalProxies: nat,
                     successCount: nat, duplicateCount: nat)
      returns (r: Reply, processed': nat, success': nat, duplicates': nat)
      requires processedCount < totalProxies
      modifies store`proxies, this`uploadProgress, this`progressTrace
      ensures r == UniqueInsertReply(Trim(proxy) in old(store.proxies), f)
      ensures store.proxies == ProxiesAfterInsert(old(store.proxies), Trim(proxy), r)
      ensures processed' == processedCount + 1
      ensures success' == successCount + (if Classify(r) == Added then 1 else 0)
      ensures duplicates' == duplicateCount + (if Classify(r) == Duplicate then 1 else 0)
      ensures progressTrace == old(progressTrace)
        + (if r.Thrown? then [] else [InsertProgress(processedCount + 1, totalProxies)])
      ensures uploadProgress == if r.Thrown? then old(uploadProgress) else InsertProgress(processedCount + 1, totalProxies)
    {
      processed', success', duplicates' := processedCount, successCount, duplicateCount;
      r := store.InsertProxy(Trim(proxy), f);
      if r.Thrown? {
        duplicates' := duplicates' + 1;
        processed' := processed' + 1;
      } else {
        if r.Rejected? {
          if IsDuplicateError(r.err) {
            duplicates' := duplicates' + 1;
          }
        } else {
          success' := success' + 1;
        }
        processed' := processed' + 1;
        SetProgress(InsertProgress(processed', totalProxies));
      }
    }

    /**
     * The insert loop of `handleFileUpload`: one insert per candidate, in order,
     * tallying each answer and pushing progress after each one that did not throw.
     */
    method InsertProxies(proxies: seq<string>, inserts: seq<Fault>)
      returns (successCount: nat, duplicateCount: nat, ghost replies: seq<Reply>)
      requires proxies != []
      modifies store`proxies, this`uploadProgress, this`progressTrace
      ensures var run := Run(old(store.proxies), Values(proxies), inserts);
        replies == run.replies && store.proxies == run.proxies
      ensures successCount == Count(replies, Added) && duplicateCount == Count(replies, Duplicate)
      ensures progressTrace == old(progressTrace) + InsertPhase(replies, |proxies|)
    {
      var totalProxies := |proxies|;
      var processedCount := 0;
      successCount, duplicateCount := 0, 0;
      ghost var values := Values(proxies);
      ghost var start := store.proxies;
      ghost var traceBefore := progressTrace;
      replies := [];

      for i := 0 to totalProxies
        invariant processedCount == i && |replies| == i
        invariant replies == Run(start, values[..i], inserts).replies
        invariant store.proxies == Run(start, values[..i], inserts).proxies
        invariant successCount == Count(replies, Added) && duplicateCount == Count(replies, Duplicate)
        invariant progressTrace == traceBefore + InsertPhase(replies, totalProxies)
      {
        RunStep(start, values, inserts, i);
        var r;
        r, processedCount, successCount, duplicateCount :=
          InsertOne(proxies[i], FaultAt(inserts, i), processedCount, totalProxies, successCount, duplicateCount);
        CountStep(replies, r, Added);
        CountStep(replies, r, Duplicate);
        InsertPhaseStep(replies, r, totalProxies);
        replies := replies + [r];
      }
      assert values[..totalProxies] == values;
    }

    /** `deleteUploadHistory(id)`: on success only the row with that id is gone; proxies are not touched. */
    method DeleteUploadHistory(id: HistoryId, f: Fault)
      requires Valid()
      modifies store`history
      ensures Valid()
      ensures store.proxies == old(store.proxies)
      ensures PlainReply(f).Ok? ==> store.history == WithoutRow(old(store.history), id)
      ensures !PlainReply(f).Ok? ==> store.history == old(store.history)
    {
      var r := store.DeleteHistory(id, f);
    }

    /** The create-user form's `onChange` handlers. */
    method EditNewUser(form: NewUserForm)
      modifies this`newUser
      ensures newUser == form
    {
      newUser := form;
    }

    /**
     * `createUser`: a form with an empty username or access key changes
     * nothing; otherwise one user is added (active, with the form's role) and
     * the form is cleared, unless the store call fails.
     */
    method CreateUser(f: Fault)
      requires Valid()
      modifies store`users, store`nextUserId, this`newUser
      ensures Valid()
      ensures old(newUser).username == [] || old(newUser).accessKey == [] ==>
        store.users == old(store.users) && newUser == old(newUser)
      ensures old(newUser).username != [] && old(newUser).accessKey != [] && PlainReply(f).Ok? ==>
        && old(store.nextUserId) !in old(store.users)
        && store.users == old(store.users)[old(store.nextUserId) :=
             UserRow(old(newUser).username, old(newUser).accessKey, old(newUser).role, true)]
        && newUser == BlankForm
      ensures !PlainReply(f).Ok? ==> store.users == old(store.users) && newUser == old(newUser)
    {
      if newUser.username == [] || newUser.accessKey == [] {
        return;
      }
      var r := store.InsertUser(newUser.username, newUser.accessKey, newUser.role, f);
      if !r.Ok? {
        return;
      }
      newUser := BlankForm;
    }

    /** `toggleUserStatus(userId, currentStatus)`: writes `!currentStatus` to that user's row. */
    method ToggleUserStatus(userId: UserId, currentStatus: bool, f: Fault)
      requires Valid()
      modifies store`users
      ensures Valid()
      ensures PlainReply(f).Ok? && userId in old(store.users) ==>
        store.users == old(store.users)[userId := old(store.users)[userId].(isActive := !currentStatus)]
      ensures !PlainReply(f).Ok? || userId !in old(store.users) ==> store.users == old(store.users)
    {
      var r := store.SetUserActive(userId, !currentStatus, f);
    }

    /**
     * `deleteUser(userId)`: refuses the logged-in user's own id, then asks for
     * confirmation (`confirmed` is the answer), then deletes that one user.
     */
    method DeleteUser(userId: UserId, confirmed: bool, f: Fault)
      requires Valid()
      modifies store`users
      ensures Valid()
      ensures user == Some(userId) || !confirmed || !PlainReply(f).Ok? ==> store.users == old(store.users)
      ensures user != Some(userId) && confirmed && PlainReply(f).Ok? ==> store.users == old(store.users) - {userId}
    {
      if user == Some(userId) {
        return;
      }
      if !confirmed {
        return;
      }
      var r := store.DeleteUser(userId, f);
    }

    /** `deleteAllProxies`: two confirmations (`first`, `second`), then every proxy row goes. */
    method DeleteAllProxies(first: bool, second: bool, f: Fault)
      modifies store`proxies
      ensures first && second && PlainReply(f).Ok? ==> store.proxies == map[]
      ensures !first || !second || !PlainReply(f).Ok? ==> store.proxies == old(store.proxies)
    {
      if !first {
        return;
      }
      if !second {
        return;
      }
      var r := store.DeleteAllProxies(f);
    }
  }

  /**
   * The toast and the dialog's report panels tell the same story for every
   * pair of final counts: the all-duplicate toast goes with the all-duplicate
   * panel, the mixed toast with the duplicate report alone, and the success
   * toast with the clean-success panel, or with no panel at all when nothing
   * was added.
   */
  lemma ToastMatchesPanels(added: nat, duplicates: nat, processed: nat, progress: real, name: Option<string>)
    ensures var p := Dialog.Props(true, progress, true, name, Some(duplicates), Some(processed), Some(added));
      var panels := Dialog.Render(p).value.panels;
      var m := SummaryFor(added, duplicates);
      && (m.AllDuplicates? <==> Dialog.AllDuplicateReport(processed, duplicates) in panels)
      && (m.MixedResult? <==> panels == [Dialog.DuplicateReport(processed, added, duplicates)])
      && (m.AllAdded? && added > 0 <==> panels == [Dialog.CleanSuccessReport])
      && (m == AllAdded(0) <==> panels == [])
  {
    var p := Dialog.Props(true, progress, true, name, Some(duplicates), Some(processed), Some(added));
    Dialog.CompletedPanels(p);
  }

  /**
   * Right after an upload whose history write did not throw, the dialog is
   * open on the finished view at 100, shows no file name (the input was
   * cleared), and reports the run's own counts.
   */
  lemma DialogAfterUpload(a: Admin, picked: UploadFile, proxies: seq<string>, inserts: seq<Fault>, history: Fault,
                          proxies0: map<string, bool>, history0: seq<HistoryRow>, nextId: HistoryId,
                          trace0: seq<real>, count0: nat, warn0: bool)
    requires proxies != []
    requires a.UploadOutcome(picked, proxies, inserts, history, proxies0, history0, nextId, trace0, count0, warn0)
    requires !PlainReply(history).Thrown?
    ensures var v := Dialog.Render(a.DialogProps());
      var stats := StatsOf(Run(proxies0, Values(proxies), inserts).replies);
      && v.Some? && v.value.completeBanner && !v.value.loadingAnimation
      && v.value.progress == 100.0 && v.value.fileName.None?
      && stats.totalProcessed == |proxies|
      && (Dialog.DuplicateReport(|proxies|, stats.successCount, stats.duplicateCount) in v.value.panels
          <==> stats.duplicateCount > 0)
  {
  }
}
