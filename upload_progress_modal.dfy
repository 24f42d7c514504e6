/**
 * The upload progress dialog (`UploadProgressModal`): a pure function from its
 * props to what it shows. Only the choices are modelled (which icon, title,
 * message, panels and animations appear, and with which numbers); markup and
 * styling are not.
 */
module UploadProgressDialog {
  import opened Wrappers

  /** The props; the three counts are optional and default to 0. */
  datatype Props = Props(
    isOpen: bool,
    progress: real,
    isComplete: bool,
    fileName: Option<string>,
    duplicateCount: Option<int>,
    totalProcessed: Option<int>,
    successCount: Option<int>)

  datatype Icon = CheckIcon | UploadIcon

  datatype Title = CompleteTitle | UploadingTitle

  datatype Message =
    | AddedMessage(added: int)   // "file uploaded, N new IPs added"
    | AllDuplicateMessage        // "upload complete, every IP was a duplicate"
    | WaitMessage                // "this will take a moment, please wait"

  /** The report panels, in the order the dialog stacks them. */
  datatype Panel =
    | DuplicateReport(processed: int, added: int, duplicates: int)
    | CleanSuccessReport
    | AllDuplicateReport(checked: int, duplicates: int)

  datatype View = View(
    icon: Icon,
    title: Title,
    message: Message,
    fileName: Option<string>,
    panels: seq<Panel>,
    progress: real,
    shimmer: bool,
    loadingAnimation: bool,
    completeBanner: bool)

  function Duplicates(p: Props): int { p.duplicateCount.GetOr(0) }
  function Successes(p: Props): int { p.successCount.GetOr(0) }
  function Processed(p: Props): int { p.totalProcessed.GetOr(0) }

  /** The three report conditions, each as the dialog tests it. */
  predicate ShowsDuplicateReport(p: Props) { p.isComplete && Duplicates(p) > 0 }
  predicate ShowsCleanSuccess(p: Props) { p.isComplete && Duplicates(p) == 0 && Successes(p) > 0 }
  predicate ShowsAllDuplicate(p: Props) { p.isComplete && Successes(p) == 0 && Duplicates(p) > 0 }

  function PanelIf(c: bool, panel: Panel): seq<Panel> {
    if c then [panel] else []
  }

  /**
   * The dialog: nothing while closed; otherwise the icon, title and message
   * for the phase, the file name when there is a non-empty one, the report
   * panels whose conditions hold, and the animations of the running phase or
   * the banner of the finished one.
   */
  function Render(p: Props): (v: Option<View>)
    ensures v.None? <==> !p.isOpen
    ensures v.Some? ==>
      && (v.value.icon == CheckIcon <==> p.isComplete)
      && (v.value.title == CompleteTitle <==> p.isComplete)
      && (v.value.message.WaitMessage? <==> !p.isComplete)
      && (v.value.message.AddedMessage? <==> p.isComplete && Successes(p) > 0)
      && (v.value.message.AddedMessage? ==> v.value.message.added == Successes(p))
      && (v.value.message.AllDuplicateMessage? <==> p.isComplete && Successes(p) <= 0)
      && (v.value.fileName.Some? <==> p.fileName.Some? && p.fileName.value != "")
      && (v.value.fileName.Some? ==> v.value.fileName == p.fileName)
      && (DuplicateReport(Processed(p), Successes(p), Duplicates(p)) in v.value.panels <==> ShowsDuplicateReport(p))
      && (CleanSuccessReport in v.value.panels <==> ShowsCleanSuccess(p))
      && (AllDuplicateReport(Processed(p), Duplicates(p)) in v.value.panels <==> ShowsAllDuplicate(p))
      && (forall i :: 0 <= i < |v.value.panels| ==>
            v.value.panels[i] in [DuplicateReport(Processed(p), Successes(p), Duplicates(p)),
                                  CleanSuccessReport, AllDuplicateReport(Processed(p), Duplicates(p))])
      && v.value.progress == p.progress
      && (v.value.shimmer <==> !p.isComplete)
      && (v.value.loadingAnimation <==> !p.isComplete)
      && (v.value.completeBanner <==> p.isComplete)
  {
    if !p.isOpen then None
    else
      var done, s, d, t := p.isComplete, Successes(p), Duplicates(p), Processed(p);
      Some(View(
        if done then CheckIcon else UploadIcon,
        if done then CompleteTitle else UploadingTitle,
        if done then (if s > 0 then AddedMessage(s) else AllDuplicateMessage) else WaitMessage,
        if p.fileName.Some? && p.fileName.value != "" then p.fileName else None,
        PanelIf(ShowsDuplicateReport(p), DuplicateReport(t, s, d))
          + PanelIf(ShowsCleanSuccess(p), CleanSuccessReport)
          + PanelIf(ShowsAllDuplicate(p), AllDuplicateReport(t, d)),
        p.progress,
        !done,
        !done,
        done))
  }

  /** The all-duplicate report never shows alone: the duplicate report is always above it. */
  lemma AllDuplicateImpliesDuplicateReport(p: Props)
    requires Render(p).Some? && AllDuplicateReport(Processed(p), Duplicates(p)) in Render(p).value.panels
    ensures DuplicateReport(Processed(p), Successes(p), Duplicates(p)) in Render(p).value.panels
    ensures Render(p).value.panels
         == [DuplicateReport(Processed(p), Successes(p), Duplicates(p)), AllDuplicateReport(Processed(p), Duplicates(p))]
  {
  }

  /** The clean-success panel shows only by itself. */
  lemma CleanSuccessAlone(p: Props)
    requires Render(p).Some? && CleanSuccessReport in Render(p).value.panels
    ensures Render(p).value.panels == [CleanSuccessReport]
  {
  }

  /**
   * Which panels a finished upload shows, for every pair of counts: both
   * duplicate panels when nothing was added and something was a duplicate,
   * the duplicate report alone for a mix, the clean-success panel alone for
   * additions only, and nothing at all when both counts are 0.
   */
  lemma CompletedPanels(p: Props)
    requires p.isOpen && p.isComplete
    ensures var panels, s, d, t := Render(p).value.panels, Successes(p), Duplicates(p), Processed(p);
      && (s == 0 && d > 0 ==> panels == [DuplicateReport(t, s, d), AllDuplicateReport(t, d)])
      && (s != 0 && d > 0 ==> panels == [DuplicateReport(t, s, d)])
      && (s > 0 && d == 0 ==> panels == [CleanSuccessReport])
      && (s <= 0 && d <= 0 ==> panels == [])
      && |panels| <= 2
  {
  }

  /** While the upload runs no report shows, whatever the counts say. */
  lemma RunningShowsNoReport(p: Props)
    requires p.isOpen && !p.isComplete
    ensures Render(p).value.panels == []
    ensures Render(p).value.message == WaitMessage
  {
  }

  /**
   * A finished upload with nothing added and nothing duplicate (every insert
   * failed some other way) still says that every IP was a duplicate, though no
   * duplicate panel appears.
   */
  lemma EmptyRunSaysAllDuplicate(p: Props)
    requires p.isOpen && p.isComplete && Successes(p) == 0 && Duplicates(p) == 0
    ensures Render(p).value.message == AllDuplicateMessage
    ensures forall i :: 0 <= i < |Render(p).value.panels| ==> !Render(p).value.panels[i].DuplicateReport?
  {
  }
}
