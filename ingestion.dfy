/**
 * Pure specification of the proxy upload pipeline of the admin screen: which
 * lines of an uploaded file become candidates, what the store answers for
 * each insert, how each answer is tallied, the progress values pushed to the
 * screen, and which summary message is chosen.
 */
module Ingestion {
  import opened TextOps
  import opened TableStore

  // ---------------------------------------------------------------- parsing

  /** `filter(line => line.trim())`: keep the lines whose trim is non-empty. */
  function NonBlankLines(lines: seq<string>): (r: seq<string>)
    ensures forall x :: x in r <==> x in lines && Trim(x) != ""
    ensures |r| <= |lines|
  {
    if lines == [] then []
    else if Trim(lines[0]) != "" then [lines[0]] + NonBlankLines(lines[1..])
    else NonBlankLines(lines[1..])
  }

  /** The filter keeps order: it distributes over concatenation. */
  lemma {:induction false} NonBlankLinesAppend(a: seq<string>, b: seq<string>)
    ensures NonBlankLines(a + b) == NonBlankLines(a) + NonBlankLines(b)
  {
    if a == [] {
      assert a + b == b;
    } else {
      var rest := a[1..] + b;
      assert a + b == [a[0]] + rest;
      assert (a + b)[1..] == rest;
      NonBlankLinesAppend(a[1..], b);
    }
  }

  /** `text.split('\n').filter(line => line.trim())`; the kept lines are not trimmed. */
  function Candidates(text: string): (r: seq<string>)
    ensures forall i :: 0 <= i < |r| ==> '\n' !in r[i] && Trim(r[i]) != ""
    ensures forall i :: 0 <= i < |r| ==> r[i] in Split(text)
  {
    var r := NonBlankLines(Split(text));
    assert forall i :: 0 <= i < |r| ==> r[i] in r;
    r
  }

  /** For a file written as lines, the candidates are exactly its non-blank lines, in order. */
  lemma CandidatesOfLines(lines: seq<string>)
    requires |lines| >= 1
    requires forall i :: 0 <= i < |lines| ==> '\n' !in lines[i]
    ensures Candidates(Join(lines)) == NonBlankLines(lines)
  {
    SplitJoin(lines);
  }

  /** The upload is aborted (no candidates) exactly when the file is white space only. */
  lemma NoCandidatesIffBlank(text: string)
    ensures Candidates(text) == [] <==> IsBlank(text)
  {
    var pieces := Split(text);
    JoinBlank(pieces);
    NoNonBlankLines(pieces);
  }

  /** The filter drops everything exactly when every line is white space only. */
  lemma {:induction false} NoNonBlankLines(lines: seq<string>)
    ensures NonBlankLines(lines) == [] <==> forall i :: 0 <= i < |lines| ==> IsBlank(lines[i])
  {
    if lines != [] {
      TrimEmptyIffBlank(lines[0]);
      NoNonBlankLines(lines[1..]);
      assert forall i :: 1 <= i < |lines| ==> lines[i] == lines[1..][i - 1];
    }
  }

  /** Line feeds are white space, so a joined text is blank iff every piece is. */
  lemma {:induction false} JoinBlank(lines: seq<string>)
    ensures IsBlank(Join(lines)) <==> forall i :: 0 <= i < |lines| ==> IsBlank(lines[i])
  {
    if |lines| > 1 {
      JoinBlank(lines[1..]);
      var j := Join(lines[1..]);
      var s := lines[0] + "\n" + j;
      assert IsBlank(s) <==> IsBlank(lines[0]) && IsBlank(j) by {
        if IsBlank(lines[0]) && IsBlank(j) {
          forall k | 0 <= k < |s| ensures IsSpace(s[k]) {
            if k > |lines[0]| { assert s[k] == j[k - |lines[0]| - 1]; }
          }
        }
        if IsBlank(s) {
          forall k | 0 <= k < |j| ensures IsSpace(j[k]) { assert j[k] == s[k + |lines[0]| + 1]; }
          forall k | 0 <= k < |lines[0]| ensures IsSpace(lines[0][k]) { assert lines[0][k] == s[k]; }
        }
      }
      forall i | 1 <= i < |lines| ensures lines[i] == lines[1..][i - 1] { }
    }
  }

  /** What is sent to the store for each candidate: `proxy.trim()`. */
  function Values(candidates: seq<string>): (vs: seq<string>)
    ensures |vs| == |candidates|
    ensures forall i :: 0 <= i < |vs| ==> vs[i] == Trim(candidates[i])
  {
    seq(|candidates|, i requires 0 <= i < |candidates| => Trim(candidates[i]))
  }

  // ---------------------------------------------------------- classification

  datatype Verdict = Added | Duplicate | Ignored

  /** `error.code === '23505' || error.message.includes('duplicate') || error.message.includes('unique')`. */
  predicate IsDuplicateError(e: StoreError) {
    e.code == "23505" || Contains(e.message, "duplicate") || Contains(e.message, "unique")
  }

  /** How the loop tallies one insert: an error-free reply adds, a thrown call counts as a duplicate. */
  function Classify(r: Reply): Verdict {
    match r
    case Ok => Added
    case Thrown => Duplicate
    case Rejected(e) => if IsDuplicateError(e) then Duplicate else Ignored
  }

  /**
   * An error is taken for a duplicate exactly when its code is 23505 or its
   * message has "duplicate" or "unique" somewhere in it.
   */
  lemma DuplicateErrorIff(e: StoreError)
    ensures IsDuplicateError(e) <==>
      || e.code == "23505"
      || (exists i: nat :: OccursAt(e.message, "duplicate", i))
      || (exists i: nat :: OccursAt(e.message, "unique", i))
  {
    ContainsIff(e.message, "duplicate");
    ContainsIff(e.message, "unique");
  }

  /** An error with another code whose message names neither word is not a duplicate: it is only logged. */
  lemma DeniedIsNotDuplicate(e: StoreError)
    requires e.code != "23505"
    requires forall i: nat :: !OccursAt(e.message, "duplicate", i) && !OccursAt(e.message, "unique", i)
    ensures !IsDuplicateError(e) && Classify(Rejected(e)) == Ignored
  {
    DuplicateErrorIff(e);
  }

  /** The verdict for inserting `value` into `proxies` when the remote side answers with `f`. */
  lemma InsertVerdictCases(proxies: map<string, bool>, value: string, f: Fault)
    ensures var v := Classify(UniqueInsertReply(value in proxies, f));
      && (f.NoFault? ==> (v == Added <==> value !in proxies) && (v == Duplicate <==> value in proxies))
      && (f.Throw? ==> v == Duplicate)
      && (f.FailWith? ==> v != Added && (v == Duplicate <==> IsDuplicateError(f.err)))
  {
  }

  // ---------------------------------------------------------------- the run

  /** The fault the store answers the `i`-th insert with; none beyond the given schedule. */
  function FaultAt(faults: seq<Fault>, i: nat): Fault {
    if i < |faults| then faults[i] else NoFault
  }

  predicate NoFaults(faults: seq<Fault>, n: nat) {
    forall i :: 0 <= i < n ==> FaultAt(faults, i) == NoFault
  }

  datatype RunState = RunState(proxies: map<string, bool>, replies: seq<Reply>)

  /** Inserting `values` one at a time, in order, starting from table `start`. */
  function Run(start: map<string, bool>, values: seq<string>, faults: seq<Fault>): (s: RunState)
    decreases |values|
    ensures |s.replies| == |values|
    ensures start.Keys <= s.proxies.Keys
    ensures forall v :: v in start ==> s.proxies[v] == start[v]
    ensures forall v :: v in s.proxies ==> v in start || v in values
  {
    if values == [] then RunState(start, [])
    else
      var n := |values| - 1;
      var s := Run(start, values[..n], faults);
      var r := UniqueInsertReply(values[n] in s.proxies, FaultAt(faults, n));
      RunState(ProxiesAfterInsert(s.proxies, values[n], r), s.replies + [r])
  }

  /** One more insert extends the run by one reply. */
  lemma RunStep(start: map<string, bool>, values: seq<string>, faults: seq<Fault>, i: nat)
    requires i < |values|
    ensures var s := Run(start, values[..i], faults);
      var r := UniqueInsertReply(values[i] in s.proxies, FaultAt(faults, i));
      Run(start, values[..i + 1], faults) == RunState(ProxiesAfterInsert(s.proxies, values[i], r), s.replies + [r])
  {
    assert values[..i + 1][..i] == values[..i];
  }

  /** Running a prefix of the values gives a prefix of the replies. */
  lemma {:induction false} RunPrefix(start: map<string, bool>, values: seq<string>, faults: seq<Fault>, k: nat)
    requires k <= |values|
    ensures Run(start, values[..k], faults).replies == Run(start, values, faults).replies[..k]
    decreases |values|
  {
    if k < |values| {
      var n := |values| - 1;
      assert values[..n][..k] == values[..k];
      RunPrefix(start, values[..n], faults, k);
    } else {
      assert values[..k] == values;
    }
  }

  /** The `j`-th reply is what the store answers given the table the first `j` inserts left. */
  lemma RunReplyAt(start: map<string, bool>, values: seq<string>, faults: seq<Fault>, j: nat)
    requires j < |values|
    ensures Run(start, values, faults).replies[j]
         == UniqueInsertReply(values[j] in Run(start, values[..j], faults).proxies, FaultAt(faults, j))
  {
    RunPrefix(start, values, faults, j + 1);
    assert values[..j + 1][..j] == values[..j];
  }

  /** Without faults, every value ends up in the table. */
  lemma {:induction false} RunKeysNoFaults(start: map<string, bool>, values: seq<string>, faults: seq<Fault>)
    requires NoFaults(faults, |values|)
    ensures Run(start, values, faults).proxies.Keys == start.Keys + set v | v in values
    decreases |values|
  {
    if values != [] {
      var n := |values| - 1;
      RunKeysNoFaults(start, values[..n], faults);
      assert values == values[..n] + [values[n]];
      assert (set v | v in values) == (set v | v in values[..n]) + {values[n]};
    }
  }

  /**
   * Without faults, an insert adds exactly when its value is neither in the
   * starting table nor earlier in the batch, and counts as a duplicate otherwise.
   */
  lemma RunVerdictsNoFaults(start: map<string, bool>, values: seq<string>, faults: seq<Fault>, j: nat)
    requires NoFaults(faults, |values|)
    requires j < |values|
    ensures Classify(Run(start, values, faults).replies[j]) == Added
        <==> values[j] !in start && values[j] !in values[..j]
    ensures Classify(Run(start, values, faults).replies[j]) == Duplicate
        <==> values[j] in start || values[j] in values[..j]
  {
    RunReplyAt(start, values, faults, j);
    RunKeysNoFaults(start, values[..j], faults);
    assert NoFaults(faults, |values[..j]|);
  }

  // ---------------------------------------------------------------- tallies

  /** How many replies received verdict `v`. */
  function Count(replies: seq<Reply>, v: Verdict): nat
  {
    if replies == [] then 0
    else Count(replies[..|replies| - 1], v) + (if Classify(replies[|replies| - 1]) == v then 1 else 0)
  }

  lemma CountStep(replies: seq<Reply>, r: Reply, v: Verdict)
    ensures Count(replies + [r], v) == Count(replies, v) + (if Classify(r) == v then 1 else 0)
  {
    assert (replies + [r])[..|replies|] == replies;
  }

  /** No count is missed or shared: the three verdict counts add up to the number of replies. */
  lemma {:induction false} CountsPartition(replies: seq<Reply>)
    ensures Count(replies, Added) + Count(replies, Duplicate) + Count(replies, Ignored) == |replies|
  {
    if replies != [] {
      CountsPartition(replies[..|replies| - 1]);
    }
  }

  /** A verdict is counted zero times exactly when no reply received it. */
  lemma {:induction false} CountZero(replies: seq<Reply>, v: Verdict)
    ensures Count(replies, v) == 0 <==> forall i :: 0 <= i < |replies| ==> Classify(replies[i]) != v
  {
    if replies != [] {
      var n := |replies| - 1;
      CountZero(replies[..n], v);
      forall i | 0 <= i < n ensures replies[..n][i] == replies[i] { }
    }
  }

  /** When every reply received verdict `v`, `v` is counted once per reply. */
  lemma {:induction false} CountAll(replies: seq<Reply>, v: Verdict)
    requires forall i :: 0 <= i < |replies| ==> Classify(replies[i]) == v
    ensures Count(replies, v) == |replies|
  {
    if replies != [] {
      var n := |replies| - 1;
      forall i | 0 <= i < n ensures Classify(replies[..n][i]) == v { assert replies[..n][i] == replies[i]; }
      CountAll(replies[..n], v);
    }
  }

  /**
   * `successCount + duplicateCount <= proxies.length`, with equality exactly when
   * no insert came back with an error that is not a uniqueness error.
   */
  lemma AddedPlusDuplicates(replies: seq<Reply>)
    ensures Count(replies, Added) + Count(replies, Duplicate) <= |replies|
    ensures Count(replies, Added) + Count(replies, Duplicate) == |replies|
        <==> forall i :: 0 <= i < |replies| ==> Classify(replies[i]) != Ignored
  {
    CountsPartition(replies);
    CountZero(replies, Ignored);
  }

  /** Uploading N distinct values none of which is stored yet: N added, no duplicates. */
  lemma FreshBatch(start: map<string, bool>, values: seq<string>, faults: seq<Fault>)
    requires NoFaults(faults, |values|)
    requires forall i, j :: 0 <= i < j < |values| ==> values[i] != values[j]
    requires forall i :: 0 <= i < |values| ==> values[i] !in start
    ensures Count(Run(start, values, faults).replies, Added) == |values|
    ensures Count(Run(start, values, faults).replies, Duplicate) == 0
  {
    var replies := Run(start, values, faults).replies;
    forall j | 0 <= j < |values| ensures Classify(replies[j]) == Added {
      RunVerdictsNoFaults(start, values, faults, j);
    }
    CountAll(replies, Added);
    CountsPartition(replies);
  }

  /** Uploading the same values again, into the table the first upload left: all duplicates. */
  lemma Reupload(start: map<string, bool>, values: seq<string>, faults: seq<Fault>, again: seq<Fault>)
    requires NoFaults(faults, |values|) && NoFaults(again, |values|)
    ensures var second := Run(Run(start, values, faults).proxies, values, again).replies;
      Count(second, Added) == 0 && Count(second, Duplicate) == |values|
  {
    var after := Run(start, values, faults).proxies;
    RunKeysNoFaults(start, values, faults);
    var second := Run(after, values, again).replies;
    forall j | 0 <= j < |values| ensures Classify(second[j]) == Duplicate {
      RunVerdictsNoFaults(after, values, again, j);
    }
    CountAll(second, Duplicate);
    CountsPartition(second);
  }

  /**
   * Two candidate lines that differ only in surrounding white space send the same
   * value, so without faults the later one is tallied as a duplicate.
   */
  lemma PaddedRepeatIsDuplicate(start: map<string, bool>, candidates: seq<string>, faults: seq<Fault>,
                                i: nat, j: nat, pre: string, post: string)
    requires NoFaults(faults, |candidates|)
    requires i < j < |candidates|
    requires IsBlank(pre) && IsBlank(post)
    requires candidates[j] == pre + candidates[i] + post
    ensures Classify(Run(start, Values(candidates), faults).replies[j]) == Duplicate
  {
    var values := Values(candidates);
    TrimIgnoresPadding(pre, candidates[i], post);
    assert values[..j][i] == values[j];
    RunVerdictsNoFaults(start, values, faults, j);
  }

  // --------------------------------------------------------------- progress

  /** `20 + (processedCount / totalProxies) * 60`, in exact arithmetic. */
  function InsertProgress(processed: nat, total: nat): (p: real)
    requires 0 < total && processed <= total
    ensures 20.0 <= p <= 80.0
    ensures p == 80.0 <==> processed == total
    ensures p == 20.0 <==> processed == 0
  {
    20.0 + (processed as real / total as real) * 60.0
  }

  lemma InsertProgressMonotone(a: nat, b: nat, total: nat)
    requires 0 < total && a <= b <= total
    ensures InsertProgress(a, total) <= InsertProgress(b, total)
  {
    var ra, rb, rt := a as real, b as real, total as real;
    assert ra / rt <= rb / rt by {
      assert ra / rt * rt == ra && rb / rt * rt == rb;
    }
  }

  predicate NonDecreasing(t: seq<real>) {
    forall i, j :: 0 <= i < j < |t| ==> t[i] <= t[j]
  }

  /**
   * The values pushed while inserting: one after each insert that did not throw
   * (the catch path skips the progress update).
   */
  function InsertPhase(replies: seq<Reply>, total: nat): seq<real>
    requires 0 < total && |replies| <= total
  {
    if replies == [] then []
    else
      var n := |replies| - 1;
      var t := InsertPhase(replies[..n], total);
      if replies[n].Thrown? then t else t + [InsertProgress(n + 1, total)]
  }

  /**
   * Insert-phase progress lies in (20, 80], never decreases, ends on the value
   * for the last processed record when that insert did not throw, and has one
   * entry per record exactly when no insert threw.
   */
  lemma {:induction false} InsertPhaseShape(replies: seq<Reply>, total: nat)
    requires 0 < total && |replies| <= total
    ensures var t := InsertPhase(replies, total);
      && (forall i :: 0 <= i < |t| ==> 20.0 < t[i] <= 80.0)
      && NonDecreasing(t)
      && (t != [] ==> t[|t| - 1] <= InsertProgress(|replies|, total))
      && (replies != [] && !replies[|replies| - 1].Thrown? ==> t != [] && t[|t| - 1] == InsertProgress(|replies|, total))
      && |t| <= |replies|
      && (|t| == |replies| <==> forall i :: 0 <= i < |replies| ==> !replies[i].Thrown?)
  {
    if replies != [] {
      var n := |replies| - 1;
      InsertPhaseShape(replies[..n], total);
      InsertProgressMonotone(n, n + 1, total);
      assert forall i :: 0 <= i < n ==> replies[..n][i] == replies[i];
    }
  }

  lemma InsertPhaseStep(replies: seq<Reply>, r: Reply, total: nat)
    requires |replies| < total
    ensures InsertPhase(replies + [r], total)
         == if r.Thrown? then InsertPhase(replies, total)
            else InsertPhase(replies, total) + [InsertProgress(|replies| + 1, total)]
  {
    assert (replies + [r])[..|replies|] == replies;
  }

  /** Every value the upload handler pushes to the progress bar, in order. */
  function UploadTrace(replies: seq<Reply>, total: nat, history: Reply): seq<real>
    requires 0 < total && |replies| <= total
  {
    [0.0, 10.0, 20.0] + InsertPhase(replies, total) + [85.0] + (if history.Thrown? then [] else [95.0, 100.0])
  }

  /**
   * Progress never goes backwards, stays within 0..100, the insert phase ends on
   * exactly 80 when the last insert did not throw, and 100 is reached exactly when
   * the history write did not throw.
   */
  lemma UploadTraceShape(replies: seq<Reply>, total: nat, history: Reply)
    requires 0 < total && |replies| == total
    ensures var t := UploadTrace(replies, total, history);
      && NonDecreasing(t)
      && (forall i :: 0 <= i < |t| ==> 0.0 <= t[i] <= 100.0)
      && (t[|t| - 1] == 100.0 <==> !history.Thrown?)
      && (!replies[total - 1].Thrown? ==> 80.0 in t)
  {
    UploadTraceMonotone(replies, total, history);
    UploadTraceBounded(replies, total, history);
    UploadTraceEnds(replies, total, history);
  }

  lemma UploadTraceMonotone(replies: seq<Reply>, total: nat, history: Reply)
    requires 0 < total && |replies| <= total
    ensures NonDecreasing(UploadTrace(replies, total, history))
  {
    var mid := InsertPhase(replies, total);
    InsertPhaseShape(replies, total);
    var head, tail := [0.0, 10.0, 20.0], if history.Thrown? then [] else [95.0, 100.0];
    assert UploadTrace(replies, total, history) == head + mid + [85.0] + tail;
    NonDecreasingConcat(head, mid);
    assert (head + mid)[|head + mid| - 1] <= 80.0 by {
      if mid != [] { assert (head + mid)[|head + mid| - 1] == mid[|mid| - 1]; }
    }
    NonDecreasingConcat(head + mid, [85.0]);
    NonDecreasingConcat(head + mid + [85.0], tail);
  }

  lemma UploadTraceBounded(replies: seq<Reply>, total: nat, history: Reply)
    requires 0 < total && |replies| <= total
    ensures var t := UploadTrace(replies, total, history);
      forall i :: 0 <= i < |t| ==> 0.0 <= t[i] <= 100.0
  {
    var mid := InsertPhase(replies, total);
    InsertPhaseShape(replies, total);
    var head, tail := [0.0, 10.0, 20.0], if history.Thrown? then [] else [95.0, 100.0];
    assert UploadTrace(replies, total, history) == head + mid + [85.0] + tail;
    Bounded(head, mid);
    Bounded(head + mid, [85.0]);
    Bounded(head + mid + [85.0], tail);
  }

  lemma UploadTraceEnds(replies: seq<Reply>, total: nat, history: Reply)
    requires 0 < total && |replies| == total
    ensures var t := UploadTrace(replies, total, history);
      && (t[|t| - 1] == 100.0 <==> !history.Thrown?)
      && (!replies[total - 1].Thrown? ==> 80.0 in t)
  {
    var mid := InsertPhase(replies, total);
    InsertPhaseShape(replies, total);
    var t := UploadTrace(replies, total, history);
    assert t == [0.0, 10.0, 20.0] + mid + [85.0] + (if history.Thrown? then [] else [95.0, 100.0]);
    if !replies[total - 1].Thrown? {
      assert t[3 + |mid| - 1] == mid[|mid| - 1];
    }
  }

  /** Two non-decreasing runs joined where the first ends no higher than the second starts. */
  lemma NonDecreasingConcat(a: seq<real>, b: seq<real>)
    requires NonDecreasing(a) && NonDecreasing(b)
    requires a != [] && b != [] ==> a[|a| - 1] <= b[0]
    ensures NonDecreasing(a + b)
  {
    forall i, j | 0 <= i < j < |a + b| ensures (a + b)[i] <= (a + b)[j] {
      if i < |a| <= j {
        assert a[i] <= a[|a| - 1] <= b[0] <= b[j - |a|];
      }
    }
  }

  /** Percentages joined stay percentages. */
  lemma Bounded(a: seq<real>, b: seq<real>)
    requires forall i :: 0 <= i < |a| ==> 0.0 <= a[i] <= 100.0
    requires forall i :: 0 <= i < |b| ==> 0.0 <= b[i] <= 100.0
    ensures forall i :: 0 <= i < |a + b| ==> 0.0 <= (a + b)[i] <= 100.0
  {
  }

  // ---------------------------------------------------------------- summary

  /** The stats handed to the progress dialog. */
  datatype UploadStats = UploadStats(totalProcessed: nat, successCount: nat, duplicateCount: nat)

  /** The three completion messages. */
  datatype Summary = MixedResult(added: nat, duplicates: nat) | AllDuplicates(duplicates: nat) | AllAdded(added: nat)

  /** Which completion message is shown for the final counts. */
  function SummaryFor(added: nat, duplicates: nat): (m: Summary)
    ensures m.MixedResult? <==> duplicates > 0 && added > 0
    ensures m.AllDuplicates? <==> duplicates > 0 && added == 0
    ensures m.AllAdded? <==> duplicates == 0
    ensures m == MixedResult(added, duplicates) || m == AllDuplicates(duplicates) || m == AllAdded(added)
  {
    if duplicates > 0 then
      if added > 0 then MixedResult(added, duplicates) else AllDuplicates(duplicates)
    else AllAdded(added)
  }

  /** Stats of a run over the given values. */
  function StatsOf(replies: seq<Reply>): (s: UploadStats)
    ensures s.totalProcessed == |replies|
    ensures s.successCount + s.duplicateCount <= s.totalProcessed
  {
    AddedPlusDuplicates(replies);
    UploadStats(|replies|, Count(replies, Added), Count(replies, Duplicate))
  }

  /** A repeated upload of a non-empty batch, with no faults, reports "all duplicate". */
  lemma ReuploadSummary(start: map<string, bool>, values: seq<string>, faults: seq<Fault>, again: seq<Fault>)
    requires values != []
    requires NoFaults(faults, |values|) && NoFaults(again, |values|)
    ensures var s := StatsOf(Run(Run(start, values, faults).proxies, values, again).replies);
      SummaryFor(s.successCount, s.duplicateCount) == AllDuplicates(|values|)
  {
    Reupload(start, values, faults, again);
  }

  /**
   * A run whose every insert failed with a non-uniqueness error counts nothing
   * and still gets the success message ("0 IPs uploaded").
   */
  lemma AllIgnoredReportsSuccess(replies: seq<Reply>)
    requires forall i :: 0 <= i < |replies| ==> Classify(replies[i]) == Ignored
    ensures StatsOf(replies).successCount == 0 && StatsOf(replies).duplicateCount == 0
    ensures SummaryFor(StatsOf(replies).successCount, StatsOf(replies).duplicateCount) == AllAdded(0)
  {
    CountAll(replies, Ignored);
    CountsPartition(replies);
  }

  /** A string that neither starts nor ends with white space is its own trim. */
  lemma TrimmedAlready(s: string)
    requires s != [] && !IsSpace(s[0]) && !IsSpace(s[|s| - 1])
    ensures Trim(s) == s
  {
    assert TrimStart(s) == s;
  }

  /** The filter keeps every line when none is blank. */
  lemma {:induction false} NonBlankLinesKeepsAll(lines: seq<string>)
    requires forall i :: 0 <= i < |lines| ==> Trim(lines[i]) != ""
    ensures NonBlankLines(lines) == lines
  {
    if lines != [] {
      var rest := lines[1..];
      assert forall i :: 0 <= i < |rest| ==> Trim(rest[i]) != "" by {
        forall i | 0 <= i < |rest| ensures Trim(rest[i]) != "" { assert rest[i] == lines[i + 1]; }
      }
      NonBlankLinesKeepsAll(rest);
      assert NonBlankLines(lines) == [lines[0]] + NonBlankLines(rest);
    }
  }

  /** A three-line file `a`, `b`, `a` of already-trimmed endpoints yields exactly those values. */
  lemma ThreeLineValues(a: string, b: string)
    requires a != [] && !IsSpace(a[0]) && !IsSpace(a[|a| - 1]) && '\n' !in a
    requires b != [] && !IsSpace(b[0]) && !IsSpace(b[|b| - 1]) && '\n' !in b
    ensures Values(Candidates(a + "\n" + b + "\n" + a)) == [a, b, a]
  {
    var lines := [a, b, a];
    assert lines[1..] == [b, a] && [b, a][1..] == [a];
    assert Join([a]) == a;
    assert Join([b, a]) == b + "\n" + a;
    assert Join(lines) == a + "\n" + (b + "\n" + a);
    assert a + "\n" + (b + "\n" + a) == a + "\n" + b + "\n" + a;
    CandidatesOfLines(lines);
    TrimmedAlready(a);
    TrimmedAlready(b);
    NonBlankLinesKeepsAll(lines);
  }

  /**
   * Uploading `a`, `b`, `a` (two distinct endpoints, the first repeated) into a
   * table holding neither, without faults: three processed, two added, one duplicate.
   */
  lemma RepeatedLineUpload(start: map<string, bool>, a: string, b: string, faults: seq<Fault>)
    requires a != [] && !IsSpace(a[0]) && !IsSpace(a[|a| - 1]) && '\n' !in a
    requires b != [] && !IsSpace(b[0]) && !IsSpace(b[|b| - 1]) && '\n' !in b
    requires a != b && a !in start && b !in start
    requires NoFaults(faults, 3)
    ensures StatsOf(Run(start, Values(Candidates(a + "\n" + b + "\n" + a)), faults).replies) == UploadStats(3, 2, 1)
  {
    ThreeLineValues(a, b);
    var values := [a, b, a];
    var replies := Run(start, values, faults).replies;
    assert values[..2] == [a, b] && values[..1] == [a];
    RunVerdictsNoFaults(start, values, faults, 0);
    RunVerdictsNoFaults(start, values, faults, 1);
    RunVerdictsNoFaults(start, values, faults, 2);
    AddedAddedDuplicate(replies);
  }

  lemma AddedAddedDuplicate(replies: seq<Reply>)
    requires |replies| == 3
    requires Classify(replies[0]) == Added && Classify(replies[1]) == Added && Classify(replies[2]) == Duplicate
    ensures StatsOf(replies) == UploadStats(3, 2, 1)
  {
    assert replies[..2][..1] == replies[..1];
    assert replies[..1][..0] == [];
    assert Count(replies[..1], Added) == 1 && Count(replies[..1], Duplicate) == 0;
    assert Count(replies[..2], Added) == 2 && Count(replies[..2], Duplicate) == 0;
    assert replies[..3] == replies;
  }

  /** The worked example: `1.1.1.1:8080`, `2.2.2.2:8080`, `1.1.1.1:8080` into an empty table. */
  lemma ExampleUpload(faults: seq<Fault>)
    requires NoFaults(faults, 3)
    ensures StatsOf(Run(map[], Values(Candidates("1.1.1.1:8080\n2.2.2.2:8080\n1.1.1.1:8080")), faults).replies)
         == UploadStats(3, 2, 1)
  {
    var a, b := "1.1.1.1:8080", "2.2.2.2:8080";
    assert a + "\n" + b + "\n" + a == "1.1.1.1:8080\n2.2.2.2:8080\n1.1.1.1:8080";
    PlainEndpoint(a);
    PlainEndpoint(b);
    assert a[0] != b[0];
    RepeatedLineUpload(map[], a, b, faults);
  }

  /** A `host:port` written with digits, dots and a colon only is a line with no padding. */
  lemma PlainEndpoint(s: string)
    requires s != [] && forall i :: 0 <= i < |s| ==> '0' <= s[i] <= '9' || s[i] == ':' || s[i] == '.'
    ensures !IsSpace(s[0]) && !IsSpace(s[|s| - 1]) && '\n' !in s
  {
  }
}
