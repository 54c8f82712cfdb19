/**
 * The scan orchestrator (`scan_system`): walks a snapshot of the running
 * processes in enumeration order, reports progress, scores each process,
 * keeps those at or above the mode's threshold and ranks them by score.
 *
 * The snapshot is an input sequence, and the progress callback is modelled by
 * the sequence of its phase-1 reports and the final 100, in the order it
 * receives them; the reports of the clock-driven minimum-duration wait are
 * not modelled.
 */
module Scan {
  import opened Wrappers
  import opened Scoring
  import opened Ranking

  /**
   * One entry of the process snapshot: its pid, its name as the operating
   * system reports it (used in the finding), and its features, `None` when
   * reading them failed.
   */
  datatype Proc = Proc(pid: int, name: string, reading: Option<Reading>)

  /** Phase-1 progress is scaled to the first 70 percent; the scan ends at 100. */
  const Phase1Span: real := 70.0
  const Done: real := 100.0

  /** The inclusive score threshold of a mode; aggressive mode is the more sensitive one. */
  function Threshold(aggressive: bool): (t: int)
    ensures AggressiveThreshold <= t <= BasicThreshold
    ensures t == AggressiveThreshold <==> aggressive
  {
    if aggressive then AggressiveThreshold else BasicThreshold
  }

  /** The progress reported before the `i`-th of `total` processes (counting from 1). */
  function ProgressAt(i: nat, total: nat): (x: real)
    requires 0 < total
    ensures 0 < i ==> 0.0 < x
    ensures i == total ==> x == Phase1Span
  {
    (i as real / total as real) * Phase1Span
  }

  /** The phase-1 progress values for the first `done` processes of `total`. */
  function Phase1Progress(done: nat, total: nat): (p: seq<real>)
    requires done <= total
    ensures |p| == done
  {
    if done == 0 then [] else Phase1Progress(done - 1, total) + [ProgressAt(done, total)]
  }

  /**
   * The modelled progress reports of a scan of `total` processes: the phase-1
   * reports and the final 100 (the reports of the minimum-duration wait are
   * not modelled).
   */
  function ScanProgress(total: nat): (p: seq<real>)
    ensures |p| == total + 1 && p[total] == Done
  {
    Phase1Progress(total, total) + [Done]
  }

  /** The finding a snapshot entry contributes, if its score reaches the threshold. */
  function FindingOf(p: Proc, aggressive: bool, selfPid: int): (o: Option<Finding>)
    ensures o.Some? ==> p.pid !in ExcludedPids(selfPid) && p.reading.Some?
    ensures o.Some? ==> o.value.pid == p.pid && o.value.name == p.name
    ensures o.Some? ==> Threshold(aggressive) <= o.value.score <= MaxScore
  {
    match Analyze(p.pid, selfPid, p.reading, aggressive)
    case None => None
    case Some(res) =>
      if res.score >= Threshold(aggressive) then Some(Finding(p.name, p.pid, res.score, res.reasons))
      else None
  }

  /** The findings collected from a snapshot, in enumeration order. */
  function Collect(procs: seq<Proc>, aggressive: bool, selfPid: int): (c: seq<Finding>)
    ensures |c| <= |procs|
  {
    FilterMap(procs, (p: Proc) => FindingOf(p, aggressive, selfPid))
  }

  /** The ranked findings a scan returns. */
  function ScanFindings(procs: seq<Proc>, aggressive: bool, selfPid: int): (r: seq<Finding>)
    ensures |r| <= |procs|
  {
    SortByScore(Collect(procs, aggressive, selfPid))
  }

  /**
   * `scan_system` on the snapshot `procs`, for a detector running as
   * `selfPid`: returns the ranked findings and the progress values reported.
   */
  method ScanSystem(procs: seq<Proc>, aggressive: bool, selfPid: int)
    returns (findings: seq<Finding>, progress: seq<real>)
    ensures findings == ScanFindings(procs, aggressive, selfPid)
    ensures progress == ScanProgress(|procs|)
  {
    findings := [];
    progress := [];
    var total := |procs|;
    for i := 1 to total + 1
      invariant progress == Phase1Progress(i - 1, total)
      invariant findings == Collect(procs[..i - 1], aggressive, selfPid)
    {
      var p := procs[i - 1];
      progress := progress + [ProgressAt(i, total)];
      ghost var before := findings;
      var result := AnalyzeProcess(p.pid, selfPid, p.reading, aggressive);
      if result.Some? {
        var score, reasons := result.value.score, result.value.reasons;
        var threshold := if aggressive then AggressiveThreshold else BasicThreshold;
        if score >= threshold {
          findings := findings + [Finding(p.name, p.pid, score, reasons)];
        }
      }
      assert findings == before + ToSeq(FindingOf(p, aggressive, selfPid));
      CollectStep(procs, i - 1, aggressive, selfPid);
    }
    assert procs[..total] == procs;
    progress := progress + [Done];
    findings := SortByScore(findings);
  }

  lemma CollectStep(procs: seq<Proc>, i: nat, aggressive: bool, selfPid: int)
    requires i < |procs|
    ensures Collect(procs[..i + 1], aggressive, selfPid) ==
      Collect(procs[..i], aggressive, selfPid) + ToSeq(FindingOf(procs[i], aggressive, selfPid))
  {
    assert procs[..i + 1][..i] == procs[..i];
  }

  // ---------------------------------------------------------------------
  // Which processes become findings

  /** A scored process is a finding exactly when its score reaches the threshold (inclusive). */
  lemma FindingOfIff(p: Proc, aggressive: bool, selfPid: int)
    ensures FindingOf(p, aggressive, selfPid).Some? <==>
      Analyze(p.pid, selfPid, p.reading, aggressive).Some? &&
      Analyze(p.pid, selfPid, p.reading, aggressive).value.score >= Threshold(aggressive)
    ensures FindingOf(p, aggressive, selfPid).Some? ==>
      var res := Analyze(p.pid, selfPid, p.reading, aggressive).value;
      FindingOf(p, aggressive, selfPid).value == Finding(p.name, p.pid, res.score, res.reasons)
  {
  }

  /** The collected findings are exactly those of the snapshot's entries. */
  lemma CollectMembers(procs: seq<Proc>, aggressive: bool, selfPid: int, f: Finding)
    ensures f in Collect(procs, aggressive, selfPid) <==>
      exists j :: 0 <= j < |procs| && FindingOf(procs[j], aggressive, selfPid) == Some(f)
  {
    FilterMapMembers(procs, (p: Proc) => FindingOf(p, aggressive, selfPid), f);
  }

  /**
   * A finding is in the ranked result exactly when some snapshot entry
   * produces it, that is, when that entry is scored and its score reaches the
   * mode's threshold.
   */
  lemma ScanFindingsMembers(procs: seq<Proc>, aggressive: bool, selfPid: int, f: Finding)
    ensures f in ScanFindings(procs, aggressive, selfPid) <==>
      exists j :: 0 <= j < |procs| && FindingOf(procs[j], aggressive, selfPid) == Some(f)
  {
    SortByScoreCorrect(Collect(procs, aggressive, selfPid));
    assert f in ScanFindings(procs, aggressive, selfPid) <==> f in multiset(ScanFindings(procs, aggressive, selfPid));
    CollectMembers(procs, aggressive, selfPid, f);
  }

  /** Every snapshot entry that reaches the threshold is reported. */
  lemma FlaggedProcessReported(procs: seq<Proc>, aggressive: bool, selfPid: int, j: nat, res: ScoreResult)
    requires j < |procs|
    requires Analyze(procs[j].pid, selfPid, procs[j].reading, aggressive) == Some(res)
    requires res.score >= Threshold(aggressive)
    ensures Finding(procs[j].name, procs[j].pid, res.score, res.reasons) in ScanFindings(procs, aggressive, selfPid)
  {
    ScanFindingsMembers(procs, aggressive, selfPid, Finding(procs[j].name, procs[j].pid, res.score, res.reasons));
  }

  /** A process whose pid is 0, 4 or the detector's own never appears in the result. */
  lemma ExcludedNeverReported(procs: seq<Proc>, aggressive: bool, selfPid: int)
    ensures forall f :: f in ScanFindings(procs, aggressive, selfPid) ==>
      f.pid != IdlePid && f.pid != SystemPid && f.pid != selfPid
  {
    forall f | f in ScanFindings(procs, aggressive, selfPid)
      ensures f.pid != IdlePid && f.pid != SystemPid && f.pid != selfPid
    {
      ScanFindingsMembers(procs, aggressive, selfPid, f);
    }
  }

  /** Every reported finding has a score of at least the mode's threshold and at most 100. */
  lemma ReportedScoresInRange(procs: seq<Proc>, aggressive: bool, selfPid: int)
    ensures forall f :: f in ScanFindings(procs, aggressive, selfPid) ==> Threshold(aggressive) <= f.score <= MaxScore
  {
    forall f | f in ScanFindings(procs, aggressive, selfPid)
      ensures Threshold(aggressive) <= f.score <= MaxScore
    {
      ScanFindingsMembers(procs, aggressive, selfPid, f);
    }
  }

  /** No process ever reaches the basic threshold, so a basic scan never finds anything. */
  lemma {:induction false} BasicScanIsEmpty(procs: seq<Proc>, selfPid: int)
    ensures ScanFindings(procs, false, selfPid) == []
  {
    if procs != [] {
      var init, last := procs[..|procs| - 1], procs[|procs| - 1];
      BasicScanIsEmpty(init, selfPid);
      if last.reading.Some? {
        BasicNeverReachesThreshold(last.reading.value);
      }
      assert FindingOf(last, false, selfPid) == None;
    }
  }

  /** Whatever basic mode flags, aggressive mode flags too. */
  lemma AggressiveFlagsMore(p: Proc, selfPid: int)
    ensures FindingOf(p, false, selfPid).Some? ==> FindingOf(p, true, selfPid).Some?
  {
    ThresholdsOrdered();
    if p.reading.Some? {
      AggressiveScoreDominates(p.reading.value);
    }
  }

  /**
   * The processes an aggressive scan reports include those a basic scan
   * reports: the entry behind a basic finding also yields an aggressive one.
   */
  lemma AggressiveScanCoversBasic(procs: seq<Proc>, selfPid: int)
    ensures forall f :: f in ScanFindings(procs, false, selfPid) ==>
      exists g :: g in ScanFindings(procs, true, selfPid) && g.pid == f.pid && g.name == f.name
  {
    forall f | f in ScanFindings(procs, false, selfPid)
      ensures exists g :: g in ScanFindings(procs, true, selfPid) && g.pid == f.pid && g.name == f.name
    {
      ScanFindingsMembers(procs, false, selfPid, f);
      var j :| 0 <= j < |procs| && FindingOf(procs[j], false, selfPid) == Some(f);
      AggressiveFlagsMore(procs[j], selfPid);
      var g := FindingOf(procs[j], true, selfPid).value;
      ScanFindingsMembers(procs, true, selfPid, g);
    }
  }

  /**
   * The result is sorted by descending score, is a permutation of the
   * collected findings, and findings with equal scores keep their enumeration
   * order.
   */
  lemma ScanFindingsRanked(procs: seq<Proc>, aggressive: bool, selfPid: int)
    ensures SortedByScore(ScanFindings(procs, aggressive, selfPid))
    ensures multiset(ScanFindings(procs, aggressive, selfPid)) == multiset(Collect(procs, aggressive, selfPid))
    ensures forall k :: WithScore(ScanFindings(procs, aggressive, selfPid), k) == WithScore(Collect(procs, aggressive, selfPid), k)
  {
    SortByScoreCorrect(Collect(procs, aggressive, selfPid));
  }

  // ---------------------------------------------------------------------
  // Progress

  lemma {:induction false} Phase1ProgressAt(done: nat, total: nat, j: nat)
    requires done <= total && j < done
    ensures Phase1Progress(done, total)[j] == ProgressAt(j + 1, total)
  {
    if j < done - 1 {
      Phase1ProgressAt(done - 1, total, j);
    }
  }

  lemma DivMonotone(a: real, b: real, t: real)
    requires a <= b && 0.0 < t
    ensures a / t <= b / t
    ensures a < b ==> a / t < b / t
  {
    assert b / t - a / t == (b - a) / t;
  }

  lemma ProgressAtStrictlyIncreasing(i: nat, j: nat, total: nat)
    requires 0 < i <= j <= total
    ensures 0.0 < ProgressAt(i, total) <= ProgressAt(j, total) <= Phase1Span
    ensures i < j ==> ProgressAt(i, total) < ProgressAt(j, total)
    ensures j == total ==> ProgressAt(j, total) == Phase1Span
  {
    var t, x, y := total as real, i as real, j as real;
    DivMonotone(0.0, x, t);
    DivMonotone(x, y, t);
    DivMonotone(y, t, t);
    assert t / t == 1.0;
  }

  /**
   * Of the modelled reports (phase 1 and the final 100): phase-1 progress
   * rises strictly, stays within (0, 70] and reaches exactly 70 after the last
   * process; the last report is exactly 100 and none of them exceeds it.
   */
  lemma ScanProgressShape(total: nat)
    ensures |ScanProgress(total)| == total + 1
    ensures ScanProgress(total)[total] == Done
    ensures forall i, j :: 0 <= i < j < total ==> ScanProgress(total)[i] < ScanProgress(total)[j]
    ensures forall i :: 0 <= i < total ==> 0.0 < ScanProgress(total)[i] <= Phase1Span
    ensures 0 < total ==> ScanProgress(total)[total - 1] == Phase1Span
    ensures forall i, j :: 0 <= i < j <= total ==> ScanProgress(total)[i] <= ScanProgress(total)[j]
  {
    var p := ScanProgress(total);
    forall i | 0 <= i < total ensures p[i] == ProgressAt(i + 1, total) {
      Phase1ProgressAt(total, total, i);
    }
    forall i, j | 0 <= i < j < total ensures p[i] < p[j] {
      ProgressAtStrictlyIncreasing(i + 1, j + 1, total);
    }
    forall i | 0 <= i < total ensures 0.0 < p[i] <= Phase1Span {
      ProgressAtStrictlyIncreasing(i + 1, total, total);
    }
    if 0 < total {
      ProgressAtStrictlyIncreasing(total, total, total);
    }
  }

  /** An empty snapshot reports only the final 100 and finds nothing. */
  lemma EmptySnapshot(aggressive: bool, selfPid: int)
    ensures ScanProgress(0) == [Done]
    ensures ScanFindings([], aggressive, selfPid) == []
  {
  }
}
