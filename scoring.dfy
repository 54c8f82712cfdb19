/**
 * The heuristic risk scorer of the detector (`analyze_process`): from the
 * observable features of one process it computes a risk score in 0..100 and
 * the ordered list of reasons behind it.
 *
 * The operating-system reads (name, thread count, creation time, CPU sample,
 * window visibility) are abstracted into a `Reading`; a failed read is a
 * missing reading (`None`).
 */
module Scoring {
  import opened Wrappers
  import Text

  /** Minimum score a process needs to become a finding in each mode. */
  const BasicThreshold: int := 90
  const AggressiveThreshold: int := 50

  /** The kernel's idle and system processes; the detector's own pid joins them at start-up. */
  const IdlePid: int := 0
  const SystemPid: int := 4

  /** The scripted runtime that aggressive mode penalises, compared against the lower-cased name. */
  const ScriptedRuntimeName: string := "python.exe"

  /** Points, caps and trigger points of the individual heuristics. */
  const HiddenPoints: int := 20
  const PointsPerThread: int := 5
  const ThreadCap: int := 20
  const ThreadReasonMin: nat := 4
  const UptimeDivisor: real := 5.0
  const UptimeCap: real := 25.0
  const UptimeReasonAbove: real := 20.0
  const CpuWeight: real := 30.0
  const CpuCap: real := 15.0
  const CpuReasonAbove: real := 0.3
  const ScriptedRuntimePoints: int := 25
  const MaxScore: int := 100

  const HiddenReason: string := "Hidden background process"
  const LongRunningReason: string := "Long\U{2011}running background process"
  const CpuReason: string := "Sustained background CPU activity"
  const ScriptedRuntimeReason: string := "Scripted runtime running without UI"

  const ThreadReasonPrefix: string := "High thread count ("

  /**
   * "High thread count (n)": the prefix, at least one digit, and a closing
   * parenthesis; `ThreadReasonInjective` shows the count can be read back.
   */
  function ThreadReason(threads: nat): (s: string)
    ensures |ThreadReasonPrefix| + 1 < |s|
    ensures s[..|ThreadReasonPrefix|] == ThreadReasonPrefix && s[|s| - 1] == ')'
  {
    ThreadReasonPrefix + Text.NatToString(threads) + ")"
  }

  /** The pids that are never scored, for a detector running as `selfPid`. */
  function ExcludedPids(selfPid: int): (s: set<int>)
    ensures IdlePid in s && SystemPid in s && selfPid in s
  {
    {IdlePid, SystemPid, selfPid}
  }

  /**
   * The features of one process as the detector reads them: `name` is already
   * lower-cased, `uptime` is seconds since creation, `cpu` is the sampled CPU
   * percentage exactly as returned, `visible` tells whether the process owns a
   * visible top-level window.
   */
  datatype Reading = Reading(name: string, threads: nat, uptime: real, cpu: real, visible: bool)

  datatype ScoreResult = ScoreResult(score: int, reasons: seq<string>)

  function MinInt(a: int, b: int): int {
    if b < a then b else a
  }

  function MinReal(a: real, b: real): real {
    if b < a then b else a
  }

  /** Python's `int(x)` on a float: truncation toward zero. */
  function Trunc(x: real): (r: int)
    ensures 0.0 <= x ==> r as real <= x < r as real + 1.0
    ensures x < 0.0 ==> r as real - 1.0 < x <= r as real
  {
    if x >= 0.0 then x.Floor else -((-x).Floor)
  }

  lemma TruncMonotone(x: real, y: real)
    requires x <= y
    ensures Trunc(x) <= Trunc(y)
  {
  }

  predicate IsScriptedRuntime(r: Reading, aggressive: bool) {
    aggressive && r.name == ScriptedRuntimeName
  }

  // The five contributions, each already capped.

  function HiddenTerm(r: Reading): real {
    if !r.visible then HiddenPoints as real else 0.0
  }

  function ThreadTerm(r: Reading): real {
    MinInt(r.threads * PointsPerThread, ThreadCap) as real
  }

  function UptimeTerm(r: Reading): real {
    MinReal(r.uptime / UptimeDivisor, UptimeCap)
  }

  function CpuTerm(r: Reading): real {
    MinReal(r.cpu * CpuWeight, CpuCap)
  }

  function ScriptedRuntimeTerm(r: Reading, aggressive: bool): real {
    if IsScriptedRuntime(r, aggressive) then ScriptedRuntimePoints as real else 0.0
  }

  /** The exact sum of the five contributions, before truncation. */
  function RawScore(r: Reading, aggressive: bool): (x: real)
    ensures x <= 105.0
    ensures !aggressive ==> x <= 80.0
    ensures 0.0 <= r.uptime && 0.0 <= r.cpu ==> 0.0 <= x
  {
    HiddenTerm(r) + ThreadTerm(r) + UptimeTerm(r) + CpuTerm(r) + ScriptedRuntimeTerm(r, aggressive)
  }

  /**
   * The final score: the sum truncated toward zero and clamped at 100. It
   * never exceeds 100, it is exactly 100 once the sum reaches 100, and it is
   * never negative for a reading with a non-negative uptime and CPU sample.
   */
  function Score(r: Reading, aggressive: bool): (s: int)
    ensures s <= MaxScore
    ensures 0.0 <= r.uptime && 0.0 <= r.cpu ==> 0 <= s
    ensures 0.0 <= RawScore(r, aggressive) ==> s as real <= RawScore(r, aggressive)
    ensures 0.0 <= RawScore(r, aggressive) < MaxScore as real ==> RawScore(r, aggressive) < s as real + 1.0
    ensures RawScore(r, aggressive) < 0.0 ==> s as real - 1.0 < RawScore(r, aggressive) <= s as real
    ensures s == MaxScore <==> RawScore(r, aggressive) >= MaxScore as real
  {
    MinInt(Trunc(RawScore(r, aggressive)), MaxScore)
  }

  /** The reasons, in the order the heuristics are evaluated. */
  function Reasons(r: Reading, aggressive: bool): (rs: seq<string>)
    ensures |rs| <= 5
    ensures rs == [] <==>
      (r.visible && r.threads < ThreadReasonMin && r.uptime <= UptimeReasonAbove &&
       r.cpu <= CpuReasonAbove && !IsScriptedRuntime(r, aggressive))
  {
    (if !r.visible then [HiddenReason] else [])
    + (if r.threads >= ThreadReasonMin then [ThreadReason(r.threads)] else [])
    + (if r.uptime > UptimeReasonAbove then [LongRunningReason] else [])
    + (if r.cpu > CpuReasonAbove then [CpuReason] else [])
    + (if IsScriptedRuntime(r, aggressive) then [ScriptedRuntimeReason] else [])
  }

  /**
   * What `analyze_process` returns for the process `pid` whose features read
   * as `reading` (`None` when a read failed), for a detector running as `selfPid`.
   */
  function Analyze(pid: int, selfPid: int, reading: Option<Reading>, aggressive: bool): (o: Option<ScoreResult>)
    ensures o.None? <==> pid in ExcludedPids(selfPid) || reading.None?
  {
    if pid in ExcludedPids(selfPid) then None
    else match reading
      case None => None
      case Some(r) => Some(ScoreResult(Score(r, aggressive), Reasons(r, aggressive)))
  }

  /**
   * `analyze_process`: accumulates the score and appends the reasons one
   * heuristic at a time.
   */
  method AnalyzeProcess(pid: int, selfPid: int, reading: Option<Reading>, aggressive: bool)
    returns (result: Option<ScoreResult>)
    ensures result == Analyze(pid, selfPid, reading, aggressive)
    ensures pid in ExcludedPids(selfPid) || reading.None? <==> result.None?
  {
    if pid in ExcludedPids(selfPid) {
      return None;
    }
    var score: real := 0.0;
    var reasons: seq<string> := [];
    if reading.None? {
      return None;
    }
    var r := reading.value;
    if !r.visible {
      score := score + HiddenPoints as real;
      reasons := reasons + [HiddenReason];
    }
    assert score == HiddenTerm(r);
    assert reasons == (if !r.visible then [HiddenReason] else []);
    ghost var hidden := reasons;
    score := score + MinInt(r.threads * PointsPerThread, ThreadCap) as real;
    if r.threads >= ThreadReasonMin {
      reasons := reasons + [ThreadReason(r.threads)];
    }
    assert score == HiddenTerm(r) + ThreadTerm(r);
    assert reasons == hidden + (if r.threads >= ThreadReasonMin then [ThreadReason(r.threads)] else []);
    ghost var upToThreads := reasons;
    score := score + MinReal(r.uptime / UptimeDivisor, UptimeCap);
    if r.uptime > UptimeReasonAbove {
      reasons := reasons + [LongRunningReason];
    }
    assert score == HiddenTerm(r) + ThreadTerm(r) + UptimeTerm(r);
    assert reasons == upToThreads + (if r.uptime > UptimeReasonAbove then [LongRunningReason] else []);
    ghost var upToUptime := reasons;
    score := score + MinReal(r.cpu * CpuWeight, CpuCap);
    if r.cpu > CpuReasonAbove {
      reasons := reasons + [CpuReason];
    }
    assert score == HiddenTerm(r) + ThreadTerm(r) + UptimeTerm(r) + CpuTerm(r);
    assert reasons == upToUptime + (if r.cpu > CpuReasonAbove then [CpuReason] else []);
    ghost var upToCpu := reasons;
    if aggressive && r.name == ScriptedRuntimeName {
      score := score + ScriptedRuntimePoints as real;
      reasons := reasons + [ScriptedRuntimeReason];
    }
    assert score == RawScore(r, aggressive);
    assert reasons == upToCpu + (if IsScriptedRuntime(r, aggressive) then [ScriptedRuntimeReason] else []);
    assert reasons == Reasons(r, aggressive);
    var final := MinInt(Trunc(score), MaxScore);
    result := Some(ScoreResult(final, reasons));
  }

  // ---------------------------------------------------------------------
  // Properties of the score

  /** For non-negative uptime and CPU the score lies in 0..100. */
  lemma ScoreInRange(r: Reading, aggressive: bool)
    requires 0.0 <= r.uptime && 0.0 <= r.cpu
    ensures 0 <= Score(r, aggressive) <= MaxScore
  {
  }

  /**
   * Hidden, 4 threads, 25 s of uptime and a CPU sample of 0.35 give
   * 20 + 20 + 5 + 10.5 = 55.5, which truncates to 55.
   */
  lemma ScoreExample()
    ensures RawScore(Reading("svchost.exe", 4, 25.0, 0.35, false), true) == 55.5
    ensures Score(Reading("svchost.exe", 4, 25.0, 0.35, false), true) == 55
    ensures Score(Reading("svchost.exe", 4, 25.0, 0.35, false), false) == 55
  {
    var r := Reading("svchost.exe", 4, 25.0, 0.35, false);
    assert !IsScriptedRuntime(r, true) by {
      assert r.name[0] != ScriptedRuntimeName[0];
    }
    assert Trunc(55.5) == 55;
  }

  /** A visible, fresh and idle process scores only its thread points: 5 with one thread, 0 with none. */
  lemma QuietProcessScores(name: string, aggressive: bool)
    requires name != ScriptedRuntimeName
    ensures Score(Reading(name, 1, 0.0, 0.0, true), aggressive) == 5
    ensures Score(Reading(name, 0, 0.0, 0.0, true), aggressive) == 0
  {
  }

  /** Without the aggressive-only rule the sum of the caps is 20 + 20 + 25 + 15 = 80. */
  lemma BasicScoreAtMost80(r: Reading)
    ensures Score(r, false) <= 80
  {
    assert RawScore(r, false) <= 80.0;
    TruncMonotone(RawScore(r, false), 80.0);
  }

  /** Hence no process ever reaches the basic threshold. */
  lemma BasicNeverReachesThreshold(r: Reading)
    ensures Score(r, false) < BasicThreshold
  {
    BasicScoreAtMost80(r);
  }

  /** Aggressive mode only adds points: its score is never below the basic one. */
  lemma AggressiveScoreDominates(r: Reading)
    ensures Score(r, false) <= Score(r, true)
    ensures !IsScriptedRuntime(r, true) ==> Score(r, false) == Score(r, true)
  {
    TruncMonotone(RawScore(r, false), RawScore(r, true));
  }

  /** The aggressive threshold is the lower one. */
  lemma ThresholdsOrdered()
    ensures AggressiveThreshold <= BasicThreshold
  {
  }

  // ---------------------------------------------------------------------
  // Properties of the reasons

  /** The position of each kind of reason in the evaluation order (5 for a foreign string). */
  function ReasonRank(s: string): nat {
    if s == HiddenReason then 0
    else if |s| >= |ThreadReasonPrefix| && s[..|ThreadReasonPrefix|] == ThreadReasonPrefix then 1
    else if s == LongRunningReason then 2
    else if s == CpuReason then 3
    else if s == ScriptedRuntimeReason then 4
    else 5
  }

  /** The five kinds of reason are told apart by their rank. */
  lemma ReasonRanks(n: nat)
    ensures ReasonRank(HiddenReason) == 0
    ensures ReasonRank(ThreadReason(n)) == 1
    ensures ReasonRank(LongRunningReason) == 2
    ensures ReasonRank(CpuReason) == 3
    ensures ReasonRank(ScriptedRuntimeReason) == 4
  {
    var s := ThreadReason(n);
    assert s[2] == 'g' && HiddenReason[2] == 'd';
    var k := |ThreadReasonPrefix|;
    assert s[..k] == ThreadReasonPrefix;
    assert LongRunningReason[..k][0] != ThreadReasonPrefix[0];
    assert CpuReason[..k][0] != ThreadReasonPrefix[0];
    assert ScriptedRuntimeReason[0] == 'S';
    assert ScriptedRuntimeReason[..k][0] != ThreadReasonPrefix[0];
    assert ScriptedRuntimeReason[1] != CpuReason[1];
  }

  lemma ReasonTextsDistinct(n: nat)
    ensures HiddenReason != ThreadReason(n) && HiddenReason != LongRunningReason
    ensures HiddenReason != CpuReason && HiddenReason != ScriptedRuntimeReason
    ensures ThreadReason(n) != LongRunningReason && ThreadReason(n) != CpuReason
    ensures ThreadReason(n) != ScriptedRuntimeReason
    ensures LongRunningReason != CpuReason && LongRunningReason != ScriptedRuntimeReason
    ensures CpuReason != ScriptedRuntimeReason
  {
    ReasonRanks(n);
  }

  /**
   * Each reason is listed exactly when its condition holds, the thread count
   * can be read back from its reason, and there are at most five reasons.
   */
  lemma ReasonsExactly(r: Reading, aggressive: bool)
    ensures HiddenReason in Reasons(r, aggressive) <==> !r.visible
    ensures ThreadReason(r.threads) in Reasons(r, aggressive) <==> r.threads >= ThreadReasonMin
    ensures LongRunningReason in Reasons(r, aggressive) <==> r.uptime > UptimeReasonAbove
    ensures CpuReason in Reasons(r, aggressive) <==> r.cpu > CpuReasonAbove
    ensures ScriptedRuntimeReason in Reasons(r, aggressive) <==> aggressive && r.name == ScriptedRuntimeName
    ensures |Reasons(r, aggressive)| <= 5
    ensures forall s :: s in Reasons(r, aggressive) ==>
      s == HiddenReason || s == ThreadReason(r.threads) || s == LongRunningReason ||
      s == CpuReason || s == ScriptedRuntimeReason
  {
    ReasonTextsDistinct(r.threads);
    var hidden := if !r.visible then [HiddenReason] else [];
    var threads := if r.threads >= ThreadReasonMin then [ThreadReason(r.threads)] else [];
    var uptime := if r.uptime > UptimeReasonAbove then [LongRunningReason] else [];
    var cpu := if r.cpu > CpuReasonAbove then [CpuReason] else [];
    var script := if IsScriptedRuntime(r, aggressive) then [ScriptedRuntimeReason] else [];
    assert Reasons(r, aggressive) == hidden + threads + uptime + cpu + script;
    InFiveParts(HiddenReason, hidden, threads, uptime, cpu, script);
    InFiveParts(ThreadReason(r.threads), hidden, threads, uptime, cpu, script);
    InFiveParts(LongRunningReason, hidden, threads, uptime, cpu, script);
    InFiveParts(CpuReason, hidden, threads, uptime, cpu, script);
    InFiveParts(ScriptedRuntimeReason, hidden, threads, uptime, cpu, script);
    ReasonsClosed(r, aggressive);
  }

  /** Nothing but the five reason texts, the thread one with the actual count, is ever listed. */
  lemma ReasonsClosed(r: Reading, aggressive: bool)
    ensures forall s :: s in Reasons(r, aggressive) ==>
      s == HiddenReason || s == ThreadReason(r.threads) || s == LongRunningReason ||
      s == CpuReason || s == ScriptedRuntimeReason
  {
    forall s | s in Reasons(r, aggressive)
      ensures s == HiddenReason || s == ThreadReason(r.threads) || s == LongRunningReason ||
        s == CpuReason || s == ScriptedRuntimeReason
    {
      var hidden := if !r.visible then [HiddenReason] else [];
      var threads := if r.threads >= ThreadReasonMin then [ThreadReason(r.threads)] else [];
      var uptime := if r.uptime > UptimeReasonAbove then [LongRunningReason] else [];
      var cpu := if r.cpu > CpuReasonAbove then [CpuReason] else [];
      var script := if IsScriptedRuntime(r, aggressive) then [ScriptedRuntimeReason] else [];
      InFiveParts(s, hidden, threads, uptime, cpu, script);
    }
  }

  lemma InFiveParts(x: string, a: seq<string>, b: seq<string>, c: seq<string>, d: seq<string>, e: seq<string>)
    ensures x in a + b + c + d + e <==> x in a || x in b || x in c || x in d || x in e
  {
  }

  /** The reasons appear in evaluation order, so none is listed twice. */
  lemma {:induction false} ReasonsInEvaluationOrder(r: Reading, aggressive: bool)
    ensures forall i, j :: 0 <= i < j < |Reasons(r, aggressive)| ==>
      ReasonRank(Reasons(r, aggressive)[i]) < ReasonRank(Reasons(r, aggressive)[j])
  {
    ReasonRanks(r.threads);
  }

  /** The thread count is recoverable from its reason text. */
  lemma ThreadReasonInjective(m: nat, n: nat)
    requires ThreadReason(m) == ThreadReason(n)
    ensures m == n
  {
    var sm, sn, k := Text.NatToString(m), Text.NatToString(n), |ThreadReasonPrefix|;
    assert sm == ThreadReason(m)[k..|ThreadReason(m)| - 1];
    assert sn == ThreadReason(n)[k..|ThreadReason(n)| - 1];
    Text.NatToStringInjective(m, n);
  }

  /** Excluded pids and failed reads are never scored. */
  lemma AnalyzeSkips(pid: int, selfPid: int, reading: Option<Reading>, aggressive: bool)
    ensures pid == IdlePid || pid == SystemPid || pid == selfPid ==> Analyze(pid, selfPid, reading, aggressive).None?
    ensures reading.None? ==> Analyze(pid, selfPid, reading, aggressive).None?
    ensures pid !in ExcludedPids(selfPid) && reading.Some? ==> Analyze(pid, selfPid, reading, aggressive).Some?
  {
  }
}
