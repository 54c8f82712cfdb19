# Keylogger detector: scoring and scan engine

A Dafny model of the engine of `keylogger_detector.py`, a Windows tool that
ranks running processes by how much they behave like a hidden keylogger.

The model has three parts:

- **Scoring** (`scoring.dfy`) models `analyze_process`. Pids 0, 4 and the
  detector's own pid are never scored. Neither is a process whose features
  cannot be read. Any other process gets a score from five capped
  contributions: hidden window 20, threads `min(5·n, 20)`, uptime
  `min(t/5, 25)`, CPU `min(30·c, 15)`, and in aggressive mode 25 for
  `python.exe`. The sum is truncated toward zero (Python's `int`) and capped
  at 100. Each heuristic appends its reason in evaluation order.
- **Ranking** (`ranking.dfy`) models the final `findings.sort(key=score,
  reverse=True)`: a stable sort by descending score.
- **Scan** (`scan.dfy`) models `scan_system`. It walks the process snapshot in
  enumeration order and reports `(i/total)·70` before the i-th process. It
  keeps every scored process whose score is at least the mode's threshold
  (90 basic, 50 aggressive), reports 100 at the end, and returns the ranked
  findings.

Supporting modules are `wrappers.dfy` (`Option`) and `text.dfy` (the decimal
rendering of the thread count inside its reason text).

The operating system's answers are inputs. A `Reading` holds the lower-cased
name, the thread count, the uptime, the CPU sample and the window visibility,
and a failed read is `None`. A snapshot entry `Proc` also carries the name as
the operating system reports it, because the finding at line 117 uses
`p.name()` rather than the lower-cased name. The detector's own pid is a
parameter. The progress callback is modelled by the sequence of values it
receives. Scores use exact `real` arithmetic.

Two behaviours of the code are easy to get wrong:

- A visible, fresh, idle process with one thread scores 5, not 0, because the
  thread term counts from the first thread (line 47). `QuietProcessScores`
  states this.
- The final score is truncated, not rounded: 55.5 becomes 55 (line 63).

## Model

| member | source | states |
|---|---|---|
| `Scoring.AnalyzeProcess` | keylogger_detector.py:31-67 | The step-by-step accumulation of score and reasons gives exactly `Analyze`. The result is `None` exactly when the pid is excluded or the read failed. |
| `Scoring.Analyze` | keylogger_detector.py:31-67 | The functional `analyze_process`: the result is `None` exactly when the pid is excluded or the read failed. |
| `Scoring.ExcludedPids` | keylogger_detector.py:14-15 | The excluded set `EXCLUDE_PIDS` holds 0, 4 and the detector's own pid. |
| `Scoring.AnalyzeSkips` | keylogger_detector.py:31-67 | Pids 0, 4 and the detector's own pid, and failed reads, give `None`. Any other pid with a successful read is scored. |
| `Scoring.Trunc` | keylogger_detector.py:63 | `int(x)` truncates toward zero. For `x >= 0` the result is the floor. For `x < 0` it is the smallest integer not below `x`. |
| `Scoring.Score` | keylogger_detector.py:43-63 | The score never exceeds 100. It is non-negative when uptime and CPU are non-negative. Below 100 it is the sum truncated toward zero: the floor for a non-negative sum, the ceiling for a negative one. It is 100 exactly when the sum is at least 100. |
| `Scoring.RawScore` | keylogger_detector.py:43-62 | The sum of the five contributions never exceeds 20+20+25+15+25 = 105, nor 80 without the aggressive rule. It is non-negative when uptime and CPU are non-negative. |
| `Scoring.Reasons` | keylogger_detector.py:43-61 | At most five reasons. The list is empty exactly when the process is visible, has fewer than 4 threads, uptime at most 20, CPU at most 0.3, and is not `python.exe` in aggressive mode. |
| `Scoring.ScoreInRange` | keylogger_detector.py:43-63 | With non-negative uptime and CPU the score lies in 0..100. |
| `Scoring.ScoreExample` | keylogger_detector.py:43-63 | Hidden, 4 threads, 25 s uptime and CPU 0.35 sum to 55.5 and score 55 in both modes. |
| `Scoring.QuietProcessScores` | keylogger_detector.py:43-63 | A visible, fresh, idle process other than `python.exe` scores 5 with one thread and 0 with none. |
| `Scoring.BasicScoreAtMost80` | keylogger_detector.py:43-58 | Without the aggressive rule no score exceeds 20+20+25+15 = 80, for any reading. |
| `Scoring.BasicNeverReachesThreshold` | keylogger_detector.py:43-63 | Every basic-mode score is below the basic threshold of 90 (line 10). |
| `Scoring.AggressiveScoreDominates` | keylogger_detector.py:59-63 | The aggressive score is at least the basic score. The two are equal unless the name is `python.exe`. |
| `Scoring.ThresholdsOrdered` | keylogger_detector.py:10-11 | The aggressive threshold (50) is at most the basic one (90). |
| `Scoring.ReasonsExactly` | keylogger_detector.py:43-61 | Each of the five reasons is listed exactly when its condition holds: hidden, `threads >= 4`, `uptime > 20`, `cpu > 0.3`, aggressive and `python.exe`. Nothing else is ever listed, and the thread reason carries the actual count. There are at most five reasons. |
| `Scoring.ReasonsClosed` | keylogger_detector.py:43-61 | Every listed reason is one of the five texts, the thread reason with the process's own count. |
| `Scoring.ReasonsInEvaluationOrder` | keylogger_detector.py:43-61 | Reasons appear in evaluation order (visibility, threads, uptime, CPU, scripted runtime), so none is repeated. |
| `Scoring.ThreadReason` | keylogger_detector.py:49 | The text starts with "High thread count (", ends with ")", and has at least one character between them. |
| `Scoring.ThreadReasonInjective` | keylogger_detector.py:49 | Different thread counts give different "High thread count (n)" texts. |
| `Text.NatToString` | keylogger_detector.py:49 | The rendering of `n` is non-empty, all digits, and has no leading zero unless `n` is 0. |
| `Text.ParseNatToString` | keylogger_detector.py:49 | Parsing the rendered thread count gives back the count. |
| `Ranking.SortByScoreCorrect` | keylogger_detector.py:125 | The sort result is ordered by non-increasing score and is a permutation of its input. For every score, the findings with that score keep their input order (stability). |
| `Ranking.Insert` | keylogger_detector.py:125 | Inserting a finding lengthens the list by one. |
| `Ranking.SortByScore` | keylogger_detector.py:125 | The sort keeps the length of its input; its ordering, permutation and stability are stated by `SortByScoreCorrect`. |
| `Ranking.SortedByScoreIsUnique` | keylogger_detector.py:125 | Two lists with non-increasing scores that hold the same findings in the same order for every score are equal. |
| `Ranking.StableSortIsSortByScore` | keylogger_detector.py:125 | Any stable descending sort of a list, whatever its algorithm, gives exactly `SortByScore` of it. |
| `Scan.Threshold` | keylogger_detector.py:115 | The mode's inclusive threshold lies between 50 and 90, and is 50 exactly in aggressive mode. |
| `Scan.ProgressAt` | keylogger_detector.py:111 | `(i/total)·70` is positive for `i > 0` and exactly 70 at `i = total`. |
| `Scan.Phase1Progress` | keylogger_detector.py:110-111 | One phase-1 report per processed entry. |
| `Scan.ScanProgress` | keylogger_detector.py:110-124 | The modelled reports (phase 1 and the final 100, not the wait's reports at lines 119-122): `total + 1` of them, the last being 100. |
| `Scan.FindingOf` | keylogger_detector.py:112-117 | A finding comes only from a non-excluded pid with a successful read. It carries the entry's pid and reported name, and its score lies between the mode's threshold and 100. |
| `Scan.Collect` | keylogger_detector.py:110-117 | The collected findings are at most as many as the snapshot's entries. |
| `Scan.ScanFindings` | keylogger_detector.py:104-126 | The scan reports at most as many findings as the snapshot has entries. |
| `Scan.ScanSystem` | keylogger_detector.py:104-126 | The loop returns the ranked findings `ScanFindings` of the snapshot. The modelled progress reports are `ScanProgress`: `(i/total)·70` for i = 1..total (line 111), then the final 100 (line 124). The reports of the minimum-duration wait (lines 119-122) are not modelled. |
| `Scan.FindingOfIff` | keylogger_detector.py:112-117 | A snapshot entry becomes a finding exactly when it is scored and its score is at least the mode's threshold (inclusive). The finding holds the reported name, pid, score and reasons. |
| `Scan.CollectMembers` | keylogger_detector.py:110-117 | The collected list holds exactly the findings produced by snapshot entries. |
| `Scan.ScanFindingsMembers` | keylogger_detector.py:110-126 | A finding is in the scan result exactly when some snapshot entry produces it. |
| `Scan.FlaggedProcessReported` | keylogger_detector.py:113-117 | Every scored entry whose score reaches the threshold is in the result. |
| `Scan.ExcludedNeverReported` | keylogger_detector.py:112-117 | No finding has pid 0, pid 4 or the detector's own pid. |
| `Scan.ReportedScoresInRange` | keylogger_detector.py:115-117 | Every reported score lies between the mode's threshold and 100. |
| `Scan.BasicScanIsEmpty` | keylogger_detector.py:115-116 | A basic-mode scan of any snapshot returns no findings. |
| `Scan.AggressiveFlagsMore` | keylogger_detector.py:115-116 | An entry flagged in basic mode is also flagged in aggressive mode. |
| `Scan.AggressiveScanCoversBasic` | keylogger_detector.py:110-117 | For every process a basic scan reports, an aggressive scan of the same snapshot reports that process (same pid and name). The proof goes through the snapshot entry behind the finding, so it does not depend on the basic scan being empty. |
| `Scan.ScanFindingsRanked` | keylogger_detector.py:125 | The scan result has non-increasing scores and is a permutation of the collected findings. Findings with equal scores keep their enumeration order. |
| `Scan.Phase1ProgressAt` | keylogger_detector.py:110-111 | The j-th phase-1 report is `((j+1)/total)·70`. |
| `Scan.ProgressAtStrictlyIncreasing` | keylogger_detector.py:111 | `(i/total)·70` is positive, strictly increasing in `i`, at most 70, and exactly 70 at `i = total`. |
| `Scan.ScanProgressShape` | keylogger_detector.py:110-124 | Of the modelled reports, the phase-1 reports of line 111 followed by the final 100 of line 124 (the wait's reports at lines 119-122 excluded): there are `total + 1` of them. The phase-1 values rise strictly within (0, 70] and end at 70 when `total > 0`. Each modelled value is at most the next. The last is 100. |
| `Scan.EmptySnapshot` | keylogger_detector.py:107-126 | An empty snapshot reports only 100 and returns no findings. |

## Left out

- `has_visible_window` (lines 17-29): a Win32 window enumeration. Its result is the input `visible`.
- The `psutil` reads of name, thread count, creation time and CPU sample (lines 38-41, 107): operating-system I/O. Their values are inputs, and a failure is a `None` reading. The lower-casing at line 38 is not modelled, because Dafny strings have no case folding. The reading's `name` is taken as already lower-cased.
- The second `p.name()` call at line 117 sits outside the `try` and could raise. The model treats the reported name as a stable input.
- The minimum-duration wait and its time-based progress reports (lines 119-122): they depend on the wall clock. `ScanProgress` therefore lists only the phase-1 reports and the final 100. In the program a short scan also reports about a hundred values between 70 and 100 before the final 100. Because line 120 reads the clock again after the test on line 119, one of them can exceed 100, so the program's reports need not stay in order at the end.
- Floating-point rounding of the score sum and of the progress values `(i/total)·70`: the model computes both in exact reals. In floats the last phase-1 report is still exactly 70, since `total/total` is exactly 1.0, but the strict rise between reports is proved only for exact reals.
- Ranking.SortByScore: Python's in-place Timsort is not modelled as an algorithm. It is replaced by a stable insertion sort on values, and `StableSortIsSortByScore` shows every stable descending sort gives the same list.
- `confirm_terminate` and process termination (lines 69-102): a dialog plus an operating-system kill.
- `start_scan`, the threading, the widgets and the rest of the tkinter window (lines 128-271): user interface and concurrency.
