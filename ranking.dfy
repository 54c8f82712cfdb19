/**
 * The findings of a scan and their ranking: `findings.sort(key=score,
 * reverse=True)`, a stable sort by score from highest to lowest.
 *
 * The sort is modelled by a stable insertion sort on values; stability is
 * stated as "for every score, the findings with that score keep their
 * relative order", and `SortedByScoreIsUnique` shows that this, together with
 * being sorted, fixes the result, whatever algorithm produces it.
 */
module Ranking {

  /** One flagged process: its name as reported, its pid, score and reasons. */
  datatype Finding = Finding(name: string, pid: int, score: int, reasons: seq<string>)

  /** Scores never increase from left to right. */
  predicate SortedByScore(s: seq<Finding>) {
    forall i, j :: 0 <= i < j < |s| ==> s[i].score >= s[j].score
  }

  /** The findings of `s` whose score is `k`, in their order in `s`. */
  function WithScore(s: seq<Finding>, k: int): (t: seq<Finding>)
    ensures |t| <= |s|
  {
    if s == [] then []
    else if s[0].score == k then [s[0]] + WithScore(s[1..], k)
    else WithScore(s[1..], k)
  }

  lemma {:induction false} WithScoreMember(s: seq<Finding>, k: int, f: Finding)
    ensures f in WithScore(s, k) <==> f in s && f.score == k
  {
    if s != [] {
      WithScoreMember(s[1..], k, f);
      assert s == [s[0]] + s[1..];
    }
  }

  lemma {:induction false} WithScoreNone(s: seq<Finding>, k: int)
    requires forall i :: 0 <= i < |s| ==> s[i].score != k
    ensures WithScore(s, k) == []
  {
    if s != [] {
      WithScoreNone(s[1..], k);
    }
  }

  lemma WithScoreHead(s: seq<Finding>)
    requires s != []
    ensures WithScore(s, s[0].score) != []
  {
  }

  /** Places `x` behind every finding of `t` whose score is at least `x`'s. */
  function Insert(x: Finding, t: seq<Finding>): (r: seq<Finding>)
    ensures |r| == |t| + 1
  {
    if t == [] then [x]
    else if t[0].score >= x.score then [t[0]] + Insert(x, t[1..])
    else [x] + t
  }

  /** Stable sort by descending score. */
  function SortByScore(s: seq<Finding>): (r: seq<Finding>)
    ensures |r| == |s|
  {
    if s == [] then [] else Insert(s[|s| - 1], SortByScore(s[..|s| - 1]))
  }

  lemma {:induction false} WithScoreAppend(a: seq<Finding>, b: seq<Finding>, k: int)
    ensures WithScore(a + b, k) == WithScore(a, k) + WithScore(b, k)
  {
    if a == [] {
      assert a + b == b;
    } else {
      assert (a + b)[1..] == a[1..] + b;
      WithScoreAppend(a[1..], b, k);
    }
  }

  lemma {:induction false} InsertMultiset(x: Finding, t: seq<Finding>)
    ensures multiset(Insert(x, t)) == multiset(t) + multiset{x}
  {
    if t != [] && t[0].score >= x.score {
      InsertMultiset(x, t[1..]);
      assert t == [t[0]] + t[1..];
    }
  }

  lemma {:induction false} InsertSorted(x: Finding, t: seq<Finding>)
    requires SortedByScore(t)
    ensures SortedByScore(Insert(x, t))
  {
    if t != [] && t[0].score >= x.score {
      InsertSorted(x, t[1..]);
      var rest := Insert(x, t[1..]);
      InsertMultiset(x, t[1..]);
      var r := [t[0]] + rest;
      forall j | 0 < j < |r| ensures t[0].score >= r[j].score {
        assert r[j] == rest[j - 1];
        assert r[j] in multiset(rest);
        assert r[j] in multiset(t[1..]) + multiset{x};
      }
      assert Insert(x, t) == r;
    }
  }

  lemma {:induction false} InsertWithScore(x: Finding, t: seq<Finding>, k: int)
    requires SortedByScore(t)
    ensures WithScore(Insert(x, t), k) == WithScore(t, k) + (if x.score == k then [x] else [])
  {
    if t == [] {
    } else if t[0].score >= x.score {
      InsertWithScore(x, t[1..], k);
      WithScoreAppend([t[0]], Insert(x, t[1..]), k);
      WithScoreAppend([t[0]], t[1..], k);
      assert t == [t[0]] + t[1..];
    } else {
      WithScoreAppend([x], t, k);
      if x.score == k {
        WithScoreNone(t, k);
      }
    }
  }

  /**
   * The ranked list is sorted by descending score, is a permutation of the
   * collected list, and keeps equal-score findings in their original order.
   */
  lemma {:induction false} SortByScoreCorrect(s: seq<Finding>)
    ensures SortedByScore(SortByScore(s))
    ensures multiset(SortByScore(s)) == multiset(s)
    ensures forall k :: WithScore(SortByScore(s), k) == WithScore(s, k)
  {
    if s != [] {
      var init, last := s[..|s| - 1], s[|s| - 1];
      assert s == init + [last];
      SortByScoreCorrect(init);
      InsertSorted(last, SortByScore(init));
      InsertMultiset(last, SortByScore(init));
      forall k ensures WithScore(SortByScore(s), k) == WithScore(s, k) {
        InsertWithScore(last, SortByScore(init), k);
        WithScoreAppend(init, [last], k);
      }
    }
  }

  /**
   * Two lists sorted by descending score that agree, score by score, on which
   * findings they hold and in which order, are the same list.
   */
  lemma {:induction false} SortedByScoreIsUnique(a: seq<Finding>, b: seq<Finding>)
    requires SortedByScore(a) && SortedByScore(b)
    requires forall k :: WithScore(a, k) == WithScore(b, k)
    ensures a == b
  {
    if a == [] || b == [] {
      if a != [] {
        WithScoreHead(a);
      } else if b != [] {
        WithScoreHead(b);
      }
    } else {
      var m := a[0].score;
      WithScoreMember(a, m, a[0]);
      WithScoreMember(b, m, a[0]);
      WithScoreMember(b, b[0].score, b[0]);
      WithScoreMember(a, b[0].score, b[0]);
      assert b[0].score == m;
      assert a[0] == WithScore(a, m)[0] == WithScore(b, m)[0] == b[0];
      forall k ensures WithScore(a[1..], k) == WithScore(b[1..], k) {
        var head := if m == k then [a[0]] else [];
        assert WithScore(a, k) == head + WithScore(a[1..], k);
        assert WithScore(b, k) == head + WithScore(b[1..], k);
        assert WithScore(a[1..], k) == WithScore(a, k)[|head|..];
        assert WithScore(b[1..], k) == WithScore(b, k)[|head|..];
      }
      SortedByScoreIsUnique(a[1..], b[1..]);
      assert a == [a[0]] + a[1..] && b == [b[0]] + b[1..];
    }
  }

  /** Any stable descending sort of `s` yields exactly `SortByScore(s)`. */
  lemma StableSortIsSortByScore(s: seq<Finding>, t: seq<Finding>)
    requires SortedByScore(t)
    requires forall k :: WithScore(t, k) == WithScore(s, k)
    ensures t == SortByScore(s)
  {
    SortByScoreCorrect(s);
    SortedByScoreIsUnique(t, SortByScore(s));
  }
}
