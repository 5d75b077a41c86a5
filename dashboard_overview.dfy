/**
 * The pure computations of the dashboard overview: the statistics derived
 * from the learner's completed progress records, the subject slug used to
 * build the "continue learning" route, and the cut-off of the recent
 * activity list. Fetching the records, routing and rendering are not part
 * of this module; a query that returns `null` is `None`.
 */
module DashboardOverview {
  import opened Wrappers
  import JsMath

  /** One row of the `user_progress` table (lib/supabase.ts). */
  datatype UserProgress = UserProgress(
    id: string,
    userId: string,
    lessonId: string,
    completed: bool,
    score: Option<int>,
    timeSpent: Option<int>,
    completedAt: Option<string>,
    createdAt: string)

  // ---------------------------------------------------------------------
  // Statistics over the completed records
  // ---------------------------------------------------------------------

  /**
   * The rows the statistics query keeps: those whose `completed` flag is
   * set, in their order.
   */
  function CompletedRows(rows: seq<UserProgress>): (kept: seq<UserProgress>)
    ensures forall p :: p in kept <==> p in rows && p.completed
    ensures |kept| <= |rows|
    ensures |kept| == |rows| <==> forall i :: 0 <= i < |rows| ==> rows[i].completed
  {
    if rows == [] then []
    else
      var rest := CompletedRows(rows[..|rows| - 1]);
      var last := rows[|rows| - 1];
      assert rows == rows[..|rows| - 1] + [last];
      if last.completed then rest + [last] else rest
  }

  /** Each completed row is kept as often as it occurs, and no other row is kept. */
  lemma {:induction false} CompletedRowsOccurrences(rows: seq<UserProgress>)
    ensures forall p :: multiset(CompletedRows(rows))[p] == if p.completed then multiset(rows)[p] else 0
    decreases |rows|
  {
    if rows != [] {
      var init, last := rows[..|rows| - 1], rows[|rows| - 1];
      CompletedRowsOccurrences(init);
      assert rows == init + [last];
      assert multiset(rows) == multiset(init) + multiset{last};
    }
  }

  /** The indices of the completed rows. */
  function CompletedIndices(rows: seq<UserProgress>): set<nat>
  {
    set i: nat | i < |rows| && rows[i].completed
  }

  /** The "Lessons Completed" figure: the number of records, 0 when the query gave none. */
  function TotalCompleted(stats: Option<seq<UserProgress>>): (total: nat)
    ensures total == 0 <==> stats.None? || stats.value == []
  {
    match stats
    case None => 0
    case Some(rows) => |rows|
  }

  /** Dropping the last row removes its index from the completed indices, and nothing else. */
  lemma CompletedIndicesStep(rows: seq<UserProgress>)
    requires rows != []
    ensures var n := |rows| - 1;
      CompletedIndices(rows) == CompletedIndices(rows[..n]) + (if rows[n].completed then {n} else {})
    ensures |rows| - 1 !in CompletedIndices(rows[..|rows| - 1])
  {
    var n := |rows| - 1;
    assert forall i :: 0 <= i < n ==> rows[..n][i] == rows[i];
  }

  /** The statistics query keeps one row per completed index. */
  lemma {:induction false} CompletedRowsCount(rows: seq<UserProgress>)
    ensures |CompletedRows(rows)| == |CompletedIndices(rows)|
    decreases |rows|
  {
    if rows != [] {
      CompletedIndicesStep(rows);
      CompletedRowsCount(rows[..|rows| - 1]);
    }
  }

  /**
   * Over the rows the statistics query keeps, the count is the number of
   * completed rows: at most the number of rows, and 0 exactly when no row
   * is completed.
   */
  lemma CompletedCount(rows: seq<UserProgress>)
    ensures TotalCompleted(Some(CompletedRows(rows))) == |CompletedIndices(rows)|
    ensures TotalCompleted(Some(CompletedRows(rows))) <= |rows|
    ensures TotalCompleted(Some(CompletedRows(rows))) == 0 <==> forall i :: 0 <= i < |rows| ==> !rows[i].completed
  {
    CompletedRowsCount(rows);
    var kept := CompletedRows(rows);
    if kept != [] {
      assert kept[0] in rows;
    }
  }

  /** The sum of the scores, a missing score counting as 0. */
  function SumScores(rows: seq<UserProgress>): int
  {
    if rows == [] then 0
    else SumScores(rows[..|rows| - 1]) + rows[|rows| - 1].score.GetOr(0)
  }

  /** Every score that is present lies between 0 and 100. */
  predicate ScoresInRange(rows: seq<UserProgress>)
  {
    forall i :: 0 <= i < |rows| ==> rows[i].score.None? || 0 <= rows[i].score.value <= 100
  }

  /**
   * The "Average Score" figure: the mean of the scores over all records,
   * including those without a score, rounded half up as `Math.round`
   * does; 0 when there are no records.
   */
  function AverageScore(stats: Option<seq<UserProgress>>): (avg: int)
    ensures stats.None? || stats.value == [] ==> avg == 0
    ensures stats.Some? && stats.value != [] ==>
      var n := |stats.value|;
      n * (2 * avg - 1) <= 2 * SumScores(stats.value) < n * (2 * avg + 1)
  {
    match stats
    case None => 0
    case Some(rows) => if rows == [] then 0 else JsMath.RoundDiv(SumScores(rows), |rows|)
  }

  lemma {:induction false} SumScoresRange(rows: seq<UserProgress>)
    requires ScoresInRange(rows)
    ensures 0 <= SumScores(rows) <= 100 * |rows|
    decreases |rows|
  {
    if rows != [] {
      var init := rows[..|rows| - 1];
      assert ScoresInRange(init) by {
        forall i | 0 <= i < |init| ensures init[i] == rows[i] { }
      }
      SumScoresRange(init);
      assert rows[|rows| - 1].score.None? || 0 <= rows[|rows| - 1].score.value <= 100;
    }
  }

  /** With every score in 0..100 the displayed average is in 0..100 as well. */
  lemma AverageScoreInRange(stats: Option<seq<UserProgress>>)
    requires stats.Some? ==> ScoresInRange(stats.value)
    ensures 0 <= AverageScore(stats) <= 100
  {
    if stats.Some? && stats.value != [] {
      SumScoresRange(stats.value);
      JsMath.RoundDivRange(SumScores(stats.value), |stats.value|, 0, 100);
    }
  }

  lemma {:induction false} SumOfEqualScores(rows: seq<UserProgress>, k: int)
    requires forall i :: 0 <= i < |rows| ==> rows[i].score == Some(k)
    ensures SumScores(rows) == k * |rows|
    decreases |rows|
  {
    if rows != [] {
      var init := rows[..|rows| - 1];
      assert forall i :: 0 <= i < |init| ==> init[i] == rows[i];
      SumOfEqualScores(init, k);
    }
  }

  /** When every record has the same score, that score is the average. */
  lemma EqualScoresAverage(rows: seq<UserProgress>, k: int)
    requires rows != []
    requires forall i :: 0 <= i < |rows| ==> rows[i].score == Some(k)
    ensures AverageScore(Some(rows)) == k
  {
    SumOfEqualScores(rows, k);
    JsMath.RoundDivUnique(SumScores(rows), |rows|, k);
  }

  /**
   * A record without a score adds nothing to the sum but one to the count:
   * the average is taken over one more record.
   */
  lemma NullScoreCountsInDenominator(rows: seq<UserProgress>, p: UserProgress)
    requires p.score.None?
    ensures SumScores(rows + [p]) == SumScores(rows)
    ensures AverageScore(Some(rows + [p])) == JsMath.RoundDiv(SumScores(rows), |rows| + 1)
  {
    assert (rows + [p])[..|rows|] == rows;
  }

  /** A record carrying only the completion flag and a score. */
  function ScoredRow(score: Option<int>): UserProgress
  {
    UserProgress("", "", "", true, score, None, None, "")
  }

  /** Scores 70 and 85 have mean 77.5, which `Math.round` takes up to 78. */
  lemma HalfRoundsUpExample()
    ensures AverageScore(Some([ScoredRow(Some(70)), ScoredRow(Some(85))])) == 78
  {
    var rows := [ScoredRow(Some(70)), ScoredRow(Some(85))];
    assert rows[..1] == [ScoredRow(Some(70))];
    assert SumScores(rows) == 155;
    JsMath.RoundDivUnique(155, 2, 78);
  }

  /** A score of 80 beside a record without a score is shown as 40, not 80. */
  lemma NullScoreExample()
    ensures AverageScore(Some([ScoredRow(Some(80)), ScoredRow(None)])) == 40
  {
    NullScoreCountsInDenominator([ScoredRow(Some(80))], ScoredRow(None));
    assert SumScores([ScoredRow(Some(80))]) == 80;
    JsMath.RoundDivUnique(80, 2, 40);
  }

  // ---------------------------------------------------------------------
  // Recent activity
  // ---------------------------------------------------------------------

  /** The records the "Recent Activity" card lists: the first five fetched, in order. */
  function RecentActivity<T>(fetched: Option<seq<T>>): (shown: seq<T>)
    ensures fetched.None? ==> shown == []
    ensures fetched.Some? ==> shown <= fetched.value
    ensures |shown| <= 5
    ensures fetched.Some? && |fetched.value| <= 5 ==> shown == fetched.value
    ensures fetched.Some? && |fetched.value| >= 5 ==> |shown| == 5
  {
    match fetched
    case None => []
    case Some(rows) => if |rows| <= 5 then rows else rows[..5]
  }

  // ---------------------------------------------------------------------
  // Subject slug
  // ---------------------------------------------------------------------

  /**
   * The characters the regular-expression class `\s` matches: the
   * ECMAScript white space and line terminators.
   */
  const JsSpaces: set<char> := {
    '\t', '\n', '\U{000B}', '\U{000C}', '\r', ' ', '\U{00A0}', '\U{1680}',
    '\U{2000}', '\U{2001}', '\U{2002}', '\U{2003}', '\U{2004}', '\U{2005}',
    '\U{2006}', '\U{2007}', '\U{2008}', '\U{2009}', '\U{200A}',
    '\U{2028}', '\U{2029}', '\U{202F}', '\U{205F}', '\U{3000}', '\U{FEFF}'
  }

  predicate IsUpper(c: char)
  {
    'A' <= c <= 'Z'
  }

  /** Lower-casing of one character, for the Latin capitals. */
  function ToLower(c: char): (d: char)
    ensures !IsUpper(d)
    ensures d in JsSpaces <==> c in JsSpaces
    ensures !IsUpper(c) ==> d == c
    ensures IsUpper(c) ==> d as int == c as int + 32
  {
    if IsUpper(c) then (c as int + 32) as char else c
  }

  /** `toLowerCase`: every character lower-cased, in place. */
  function LowerCase(s: string): (t: string)
    ensures |t| == |s|
    ensures forall i :: 0 <= i < |s| ==> t[i] == ToLower(s[i])
  {
    if s == [] then [] else [ToLower(s[0])] + LowerCase(s[1..])
  }

  /*
   * The run replacement below is stated for any class `ws` of characters
   * counted as white space; `Slug` applies it to `JsSpaces`.
   */

  /** What is left of `s` once its leading characters from `ws` are dropped. */
  function SkipSpaces(s: string, ws: set<char>): (rest: string)
    ensures |rest| <= |s|
    ensures s != [] && s[0] in ws ==> |rest| < |s|
    ensures rest == [] || rest[0] !in ws
  {
    if s != [] && s[0] in ws then SkipSpaces(s[1..], ws) else s
  }

  /** `replace(/\s+/g, '-')` for the class `ws`: every maximal run of it becomes one hyphen. */
  function ReplaceSpaceRuns(s: string, ws: set<char>): (t: string)
    ensures |t| <= |s|
    ensures '-' !in ws ==> forall i :: 0 <= i < |t| ==> t[i] !in ws
    decreases |s|
  {
    if s == [] then []
    else if s[0] in ws then
      var rest := SkipSpaces(s, ws);
      "-" + ReplaceSpaceRuns(rest, ws)
    else
      [s[0]] + ReplaceSpaceRuns(s[1..], ws)
  }

  /** The route segment of a subject: lower-cased, white-space runs joined by hyphens. */
  function Slug(name: string): (slug: string)
    ensures forall i :: 0 <= i < |slug| ==> slug[i] !in JsSpaces && !IsUpper(slug[i])
  {
    var lower := LowerCase(name);
    var slug := ReplaceSpaceRuns(lower, JsSpaces);
    assert '-' !in JsSpaces;
    ReplaceKeepsLowerCase(lower, JsSpaces);
    slug
  }

  /** Replacing runs by hyphens introduces no capital. */
  lemma {:induction false} ReplaceKeepsLowerCase(s: string, ws: set<char>)
    requires forall i :: 0 <= i < |s| ==> !IsUpper(s[i])
    ensures forall i :: 0 <= i < |ReplaceSpaceRuns(s, ws)| ==> !IsUpper(ReplaceSpaceRuns(s, ws)[i])
    decreases |s|
  {
    if s == [] {
    } else if s[0] in ws {
      var rest := SkipSpaces(s, ws);
      SkipSpacesIsSuffix(s, ws);
      assert forall i :: 0 <= i < |rest| ==> rest[i] == s[|s| - |rest| + i];
      ReplaceKeepsLowerCase(rest, ws);
    } else {
      assert forall i :: 0 <= i < |s| - 1 ==> s[1..][i] == s[i + 1];
      ReplaceKeepsLowerCase(s[1..], ws);
    }
  }

  /** What `SkipSpaces` leaves is a suffix of its argument. */
  lemma {:induction false} SkipSpacesIsSuffix(s: string, ws: set<char>)
    ensures SkipSpaces(s, ws) == s[|s| - |SkipSpaces(s, ws)|..]
    decreases |s|
  {
    if s != [] && s[0] in ws {
      SkipSpacesIsSuffix(s[1..], ws);
      assert s[1..][|s| - 1 - |SkipSpaces(s, ws)|..] == s[|s| - |SkipSpaces(s, ws)|..];
    }
  }

  /** Text with no character from `ws` is left as it is. */
  lemma {:induction false} ReplaceWithoutSpaces(s: string, ws: set<char>)
    requires forall i :: 0 <= i < |s| ==> s[i] !in ws
    ensures ReplaceSpaceRuns(s, ws) == s
    decreases |s|
  {
    if s != [] {
      assert forall i :: 0 <= i < |s| - 1 ==> s[1..][i] == s[i + 1];
      ReplaceWithoutSpaces(s[1..], ws);
    }
  }

  /** Dropping the leading run of `p + x`, where `p` ends outside `ws`, stays inside `p`. */
  lemma {:induction false} SkipSpacesAppend(p: string, x: string, ws: set<char>)
    requires p != [] && p[|p| - 1] !in ws
    ensures SkipSpaces(p + x, ws) == SkipSpaces(p, ws) + x
    ensures var rest := SkipSpaces(p, ws); rest != [] && rest[|rest| - 1] == p[|p| - 1]
    decreases |p|
  {
    if p[0] in ws {
      assert (p + x)[1..] == p[1..] + x;
      SkipSpacesAppend(p[1..], x, ws);
    }
  }

  /** A run from `ws` followed by a character outside it is skipped exactly. */
  lemma {:induction false} SkipSpacesRun(r: string, q: string, ws: set<char>)
    requires forall i :: 0 <= i < |r| ==> r[i] in ws
    requires q == [] || q[0] !in ws
    ensures SkipSpaces(r + q, ws) == q
    decreases |r|
  {
    if r != [] {
      assert (r + q)[1..] == r[1..] + q;
      SkipSpacesRun(r[1..], q, ws);
    }
  }

  /** A leading run turns into one hyphen in front of the rest. */
  lemma {:induction false} LeadingRun(r: string, q: string, ws: set<char>)
    requires r != [] && forall i :: 0 <= i < |r| ==> r[i] in ws
    requires q == [] || q[0] !in ws
    ensures ReplaceSpaceRuns(r + q, ws) == "-" + ReplaceSpaceRuns(q, ws)
  {
    assert (r + q)[0] in ws;
    SkipSpacesRun(r, q, ws);
  }

  /**
   * Each maximal run becomes exactly one hyphen: with `r` a non-empty run
   * from `ws` that is not preceded (end of `p`) or followed (start of `q`)
   * by more of it, the text on either side is rewritten on its own and `r`
   * turns into a single `-`.
   */
  lemma {:induction false} SpaceRunBecomesOneHyphen(p: string, r: string, q: string, ws: set<char>)
    requires r != [] && forall i :: 0 <= i < |r| ==> r[i] in ws
    requires p == [] || p[|p| - 1] !in ws
    requires q == [] || q[0] !in ws
    ensures ReplaceSpaceRuns(p + r + q, ws) == ReplaceSpaceRuns(p, ws) + "-" + ReplaceSpaceRuns(q, ws)
    decreases |p|, 1
  {
    if p == [] {
      assert p + r + q == r + q;
      LeadingRun(r, q, ws);
    } else if p[0] in ws {
      RunAfterSpace(p, r, q, ws);
    } else {
      RunAfterOther(p, r, q, ws);
    }
  }

  /** The case of `SpaceRunBecomesOneHyphen` where `p` starts with a run of its own. */
  lemma {:induction false} RunAfterSpace(p: string, r: string, q: string, ws: set<char>)
    requires r != [] && forall i :: 0 <= i < |r| ==> r[i] in ws
    requires p != [] && p[0] in ws && p[|p| - 1] !in ws
    requires q == [] || q[0] !in ws
    ensures ReplaceSpaceRuns(p + r + q, ws) == ReplaceSpaceRuns(p, ws) + "-" + ReplaceSpaceRuns(q, ws)
    decreases |p|, 0
  {
    var rest := SkipSpaces(p, ws);
    SkipSpacesAppend(p, r + q, ws);
    assert p + r + q == p + (r + q);
    SpaceRunBecomesOneHyphen(rest, r, q, ws);
    assert rest + (r + q) == rest + r + q;
  }

  /** The case of `SpaceRunBecomesOneHyphen` where `p` starts outside `ws`. */
  lemma {:induction false} RunAfterOther(p: string, r: string, q: string, ws: set<char>)
    requires r != [] && forall i :: 0 <= i < |r| ==> r[i] in ws
    requires p != [] && p[0] !in ws && p[|p| - 1] !in ws
    requires q == [] || q[0] !in ws
    ensures ReplaceSpaceRuns(p + r + q, ws) == ReplaceSpaceRuns(p, ws) + "-" + ReplaceSpaceRuns(q, ws)
    decreases |p|, 0
  {
    assert (p + r + q)[1..] == p[1..] + r + q;
    SpaceRunBecomesOneHyphen(p[1..], r, q, ws);
  }

  /** A slug is its own slug. */
  lemma SlugIdempotent(name: string)
    ensures Slug(Slug(name)) == Slug(name)
  {
    var slug := Slug(name);
    assert LowerCase(slug) == slug;
    ReplaceWithoutSpaces(slug, JsSpaces);
  }

  /**
   * Two words written in lower case and separated by one space, the form
   * of a subject such as "computer science", are joined by a hyphen.
   */
  lemma TwoWordSlug(first: string, second: string)
    requires first != [] && second != []
    requires forall i :: 0 <= i < |first| ==> first[i] !in JsSpaces && !IsUpper(first[i])
    requires forall i :: 0 <= i < |second| ==> second[i] !in JsSpaces && !IsUpper(second[i])
    ensures Slug(first + " " + second) == first + "-" + second
  {
    var name := first + " " + second;
    assert LowerCase(name) == name;
    ReplaceWithoutSpaces(first, JsSpaces);
    ReplaceWithoutSpaces(second, JsSpaces);
    SpaceRunBecomesOneHyphen(first, " ", second, JsSpaces);
  }
}
