/**
 * The learner's dashboard: the statistics cards (enrolled courses, completed
 * courses, certificates, average quiz score), the five most recent
 * completions and the courses still in progress. The page groups the
 * learner's progress rows by course in a dictionary and walks the groups
 * with running totals; the model keeps that structure and relates it to
 * definitions over the rows themselves.
 */
module Dashboard {
  import opened Types
  import opened Collections
  import opened Ranking

  datatype Stats = Stats(totalCourses: int, completedCourses: int, totalCertificates: int, averageScore: real)

  /** A certificate row; `issued_at` is a timestamp in milliseconds. */
  datatype Certificate = Certificate(id: string, user_id: string, course_id: string, issued_at: int)

  /** The course ids the progress rows mention (the enrolled courses). */
  function CourseIds(rows: seq<UserProgress>): set<string> {
    set p | p in rows :: p.course_id
  }

  /** Every row of course `c` is completed. */
  ghost predicate CourseDone(rows: seq<UserProgress>, c: string) {
    forall i :: 0 <= i < |rows| && rows[i].course_id == c ==> rows[i].completed
  }

  /** Some row of course `c` is completed. */
  ghost predicate CourseStarted(rows: seq<UserProgress>, c: string) {
    exists i :: 0 <= i < |rows| && rows[i].course_id == c && rows[i].completed
  }

  /** The enrolled courses all of whose rows are completed. */
  ghost function CompletedCourseIds(rows: seq<UserProgress>): set<string> {
    set c | c in CourseIds(rows) && CourseDone(rows, c)
  }

  /** The enrolled courses with some but not all rows completed. */
  ghost function InProgressCourseIds(rows: seq<UserProgress>): set<string> {
    set c | c in CourseIds(rows) && CourseStarted(rows, c) && !CourseDone(rows, c)
  }

  predicate IsCompleted(p: UserProgress) {
    p.completed
  }

  /** `if (p.score)`: a score that is present and not zero. */
  predicate HasTruthyScore(p: UserProgress) {
    p.score.Some? && p.score.value != 0.0
  }

  function TruthyScore(p: UserProgress): real {
    if HasTruthyScore(p) then p.score.value else 0.0
  }

  function TruthyCount(p: UserProgress): int {
    if HasTruthyScore(p) then 1 else 0
  }

  /**
   * The mean of the truthy scores over all rows, or 0 when there is none:
   * a missing score and a score of 0 are both left out of the mean.
   */
  function AverageScore(rows: seq<UserProgress>): real {
    var n := SumInt(rows, TruthyCount);
    if n > 0 then SumReal(rows, TruthyScore) / n as real else 0.0
  }

  /** The statistics the cards show for these rows and this many certificates. */
  ghost function StatsFor(rows: seq<UserProgress>, certificateCount: int): Stats {
    Stats(|CourseIds(rows)|, |CompletedCourseIds(rows)|, certificateCount, AverageScore(rows))
  }

  /**
   * The `courseProgress` dictionary and its key order: one entry per course,
   * in order of first appearance, holding that course's rows in their order.
   */
  ghost predicate Grouped(rows: seq<UserProgress>, groups: map<string, seq<UserProgress>>, order: seq<string>) {
    order == DistinctKeys(rows, CourseKey)
    && (forall c :: c in groups <==> c in order)
    && (forall c :: c in groups ==> groups[c] == Where(rows, CourseKey, c))
  }

  lemma GroupedStep(rows: seq<UserProgress>, groups: map<string, seq<UserProgress>>, order: seq<string>, x: UserProgress)
    requires Grouped(rows, groups, order)
    ensures var c := x.course_id;
      Grouped(rows + [x],
              groups[c := (if c in groups then groups[c] else []) + [x]],
              if c in groups then order else order + [c])
  {
    var c := x.course_id;
    var next := groups[c := (if c in groups then groups[c] else []) + [x]];
    GroupedStepKeys(rows, groups, order, x);
    forall d | d in next ensures next[d] == Where(rows + [x], CourseKey, d) {
      GroupedStepGroup(rows, groups, order, x, d);
    }
  }

  /** The step keeps the key order and the dictionary's keys in step. */
  lemma GroupedStepKeys(rows: seq<UserProgress>, groups: map<string, seq<UserProgress>>, order: seq<string>, x: UserProgress)
    requires Grouped(rows, groups, order)
    ensures var c := x.course_id;
      var nextOrder := if c in groups then order else order + [c];
      nextOrder == DistinctKeys(rows + [x], CourseKey)
      && forall d :: d in groups || d == c <==> d in nextOrder
  {
    DistinctKeysAppend(rows, x, CourseKey);
  }

  /** After the step, the entry of course `d` is that course's rows of the longer prefix. */
  lemma GroupedStepGroup(rows: seq<UserProgress>, groups: map<string, seq<UserProgress>>, order: seq<string>,
                         x: UserProgress, d: string)
    requires Grouped(rows, groups, order)
    requires d in groups || d == x.course_id
    ensures var c := x.course_id;
      groups[c := (if c in groups then groups[c] else []) + [x]][d] == Where(rows + [x], CourseKey, d)
  {
    var c := x.course_id;
    WhereAppend(rows, x, CourseKey, d);
    if d == c {
      if c !in groups {
        WhereAbsent(rows, CourseKey, c);
      }
    } else {
      assert Where(rows, CourseKey, d) + [] == Where(rows, CourseKey, d);
    }
  }

  /** One step of the grouping `forEach`: create the row's group if absent, then push the row. */
  method PushProgress(courseProgress: map<string, seq<UserProgress>>, order: seq<string>, progress: UserProgress,
                      ghost before: seq<UserProgress>)
    returns (next: map<string, seq<UserProgress>>, nextOrder: seq<string>)
    requires Grouped(before, courseProgress, order)
    ensures Grouped(before + [progress], next, nextOrder)
  {
    var c := progress.course_id;
    var group := if c in courseProgress then courseProgress[c] else [];
    next := courseProgress[c := group + [progress]];
    nextOrder := if c in courseProgress then order else order + [c];
    GroupedStep(before, courseProgress, order, progress);
  }

  /** Groups the rows by course, as both `calculateStats` and `getInProgressCourses` do. */
  method GroupByCourse(userProgress: seq<UserProgress>)
    returns (courseProgress: map<string, seq<UserProgress>>, order: seq<string>)
    ensures Grouped(userProgress, courseProgress, order)
  {
    courseProgress, order := map[], [];
    for i := 0 to |userProgress|
      invariant Grouped(userProgress[..i], courseProgress, order)
    {
      PrefixSnoc(userProgress, i);
      courseProgress, order := PushProgress(courseProgress, order, userProgress[i], userProgress[..i]);
    }
    PrefixAll(userProgress);
  }

  /** The group keys of the dictionary are exactly the enrolled courses, each once. */
  lemma GroupKeysAreCourses(rows: seq<UserProgress>)
    ensures forall c :: c in DistinctKeys(rows, CourseKey) <==> c in CourseIds(rows)
    ensures |CourseIds(rows)| == |DistinctKeys(rows, CourseKey)|
  {
    var order := DistinctKeys(rows, CourseKey);
    forall c | c in order ensures c in CourseIds(rows) {
      var j :| 0 <= j < |order| && order[j] == c;
      var i :| 0 <= i < |rows| && CourseKey(rows[i]) == order[j];
      assert rows[i] in rows;
    }
    assert CourseIds(rows) == set c | c in order;
    DistinctCard(order);
  }

  /** A group is all completed exactly when every row of its course is. */
  lemma GroupDone(rows: seq<UserProgress>, c: string)
    ensures (forall i :: 0 <= i < |Where(rows, CourseKey, c)| ==> Where(rows, CourseKey, c)[i].completed)
        <==> CourseDone(rows, c)
  {
    WhereEvery(rows, CourseKey, c, IsCompleted);
  }

  /** A group has a completed row exactly when its course does. */
  lemma GroupStarted(rows: seq<UserProgress>, c: string)
    ensures (exists i :: 0 <= i < |Where(rows, CourseKey, c)| && Where(rows, CourseKey, c)[i].completed)
        <==> CourseStarted(rows, c)
  {
    WhereSome(rows, CourseKey, c, IsCompleted);
  }

  /**
   * The score loop over one group: adds each truthy score to the running
   * total and counts it.
   */
  method AddGroupScores(progresses: seq<UserProgress>, totalScore: real, scoreCount: int)
    returns (total: real, count: int)
    ensures total == totalScore + SumReal(progresses, TruthyScore)
    ensures count == scoreCount + SumInt(progresses, TruthyCount)
  {
    total, count := totalScore, scoreCount;
    for t := 0 to |progresses|
      invariant total == totalScore + SumReal(progresses[..t], TruthyScore)
      invariant count == scoreCount + SumInt(progresses[..t], TruthyCount)
    {
      PrefixSnoc(progresses, t);
      var p := progresses[t];
      if p.score.Some? && p.score.value != 0.0 {
        total := total + p.score.value;
        count := count + 1;
      }
    }
    PrefixAll(progresses);
  }

  /** The courses among `keys` all of whose rows are completed. */
  ghost function DoneAmong(keys: seq<string>, rows: seq<UserProgress>): set<string> {
    set c | c in keys && CourseDone(rows, c)
  }

  /** The courses among `keys` with some but not all rows completed. */
  ghost function InProgressAmong(keys: seq<string>, rows: seq<UserProgress>): set<string> {
    set c | c in keys && CourseStarted(rows, c) && !CourseDone(rows, c)
  }

  lemma DoneAmongSnoc(keys: seq<string>, c: string, rows: seq<UserProgress>)
    ensures DoneAmong(keys + [c], rows) == DoneAmong(keys, rows) + (if CourseDone(rows, c) then {c} else {})
  {
  }

  lemma InProgressAmongSnoc(keys: seq<string>, c: string, rows: seq<UserProgress>)
    ensures InProgressAmong(keys + [c], rows)
        == InProgressAmong(keys, rows) + (if CourseStarted(rows, c) && !CourseDone(rows, c) then {c} else {})
  {
  }

  /** Over all the group keys, the sets built group by group are the sets over the rows. */
  lemma AmongAllCourses(rows: seq<UserProgress>)
    ensures DoneAmong(DistinctKeys(rows, CourseKey), rows) == CompletedCourseIds(rows)
    ensures InProgressAmong(DistinctKeys(rows, CourseKey), rows) == InProgressCourseIds(rows)
  {
    GroupKeysAreCourses(rows);
  }

  /** An enrolled course whose rows are all completed has a completed row. */
  lemma DoneIsStarted(rows: seq<UserProgress>, c: string)
    requires c in CourseIds(rows) && CourseDone(rows, c)
    ensures CourseStarted(rows, c)
  {
    var p :| p in rows && p.course_id == c;
    var i :| 0 <= i < |rows| && rows[i] == p;
  }

  /** The completed courses are enrolled courses, so there are no more of them. */
  lemma CompletedWithinEnrolled(rows: seq<UserProgress>)
    ensures CompletedCourseIds(rows) <= CourseIds(rows)
    ensures |CompletedCourseIds(rows)| <= |CourseIds(rows)|
  {
    var done, all := CompletedCourseIds(rows), CourseIds(rows);
    assert all == done + (all - done);
  }

  /** The dictionary entry at position `j` of the key order is that course's rows. */
  lemma GroupAt(rows: seq<UserProgress>, groups: map<string, seq<UserProgress>>, order: seq<string>, j: int)
    requires Grouped(rows, groups, order) && 0 <= j < |order|
    ensures order[j] in groups && groups[order[j]] == Where(rows, CourseKey, order[j])
    ensures order[j] in CourseIds(rows)
  {
    GroupKeysAreCourses(rows);
  }

  /**
   * The two checks on an enrolled course's group: some and every row
   * completed is the course being done; some but not every row completed is
   * the course being in progress.
   */
  lemma GroupClass(rows: seq<UserProgress>, c: string)
    requires c in CourseIds(rows)
    ensures var g := Where(rows, CourseKey, c);
      ((exists i :: 0 <= i < |g| && g[i].completed) && (forall i :: 0 <= i < |g| ==> g[i].completed))
      <==> CourseDone(rows, c)
    ensures var g := Where(rows, CourseKey, c);
      ((exists i :: 0 <= i < |g| && g[i].completed) && !(forall i :: 0 <= i < |g| ==> g[i].completed))
      <==> CourseStarted(rows, c) && !CourseDone(rows, c)
  {
    GroupDone(rows, c);
    GroupStarted(rows, c);
    if CourseDone(rows, c) {
      DoneIsStarted(rows, c);
    }
  }

  /** Taking one more key into the walk adds that course's completion and score sums. */
  lemma WalkStep(order: seq<string>, j: int, rows: seq<UserProgress>)
    requires 0 <= j < |order|
    ensures DoneAmong(order[..j + 1], rows)
        == DoneAmong(order[..j], rows) + (if CourseDone(rows, order[j]) then {order[j]} else {})
    ensures SumGroupsReal(order[..j + 1], rows, CourseKey, TruthyScore)
        == SumGroupsReal(order[..j], rows, CourseKey, TruthyScore) + SumReal(Where(rows, CourseKey, order[j]), TruthyScore)
    ensures SumGroupsInt(order[..j + 1], rows, CourseKey, TruthyCount)
        == SumGroupsInt(order[..j], rows, CourseKey, TruthyCount) + SumInt(Where(rows, CourseKey, order[j]), TruthyCount)
  {
    PrefixSnoc(order, j);
    DoneAmongSnoc(order[..j], order[j], rows);
    SumGroupsRealSnoc(order[..j], order[j], rows, CourseKey, TruthyScore);
    SumGroupsIntSnoc(order[..j], order[j], rows, CourseKey, TruthyCount);
  }

  /**
   * The walk over the dictionary's entries in `calculateStats`: collects the
   * courses whose group is all completed and adds up the truthy scores.
   */
  method WalkGroups(userProgress: seq<UserProgress>, courseProgress: map<string, seq<UserProgress>>,
                    order: seq<string>)
    returns (completedCourses: set<string>, totalScore: real, scoreCount: int)
    requires Grouped(userProgress, courseProgress, order)
    ensures completedCourses == DoneAmong(order, userProgress)
    ensures totalScore == SumGroupsReal(order, userProgress, CourseKey, TruthyScore)
    ensures scoreCount == SumGroupsInt(order, userProgress, CourseKey, TruthyCount)
  {
    completedCourses, totalScore, scoreCount := {}, 0.0, 0;
    for j := 0 to |order|
      invariant completedCourses == DoneAmong(order[..j], userProgress)
      invariant totalScore == SumGroupsReal(order[..j], userProgress, CourseKey, TruthyScore)
      invariant scoreCount == SumGroupsInt(order[..j], userProgress, CourseKey, TruthyCount)
    {
      var courseId := order[j];
      GroupAt(userProgress, courseProgress, order, j);
      var progresses := courseProgress[courseId];
      GroupDone(userProgress, courseId);
      var courseComplete := forall i :: 0 <= i < |progresses| ==> progresses[i].completed;
      if courseComplete {
        completedCourses := completedCourses + {courseId};
      }
      totalScore, scoreCount := AddGroupScores(progresses, totalScore, scoreCount);
      WalkStep(order, j, userProgress);
    }
    PrefixAll(order);
  }

  /**
   * `calculateStats`: the enrolled courses, the courses whose every row is
   * completed, the certificate count, and the mean of the truthy scores,
   * summed group by group.
   */
  method CalculateStats(userProgress: seq<UserProgress>, certificateCount: int) returns (stats: Stats)
    ensures stats == StatsFor(userProgress, certificateCount)
    ensures 0 <= stats.completedCourses <= stats.totalCourses
    ensures stats.totalCourses == |DistinctKeys(userProgress, CourseKey)|
  {
    var enrolledCourses := set p | p in userProgress :: p.course_id;
    var courseProgress, order := GroupByCourse(userProgress);
    var completedCourses, totalScore, scoreCount := WalkGroups(userProgress, courseProgress, order);
    GroupKeysAreCourses(userProgress);
    AmongAllCourses(userProgress);
    CompletedWithinEnrolled(userProgress);
    SumByGroupsReal(order, userProgress, CourseKey, TruthyScore);
    SumByGroupsInt(order, userProgress, CourseKey, TruthyCount);
    stats := Stats(|enrolledCourses|, |completedCourses|, certificateCount,
                   if scoreCount > 0 then totalScore / scoreCount as real else 0.0);
  }

  /** Truthy scores within [0, 100] sum to at most 100 per counted score. */
  lemma {:induction false} TruthySumBound(rows: seq<UserProgress>)
    requires forall i :: 0 <= i < |rows| && rows[i].score.Some? ==> 0.0 <= rows[i].score.value <= 100.0
    ensures 0.0 <= SumReal(rows, TruthyScore) <= 100.0 * SumInt(rows, TruthyCount) as real
    decreases |rows|
  {
    if rows != [] {
      var rows' := rows[..|rows| - 1];
      assert forall i :: 0 <= i < |rows'| ==> rows'[i] == rows[i];
      TruthySumBound(rows');
    }
  }

  /** With every recorded score a percentage, the average score is one too. */
  lemma AverageScoreBounds(rows: seq<UserProgress>)
    requires forall i :: 0 <= i < |rows| && rows[i].score.Some? ==> 0.0 <= rows[i].score.value <= 100.0
    ensures 0.0 <= AverageScore(rows) <= 100.0
  {
    TruthySumBound(rows);
    var n := SumInt(rows, TruthyCount);
    if n > 0 {
      MeanBounds(SumReal(rows, TruthyScore), n, 100.0);
    }
  }

  /**
   * `getInProgressCourses`' classification: a course with some completed row
   * is completed when all its rows are and in progress otherwise; a course
   * with no completed row is in neither set.
   */
  method ClassifyCourses(userProgress: seq<UserProgress>) returns (inProgress: set<string>, completed: set<string>)
    ensures inProgress == InProgressCourseIds(userProgress)
    ensures completed == CompletedCourseIds(userProgress)
    ensures inProgress !! completed
    ensures forall c :: c in inProgress + completed <==> c in CourseIds(userProgress) && CourseStarted(userProgress, c)
  {
    var courseProgress, order := GroupByCourse(userProgress);
    inProgress, completed := ClassifyGroups(userProgress, courseProgress, order);
    AmongAllCourses(userProgress);
    forall c | c in CourseIds(userProgress) && CourseDone(userProgress, c) ensures CourseStarted(userProgress, c) {
      DoneIsStarted(userProgress, c);
    }
  }

  /** The walk over the dictionary's entries in `getInProgressCourses`. */
  method ClassifyGroups(userProgress: seq<UserProgress>, courseProgress: map<string, seq<UserProgress>>,
                        order: seq<string>)
    returns (inProgress: set<string>, completed: set<string>)
    requires Grouped(userProgress, courseProgress, order)
    ensures inProgress == InProgressAmong(order, userProgress)
    ensures completed == DoneAmong(order, userProgress)
  {
    inProgress, completed := {}, {};
    for j := 0 to |order|
      invariant inProgress == InProgressAmong(order[..j], userProgress)
      invariant completed == DoneAmong(order[..j], userProgress)
    {
      var courseId := order[j];
      GroupAt(userProgress, courseProgress, order, j);
      var progresses := courseProgress[courseId];
      var some := exists i :: 0 <= i < |progresses| && progresses[i].completed;
      var every := forall i :: 0 <= i < |progresses| ==> progresses[i].completed;
      GroupClass(userProgress, courseId);
      if some {
        if every {
          completed := completed + {courseId};
        } else {
          inProgress := inProgress + {courseId};
        }
      }
      PrefixSnoc(order, j);
      DoneAmongSnoc(order[..j], courseId, userProgress);
      InProgressAmongSnoc(order[..j], courseId, userProgress);
    }
    PrefixAll(order);
  }

  /** The catalogue's courses whose id is in `ids`, in catalogue order. */
  function CoursesAmong(courses: seq<Course>, ids: set<string>): seq<Course> {
    Filter(courses, (c: Course) => c.id in ids)
  }

  /**
   * The "continue learning" list: the first three of the catalogue's courses
   * that are in progress, in catalogue order; all of them when fewer than
   * three are in progress.
   */
  function InProgressCourses(courses: seq<Course>, inProgress: set<string>): (r: seq<Course>)
    ensures |r| <= 3
    ensures SubsequenceOf(r, courses)
    ensures forall i :: 0 <= i < |r| ==> r[i].id in inProgress
    ensures |r| < 3 ==> forall i :: 0 <= i < |courses| && courses[i].id in inProgress ==> courses[i] in r
    ensures r <= CoursesAmong(courses, inProgress)
    ensures |r| == if |CoursesAmong(courses, inProgress)| < 3 then |CoursesAmong(courses, inProgress)| else 3
  {
    var matching := CoursesAmong(courses, inProgress);
    var n := if |matching| < 3 then |matching| else 3;
    SubsequencePrefix(matching, courses, n);
    assert forall i :: 0 <= i < n ==> matching[..n][i] == matching[i];
    assert n == |matching| ==> matching[..n] == matching;
    matching[..n]
  }

  predicate HasCompletedAt(p: UserProgress) {
    p.completed_at.Some?
  }

  /** The sort key of the activity list: the completion time. */
  function CompletedAtKey(p: UserProgress): int {
    if p.completed_at.Some? then p.completed_at.value else 0
  }

  /** The rows with a completion time, newest first; ties keep the rows' order. */
  function DatedNewestFirst(rows: seq<UserProgress>): (r: seq<UserProgress>)
    ensures multiset(r) == multiset(Filter(rows, HasCompletedAt))
    ensures SortedDesc(r, CompletedAtKey)
  {
    var dated := Filter(rows, HasCompletedAt);
    SortDescSorted(dated, CompletedAtKey);
    SortDescPermutation(dated, CompletedAtKey);
    SortDesc(dated, CompletedAtKey)
  }

  /** Every row of the sorted dated rows has a completion time and is one of the learner's rows. */
  lemma DatedRows(rows: seq<UserProgress>, sorted: seq<UserProgress>)
    requires sorted == DatedNewestFirst(rows)
    ensures forall i :: 0 <= i < |sorted| ==> sorted[i].completed_at.Some? && sorted[i] in rows
  {
    forall i | 0 <= i < |sorted| ensures sorted[i].completed_at.Some? && sorted[i] in rows {
      assert sorted[i] in multiset(Filter(rows, HasCompletedAt));
    }
  }

  /**
   * `getRecentActivity`: the first five of the dated rows, newest first;
   * each row appears no more often than it does among the learner's rows.
   */
  function RecentActivity(rows: seq<UserProgress>): (r: seq<UserProgress>)
    ensures |r| <= 5
    ensures forall i :: 0 <= i < |r| ==> r[i].completed_at.Some? && r[i] in rows
    ensures SortedDesc(r, CompletedAtKey)
    ensures multiset(r) <= multiset(Filter(rows, HasCompletedAt))
    ensures r <= DatedNewestFirst(rows)
    ensures |r| == if |DatedNewestFirst(rows)| < 5 then |DatedNewestFirst(rows)| else 5
  {
    var sorted := DatedNewestFirst(rows);
    var n := if |sorted| < 5 then |sorted| else 5;
    DatedRows(rows, sorted);
    PrefixMultiset(sorted, n);
    SortedDescPrefix(sorted, CompletedAtKey, n);
    sorted[..n]
  }

  /**
   * Nothing newer is left out: a dated row missing from the activity list
   * only misses because five rows at least as recent fill it.
   */
  lemma RecentActivityNewest(rows: seq<UserProgress>, p: UserProgress)
    requires p in rows && p.completed_at.Some? && p !in RecentActivity(rows)
    ensures |RecentActivity(rows)| == 5
    ensures forall i :: 0 <= i < 5 ==> CompletedAtKey(RecentActivity(rows)[i]) >= CompletedAtKey(p)
  {
    var sorted := DatedNewestFirst(rows);
    var r := RecentActivity(rows);
    assert p in Filter(rows, HasCompletedAt);
    assert p in multiset(sorted);
    var m :| 0 <= m < |sorted| && sorted[m] == p;
    forall i | 0 <= i < |r| ensures CompletedAtKey(r[i]) >= CompletedAtKey(p) {
      assert r[i] == sorted[i];
    }
  }

  function IssuedAtKey(c: Certificate): int {
    c.issued_at
  }

  /** The certificates query: the learner's certificates, most recently issued first. */
  function UserCertificates(rows: seq<Certificate>, userId: string): (r: seq<Certificate>)
    ensures forall i :: 0 <= i < |r| ==> r[i].user_id == userId && r[i] in rows
    ensures forall i :: 0 <= i < |rows| && rows[i].user_id == userId ==> rows[i] in r
    ensures forall c :: multiset(r)[c] == if c.user_id == userId then multiset(rows)[c] else 0
    ensures SortedDesc(r, IssuedAtKey)
  {
    var mine := Filter(rows, (c: Certificate) => c.user_id == userId);
    var r := SortDesc(mine, IssuedAtKey);
    SortDescSorted(mine, IssuedAtKey);
    SortDescPermutation(mine, IssuedAtKey);
    FilterMultiset(rows, (c: Certificate) => c.user_id == userId);
    forall i | 0 <= i < |r| ensures r[i].user_id == userId && r[i] in rows {
      assert r[i] in multiset(mine);
    }
    forall i | 0 <= i < |rows| && rows[i].user_id == userId ensures rows[i] in r {
      assert rows[i] in multiset(r);
    }
    r
  }

  /** The page's state: the certificates loaded and the statistics shown. */
  class DashboardPage {
    var certificates: seq<Certificate>
    var stats: Stats

    constructor ()
      ensures certificates == [] && stats == Stats(0, 0, 0, 0.0)
    {
      certificates := [];
      stats := Stats(0, 0, 0, 0.0);
    }

    /** Loads the signed-in learner's certificates; without a user, or on an error, nothing changes. */
    method FetchCertificates(user: Option<string>, table: Response<seq<Certificate>>)
      modifies this`certificates
      ensures user.Some? && table.Ok? ==> certificates == UserCertificates(table.data, user.value)
      ensures user.None? || table.Error? ==> certificates == old(certificates)
    {
      if user.None? {
        return;
      }
      if table.Ok? {
        certificates := UserCertificates(table.data, user.value);
      }
    }

    /**
     * The statistics effect: recomputed only when both the catalogue and the
     * progress rows are non-empty, with the certificates loaded so far;
     * otherwise the cards keep what they showed.
     */
    method RefreshStats(courses: seq<Course>, userProgress: seq<UserProgress>)
      modifies this`stats
      ensures |courses| > 0 && |userProgress| > 0 ==> stats == StatsFor(userProgress, |certificates|)
      ensures |courses| == 0 || |userProgress| == 0 ==> stats == old(stats)
    {
      if |courses| > 0 && |userProgress| > 0 {
        stats := CalculateStats(userProgress, |certificates|);
      }
    }
  }
}
