/**
 * The course catalogue page: each course card's progress share, and the list
 * of courses narrowed by a case-insensitive search over title and
 * description and by the "all / enrolled / completed" selector.
 */
module Catalogue {
  import opened Types
  import opened Collections
  import opened Dashboard

  /** `toLowerCase` on one character; only the ASCII capitals change. */
  function LowerChar(c: char): char {
    if 'A' <= c <= 'Z' then (c as int + 32) as char else c
  }

  /** `toLowerCase`: every character lowered in place. */
  function Lower(s: string): (r: string)
    ensures |r| == |s|
    ensures forall i :: 0 <= i < |r| ==> !('A' <= r[i] <= 'Z')
    ensures forall i :: 0 <= i < |r| ==> r[i] == s[i] || ('A' <= s[i] <= 'Z' && r[i] as int == s[i] as int + 32)
  {
    seq(|s|, i requires 0 <= i < |s| => LowerChar(s[i]))
  }

  /** Lowering twice is lowering once. */
  lemma LowerIdempotent(s: string)
    ensures Lower(Lower(s)) == Lower(s)
  {
    var once := Lower(s);
    assert forall i :: 0 <= i < |once| ==> Lower(once)[i] == once[i];
  }

  /** `needle` occurs in `hay` starting at position `i`. */
  predicate OccursAt(hay: string, needle: string, i: int) {
    0 <= i && i + |needle| <= |hay| && hay[i..i + |needle|] == needle
  }

  /** Dropping the first character of `hay` shifts every later occurrence by one. */
  lemma OccursShift(hay: string, needle: string)
    requires |hay| > 0
    ensures forall i :: 1 <= i ==> (OccursAt(hay, needle, i) <==> OccursAt(hay[1..], needle, i - 1))
  {
    forall i | 1 <= i ensures OccursAt(hay, needle, i) <==> OccursAt(hay[1..], needle, i - 1) {
      if i + |needle| <= |hay| {
        assert hay[1..][i - 1..i - 1 + |needle|] == hay[i..i + |needle|];
      }
    }
  }

  /** `hay.includes(needle)`: the needle occurs at some position; the empty needle occurs everywhere. */
  function Includes(hay: string, needle: string): (r: bool)
    ensures r <==> exists i :: OccursAt(hay, needle, i)
    ensures needle == [] ==> r
    decreases |hay|
  {
    if |needle| > |hay| then false
    else if hay[..|needle|] == needle then
      assert OccursAt(hay, needle, 0);
      true
    else
      var rest := Includes(hay[1..], needle);
      OccursShift(hay, needle);
      assert !OccursAt(hay, needle, 0);
      if rest then
        var j :| OccursAt(hay[1..], needle, j);
        assert OccursAt(hay, needle, j + 1);
        true
      else
        false
  }

  /** The search box: the lowered term occurs in the lowered title or the lowered description. */
  function MatchesSearch(course: Course, searchTerm: string): (r: bool)
    ensures searchTerm == "" ==> r
  {
    var term := Lower(searchTerm);
    Includes(Lower(course.title), term) || Includes(Lower(course.description), term)
  }

  /** The search ignores the case of the term. */
  lemma SearchIgnoresTermCase(course: Course, searchTerm: string)
    ensures MatchesSearch(course, searchTerm) == MatchesSearch(course, Lower(searchTerm))
  {
    LowerIdempotent(searchTerm);
  }

  /** The rows of one course, as `getProgressForCourse` selects them. */
  function CourseRows(userProgress: seq<UserProgress>, courseId: string): seq<UserProgress> {
    Filter(userProgress, (p: UserProgress) => p.course_id == courseId)
  }

  /** What the two counts of `getProgressForCourse` say about the course's rows. */
  lemma CourseRowCounts(userProgress: seq<UserProgress>, courseId: string)
    ensures |CourseRows(userProgress, courseId)| == 0
        <==> forall i :: 0 <= i < |userProgress| ==> userProgress[i].course_id != courseId
    ensures var rows := CourseRows(userProgress, courseId);
      |Filter(rows, IsCompleted)| == |rows|
      <==> forall i :: 0 <= i < |userProgress| && userProgress[i].course_id == courseId ==> userProgress[i].completed
    ensures |Filter(CourseRows(userProgress, courseId), IsCompleted)| == 0
        <==> forall i :: 0 <= i < |userProgress| && userProgress[i].course_id == courseId ==> !userProgress[i].completed
  {
    var rows := CourseRows(userProgress, courseId);
    FilterLength(userProgress, (p: UserProgress) => p.course_id == courseId);
    FilterLength(rows, IsCompleted);
    forall i | 0 <= i < |rows| ensures rows[i] in userProgress && rows[i].course_id == courseId {
    }
    forall i | 0 <= i < |userProgress| && userProgress[i].course_id == courseId ensures userProgress[i] in rows {
    }
  }

  /**
   * `getProgressForCourse`: the share of the course's progress rows that are
   * completed, as a percentage; 0 for a course without rows.
   */
  function ProgressForCourse(userProgress: seq<UserProgress>, courseId: string): (pct: real)
    ensures (forall i :: 0 <= i < |userProgress| ==> userProgress[i].course_id != courseId) ==> pct == 0.0
    ensures 0.0 <= pct <= 100.0
    ensures pct == Percent(CourseDoneCount(userProgress, courseId), CourseRowCount(userProgress, courseId))
    ensures pct == 100.0 <==>
      (exists i :: 0 <= i < |userProgress| && userProgress[i].course_id == courseId)
      && (forall i :: 0 <= i < |userProgress| && userProgress[i].course_id == courseId ==> userProgress[i].completed)
    ensures pct == 0.0 <==>
      forall i :: 0 <= i < |userProgress| && userProgress[i].course_id == courseId ==> !userProgress[i].completed
  {
    var courseProgresses := CourseRows(userProgress, courseId);
    CourseRowCounts(userProgress, courseId);
    FilterLength(courseProgresses, IsCompleted);
    if |courseProgresses| == 0 then 0.0
    else
      var completed := |Filter(courseProgresses, IsCompleted)|;
      ShareBounds(completed, |courseProgresses|);
      completed as real / |courseProgresses| as real * 100.0
  }

  /** How many progress rows the course has. */
  function CourseRowCount(userProgress: seq<UserProgress>, courseId: string): nat {
    |CourseRows(userProgress, courseId)|
  }

  /** How many of the course's progress rows are completed. */
  function CourseDoneCount(userProgress: seq<UserProgress>, courseId: string): (n: nat)
    ensures n <= CourseRowCount(userProgress, courseId)
  {
    FilterLength(CourseRows(userProgress, courseId), IsCompleted);
    |Filter(CourseRows(userProgress, courseId), IsCompleted)|
  }

  /** One completed row out of three gives a third of 100, not a half or a whole. */
  lemma OneOfThreeCompleted(courseId: string, done: UserProgress, open1: UserProgress, open2: UserProgress)
    requires done.course_id == courseId && done.completed
    requires open1.course_id == courseId && !open1.completed
    requires open2.course_id == courseId && !open2.completed
    ensures ProgressForCourse([done, open1, open2], courseId) * 3.0 == 100.0
  {
    var rows := [done, open1, open2];
    assert CourseRows(rows, courseId) == rows by {
      FilterAll(rows, (p: UserProgress) => p.course_id == courseId);
    }
    assert Filter(rows, IsCompleted) == [done] by {
      assert Filter(rows[2..], IsCompleted) == [];
      assert Filter(rows[1..], IsCompleted) == [];
    }
  }

  /** The filter selector; a value other than the three it offers lets no course through. */
  predicate MatchesFilter(course: Course, filterRole: string, userProgress: seq<UserProgress>) {
    filterRole == "all"
    || (filterRole == "enrolled" && exists i :: 0 <= i < |userProgress| && userProgress[i].course_id == course.id)
    || (filterRole == "completed" && ProgressForCourse(userProgress, course.id) == 100.0)
  }

  predicate Shown(course: Course, searchTerm: string, filterRole: string, userProgress: seq<UserProgress>) {
    MatchesSearch(course, searchTerm) && MatchesFilter(course, filterRole, userProgress)
  }

  /** `filteredCourses`: the catalogue's courses passing both the search and the selector, in order. */
  function FilteredCourses(courses: seq<Course>, userProgress: seq<UserProgress>, searchTerm: string,
                           filterRole: string): (r: seq<Course>)
    ensures SubsequenceOf(r, courses)
    ensures forall i :: 0 <= i < |r| ==> Shown(r[i], searchTerm, filterRole, userProgress)
    ensures forall i :: 0 <= i < |courses| && Shown(courses[i], searchTerm, filterRole, userProgress) ==>
      courses[i] in r
    ensures forall c :: multiset(r)[c] == if Shown(c, searchTerm, filterRole, userProgress) then multiset(courses)[c] else 0
  {
    FilterMultiset(courses, (c: Course) => Shown(c, searchTerm, filterRole, userProgress));
    Filter(courses, (c: Course) => Shown(c, searchTerm, filterRole, userProgress))
  }

  /** With no search term and "all" selected, the whole catalogue is listed. */
  lemma UnfilteredShowsAll(courses: seq<Course>, userProgress: seq<UserProgress>)
    ensures FilteredCourses(courses, userProgress, "", "all") == courses
  {
    FilterAll(courses, (c: Course) => Shown(c, "", "all", userProgress));
  }

  /**
   * The catalogue's "completed" selector and the dashboard's completed-course
   * count agree: a course shows 100% exactly when the learner has rows for
   * it and all of them are completed.
   */
  lemma CompletedAgreesWithDashboard(userProgress: seq<UserProgress>, courseId: string)
    ensures ProgressForCourse(userProgress, courseId) == 100.0 <==> courseId in CompletedCourseIds(userProgress)
  {
    if ProgressForCourse(userProgress, courseId) == 100.0 {
      var i :| 0 <= i < |userProgress| && userProgress[i].course_id == courseId;
      assert userProgress[i] in userProgress;
    }
    if courseId in CompletedCourseIds(userProgress) {
      var p :| p in userProgress && p.course_id == courseId;
      var i :| 0 <= i < |userProgress| && userProgress[i] == p;
    }
  }
}
