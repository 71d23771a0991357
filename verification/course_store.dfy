/**
 * The course store: the catalogue, the open course, its lessons, the signed-in
 * learner's progress rows and the loading flag, replaced by the fetch and
 * update actions. The hosted tables are not part of the model: each action
 * takes what the backend answered (the table's rows, or an error) as a
 * parameter and applies the query's filter to it.
 */
module CourseStore {
  import opened Types
  import opened Collections
  import opened Ranking

  /** A catalogue row with the full name of the joined instructor, when there is one. */
  datatype CourseRow = CourseRow(
    id: string,
    title: string,
    description: string,
    instructor_id: string,
    instructor: Option<string>)

  /**
   * The course the pages see: the row with `instructor_name` set to the
   * instructor's full name, or to "Unknown" when that name is absent or empty.
   */
  function CourseWithInstructor(row: CourseRow): (c: Course)
    ensures c.id == row.id && c.title == row.title && c.description == row.description
    ensures c.instructor_id == row.instructor_id
    ensures c.instructor_name == "Unknown"
        <==> row.instructor.None? || row.instructor.value == "" || row.instructor.value == "Unknown"
    ensures c.instructor_name != "Unknown" ==> row.instructor == Some(c.instructor_name)
  {
    var name := if row.instructor.Some? && row.instructor.value != "" then row.instructor.value else "Unknown";
    Course(row.id, row.title, row.description, row.instructor_id, name)
  }

  /** An optional course id restricts the query only when it is present and non-empty. */
  predicate FiltersByCourse(courseId: Option<string>) {
    courseId.Some? && courseId.value != ""
  }

  predicate MatchesQuery(p: UserProgress, userId: string, courseId: Option<string>) {
    p.user_id == userId && (FiltersByCourse(courseId) ==> p.course_id == courseId.value)
  }

  /** The progress query: the learner's rows, of one course when a course id is given. */
  function ProgressQuery(table: seq<UserProgress>, userId: string, courseId: Option<string>): (r: seq<UserProgress>)
    ensures SubsequenceOf(r, table)
    ensures forall i :: 0 <= i < |r| ==>
      r[i].user_id == userId && (FiltersByCourse(courseId) ==> r[i].course_id == courseId.value)
    ensures forall i :: 0 <= i < |table| && MatchesQuery(table[i], userId, courseId) ==> table[i] in r
    ensures forall x :: multiset(r)[x] == if MatchesQuery(x, userId, courseId) then multiset(table)[x] else 0
  {
    FilterMultiset(table, p => MatchesQuery(p, userId, courseId));
    Filter(table, p => MatchesQuery(p, userId, courseId))
  }

  /** The lessons query's filter: the rows of the course. */
  function LessonsOf(table: seq<Lesson>, courseId: string): seq<Lesson> {
    Filter(table, (l: Lesson) => l.course_id == courseId)
  }

  /** The lessons query's sort key: ascending `order` is descending negated order. */
  function DescendingKey(l: Lesson): int {
    -l.order
  }

  /**
   * The lessons query: the course's rows in ascending `order`, rows of equal
   * `order` kept in table order, each row as often as the table holds it.
   */
  function CourseLessons(table: seq<Lesson>, courseId: string): (r: seq<Lesson>)
    ensures forall i :: 0 <= i < |r| ==> r[i].course_id == courseId
    ensures forall i, j :: 0 <= i < j < |r| ==> r[i].order <= r[j].order
    ensures forall x :: multiset(r)[x] == if x.course_id == courseId then multiset(table)[x] else 0
    ensures forall k :: Where(r, DescendingKey, k) == Where(LessonsOf(table, courseId), DescendingKey, k)
  {
    var rows := LessonsOf(table, courseId);
    FilterMultiset(table, (l: Lesson) => l.course_id == courseId);
    SortDescSorted(rows, DescendingKey);
    SortDescPermutation(rows, DescendingKey);
    forall k ensures Where(SortDesc(rows, DescendingKey), DescendingKey, k) == Where(rows, DescendingKey, k) {
      SortDescStable(rows, DescendingKey, k);
    }
    var r := SortDesc(rows, DescendingKey);
    forall i | 0 <= i < |r| ensures r[i].course_id == courseId {
      assert r[i] in multiset(rows);
    }
    forall i, j | 0 <= i < j < |r| ensures r[i].order <= r[j].order {
      assert DescendingKey(r[i]) >= DescendingKey(r[j]);
    }
    r
  }

  /**
   * The single-course query with `.single()`: the row with that id when there
   * is exactly one; none (an error) when there is none or more than one.
   */
  function SingleCourse(table: seq<CourseRow>, id: string): (r: Option<CourseRow>)
    ensures r.Some? <==> |Filter(table, (c: CourseRow) => c.id == id)| == 1
    ensures r.Some? ==> r.value.id == id && r.value in table
    ensures r.Some? ==> forall i :: 0 <= i < |table| && table[i].id == id ==> table[i] == r.value
  {
    var rows := Filter(table, (c: CourseRow) => c.id == id);
    if |rows| == 1 then Some(rows[0]) else None
  }

  /**
   * The row `updateProgress` writes: the given keys, flag and score, with a
   * completion time exactly when the lesson is marked completed.
   */
  function ProgressRecord(userId: string, courseId: string, lessonId: string, completed: bool,
                          score: Option<real>, now: int): (r: UserProgress)
    ensures r.user_id == userId && r.course_id == courseId && r.lesson_id == lessonId
    ensures r.completed == completed && r.score == score
    ensures r.completed_at.Some? <==> completed
    ensures r.completed_at.Some? ==> r.completed_at.value == now
  {
    UserProgress(userId, courseId, lessonId, completed, score, if completed then Some(now) else None)
  }

  /**
   * The progress rows after `updateProgress`: the refreshed query result when
   * both the write and the re-read succeed, otherwise the rows held before.
   * `written` is the table as the upsert left it (the conflict key that decides
   * which row it replaces is the backend's).
   */
  function ProgressAfterUpdate(before: seq<UserProgress>, userId: string, courseId: string,
                               written: Response<seq<UserProgress>>, reread: bool): seq<UserProgress>
  {
    if written.Ok? && reread then ProgressQuery(written.data, userId, Some(courseId)) else before
  }

  class Store {
    var courses: seq<Course>
    var currentCourse: Option<Course>
    var lessons: seq<Lesson>
    var userProgress: seq<UserProgress>
    var loading: bool

    constructor ()
      ensures courses == [] && currentCourse == None && lessons == [] && userProgress == [] && !loading
    {
      courses := [];
      currentCourse := None;
      lessons := [];
      userProgress := [];
      loading := false;
    }

    /**
     * Loads the catalogue. `loadingWhileAwaiting` is the flag as the pages see
     * it while the query is outstanding; it is cleared on success and failure.
     */
    method FetchCourses(response: Response<seq<CourseRow>>) returns (loadingWhileAwaiting: bool)
      modifies this`courses, this`loading
      ensures loadingWhileAwaiting && !loading
      ensures response.Ok? ==> |courses| == |response.data|
      ensures response.Ok? ==>
        forall i :: 0 <= i < |courses| ==> courses[i] == CourseWithInstructor(response.data[i])
      ensures response.Error? ==> courses == old(courses)
    {
      loading := true;
      loadingWhileAwaiting := loading;
      if response.Ok? {
        var rows := response.data;
        courses := seq(|rows|, i requires 0 <= i < |rows| => CourseWithInstructor(rows[i]));
      }
      loading := false;
    }

    /**
     * Loads the course with id `id` from `table` (the courses table as read)
     * with the same instructor-name rule; a failed read, or a query that does
     * not find exactly one row, keeps the open course.
     */
    method FetchCourse(id: string, table: Response<seq<CourseRow>>)
      modifies this`currentCourse
      ensures table.Ok? && SingleCourse(table.data, id).Some? ==>
        currentCourse == Some(CourseWithInstructor(SingleCourse(table.data, id).value))
      ensures table.Error? || SingleCourse(table.data, id).None? ==> currentCourse == old(currentCourse)
    {
      if table.Ok? {
        var row := SingleCourse(table.data, id);
        if row.Some? {
          currentCourse := Some(CourseWithInstructor(row.value));
        }
      }
    }

    /**
     * Replaces the lessons with the lessons of course `courseId` in `table`
     * (the lessons table as read), in ascending `order`; a failed read keeps them.
     */
    method FetchLessons(courseId: string, table: Response<seq<Lesson>>)
      modifies this`lessons
      ensures lessons == if table.Ok? then CourseLessons(table.data, courseId) else old(lessons)
      ensures table.Ok? ==> forall i :: 0 <= i < |lessons| ==> lessons[i].course_id == courseId
    {
      if table.Ok? {
        lessons := CourseLessons(table.data, courseId);
      }
    }

    /**
     * Loads the learner's progress rows from `table` (the progress table as
     * read), keeping only the learner's rows and, when a course id is given,
     * that course's. A failed read leaves the rows as they were.
     */
    method FetchUserProgress(userId: string, courseId: Option<string>, table: Response<seq<UserProgress>>)
      modifies this`userProgress
      ensures table.Ok? ==> userProgress == ProgressQuery(table.data, userId, courseId)
      ensures table.Ok? ==> forall i :: 0 <= i < |userProgress| ==> userProgress[i].user_id == userId
      ensures table.Error? ==> userProgress == old(userProgress)
    {
      if table.Ok? {
        userProgress := ProgressQuery(table.data, userId, courseId);
      }
    }

    /**
     * Upserts one progress row and, when the write succeeded, refreshes the
     * rows of that learner and course from the table as written (`reread`
     * tells whether that read succeeded). A failed write skips the refresh.
     */
    method UpdateProgress(userId: string, courseId: string, lessonId: string, completed: bool,
                          score: Option<real>, now: int,
                          written: Response<seq<UserProgress>>, reread: bool)
      returns (sent: UserProgress)
      modifies this`userProgress
      ensures sent == ProgressRecord(userId, courseId, lessonId, completed, score, now)
      ensures userProgress == ProgressAfterUpdate(old(userProgress), userId, courseId, written, reread)
      ensures written.Ok? && reread && sent in written.data ==> sent in userProgress
    {
      sent := ProgressRecord(userId, courseId, lessonId, completed, score, now);
      if written.Ok? {
        FetchUserProgress(userId, Some(courseId), if reread then written else Error);
        if reread && sent in written.data {
          var i :| 0 <= i < |written.data| && written.data[i] == sent;
          assert MatchesQuery(written.data[i], userId, Some(courseId));
        }
      }
    }
  }
}
