/**
 * The course page: which lessons the learner has completed, the completion
 * percentage over the ordered lesson list, the lesson to resume at, and the
 * lesson-complete and quiz-complete handlers that write progress and decide
 * whether a certificate is generated.
 */
module CourseDetail {
  import opened Types
  import opened Collections
  import opened CourseStore

  /** Some progress row marks `lessonId` completed. */
  function IsLessonCompleted(progress: seq<UserProgress>, lessonId: string): (r: bool)
    ensures r <==> exists i :: 0 <= i < |progress| && progress[i].lesson_id == lessonId && progress[i].completed
    decreases |progress|
  {
    if progress == [] then false
    else if progress[0].lesson_id == lessonId && progress[0].completed then true
    else
      var rest := IsLessonCompleted(progress[1..], lessonId);
      assert forall i :: 1 <= i < |progress| ==> progress[i] == progress[1..][i - 1];
      rest
  }

  ghost predicate AllLessonsCompleted(lessons: seq<Lesson>, progress: seq<UserProgress>) {
    forall i :: 0 <= i < |lessons| ==> IsLessonCompleted(progress, lessons[i].id)
  }

  /** The number of lessons in the list that are completed. */
  function CompletedLessonCount(lessons: seq<Lesson>, progress: seq<UserProgress>): (n: nat)
    ensures n <= |lessons|
    ensures n == |lessons| <==> AllLessonsCompleted(lessons, progress)
    decreases |lessons|
  {
    if lessons == [] then 0
    else
      var rest := CompletedLessonCount(lessons[1..], progress);
      assert AllLessonsCompleted(lessons, progress)
        <==> IsLessonCompleted(progress, lessons[0].id) && AllLessonsCompleted(lessons[1..], progress) by {
        assert forall i :: 1 <= i < |lessons| ==> lessons[i] == lessons[1..][i - 1];
      }
      (if IsLessonCompleted(progress, lessons[0].id) then 1 else 0) + rest
  }

  /**
   * The course progress bar: 0 for a course without lessons, otherwise the
   * completed share of the lessons as a percentage; exactly 100 is the
   * "Course Completed!" state.
   */
  function ProgressPercentage(lessons: seq<Lesson>, progress: seq<UserProgress>): (pct: real)
    ensures |lessons| == 0 ==> pct == 0.0
    ensures 0.0 <= pct <= 100.0
    ensures pct * |lessons| as real == 100.0 * CompletedLessonCount(lessons, progress) as real
    ensures pct == 100.0 <==> |lessons| > 0 && AllLessonsCompleted(lessons, progress)
  {
    if |lessons| == 0 then 0.0
    else
      var n := CompletedLessonCount(lessons, progress);
      ShareBounds(n, |lessons|);
      var pct := n as real / |lessons| as real * 100.0;
      assert pct == 100.0 <==> n == |lessons|;
      assert pct * |lessons| as real == 100.0 * n as real;
      pct
  }

  /** The progress bar is the completed lessons' share of the lessons, as `Percent` defines it. */
  lemma ProgressPercentageIsPercent(lessons: seq<Lesson>, progress: seq<UserProgress>)
    ensures ProgressPercentage(lessons, progress) == Percent(CompletedLessonCount(lessons, progress), |lessons|)
  {
  }

  /**
   * `findIndex` of the first lesson not completed: -1 when every lesson is
   * completed, otherwise the least index of an incomplete lesson.
   */
  function FirstIncomplete(lessons: seq<Lesson>, progress: seq<UserProgress>): (r: int)
    ensures -1 <= r < |lessons|
    ensures r == -1 <==> AllLessonsCompleted(lessons, progress)
    ensures r >= 0 ==> !IsLessonCompleted(progress, lessons[r].id)
    ensures r >= 0 ==> forall i :: 0 <= i < r ==> IsLessonCompleted(progress, lessons[i].id)
    decreases |lessons|
  {
    if lessons == [] then -1
    else if !IsLessonCompleted(progress, lessons[0].id) then 0
    else
      var rest := FirstIncomplete(lessons[1..], progress);
      assert forall i :: 1 <= i < |lessons| ==> lessons[i] == lessons[1..][i - 1];
      if rest == -1 then -1 else rest + 1
  }

  /**
   * The certificate check of both handlers, on the progress rows the page
   * held before the write: every lesson is completed there or is the lesson
   * just finished.
   */
  function AllCompletedCounting(lessons: seq<Lesson>, progress: seq<UserProgress>, justFinished: string): (r: bool)
    ensures r <==> forall i :: 0 <= i < |lessons| ==>
      IsLessonCompleted(progress, lessons[i].id) || lessons[i].id == justFinished
    decreases |lessons|
  {
    if lessons == [] then true
    else
      var rest := AllCompletedCounting(lessons[1..], progress, justFinished);
      assert forall i :: 1 <= i < |lessons| ==> lessons[i] == lessons[1..][i - 1];
      (IsLessonCompleted(progress, lessons[0].id) || lessons[0].id == justFinished) && rest
  }

  /** A course already complete passes the check whatever lesson was just finished. */
  lemma CompleteCoursePassesCheck(lessons: seq<Lesson>, progress: seq<UserProgress>, justFinished: string)
    requires AllLessonsCompleted(lessons, progress)
    ensures AllCompletedCounting(lessons, progress, justFinished)
  {
  }

  /**
   * The check on the old rows agrees with the completion state once a completed
   * row for the finished lesson is added: it fires exactly when the course
   * would then show 100%.
   */
  lemma CertificateCheckIsCompletion(lessons: seq<Lesson>, progress: seq<UserProgress>, row: UserProgress)
    requires |lessons| > 0 && row.completed
    ensures AllCompletedCounting(lessons, progress, row.lesson_id)
        <==> ProgressPercentage(lessons, progress + [row]) == 100.0
  {
    var after := progress + [row];
    forall id ensures IsLessonCompleted(after, id) <==> IsLessonCompleted(progress, id) || id == row.lesson_id {
      if IsLessonCompleted(progress, id) {
        var i :| 0 <= i < |progress| && progress[i].lesson_id == id && progress[i].completed;
        assert after[i] == progress[i];
      }
      if id == row.lesson_id {
        assert after[|progress|] == row;
      }
      if IsLessonCompleted(after, id) {
        var i :| 0 <= i < |after| && after[i].lesson_id == id && after[i].completed;
        if i < |progress| {
          assert progress[i] == after[i];
        }
      }
    }
  }

  /** The page's own state: the lesson on screen and whether the quiz is open. */
  class CourseDetailPage {
    var activeLesson: int
    var showQuiz: bool

    constructor ()
      ensures activeLesson == 0 && !showQuiz
    {
      activeLesson := 0;
      showQuiz := false;
    }

    /**
     * When lessons and progress are loaded, moves to the first incomplete
     * lesson; when every lesson is complete the active lesson is kept.
     */
    method SyncActiveLesson(lessons: seq<Lesson>, progress: seq<UserProgress>)
      modifies this`activeLesson
      ensures |lessons| > 0 && |progress| > 0 && !AllLessonsCompleted(lessons, progress) ==>
        activeLesson == FirstIncomplete(lessons, progress)
      ensures |lessons| == 0 || |progress| == 0 || AllLessonsCompleted(lessons, progress) ==>
        activeLesson == old(activeLesson)
    {
      if |lessons| > 0 && |progress| > 0 {
        var firstIncomplete := FirstIncomplete(lessons, progress);
        if firstIncomplete != -1 {
          activeLesson := firstIncomplete;
        }
      }
    }

    /** The handlers act only with a signed-in user, a course id and a lesson on screen. */
    predicate CanAct(store: Store, user: Option<string>, courseId: string)
      reads this`activeLesson, store`lessons
    {
      user.Some? && courseId != "" && 0 <= activeLesson < |store.lessons|
    }

    /**
     * "Mark as complete": writes a completed row for the active lesson, with
     * no score and the current time (returned as `sent`), then
     * generates a certificate when the check on the rows held before the write
     * passes and the course is loaded. A failed write does not stop the check.
     * The page offers the button only while the active lesson is not yet
     * completed, so the last clause is not reachable from the page itself:
     * the handler alone would fire again for a complete course.
     */
    method HandleLessonComplete(store: Store, user: Option<string>, courseId: string, now: int,
                                written: Response<seq<UserProgress>>, reread: bool)
      returns (sent: Option<UserProgress>, certificate: bool)
      modifies store`userProgress
      ensures sent.Some? <==> CanAct(store, user, courseId)
      ensures sent.Some? ==>
        sent.value == ProgressRecord(user.value, courseId, store.lessons[activeLesson].id, true, None, now)
      ensures sent.Some? && written.Ok? && reread && sent.value in written.data ==> sent.value in store.userProgress
      ensures !CanAct(store, user, courseId) ==> !certificate && store.userProgress == old(store.userProgress)
      ensures CanAct(store, user, courseId) ==>
        store.userProgress == ProgressAfterUpdate(old(store.userProgress), user.value, courseId, written, reread)
      ensures CanAct(store, user, courseId) ==>
        certificate == (store.currentCourse.Some?
                        && AllCompletedCounting(store.lessons, old(store.userProgress), store.lessons[activeLesson].id))
      ensures (CanAct(store, user, courseId) && store.currentCourse.Some?
               && AllLessonsCompleted(store.lessons, old(store.userProgress))) ==> certificate
    {
      sent, certificate := None, false;
      if !CanAct(store, user, courseId) {
        return;
      }
      var lesson := store.lessons[activeLesson];
      var lessons, snapshot := store.lessons, store.userProgress;
      var row := store.UpdateProgress(user.value, courseId, lesson.id, true, None, now, written, reread);
      sent := Some(row);
      if AllLessonsCompleted(lessons, snapshot) {
        CompleteCoursePassesCheck(lessons, snapshot, lesson.id);
      }
      var allLessonsCompleted := AllCompletedCounting(lessons, snapshot, lesson.id);
      if allLessonsCompleted {
        certificate := store.currentCourse.Some?;
      }
    }

    /**
     * The quiz's completion callback: writes the lesson's row with
     * `completed` set to the verdict and the score (returned as `sent`); only a passed quiz closes
     * the quiz and runs the certificate check, so a failed one never yields
     * a certificate. The "Start Quiz" button stays on screen for a quiz lesson
     * already passed, so passing it again re-runs the check: on a course already
     * complete before the call, a certificate is generated again.
     */
    method HandleQuizComplete(store: Store, user: Option<string>, courseId: string, score: real, passed: bool,
                              now: int, written: Response<seq<UserProgress>>, reread: bool)
      returns (sent: Option<UserProgress>, certificate: bool)
      modifies store`userProgress, this`showQuiz
      ensures sent.Some? <==> CanAct(store, user, courseId)
      ensures sent.Some? ==>
        sent.value == ProgressRecord(user.value, courseId, store.lessons[activeLesson].id, passed, Some(score), now)
      ensures sent.Some? && written.Ok? && reread && sent.value in written.data ==> sent.value in store.userProgress
      ensures !passed ==> !certificate && showQuiz == old(showQuiz)
      ensures !CanAct(store, user, courseId) ==>
        !certificate && store.userProgress == old(store.userProgress) && showQuiz == old(showQuiz)
      ensures CanAct(store, user, courseId) ==>
        store.userProgress == ProgressAfterUpdate(old(store.userProgress), user.value, courseId, written, reread)
      ensures CanAct(store, user, courseId) && passed ==> !showQuiz
      ensures CanAct(store, user, courseId) && passed ==>
        certificate == (store.currentCourse.Some?
                        && AllCompletedCounting(store.lessons, old(store.userProgress), store.lessons[activeLesson].id))
      ensures (CanAct(store, user, courseId) && passed && store.currentCourse.Some?
               && AllLessonsCompleted(store.lessons, old(store.userProgress))) ==> certificate
    {
      sent, certificate := None, false;
      if !CanAct(store, user, courseId) {
        return;
      }
      var lesson := store.lessons[activeLesson];
      var lessons, snapshot := store.lessons, store.userProgress;
      var row := store.UpdateProgress(user.value, courseId, lesson.id, passed, Some(score), now, written, reread);
      sent := Some(row);
      if AllLessonsCompleted(lessons, snapshot) {
        CompleteCoursePassesCheck(lessons, snapshot, lesson.id);
      }
      if passed {
        showQuiz := false;
        var allLessonsCompleted := AllCompletedCounting(lessons, snapshot, lesson.id);
        if allLessonsCompleted {
          certificate := store.currentCourse.Some?;
        }
      }
    }
  }
}
