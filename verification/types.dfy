/**
 * The records the progress, quiz and leaderboard rules work on, mirroring the
 * row shapes of the hosted tables (courses, lessons, quizzes, user progress),
 * plus the two small wrappers the rest of the model uses for optional fields
 * and for backend responses.
 */
module Types {

  /** An optional value: a nullable column or an `undefined` property. */
  datatype Option<+T> = None | Some(value: T)

  /** What a call into the hosted backend hands back: its data, or an error. */
  datatype Response<+T> = Ok(data: T) | Error

  /** A course as the pages see it, with the instructor's name already joined in. */
  datatype Course = Course(
    id: string,
    title: string,
    description: string,
    instructor_id: string,
    instructor_name: string)

  datatype LessonKind = Article | QuizLesson

  datatype Lesson = Lesson(
    id: string,
    course_id: string,
    title: string,
    content: string,
    order: int,
    kind: LessonKind)

  /** One multiple-choice question; `correct_answer` indexes `options`. */
  datatype QuizQuestion = QuizQuestion(
    id: string,
    question: string,
    options: seq<string>,
    correct_answer: int,
    points: int)

  datatype Quiz = Quiz(
    id: string,
    lesson_id: string,
    questions: seq<QuizQuestion>,
    passing_score: int)

  /**
   * One row of the progress table. The score is a percentage (a quiz result);
   * `completed_at` is a timestamp in milliseconds. The table's generated row
   * id is not part of this model.
   */
  datatype UserProgress = UserProgress(
    user_id: string,
    course_id: string,
    lesson_id: string,
    completed: bool,
    score: Option<real>,
    completed_at: Option<int>)

  /** The grouping keys the pages use on progress rows. */
  function CourseKey(p: UserProgress): string { p.course_id }
  function UserKey(p: UserProgress): string { p.user_id }
}
