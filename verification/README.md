# E-learning progress, quiz scoring and leaderboard rules in Dafny

This project models the rules of a React e-learning front end (zustand
store, hosted backend tables). Those rules turn learners' per-lesson progress
rows and quiz answers into:

- quiz scores and pass verdicts;
- the completion state of a course and the decision to issue a certificate;
- dashboard statistics;
- the catalogue's progress bars and filters;
- a ranked leaderboard.

The backend is not modelled as a service. Each action takes what the backend
answered as a parameter: the table's rows (`Response.Ok`) or a failure
(`Response.Error`).

Modules, one per source file (plus shared ones):

| file | module | models |
|---|---|---|
| `types.dfy` | `Types` | the records of `src/lib/supabase.ts`, `Option`, `Response` |
| `collections.dfy` | `Collections` | `filter`, grouping by key (`Where`, `DistinctKeys`), sums, and the partition lemmas the pages rely on |
| `ranking.dfy` | `Ranking` | the stable descending sort `Array.prototype.sort` performs with a `(a, b) => key(b) - key(a)` comparator |
| `quiz.dfy` | `Quiz` | the quiz component: weighted scoring and the navigation state (`class QuizSession`) |
| `course_store.dfy` | `CourseStore` | the course store (`class Store`): fetches, the progress query, the upsert-then-refresh |
| `course_detail.dfy` | `CourseDetail` | lesson completion, the progress bar, the resume lesson and the certificate trigger (`class CourseDetailPage`) |
| `leaderboard.dfy` | `Leaderboard` | the three-pass aggregation over dictionaries, the ranking, re-sorting and community totals (`class LeaderboardPage`) |
| `dashboard.dfy` | `Dashboard` | grouping by course, statistics, recent activity, in-progress courses and certificates (`class DashboardPage`) |
| `catalogue.dfy` | `Catalogue` | per-course progress share, case-insensitive search and the all / enrolled / completed selector |

The imperative code keeps its own form:

- The page loops over dictionaries are `for` loops with invariants: the leaderboard's `userStats` and `certificateCounts`, and the dashboard's `courseProgress`.
- Component and store state are classes whose methods state the whole new state.

Each loop is proved against a reference definition over the rows themselves.
The properties the pages promise are then proved about those definitions:
bounds, iff-characterisations, permutation and stability of the sort, and
sums that are preserved.

## Model

| member | source | states |
|---|---|---|
| Quiz.ScoreAnswers | src/components/Quiz/QuizComponent.tsx:30-39 | the loop's `totalPoints` is the sum of all points and `totalScore` the sum over questions whose recorded answer equals `correct_answer` (an unanswered slot never counts) |
| Quiz.Percentage | src/components/Quiz/QuizComponent.tsx:41 | the percentage cross-multiplies back: `p * total == 100 * achieved` |
| Quiz.PassedIffCrossMultiplied | src/components/Quiz/QuizComponent.tsx:45 | passing (percentage >= passing score, inclusive) is exactly `100 * achieved >= passing * total` |
| Quiz.AchievedBounds | src/components/Quiz/QuizComponent.tsx:34-39 | with no negative weights, achieved points lie between 0 and the total |
| Quiz.PercentageBounds | src/components/Quiz/QuizComponent.tsx:41 | with no negative weights and a positive total, the percentage is in [0, 100] |
| Quiz.FullPointsIffAllCorrect | src/components/Quiz/QuizComponent.tsx:34-39 | with positive weights, all points are earned iff every answer is correct |
| Quiz.FullMarksIffAllCorrect | src/components/Quiz/QuizComponent.tsx:34-41 | with positive weights, the percentage is 100 iff every answer is correct |
| Quiz.WeightedScenario | src/components/Quiz/QuizComponent.tsx:30-45 | weights 10/20/30/40 with the third answer wrong score 70 and pass at 70 |
| Quiz.QuizSession.constructor | src/components/Quiz/QuizComponent.tsx:11-14 | the initial state: question 0, no answers, results hidden, score 0, nothing reported |
| Quiz.QuizSession.HandleAnswer | src/components/Quiz/QuizComponent.tsx:16-20 | only the current question's slot changes, to the chosen answer; the "next" guard (line 197) then holds |
| Quiz.QuizSession.CalculateScore | src/components/Quiz/QuizComponent.tsx:30-47 | the stored score is the weighted percentage, results are shown, `onComplete` is called exactly once with that score and its verdict, and the verdict shown (line 57) equals the one reported |
| Quiz.QuizSession.NextQuestion | src/components/Quiz/QuizComponent.tsx:22-28 | before the last question it advances by one and changes nothing else; on the last it scores and reports; the index stays a valid question; like the handler it does not itself require an answer or hidden results, which only the page's button enforces |
| Quiz.QuizSession.PreviousQuestion | src/components/Quiz/QuizComponent.tsx:188 | one question back, clamped at 0 |
| Quiz.QuizSession.ResetQuiz | src/components/Quiz/QuizComponent.tsx:49-54 | back to the initial state, with the "next" button disabled |
| CourseStore.CourseWithInstructor | src/store/useCourseStore.ts:37-40 | the course keeps its fields; `instructor_name` is "Unknown" iff the instructor's name is absent, empty or itself "Unknown", and otherwise is that name |
| CourseStore.ProgressQuery | src/store/useCourseStore.ts:89-98 | an order-preserving subsequence of the table holding exactly the learner's rows, restricted to the course when a non-empty course id is given, each with its multiplicity in the table |
| CourseStore.ProgressRecord | src/store/useCourseStore.ts:113-120 | the upserted row carries the given keys, flag and score, and has a completion time iff it is completed |
| CourseStore.Store.constructor | src/store/useCourseStore.ts:18-22 | empty catalogue, no course, no lessons, no progress, not loading |
| CourseStore.Store.FetchCourses | src/store/useCourseStore.ts:24-48 | loading while awaiting and cleared afterwards either way; on success every course is its row with the instructor-name default; a failure keeps the catalogue |
| CourseStore.SingleCourse | src/store/useCourseStore.ts:58-59 | `.eq('id', id).single()`: the row with that id exactly when there is one such row, and no row (an error) when there are none or several |
| CourseStore.Store.FetchCourse | src/store/useCourseStore.ts:50-72 | when the read succeeds and exactly one row has the id, the open course is that row with the instructor-name default; otherwise it is kept |
| CourseStore.CourseLessons | src/store/useCourseStore.ts:77-80 | `.eq('course_id', courseId).order('order')`: exactly the course's lessons with their multiplicity, in ascending `order`, ties in table order |
| CourseStore.Store.FetchLessons | src/store/useCourseStore.ts:74-87 | on success the lessons become the course's lessons of the table read, in ascending `order`; a failure keeps them |
| CourseStore.Store.FetchUserProgress | src/store/useCourseStore.ts:89-107 | on success the rows are the query's result, all of them the learner's; a failure leaves them unchanged |
| CourseStore.Store.UpdateProgress | src/store/useCourseStore.ts:109-129 | sends the record above; a successful write followed by a successful re-read makes the rows that learner's and course's rows as stored (including the row sent, when stored); otherwise the rows are unchanged |
| CourseDetail.IsLessonCompleted | src/pages/CourseDetail.tsx:186-188 | true iff some row has the lesson's id and is completed |
| CourseDetail.CompletedLessonCount | src/pages/CourseDetail.tsx:192 | at most the number of lessons, and equal to it iff every lesson is completed |
| CourseDetail.ProgressPercentage | src/pages/CourseDetail.tsx:190-194 | 0 without lessons; in [0, 100]; `pct * lessons == 100 * completed`; 100 (the "Course Completed!" state, line 256) iff there are lessons and all are completed |
| CourseDetail.ProgressPercentageIsPercent | src/pages/CourseDetail.tsx:190-194 | the progress bar equals `Percent(completed lessons, lessons)`, the same share the catalogue cards show |
| CourseDetail.FirstIncomplete | src/pages/CourseDetail.tsx:46-48 | -1 iff every lesson is completed; otherwise the least index of an incomplete lesson |
| CourseDetail.AllCompletedCounting | src/pages/CourseDetail.tsx:102-104 | true iff every lesson is completed in the rows held or is the lesson just finished |
| CourseDetail.CertificateCheckIsCompletion | src/pages/CourseDetail.tsx:102-104 | the check on the old rows fires iff the course would show 100% once the finished lesson's completed row is added |
| CourseDetail.CourseDetailPage.constructor | src/pages/CourseDetail.tsx:27-29 | lesson 0 on screen, quiz closed |
| CourseDetail.CourseDetailPage.SyncActiveLesson | src/pages/CourseDetail.tsx:43-53 | with lessons and rows loaded and some lesson incomplete, the active lesson is the first incomplete one; otherwise it is kept |
| CourseDetail.CourseDetailPage.HandleLessonComplete | src/pages/CourseDetail.tsx:95-111 | without a user, course or active lesson nothing is sent and nothing happens; otherwise it sends the active lesson's row, completed with the current time and no score, the progress is updated as the store does, and a certificate is generated iff the course is loaded and the check on the pre-write rows passes, even when the write failed; the handler alone would generate one again for an already complete course, but the page shows its button only for a lesson not yet completed |
| CourseDetail.CourseDetailPage.HandleQuizComplete | src/pages/CourseDetail.tsx:130-151 | without a user, course or active lesson nothing is sent; otherwise it sends the active lesson's row with `completed` set to the verdict and the score; a failed quiz never generates a certificate and leaves the quiz open; a passed one closes it and generates a certificate iff the course is loaded and the check passes, so passing a quiz again on an already complete course generates another one |
| Leaderboard.Round | src/pages/Leaderboard.tsx:77-79 | `Math.round` is the integer within half of its argument, halves rounded up |
| Leaderboard.CompletedRows | src/pages/Leaderboard.tsx:28-37 | the query keeps exactly the completed rows, in table order, each as many times as the table holds it |
| Leaderboard.FoldProgress | src/pages/Leaderboard.tsx:48-67 | after the first pass the dictionary's keys, in insertion order, are the learners in order of first row; each entry holds the first row's name, the score sum with missing scores as 0, and the number of rows |
| Leaderboard.AddProgressRow | src/pages/Leaderboard.tsx:50-67 | one callback keeps that invariant for the longer prefix of rows |
| Leaderboard.StatsStep | src/pages/Leaderboard.tsx:54-66 | creating (on the first row) and then adding to the learner's entry gives the fold of the longer prefix |
| Leaderboard.CountCertificates | src/pages/Leaderboard.tsx:70-73 | every learner's count read with `\|\| 0` is the number of their certificate rows |
| Leaderboard.FinaliseEntries | src/pages/Leaderboard.tsx:75-80 | the values, in key order, are the reference entries: rounded mean score, row count, certificate count |
| Leaderboard.PushEntry | src/pages/Leaderboard.tsx:75-80 | one learner's final entry extends the list of reference entries by one |
| Leaderboard.Aggregate | src/pages/Leaderboard.tsx:48-93 | the three passes, filter and sort compute the ranked list of the reference entries |
| Leaderboard.EntriesHaveCompletions | src/pages/Leaderboard.tsx:83 | every entry has `completed_courses > 0`, so the filter removes nothing |
| Leaderboard.RankedIsStableSortOfEntries | src/pages/Leaderboard.tsx:82-93 | the ranked list is a permutation of the entries, non-increasing by the selected key, equal keys in their prior order |
| Leaderboard.RankedEntryIsEntry | src/pages/Leaderboard.tsx:48-80 | every ranked entry is the reference entry of a learner with rows |
| Leaderboard.RankedEntryFields | src/pages/Leaderboard.tsx:50-80 | a ranked entry's `completed_courses` is its learner's number of completed rows (not courses), its score the rounded mean with missing scores as 0, its certificates its certificate rows |
| Leaderboard.RankedUsers | src/pages/Leaderboard.tsx:50-83 | a learner is on the board iff they have a row |
| Leaderboard.RankedMembership | src/pages/Leaderboard.tsx:37 | over the whole table, a learner is on the board iff they have a completed row |
| Leaderboard.EntryScoreBounds | src/pages/Leaderboard.tsx:77-79 | with all recorded scores in [0, 100], an entry's score is in [0, 100] |
| Leaderboard.RankedScoreBounds | src/pages/Leaderboard.tsx:77-79 | the same bound for every ranked entry |
| Leaderboard.RankedTotalCompletions | src/pages/Leaderboard.tsx:285 | "Total Completions" is the number of completed rows, whatever the key |
| Leaderboard.RankedTotalCertificates | src/pages/Leaderboard.tsx:292 | "Certificates Earned" is the number of certificate rows whose holder has a completed progress row; certificates of other learners are not counted |
| Leaderboard.RankedTotalCertificatesAllListed | src/pages/Leaderboard.tsx:292 | when every certificate holder has a completed progress row, "Certificates Earned" is the number of certificate rows |
| Leaderboard.LeaderboardPage.constructor | src/pages/Leaderboard.tsx:15-17 | no users, loading, sorted by score |
| Leaderboard.LeaderboardPage.FetchLeaderboardData | src/pages/Leaderboard.tsx:23-101 | loading while awaiting and cleared afterwards; with both reads successful the list is the ranking of the completed rows by the current key; a failed read keeps the list |
| Leaderboard.LeaderboardPage.SetSortBy | src/pages/Leaderboard.tsx:103-115 | re-sorting keeps the same multiset of entries, ordered by the new key, equal keys in their prior order |
| Ranking.SortDescSorted | src/pages/Leaderboard.tsx:84-93 | the reference sort's output is non-increasing by the key |
| Ranking.SortDescPermutation | src/pages/Leaderboard.tsx:84-93 | the reference sort's output holds exactly the input's elements |
| Ranking.SortDescStable | src/pages/Leaderboard.tsx:84-93 | for every key value, the elements with that key keep their order |
| Ranking.SortDescSum | src/pages/Leaderboard.tsx:285 | sorting leaves every sum over the elements unchanged, so the community totals (also line 292) do not depend on the key |
| Ranking.SortedWithSameGroupsEqual | src/pages/Leaderboard.tsx:84-93 | two sorted sequences with the same elements per key value, in the same order, are equal |
| Ranking.StableSortIsSortDesc | src/pages/Leaderboard.tsx:84-93 | any sorted arrangement keeping the order within each key value is the reference sort, so it stands for the stable `Array.prototype.sort` |
| Ranking.InsertSorted | src/pages/Leaderboard.tsx:84-93 | inserting into a sorted sequence keeps it sorted |
| Ranking.InsertStable | src/pages/Leaderboard.tsx:84-93 | insertion keeps the order within every key value |
| Dashboard.GroupByCourse | src/pages/Dashboard.tsx:65-72 | the dictionary has one entry per course in order of first row, each holding exactly that course's rows in order |
| Dashboard.PushProgress | src/pages/Dashboard.tsx:67-72 | one callback keeps that grouping for the longer prefix |
| Dashboard.GroupKeysAreCourses | src/pages/Dashboard.tsx:60 | the group keys are exactly the enrolled courses, and there are as many as distinct course ids |
| Dashboard.GroupDone | src/pages/Dashboard.tsx:76 | a group is all completed iff every row of its course is |
| Dashboard.GroupStarted | src/pages/Dashboard.tsx:118 | a group has a completed row iff its course does |
| Dashboard.AddGroupScores | src/pages/Dashboard.tsx:81-86 | the inner loop adds the group's truthy scores (present and non-zero) to the total and counts them |
| Dashboard.WalkGroups | src/pages/Dashboard.tsx:75-87 | the walk collects the courses whose rows are all completed and sums the truthy scores group by group |
| Dashboard.CalculateStats | src/pages/Dashboard.tsx:59-95 | enrolled = distinct course ids, completed = courses with every row completed (never more than enrolled), certificates as loaded, average = mean of truthy scores over all rows or 0 |
| Dashboard.CompletedWithinEnrolled | src/pages/Dashboard.tsx:89-91 | the completed courses are enrolled ones, so there are no more of them |
| Dashboard.AverageScoreBounds | src/pages/Dashboard.tsx:93 | with every recorded score in [0, 100], the average is in [0, 100] |
| Dashboard.ClassifyCourses | src/pages/Dashboard.tsx:104-125 | in progress = some but not all rows completed; completed = all rows completed; the two are disjoint and together are the courses with a completed row |
| Dashboard.ClassifyGroups | src/pages/Dashboard.tsx:117-125 | the walk over the dictionary builds exactly those two sets |
| Dashboard.DoneIsStarted | src/pages/Dashboard.tsx:118-120 | an enrolled course whose rows are all completed has a completed row |
| Dashboard.InProgressCourses | src/pages/Dashboard.tsx:127 | the first three catalogue courses in progress, in catalogue order; all of them when fewer than three |
| Dashboard.DatedNewestFirst | src/pages/Dashboard.tsx:98-100 | the rows with a completion time, as a permutation, newest first |
| Dashboard.RecentActivity | src/pages/Dashboard.tsx:97-102 | the first five of the learner's dated rows sorted newest first (all of them when fewer), each row no more often than the rows hold it |
| Dashboard.RecentActivityNewest | src/pages/Dashboard.tsx:97-102 | a dated row is left out only when five rows at least as recent fill the list |
| Dashboard.UserCertificates | src/pages/Dashboard.tsx:46-50 | exactly the learner's certificates, each with its multiplicity, most recently issued first |
| Dashboard.DashboardPage.constructor | src/pages/Dashboard.tsx:20-26 | no certificates, all statistics 0 |
| Dashboard.DashboardPage.FetchCertificates | src/pages/Dashboard.tsx:42-57 | with a user and a successful read, the learner's certificates newest first; otherwise unchanged |
| Dashboard.DashboardPage.RefreshStats | src/pages/Dashboard.tsx:36-40 | recomputed with the certificates loaded so far only when catalogue and rows are non-empty; otherwise the cards keep their values |
| Catalogue.Lower | src/pages/Courses.tsx:29-30 | same length, no capital left, each character unchanged or a capital shifted to its small letter |
| Catalogue.LowerIdempotent | src/pages/Courses.tsx:29-30 | lowering twice is lowering once |
| Catalogue.Includes | src/pages/Courses.tsx:29-30 | true iff the needle occurs at some position; the empty needle always occurs |
| Catalogue.MatchesSearch | src/pages/Courses.tsx:29-30 | an empty search term matches every course |
| Catalogue.SearchIgnoresTermCase | src/pages/Courses.tsx:29-30 | the search gives the same answer for the term and its lowered form |
| Catalogue.CourseRowCounts | src/pages/Courses.tsx:21-24 | the course's row count is 0 iff it has no rows; its completed count equals the row count iff all its rows are completed, and is 0 iff none is |
| Catalogue.ProgressForCourse | src/pages/Courses.tsx:20-26 | the value is `Percent(completed rows, rows)` of the course, i.e. 100 times the completed rows over the rows; 0 without rows; in [0, 100]; 100 iff the course has rows and all are completed; 0 iff none of its rows is completed |
| Catalogue.OneOfThreeCompleted | src/pages/Courses.tsx:24-25 | one completed row out of three gives a percentage whose triple is 100 |
| Collections.Percent | src/pages/Courses.tsx:25 | `part / whole * 100`: 0 for an empty whole, in [0, 100], times `whole` it is 100 times `part`, 100 iff all, 0 iff none |
| Catalogue.FilteredCourses | src/pages/Courses.tsx:28-37 | an order-preserving subsequence of the catalogue holding exactly the courses matching both the search and the selector, each with its multiplicity |
| Catalogue.UnfilteredShowsAll | src/pages/Courses.tsx:28-37 | an empty term with "all" lists the whole catalogue |
| Catalogue.CompletedAgreesWithDashboard | src/pages/Courses.tsx:34 | the "completed" selector admits a course iff the dashboard counts it completed |

## Left out

- The hosted backend client, authentication, the chat store and pages, and realtime channels are not modelled: they are I/O. Every read or write is a parameter holding the table as answered, or a failure.
- Most reads take the table as the backend holds it and apply the query in the model. This covers the open course (`.eq('id')`, `.single()`), the lessons (`.eq('course_id')`, `order('order')`), the progress rows (`.eq('user_id')`, optional `.eq('course_id')`), the leaderboard's completed rows and the certificates (`.eq('user_id')`, `order('issued_at', descending)`). Orders are stable sorts. The backend's tie order, which no query fixes, is modelled as table order.
- The catalogue read (`order('created_at', descending)`) is taken as the backend answers it, already ordered, because course rows carry no creation time in the model.
- The quiz shown for a quiz lesson (`loadQuiz`, `.eq('lesson_id')`, `.single()`) is a parameter of the quiz session; its read is not modelled.
- The upsert's conflict key is not modelled, because it is the backend's. `written` is the table as the write left it.
- The `users!inner` join is represented by the name carried on each progress row.
- Certificate generation (PDF rendering and the certificate insert) is an event only: the handlers return whether it happens.
- The enrollment calls (`checkEnrollment`, `handleEnroll`) are network round-trips without logic and are not modelled.
- Toasts, routing, rendering and icons are not modelled.
- `avg_completion_time` is always 0 in the source and is not modelled.
- Dates are integer timestamps; `new Date`, `toISOString` and `toLocaleDateString` are not modelled.
- Numbers are exact reals, not IEEE doubles. Rounding in additions is not modelled.
- `QuizQuestion.points`, `correct_answer`, `Quiz.passing_score` and `Lesson.order` are integers in the model, so fractional weights, answer indices and passing scores are not covered.
- Catalogue.Lower: lowers ASCII capitals only, because Unicode case mapping is outside the model.
- Quiz.QuizSession.constructor: requires a positive point total. The source divides by the total and shows NaN for a zero total, which the model does not represent.
- Leaderboard.FinaliseEntries: the dictionary's key order is its insertion order. JavaScript lists integer-like keys first; the model does not represent that.
- Async interleaving is not modelled. Each handler reads the store's rows before its write as an explicit snapshot. The stale `sortBy` seen by a fetch started before a key change is also not modelled.
- The catalogue page's search term and selector state are parameters, not fields.

## Behaviour that departs from the evident intent

The model follows the code in each case:

- **Certificate trigger.** A once-per-course rule would fire only on the step into "completed". The code runs its check on every completion handler call, using the rows held before the write. The "Mark Complete" button is shown only for a lesson not yet completed, but the "Start Quiz" button stays on screen for a quiz lesson already passed. Passing that quiz again on a course that was already complete fires the check again (`HandleQuizComplete`, last ensures). It also fires when the write itself failed.
- **Leaderboard ties.** Ties are not broken by learner id. The code's stable sort keeps entries of equal key in their prior order, i.e. order of first row (`RankedIsStableSortOfEntries`, `SetSortBy`).
- **`completed_courses`.** The code counts completed progress rows, not courses (`RankedEntryFields`).
- **Failed reads.** A store failure is not reported to the caller. The code logs it and keeps the previous state (the `Fetch*` methods).
- **Zero-point quiz.** A zero-point quiz is not scored as 0. The code divides by zero. The model excludes that case.
- **Failed quiz.** A failed quiz upserts the row with `completed = false`, which can un-complete a lesson completed earlier (`HandleQuizComplete`, the ensures on `sent`).
- **Stale statistics.** The dashboard statistics are not recomputed when the catalogue or the progress rows are empty, so the cards can keep stale values (`RefreshStats`).
