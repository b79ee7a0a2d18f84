# University portal core, modelled in Dafny

This project models the business rules of a Django university portal: course elements and their grading, the timetable and its admin actions, academic records, course progress, messaging, API credentials, study materials, site settings, university-structure actions, reports and accounts. The model does not go through the framework. Each database table is a sequence or a map held in memory. Dates are integer day numbers, with day 0 a Monday, so `Weekday` matches Python's `date.weekday()`. Moments are integer seconds. "Now", "today", UUID hex text, slugs and generated tokens are passed in as parameters.

The source's form is kept:

- A row whose save hook or method updates its fields (a quiz attempt, a progress record, an API key, a material) is a `class` whose methods modify it.
- A signal or admin action that rewrites a table is a method over a class holding that table. A save that fires `post_save` receivers of the core runs them inside the same method, so its `ensures` also say what they do to the other tables: a tracking for each new class, the classes of a new template item, the summary and the debt clearance after a grade, the standing after a debt, the notifications of a new thread message or a published announcement, the notification settings of a new user, the copy of a finished quiz attempt into its progress record (`update_quiz_progress`), and the enrollment's last access after every save of a progress record (`update_enrollment_last_accessed`). The `pre_save` receiver `check_course_completion` is stated through the course-progress update it breaks (see "## Findings"). Every other receiver of the core is listed under "## Left out" with the reason it is not composed.
- The loops in the source (class generation, copying, admin actions over a selection) are `while` loops with invariants. The one exception is the loop of `mark_as_complete`, which is the recursive method `CourseElementsAdmin.MarkFrom`, one attempt per call.
- Validation (`clean`), displays and properties are functions.
- Each method is tied by its `ensures` to a function of the old state. Lemmas prove what the portal promises about that function:
  - re-running class generation creates nothing;
  - grade buckets sum to the subject total;
  - the standing follows the debt count;
  - an ordering answer is correct only when the order is exact;
  - and the other properties listed below.

One module per source file:

- `Common`: shared string, date and selection helpers
- `CourseElements`, `CourseElementsAdmin`: `course_elements/models.py`, `course_elements/admin.py`
- `Courses`, `CoursesAdmin`: `courses/models.py`, `courses/admin.py`
- `Schedule`: `schedule/models.py`
- `ScheduleAdmin`, `ScheduleGeneration`: `schedule/admin.py`
- `AcademicPerformance`, `AcademicPerformanceAdmin`: `academic_performance/models.py`, `academic_performance/admin.py`
- `Messaging`: `messaging/models.py`
- `Api`, `ApiAdmin`: `api/models.py`, `api/admin.py`
- `StudyMaterials`: `study_materials/models.py`
- `SiteSettings`: `site_settings/models.py`
- `UniversityAdmin`: `university_structure/admin.py`
- `Reports`: `reports/models.py`
- `Accounts`, `AccountsAdmin`, `AccountsUtils`, `Permissions`, `Decorators`: `accounts/models.py`, `accounts/admin.py`, `accounts/utils.py`, `accounts/api/permissions.py`, `accounts/decorators.py`

## Model

| member | source | states |
|---|---|---|
| CourseElements.ReadMinutes | course_elements/models.py:79 | the read time is at least one minute and otherwise the whole number of 200-word minutes |
| CourseElements.VideoMinutes | course_elements/models.py:134 | the estimate is at least one minute and otherwise the whole minutes of the video |
| CourseElements.LectureContent.Save | course_elements/models.py:75-86 | a non-empty text is counted again (words and read time); an empty one keeps the old counts; the element's estimate becomes the read time |
| CourseElements.LectureWordCount | course_elements/models.py:78 | a lecture made of `n` words joined by spaces counts exactly `n` words |
| CourseElements.VideoContent.Save | course_elements/models.py:132-139 | the element's estimate becomes the video's whole minutes, at least one |
| CourseElements.EarnedWithinTotal | course_elements/models.py:296-305 | the score never exceeds the maximum and reaches it exactly when every question worth points was answered correctly |
| CourseElements.TallyPoints | course_elements/models.py:296-305 | the loop sums the points of all answers and of the correct ones, the second no larger |
| CourseElements.ScorePercentageRange | course_elements/models.py:311-314 | the percentage lies in [0, 100] and is 100 exactly for full marks out of a positive maximum |
| CourseElements.PassRule | course_elements/models.py:316 | passing means `earned * 100 >= passing * total` when there are points to earn, and a passing score of 0 otherwise |
| CourseElements.QuizAttempt.UpdateProgress | course_elements/models.py:339-377 | a finished attempt rewrites the progress row to `QuizProgress` of the old row, and the save makes its completion moment the enrollment's last access (courses/models.py:656-664); an unfinished one leaves the row and the enrollment as they were (also `update_quiz_progress`, course_elements/models.py:1511-1551) |
| CourseElements.QuizAttempt.CalculateScore | course_elements/models.py:289-324 | score, maximum, percentage and pass flag are those of the answers; status and times are kept; the progress row of a finished attempt becomes `QuizProgress` of the old row, all columns stated, and the enrollment's last access its completion moment |
| CourseElements.QuizAttempt.Complete | course_elements/models.py:326-337 | a completed attempt, its progress row and enrollment are left alone; any other becomes completed now, with its time spent and score computed; its progress row becomes `CompletedProgress` of the old row (the receiver's copy of the pass flag and percentage held before scoring, then the scored copy), and the enrollment's last access becomes now |
| CourseElements.CompletedProgressFacts | course_elements/models.py:326-337 | the record after `complete` is one copy of the scored attempt except its completion moment, which is set when either copy passes; with no earlier pass it is exactly the scored copy, and an earlier pass followed by a failing score leaves a record not completed but with a completion moment (also course_elements/models.py:1511-1551) |
| CourseElements.QuizProgressFacts | course_elements/models.py:339-377 | the copied row is viewed, graded with the percentage (its whole part within 0-100), completed exactly when the attempt passed; the first view and the completion moment are kept once set, the completion moment is set only by a pass, the `gradedBy` and `gradedAt` columns are untouched, and copying again changes nothing |
| CourseElements.SelectionSplit | course_elements/models.py:441-443 | a selection drawn from the options splits into correct and incorrect picks, with no more correct picks than correct options |
| CourseElements.ExactSelection | course_elements/models.py:446-447 | selecting exactly the correct options picks all of them and no incorrect one |
| CourseElements.MultipleChoiceExact | course_elements/models.py:431-458 | a multiple-choice answer is right exactly when the question has correct options and the selection is exactly them; partial credit stays in [0, 1] and is 1 only when right |
| CourseElements.IndexOf | course_elements/models.py:571-572 | `list.index`: the first position of the id, absent exactly when the id is not listed |
| CourseElements.SameOrder | course_elements/models.py:554-560 | the element-wise loop finds the order fully correct exactly when the answer equals the correct order |
| CourseElements.CountConsecutivePairs | course_elements/models.py:566-575 | the loop counts the pairs that stay adjacent in the correct order, and fails (`ValueError`) exactly when some id is not an option |
| CourseElements.CheckOrdering | course_elements/models.py:538-589 | the ordering branch gives exactly the verdict of the ordering rule, including the empty and unparsable answers and the wrong length |
| CourseElements.AllPairsConsecutive | course_elements/models.py:570-582 | all pairs counting as consecutive means each of them is |
| CourseElements.ConsecutiveRun | course_elements/models.py:570-575 | consecutive pairs all the way put the id `k` places on `k` places after the first in the correct order |
| CourseElements.OrderingCorrectOnlyWhenExact | course_elements/models.py:538-589 | an ordering answer is graded correct only when it is exactly the correct order |
| CourseElements.ConsecutiveRunFrom | course_elements/models.py:566-582 | an answer of the right length whose every pair is consecutive is the correct order, so the non-exact branch never reaches full credit |
| CourseElements.OrderingConsistent | course_elements/models.py:538-589 | ordering verdicts keep partial credit in [0, 1], with full credit exactly when correct |
| CourseElements.CheckCorrectness | course_elements/models.py:415-474 | single, true/false, multiple, text and ordering questions get the verdict of their rule, and that verdict is consistent |
| CourseElements.ClosedStaysClosed | course_elements/models.py:643-659 | once an assignment is closed it stays closed |
| CourseElements.LateWindow | course_elements/models.py:650-659 | with late submissions allowed and no late deadline an assignment never closes; with a late deadline after the due date it closes only when overdue |
| CourseElements.UpdateDiscussionProgress | course_elements/models.py:905-966 | only a graded participation with a grade updates the row: viewed, completed by the post and reply counts, grade and percentage, first and last message times, completion moment set once; the `gradedBy` and `gradedAt` columns are kept, and a row that is not saved keeps every column; a saved row makes the last message time the enrollment's last access (courses/models.py:656-664) |
| CourseElements.LiveThenPast | course_elements/models.py:1371-1384 | a live webinar has started: it is past at every moment after its start |
| CourseElements.CompletedAttendanceWasViewed | course_elements/models.py:1431-1454 | attendance that completes the element has viewed it; a registration or absence does neither |
| CourseElements.UpdateWebinarProgress | course_elements/models.py:1426-1472 | viewed and completed follow the attendance status; first viewed set once from the join time, last viewed from the leave time, completion moment set once; the grade, percentage, `gradedBy` and `gradedAt` columns are kept; the record's last view, when set, becomes the enrollment's last access (courses/models.py:656-664) |
| CourseElementsAdmin.DurationDisplayReadsBack | course_elements/admin.py:153-166 | `DurationDisplay`: a duration shows as three colon-separated numbers from one hour on and two below; the last two are padded to two digits; read back, the fields give the duration in seconds |
| CourseElementsAdmin.NumberWordIsWord | course_elements/admin.py:330-335 | a number followed by its unit is one word |
| CourseElementsAdmin.AttemptTimeSpentReadsBack | course_elements/admin.py:319-335 | `AttemptTimeSpentDisplay`: the display splits into one word per unit shown (three from one hour, two from one minute, otherwise one), and hours, minutes and seconds add up to the time spent (also course_elements/admin.py:891-906) |
| CourseElementsAdmin.PreviewShape | course_elements/admin.py:265-271 | a preview keeps a text of up to 50 characters and otherwise shows its first 50 and "..." (also 360-366 and 525-530) |
| CourseElementsAdmin.MarkAsComplete | course_elements/admin.py:339-344 | every selected attempt in progress is completed now with the score, maximum, percentage and pass flag of its answers, and its progress row (when enrolled) becomes `CompletedProgress` of the old row; every other attempt and its progress row are unchanged; the enrollments of the completed attempts' rows get last access now, every other enrollment is unchanged |
| CourseElementsAdmin.MarkFrom | course_elements/admin.py:341-343 | the loop from position `k` on: each attempt that was in progress is completed and scored and its record left as `complete` leaves it, every other is unchanged, and exactly the enrollments of the completed attempts' records get last access now |
| CourseElementsAdmin.CompleteSelected | course_elements/admin.py:342-343 | the body of the loop: an attempt in progress is completed through `complete`, and only its record's enrollment gets last access now; any other attempt and its record are unchanged |
| CourseElementsAdmin.SaveSubmission | course_elements/admin.py:459-466 | as intended: a graded submission with a score whose score or status was edited records who graded it and when; otherwise both are kept |
| CourseElementsAdmin.SaveSubmissionAsWritten | course_elements/models.py:1553-1559 | as written, the save of a graded submission raises (its receiver calls a method the submission does not have) exactly when its status is graded, so every save that would record who graded it is rolled back (see "## Findings") |
| CoursesAdmin.TimeSpentDisplayAccounts | courses/admin.py:374-386 | the hours, minutes and seconds shown account for the whole time, the hour form dropping the seconds |
| CoursesAdmin.TimeSpentDisplayReadsBack | courses/admin.py:374-386 | `TimeSpentDisplay`: the text splits into number and unit words (two under a minute, four otherwise, hours shown exactly from 3600 seconds); read back, the numbers give the time exactly below an hour and to the minute from an hour on |
| CoursesAdmin.SavedTypesHaveLabels | courses/admin.py:226-241 | every MIME type an attachment's save can store has a label, so it is never shown raw |
| CoursesAdmin.UnknownTypeShownAsIs | courses/admin.py:240 | an unknown MIME type is shown as it is |
| CoursesAdmin.AuthorIsLastCreator | courses/admin.py:141-145 | whatever saves come in between, the author is the requester of the last save that created the course, and stays as it was when none did |
| CoursesAdmin.CreatorStaysAuthor | courses/admin.py:141-145 | a course created by one requester and afterwards only changed keeps that requester as its author, whoever changes it |
| CoursesAdmin.SaveProgress | courses/admin.py:388-393 | an edit of the grade or its percentage records who graded it and when; otherwise both are kept; every other column of the row is unchanged; the save makes the row's last view, when set, the enrollment's last access (courses/models.py:656-664) |
| Courses.ActiveWithoutDates | courses/models.py:118-133 | a course without dates is active exactly when published |
| Courses.CompletionRateRange | courses/models.py:106-116 | the completion rate is a percentage, and 0 with no enrollments |
| Courses.AvailabilityPersists | courses/models.py:268-284 | an available element stays available later, and its section is available too (section rule courses/models.py:169-182) |
| Courses.MimeTypeShape | courses/models.py:311-337 | the stored type is one of the ten the save knows, fallback included, and does not depend on the case of the name |
| Courses.MimeTypeKnown | courses/models.py:315-335 | each branch of the extension tests yields one of the ten known types |
| Courses.MimeTypeOfPdf | courses/models.py:315-317 | a name ending in ".pdf" or ".PDF" is a PDF whatever comes before |
| Courses.CourseElementAttachment.Save | courses/models.py:311-337 | size and type are filled in only for a file whose size is still 0; otherwise both are kept |
| Courses.CourseEnrollment.MarkAsCompleted | courses/models.py:384-393 | progress is raised to the threshold when below it and never lowered; the enrollment is completed now; its last access is kept |
| Courses.ProgressPercentRange | courses/models.py:484 | with no more completed than required elements progress is at most 100, and 100 exactly when all are completed |
| Courses.ProgressPercentMonotone | courses/models.py:484 | more completed elements never give less progress |
| Courses.LastAccessFacts | courses/models.py:656-664 | after a save of a progress record the enrollment's last access is the record's last view when there is one and is kept otherwise; once set it is never cleared, and a second save of the same record changes nothing |
| Courses.CourseElementProgress.UpdateEnrollmentLastAccessed | courses/models.py:656-664 | the receiver sets the enrollment's last access to `LastAccess` of the old one and the record's last view; no other column of the enrollment changes |
| Courses.CourseElementProgress.MarkAsViewed | courses/models.py:438-449 | the first view is recorded once; the last view is now; every other column (completion, grade, `gradedBy`, `gradedAt`) is unchanged; the save makes now the enrollment's last access (courses/models.py:656-664) |
| Courses.CompletionLostAsWritten | courses/models.py:486-494 | as written, an active enrollment at 75% with 4 of 4 required elements done and a threshold of 100 stays active with no completion moment, where the intended update completes it now (see "## Findings", receiver courses/models.py:666-674) |
| Courses.CourseElementProgress.UpdateCourseProgressAsWritten | courses/models.py:463-494 | as written: with required elements only the progress and the last access (now) are stored, the status and completion moment never; with none nothing changes |
| Courses.CourseProgressFacts | courses/models.py:463-494 | as intended: with no required elements nothing changes; otherwise the progress is the completed share (at most 100) and the last access now, the status changes exactly when the enrollment was active and the progress reached the threshold, then to completed at now, and the completion moment is otherwise kept; with every required element done and a threshold of at most 100 an active enrollment is completed |
| Courses.CourseElementProgress.UpdateCourseProgress | courses/models.py:463-494 | as intended: the enrollment becomes `CourseProgress` of its old row, the update whose properties `CourseProgressFacts` proves |
| Courses.CourseElementProgress.MarkAsCompleted | courses/models.py:451-461 | the row is completed, its completion moment set once and nothing else in it changes; only the first call saves the row, which passes its last view on to the enrollment (courses/models.py:656-664), and then recomputes the enrollment by `CourseProgress`; a repeated call leaves the enrollment unchanged |
| Schedule.BeforeIsMinuteOrder | schedule/models.py:53-56 | the `start_time >= end_time` test of the time checks compares times by their minute of the day |
| Schedule.OverlapsMeansCommonMinutes | schedule/models.py:468-470 | the `start_time__lt=end, end_time__gt=start` filter holds exactly when the two ranges share a minute; back-to-back ranges never overlap, and the test is symmetric |
| Schedule.WeekTypesClashShareWeek | schedule/models.py:172-179 | the week-type rule (weekly clashes with all, odd and even only with weekly or their own type) is symmetric and holds exactly when both entries take place in some common week |
| Schedule.AcceptedItemNeverMeets | schedule/models.py:153-202 | `ItemClean`: a new template item that passes the room and teacher checks never takes place in the same week as an item of its template in the same room or with the same teacher at that slot and weekday; a room rejection names an item it would meet |
| Schedule.AcceptedLessonKeepsBookings | schedule/models.py:287-312 | `LessonClean`: adding only classes that pass the room and teacher checks keeps every room and teacher booked at most once per date and slot among classes that are not canceled |
| Schedule.AfterChangeIdempotent | schedule/models.py:377-386 | `AfterChange`: saving a cancel or reschedule sets the class's status to canceled or rescheduled with the description as its reason, touches nothing else, and saving it again changes nothing |
| Schedule.BackToBackConsultations | schedule/models.py:457-485 | a consultation that ends when another begins (or begins when it ends) is not refused for the room, and an accepted consultation starts before it ends |
| Schedule.AcceptedConsultationMeetsNone | schedule/models.py:457-485 | `ConsultationClean`: an accepted consultation starts before it ends and, in every week in which both take place, overlaps no consultation of its semester and weekday in its room or with its teacher; with valid times they share no minute |
| Schedule.ExamWindow | schedule/models.py:570-574 | an exam outside the session is refused, except a pre-exam consultation, which is refused only when more than seven days before the session starts |
| Schedule.AcceptedExamFits | schedule/models.py:564-601 | `ExamClean`: an accepted exam starts before it ends, lies in the session (or is a consultation at most a week before it), and overlaps, so shares no minute with, no exam of its date in its room or with its teacher unless that exam is canceled or rescheduled; a refusal for the room names such an exam |
| Schedule.AttendancePercentageRange | schedule/models.py:801-805 | the attendance percentage is 0 with no students, lies between 0 and 100, and is 100 exactly when every student was present |
| Schedule.IsHoliday | schedule/models.py:836-840 | the loop over holidays answers true exactly when some holiday's range covers the date |
| Schedule.ClassDaysExact | schedule/models.py:823-842 | the days the generation loop visits and keeps are exactly those in range on the item's weekday, in a week of its parity counted from the term's first day, outside every holiday, in increasing order |
| Schedule.ClassesFromTemplate | schedule/models.py:823-860 | the loop creates one scheduled class copying the item for each of those days, in date order |
| Schedule.Timetable.SaveChange | schedule/models.py:377-388 | saving a change replaces the affected class by its updated form and leaves every other class and table as it was |
| Schedule.Timetable.CreateClassesFromTemplate | schedule/models.py:809-860 | a newly created item appends its classes from the later of the term start and today to the term end, each with its tracking; an update creates nothing; items, log and slots are unchanged |
| Schedule.Timetable.AddClasses | schedule/models.py:888-898 | each class created is appended and gets its tracking from the `post_save` receiver; no other table changes |
| Schedule.NewTrackingsKeepOnePerClass | schedule/models.py:888-898 | the tracking receiver keeps one tracking per class, and every class it sees created gets one, not yet conducted |
| ScheduleAdmin.SlotDurationReadsBack | schedule/admin.py:29-37 | the duration column is "-" when a time is missing, and otherwise reads back as the number of minutes between the times followed by "мин."; that number is positive exactly for slots the time check accepts |
| ScheduleAdmin.InvertWeek | schedule/admin.py:360-365 | the inverted week type is weekly exactly when the original is |
| ScheduleAdmin.InvertWeekShifts | schedule/admin.py:360-365 | an item with the inverted week type takes place in week n+1 exactly when the original takes place in week n, and inverting twice gives the original |
| ScheduleAdmin.ItemCopies | schedule/admin.py:358-383 | one copy per selected item, in selection order, with the item's template, subject, teacher, room, slot, weekday and comment, a new key and the inverted week type |
| ScheduleAdmin.ItemCopiesShiftWeeks | schedule/admin.py:358-383 | each copy takes place in the week after each week its original takes place in |
| ScheduleAdmin.CopyItemsToNextWeek | schedule/admin.py:357-385 | the copies are appended in selection order until the first one the unique constraints on template items refuse, where the action stops with the earlier copies saved; each saved copy gets its classes from the item receiver and each class its tracking; the log and slots are unchanged |
| ScheduleAdmin.CopyItemsLoop | schedule/admin.py:359-382 | the loop yields the failure position, the items with the saved copies, the classes their receiver creates, and one tracking per class |
| ScheduleAdmin.SaveCopy | schedule/admin.py:367-378 | a copy the constraints accept is appended to the items, the classes its receiver creates to the class table and one tracking per class to the trackings, so the loop state moves on by one copy |
| ScheduleAdmin.ItemClashFrom | schedule/models.py:137-146 | the first refused copy lies at or after the position the search starts from |
| ScheduleAdmin.WeeklyItemCannotBeCopied | schedule/models.py:137-141 | a weekly item never gets its copy saved: its copy is weekly at the same slot, so the action fails there at the latest |
| ScheduleAdmin.NextWeekLesson | schedule/admin.py:614-624 | the copy is a scheduled class seven days later, with the same subject, teacher, slot, room, topic and description, and no template item |
| ScheduleAdmin.CopyAll | schedule/admin.py:599-629 | the copying loop only appends to the class table |
| ScheduleAdmin.CopyAllCovers | schedule/admin.py:599-629 | afterwards every selected class has a class of its subject a week later at its slot and room |
| ScheduleAdmin.CopyAllAddsOnlyCopies | schedule/admin.py:599-629 | every class the loop adds is the next-week copy of a selected class |
| ScheduleAdmin.CopyAllWhenCovered | schedule/admin.py:605-610 | when every selected class already has its next-week counterpart, nothing is added |
| ScheduleAdmin.RerunCopiesNothing | schedule/admin.py:597-631 | running the action a second time on the same selection adds nothing |
| ScheduleAdmin.CopyClassesToNextWeek | schedule/admin.py:597-631 | the class table becomes the loop's result, the reported count is the number of classes added, each added class gets its tracking, and items, log and slots are unchanged |
| ScheduleAdmin.HasCopyIn | schedule/admin.py:605-610 | the existence query answers true exactly when the table holds a class of the subject a week later at the same slot and room |
| ScheduleAdmin.FilterClasses | schedule/admin.py:405-428 | the date filter keeps exactly the classes whose date it admits, in their order |
| ScheduleAdmin.WeekOfMonday | schedule/admin.py:412-416 | the seven days from a Monday are the days of that calendar week |
| ScheduleAdmin.WeekFiltersAreCalendarWeeks | schedule/admin.py:412-422 | "this week" and "next week" start on a Monday, seven days apart, and keep exactly the dates of the current and the following calendar week; today is in this week |
| ScheduleAdmin.PastAndFuturePartition | schedule/admin.py:423-426 | every date is in exactly one of "past" and "future", so those two filters split the classes between them |
| ScheduleAdmin.NearDaysAreFuture | schedule/admin.py:408-411 | today and tomorrow are in "future", and today is in "this week" |
| ScheduleAdmin.ConsultationBeforeTuesdayExamIsSaturday | schedule/admin.py:1013-1018 | `ConsultationDateAsWritten`: as written, the consultation for an exam on a Tuesday is placed on a Saturday |
| ScheduleAdmin.ConsultationAsWrittenExample | schedule/admin.py:1013-1018 | the concrete case: for an exam on day 8, a Tuesday, the computed consultation day is day 5, a Saturday |
| ScheduleAdmin.ConsultationDateIsWorkingDay | schedule/admin.py:1013-1018 | `ConsultationDate`: the corrected consultation date is a working day two to four days before the exam with only weekend days after it up to two days before, and agrees with the code except when two days before is a Sunday |
| ScheduleAdmin.FindConsultationToCreate | schedule/admin.py:1009-1025 | with the date the code computes (`ConsultationDateAsWritten`), the loop passes over exams whose consultation already exists and stops at the first without one, where the creation call is reached; it reaches none exactly when all exist |
| ScheduleAdmin.Conducted | schedule/admin.py:1313-1319 | marking conducted sets the flag, keeps actual times already recorded, fills missing ones from the class's slot, and leaves a conducted tracking as it was |
| ScheduleAdmin.NotConducted | schedule/admin.py:1333-1336 | marking not conducted clears the flag and keeps the actual times |
| ScheduleAdmin.ConductMarksRoundTrip | schedule/admin.py:1311-1344 | each mark is idempotent, and unmarking then marking (or marking then unmarking) gives back the tracking up to the actual times the marking filled |
| ScheduleAdmin.CompleteThenReopen | schedule/admin.py:1311-1344 | completing then reopening a class leaves it scheduled, and canceled or rescheduled classes are never reopened |
| ScheduleAdmin.MarkAsConducted | schedule/admin.py:1311-1329 | each selected tracking becomes conducted, others stay; a class is completed exactly when some selected tracking of it was not yet conducted; other tables are unchanged |
| ScheduleAdmin.MarkAsNotConducted | schedule/admin.py:1331-1344 | each selected tracking is unmarked, others stay; a class is reopened exactly when some selected tracking of it was conducted; other tables are unchanged |
| Common.Truncate | schedule/admin.py:690-694 | `description_short` keeps a description of up to 50 characters and otherwise shows its first 50 followed by "..." |
| ScheduleGeneration.MissingDaysExact | schedule/admin.py:323-330 | the days on which a class is created are exactly the class days on which the table holds no class of the item at its slot and room |
| ScheduleGeneration.HasClassAfterEarlierDays | schedule/admin.py:323-341 | the classes the loop has created for earlier days do not change the existence check for a later day |
| ScheduleGeneration.CoveredAfterAppend | schedule/admin.py:323-330 | once every class day of an item has its class, adding more classes keeps it so |
| ScheduleGeneration.GenerateCovers | schedule/admin.py:305-350 | after generating for an item, every one of its class days from the later of term start and today to term end has its class |
| ScheduleGeneration.GenerateWhenCovered | schedule/admin.py:323-330 | an item whose class days all have their class gets no new class |
| ScheduleGeneration.NoneMissing | schedule/admin.py:323-330 | with every day already holding its class, no day is missing |
| ScheduleGeneration.GenerateAllCovers | schedule/admin.py:292-355 | after a run over the selected items, every selected item has its class on each of its class days, later items not undoing earlier ones |
| ScheduleGeneration.GenerateAllWhenCovered | schedule/admin.py:292-355 | a run over items that are all covered creates nothing |
| ScheduleGeneration.RerunCreatesNothing | schedule/admin.py:292-355 | running the action twice on the same selection creates nothing the second time |
| ScheduleGeneration.GenerateAllExtends | schedule/admin.py:292-355 | a run only appends to the class table |
| ScheduleGeneration.GenerateAllAppend | schedule/admin.py:121-177 | running over two lists of items in turn is running over their concatenation, so templates can be processed one after another |
| ScheduleGeneration.CheckSeesOldTable | schedule/admin.py:323-341 | inside the loop, the existence check against the growing table answers as against the table before the loop |
| ScheduleGeneration.CreatedStep | schedule/admin.py:305-352 | one step of the day loop appends the day's class exactly when the day is a class day without a class |
| ScheduleGeneration.NewClassesFor | schedule/admin.py:305-352 | the day loop for one item returns the table with that item's missing classes appended, and the count of classes created |
| ScheduleGeneration.GenerateForItem | schedule/admin.py:298-352 | generating for one item appends exactly its missing classes, each with its tracking, and changes no other table |
| ScheduleGeneration.NewClassesForAll | schedule/admin.py:298-352 | the loop over the selected items computes the run's result |
| ScheduleGeneration.GenerateClasses | schedule/admin.py:292-355 | the item action leaves the class table as the run's result, reports the number of classes added and gives each its tracking; items, log and slots are unchanged |
| ScheduleGeneration.TemplateStep | schedule/admin.py:121-177 | processing one more template is generating for its items after the earlier templates |
| ScheduleGeneration.LogStep | schedule/admin.py:178-185 | each template processed appends its own generation record |
| ScheduleGeneration.GenerateTemplateClasses | schedule/admin.py:115-191 | the template action generates the classes of each selected template's items and logs the template, until the unique log date refuses an entry, where it stops with `IntegrityError` after that template's classes; each added class gets its tracking; items and slots are unchanged |
| ScheduleGeneration.TemplateLoop | schedule/admin.py:121-188 | the loop over the selected templates yields every template's classes, item by item, and appends one generation entry per template in template order |
| ScheduleGeneration.TemplateRerunCreatesNothing | schedule/admin.py:115-191 | a second run on the same day fails at its first template, whose day is logged now, and creates no class and no log entry |
| ScheduleGeneration.LogClashCases | schedule/models.py:394 | with the date unique, a run fails at its first template when the day is already logged and otherwise at its second, so only a run over one template on a fresh day completes |
| AcademicPerformance.GradeTypeCode | academic_performance/models.py:432-444 | the grade-type code is always one of the six known codes |
| AcademicPerformance.GradeTypeCodeCollapsesOnlyCredits | academic_performance/models.py:432-444 | two known sheet types give the same code exactly when they are equal or both kinds of credit; no known type gives `current`, and every type but `credit_grade` gives its own name |
| AcademicPerformance.FindKey | academic_performance/models.py:455-461 | the lookup of `update_or_create` finds a grade with the same student, subject, semester and grade type, or reports that there is none |
| AcademicPerformance.UpsertKeepsOneGradePerKey | academic_performance/models.py:455-461 | `Upsert`: with unique keys before, keys stay unique, the table grows by at most one, holds a grade of the key with the new value and date, and other grades are untouched |
| AcademicPerformance.ItemHistory | academic_performance/models.py:464-471 | the history row is an update, carrying the old value, exactly when the item had a stored value; otherwise a create without a previous value |
| AcademicPerformance.SaveGradeSheetItem | academic_performance/models.py:395-471 | `graded_at` is stamped now only for a graded item without one and never changed after; for a new or changed value of a graded item the grade is written, a history row added, and the grade's two receivers run: its summary counts it and its debts are cleared, with the standings following; otherwise no table changes |
| AcademicPerformance.SecondSaveWritesNothing | academic_performance/models.py:413-414 | saving an item again with the value it already stored writes no grade and no history; a new item writes exactly when graded with a value |
| AcademicPerformance.Counted | academic_performance/models.py:1427-1439 | each grade adds one to exactly the bucket of its value (90, 75, 60 thresholds) and the subject total is the sum of the buckets |
| AcademicPerformance.SemesterTotalAtLeast | academic_performance/models.py:1442-1452 | the summed grade values of the semester are at least their number times a lower bound of the values |
| AcademicPerformance.SemesterTotalAtMost | academic_performance/models.py:1442-1452 | the summed grade values are at most their number times an upper bound of the values |
| AcademicPerformance.GpaIsMean | academic_performance/models.py:1427-1455 | the GPA lies within the range of the semester's grade values, is left unchanged when there is none, and the subject total grows by one |
| AcademicPerformance.SumSemester | academic_performance/models.py:1447-1452 | the loop returns the sum and the number of the student's grade values in the semester |
| AcademicPerformance.UpdatePerformanceSummary | academic_performance/models.py:1400-1458 | the summary of the grade's student and semester (created with zero counters if missing) gets the bucket and the mean; grades and history are unchanged |
| AcademicPerformance.PresentWithinRows | academic_performance/models.py:1494-1495 | classes attended never exceed classes held, and equal them exactly when every record of the semester is `present` |
| AcademicPerformance.AttendancePercentageBounds | academic_performance/models.py:1494-1501 | the recorded percentage stays between 0 and 100 and, with classes held, is 100 exactly when all were attended |
| AcademicPerformance.UpdateAttendanceStats | academic_performance/models.py:1460-1504 | the student's semester summary gets the counts of classes held and attended, and the percentage only when classes were held; for a class without a template item, where the receiver raises `AttributeError`, no summary changes; nothing else changes |
| AcademicPerformance.StandingMonotone | academic_performance/models.py:1512-1529 | `StandingFor`: the standing for 0 debts is good, 1-2 warning, 3-4 probation, 5 or more risk of expulsion, and more debts never give a milder standing |
| AcademicPerformance.CurrentStanding | academic_performance/models.py:1532-1535 | the current standing is an open standing of the student with the latest start, or there is no open one |
| AcademicPerformance.StandingsAfterKeepsOneOpen | academic_performance/models.py:1538-1551 | the signal keeps at most one open standing per student, leaves it with the type the debts call for, and a second run changes nothing |
| AcademicPerformance.UpdateStanding | academic_performance/models.py:1506-1551 | the standings become the result of the rule for the student's number of active, extended or expired debts; the debts are unchanged |
| AcademicPerformance.ClearDebts | academic_performance/models.py:1570-1588 | a passing grade clears, dated with the grade's date, each active or extended debt of its student, subject and semester; every other debt is unchanged; after each cleared debt the standing receiver runs, so the standings are those of `StandingsUpTo` |
| AcademicPerformance.NoClearanceWithoutPass | academic_performance/models.py:1575 | a grade that is not passing clears no debt and changes no standing |
| AcademicPerformance.ClearingSetsStanding | academic_performance/models.py:1506-1588 | the clearance keeps at most one open standing for the student; once a debt is cleared, the current standing has the type the remaining outstanding debts call for; with none cleared the standings are unchanged |
| AcademicPerformance.NothingClearedKeepsStandings | academic_performance/models.py:1578-1588 | while the loop has cleared no debt, the receiver has not run and the standings are the ones before the grade |
| AcademicPerformance.StandingsAfterOtherStudent | academic_performance/models.py:1538-1551 | the standing receiver for one student leaves every other student's open and current standing as it was |
| AcademicPerformance.MapAfterGrade | academic_performance/models.py:1576-1588 | the debts after the clearance, one for one |
| AcademicPerformance.ClearanceNeverWorsens | academic_performance/models.py:1576-1588 | clearing never raises a student's count of outstanding debts or the severity of the standing it calls for, and after a passing grade no debt it covers is left open |
| AcademicPerformance.ScholarshipAssignment.Save | academic_performance/models.py:969-975 | an assignment without an amount takes the scholarship's; one with an amount keeps it; nothing else changes |
| AcademicPerformanceAdmin.MadeDefault | academic_performance/admin.py:50-55 | after the action a system is the default exactly when it was selected; names are kept |
| AcademicPerformanceAdmin.MakeDefaultSingle | academic_performance/admin.py:50-55 | selecting one system leaves it the only default |
| AcademicPerformanceAdmin.MakeDefault | academic_performance/admin.py:50-57 | the systems table becomes the result of the action; no other table changes |
| AcademicPerformanceAdmin.RecalculatedIsShare | academic_performance/admin.py:248-251 | recalculation keeps points, maximum and value, is idempotent, leaves a grade without points or a positive maximum alone, and for points within the maximum gives a percentage between 0 and 100 that is 100 exactly at the maximum |
| AcademicPerformanceAdmin.RecalculatePercentage | academic_performance/admin.py:246-253 | each selected grade with points and a positive maximum is recalculated and saved in selection order, and its receivers run after each save (the summary counts it again, its debts are cleared); the tables end as `RecalcUpTo` says, the grades as recalculated, history unchanged |
| AcademicPerformanceAdmin.RecalcUpTo | academic_performance/admin.py:246-253 | however the receivers change the other tables, the grade table after the first `k` selected grades is exactly those grades recalculated |
| AcademicPerformanceAdmin.ExtendedSheetIsWeekLater | academic_performance/admin.py:360-365 | an extended sheet expires seven days after its old expiration, or after today when it had none; nothing else about it changes |
| AcademicPerformanceAdmin.ExtendExpirationDate | academic_performance/admin.py:356-367 | each selected sheet is extended that way, the others and the other tables are unchanged |
| AcademicPerformanceAdmin.ExtendForMonthEndsOpenStandings | academic_performance/admin.py:840-845 | only selected warnings, probations and academic leaves change; each gets an end date, so none of them stays open; no standing becomes open |
| AcademicPerformanceAdmin.ExtendForMonth | academic_performance/admin.py:836-847 | selected warnings, probations and leaves end 30 days after their old end (or after today); other standings and the debts are unchanged |
| AcademicPerformanceAdmin.ExtendForSemester | academic_performance/admin.py:951-962 | each active assignment ends 180 days later, the others are unchanged, and an assignment active on a day stays active on it and also 180 days after its old end |
| AcademicPerformanceAdmin.SameOutstanding | academic_performance/admin.py:1004-1007 | debts that keep their student and whether they are outstanding give the same outstanding count |
| AcademicPerformanceAdmin.ExtendDeadlineKeepsStanding | academic_performance/admin.py:1004-1007 | selected active or extended debts get 14 more days and the status extended, others are untouched, and the outstanding count and the standing it calls for are unchanged |
| AcademicPerformanceAdmin.ExtendDeadline | academic_performance/admin.py:1000-1009 | the debts table becomes the result of the action; after each extended debt the standing receiver runs, so the standings are those of `ExtendStandingsUpTo` |
| AcademicPerformanceAdmin.ExtendingSetsStanding | academic_performance/admin.py:1000-1009 | the action keeps at most one open standing per student, and a student with an extended debt ends with a current standing of the type the unchanged outstanding count calls for |
| AcademicPerformanceAdmin.ExtendPermissionRevives | academic_performance/admin.py:1094-1097 | no selected permission is left expired; issued or expired ones are issued again 14 days past their old expiration; used and canceled ones are untouched |
| AcademicPerformanceAdmin.ExtendPermission | academic_performance/admin.py:1091-1099 | the permissions table becomes the result of the action; no other table changes |
| AcademicPerformanceAdmin.CancelImportsSettles | academic_performance/admin.py:1279 | no selected import is left pending or processing, finished imports keep their status, and canceling again changes nothing |
| AcademicPerformanceAdmin.CancelImports | academic_performance/admin.py:1277-1281 | the imports table becomes the result of the action; no other table changes |
| AcademicPerformanceAdmin.Retried | academic_performance/admin.py:1285-1286 | the import rows keep their number |
| AcademicPerformanceAdmin.RetriedStep | academic_performance/admin.py:1285-1286 | retrying one more import is retrying its rows after the earlier ones |
| AcademicPerformanceAdmin.RetryLeavesNoErrors | academic_performance/admin.py:1285-1286 | afterwards no row of a selected import is in error, the rows that were are queued again, and every other row is untouched |
| AcademicPerformanceAdmin.RetryFailedItems | academic_performance/admin.py:1283-1290 | the rows are retried, each selected import is set to processing, and the other tables are unchanged |
| Messaging.DefaultPreferences | messaging/models.py:321-337 | a new user's settings have every kind and channel on except SMS, from 09:00 to 21:00 |
| Messaging.MarkMessageRead | messaging/models.py:40-45 | the first call marks the message read now; later calls change nothing; nothing else in the store changes |
| Messaging.MarkReadLowersUnread | messaging/models.py:40-45 | marking a message read lowers its recipient's unread count by one when it was unread and not deleted, and changes nothing when it was read |
| Messaging.MarkNotificationRead | messaging/models.py:304-309 | the same first-call rule for a notification |
| Messaging.NotificationReadLowersUnread | messaging/models.py:304-309 | marking a notification read lowers its user's unread count by one when it was unread; the read moment is kept once set |
| Messaging.SaveThreadMessage | messaging/models.py:124-132 | only a new thread message moves its thread's last-message time to its own creation time, and only a new one runs `create_thread_message_notification` (messaging/models.py:541-578): one notification per participant other than the sender, unless opted out, appended in order; nothing else changes |
| Messaging.NoticesShape | messaging/models.py:549-578 | each notification created goes to a listed user who is not skipped, with the given type, object and importance, unread |
| Messaging.NoticesReachExactly | messaging/models.py:549-578 | a user gets a notification exactly when listed and not skipped |
| Messaging.Notify | messaging/models.py:549-578 | the fan-out appends exactly those notifications and changes nothing else |
| Messaging.NotifyPersonalMessage | messaging/models.py:505-538 | a new message notifies its recipient unless the recipient turned message notifications off; a user without settings is notified |
| Messaging.NotifyThreadMessage | messaging/models.py:541-578 | a new thread message notifies every participant but the sender who has not turned message notifications off |
| Messaging.ThreadMessageReaches | messaging/models.py:541-578 | a user is notified exactly when a participant, not the sender, and without message notifications turned off |
| Messaging.CreatePreferences | messaging/models.py:497-502 | a newly created user gets the default settings; otherwise nothing changes |
| Messaging.StaffOfMembers | messaging/models.py:665-667 | the staff of a faculty are exactly the teachers and methodists of its departments |
| Messaging.FacultyAudience | messaging/models.py:665-669 | a faculty announcement reaches exactly its departments' teachers and methodists and its deans |
| Messaging.Announcement.Save | messaging/models.py:412-431 | with a target group, its model name and text are cached; a missing end date becomes thirty days after the start; the announcement is then active on its last day exactly when published; then `create_announcement_notification` (messaging/models.py:643-704) runs on every save: a published announcement that sends notifications notifies its audience, skipping opted-out users, and otherwise none is added; no other column or table changes |
| Messaging.NotifyAnnouncement | messaging/models.py:643-702 | every save of a published announcement that sends notifications notifies its audience (everybody when public), skipping users who turned announcements off, important for high and urgent priority; otherwise nothing is created |
| Messaging.FindMark | messaging/models.py:710 | the scan finds a read record exactly when the user has one for the item |
| Messaging.WithMarkKeepsOnePerUser | messaging/models.py:706-722 | read records stay unique per item and user, the user has read the item afterwards, and reading again adds nothing |
| Messaging.MarkGroupMessageRead | messaging/models.py:706-711 | `mark_as_read_for_user` adds a read record only when the user has none |
| Messaging.MarkAnnouncementRead | messaging/models.py:717-722 | `mark_announcement_as_read` adds a read record only when the user has none |
| Api.StripKeepsOut | api/models.py:64 | stripping an entry never brings in a character the text lacked |
| Api.CommaListShape | api/models.py:64 | a comma list has one entry more than the text has commas (so `""` gives `[""]`), and every entry is comma-free and stripped |
| Api.CommaListRoundTrip | api/models.py:64 | stripped, comma-free entries joined by "," read back as themselves (also `methods_list`, api/models.py:198-200, and `event_types_list`, api/models.py:454-457) |
| Api.StripAllKeeps | api/models.py:64 | stripping entries that are already stripped changes nothing |
| Api.ApiKey.Save | api/models.py:44-48 | a key is generated only when there is none; afterwards there is one; nothing else changes |
| Api.AllowList | api/models.py:50-68 | an empty allow-list admits every address; with a list, an address (when given) is admitted exactly when it is listed |
| Api.ExpiryIsStrict | api/models.py:58-60 | a key is still valid at its expiry moment and invalid one second later; up to then validity is activity plus the allow-list |
| Api.PermissionLettersExact | api/models.py:112-123 | each flag is set exactly when its letter is listed, and the letters keep the order R, C, U, D |
| Api.PermissionStringReadsBack | api/models.py:112-123 | the text after the key and resource names splits at the commas into exactly the listed letters, and is empty exactly when no flag is set |
| Api.ApiToken.Save | api/models.py:339-355 | missing tokens and expiry moments are filled in (the refresh token only with a positive refresh lifetime); afterwards there is an access token and an expiry |
| Api.ApiToken.Revoke | api/models.py:361-364 | only the activity flag changes, to false |
| Api.FreshTokenLifetime | api/models.py:349-358 | a freshly saved token is not expired during its lifetime and is expired after it |
| ApiAdmin.PreviewHidesMiddle | api/admin.py:60-66 | `MaskedPreview`: "-" exactly for a missing value; otherwise a prefix of the value, the dots and a suffix of it, never longer than thirteen characters (also api/admin.py:202-208 and 259-265) |
| ApiAdmin.PreviewShowsEnds | api/admin.py:60-66 | a value of ten characters or more shows as thirteen: its first six, the dots, its last four |
| ApiAdmin.ShortPreviewRepeats | api/admin.py:60-66 | a value shorter than four characters is shown on both sides of the dots |
| ApiAdmin.TokenValidUntilExpiry | api/admin.py:267-272 | a token is valid exactly while active and not past its expiry; never once revoked |
| ApiAdmin.RevokeTokens | api/admin.py:275-280 | every selected token is revoked and stays invalid at every moment; access and refresh tokens and both expiry moments are kept |
| ApiAdmin.RegenerateKeys | api/admin.py:73-78 | each selected key takes the freshly generated value; nothing else about it changes |
| ApiAdmin.ShortEventTypesReadBack | api/admin.py:347-353 | `EventTypesDisplay`: up to three types joined by ", " read back entry for entry |
| ApiAdmin.LongEventTypesShowCount | api/admin.py:347-353 | `EventTypesDisplay`: a longer list shows its first three types and a count that reads back as the number left out |
| ApiAdmin.JoinCommaSpaceReadsBack | api/admin.py:352 | entries joined by ", " split at the commas and stripped give the entries back |
| ApiAdmin.RetryLeavesNothingFailed | api/admin.py:401-408 | no selected delivery stays failed or dropped; those that were are due now; every other delivery is unchanged |
| ApiAdmin.DeliveryLog.RetryDeliveries | api/admin.py:401-408 | the table after the action is the selected rows retried |
| ApiAdmin.UserOrClientPriority | api/admin.py:443-453 | `UserOrClient`: the column names the first of user, client, key, token that is present, and "-" exactly when none is |
| StudyMaterials.LastIndex | study_materials/models.py:17 | the position found holds the character and no later position does; -1 when there is none |
| StudyMaterials.SplitExt | study_materials/models.py:17 | the stem and the extension put back together give the file name, and the extension is empty or a dot followed by characters that are neither dots nor slashes |
| StudyMaterials.ExtensionShape | study_materials/models.py:17 | the text from the last dot of the last path component is an extension |
| StudyMaterials.SplitExtOfName | study_materials/models.py:17 | a name `stem.ext` with a stem that is not all dots splits into that stem and `.ext` |
| StudyMaterials.StoredNameHasNoSlash | study_materials/models.py:17-18 | the stored file name (stem, underscore, eight hex digits, extension) adds no directory level |
| StudyMaterials.PathAsJoin | study_materials/models.py:19 | the upload path is `materials`, the subject code, the parts of the type label and the stored name, joined by slashes |
| StudyMaterials.MaterialPathComponents | study_materials/models.py:9-19 | the path's components are `materials`, the subject's code or `common`, the components of the lower-cased type label and the stored name |
| StudyMaterials.TestPathIsDeeper | study_materials/models.py:9-19 | the label of tests contains a slash, so their files sit one directory deeper than the documented layout |
| StudyMaterials.LowerKeepsSlash | study_materials/models.py:15 | lower-casing the label neither adds nor removes a slash |
| StudyMaterials.TestLabelHasSlash | study_materials/models.py:15 | the lower-cased label of tests contains a slash |
| StudyMaterials.Ancestry | study_materials/models.py:36-39 | the chain of names ends with the category's own name |
| StudyMaterials.CategoryNameIsAncestry | study_materials/models.py:36-39 | a category's text is the names from its root down to itself joined by " > " |
| StudyMaterials.Depth | study_materials/models.py:36-39 | every category is at depth one or more |
| StudyMaterials.AncestryLength | study_materials/models.py:36-39 | the text names exactly as many categories as the category's depth |
| StudyMaterials.Material.Save | study_materials/models.py:128-159 | a material without a slug gets its slugified title, with eight hex digits appended when the slug is taken; a file without a size gets the stored size and the type of its lower-cased name; otherwise size and type are kept; title and file are never changed |
| StudyMaterials.NewSlugAvoidsTaken | study_materials/models.py:130-133 | when the suffixed slug is free, the chosen slug is free and starts with the slugified title |
| StudyMaterials.AttachmentType | study_materials/models.py:209-213 | an attachment's type is PDF, Word or left as it was |
| StudyMaterials.AttachmentTypeAgreesOnOffice | study_materials/models.py:205-216 | the attachment's type agrees with the material's mapping on PDF and Word names and is left unchanged for every other name |
| StudyMaterials.MaterialAttachment.Save | study_materials/models.py:205-216 | an attachment with a file and no size gets the stored size and that type; otherwise size and type are kept; the file is never changed |
| StudyMaterials.SubscriptionWindow | study_materials/models.py:421-424 | a subscription without both dates is never valid, the valid days form the closed range between them, and the start day is valid exactly when the range is not empty |
| SiteSettings.FirstKey | site_settings/models.py:47-49 | `first()` on a nonempty table returns the row with the least key |
| SiteSettings.SaveWithoutKey | site_settings/models.py:45-55 | saving a row without a key into a nonempty table overwrites the first row and adds none; into an empty table it adds one row; either way `first()` then returns the saved data |
| SiteSettings.SaveKeepsSingleRow | site_settings/models.py:106-110 | a table of at most one row still has exactly one row after a save without a key or with the key of its row |
| SiteSettings.SettingsTable.Save | site_settings/models.py:106-110 | the table becomes the result of that rule and the saved key holds the data; the single-row invariant is kept |
| SiteSettings.SettingsTable.GetSettings | site_settings/models.py:112-120 | `get_settings` returns the first row when there is one, leaving the table as it is; otherwise it creates one row of defaults and returns it |
| SiteSettings.ShownShape | site_settings/models.py:122-148 | whatever the flags, a page lists the same entries in the same order; all flags set show every entry; choice keys stay plain names |
| SiteSettings.ShownFieldsFlagChange | site_settings/models.py:122-136 | changing one flag changes the visibility of exactly its own entry |
| SiteSettings.StudentConfigShape | site_settings/models.py:122-148 | the student page has eleven fields and seven sections, the same entries whatever the flags |
| SiteSettings.StudentDefaultsShowAll | site_settings/models.py:74-101 | with the default flags every student field and section is shown |
| SiteSettings.StudentBooleanField | site_settings/models.py:134 | the dormitory flag is the student page's only boolean field |
| SiteSettings.StudentFieldKinds | site_settings/models.py:122-136 | every student field rendered as a choice has a plain column name, without dots |
| SiteSettings.StudentDormitoryAndStatistics | site_settings/models.py:134-147 | the dormitory field and the statistics section follow their own flags |
| SiteSettings.TeacherConfigShape | site_settings/models.py:191-209 | the teacher page has nine fields and three sections, the same entries whatever the flags |
| SiteSettings.TeacherDefaultsShowAll | site_settings/models.py:150-171 | with the default flags every teacher field and section is shown |
| SiteSettings.TeacherFieldKinds | site_settings/models.py:191-203 | every teacher field rendered as a choice has a plain column name |
| SiteSettings.AdminConfigShape | site_settings/models.py:241-251 | the administrator page has three fields and one section, the same entries whatever the flags |
| SiteSettings.AdminDefaultsAndKinds | site_settings/models.py:211-251 | with the default flags every administrator entry is shown, and its choice fields have plain column names |
| SiteSettings.MethodistConfigShape | site_settings/models.py:285-296 | the methodist page has two plain fields and three sections, the same entries whatever the flags |
| SiteSettings.MethodistDefaultsShowAll | site_settings/models.py:253-296 | with the default flags every methodist field and section is shown |
| SiteSettings.DeanConfigShape | site_settings/models.py:333-345 | the dean page has eight fields and no section, the same entries whatever the flags, all shown by default |
| SiteSettings.DeanFieldKinds | site_settings/models.py:333-343 | every dean field rendered as a choice has a plain column name |
| SiteSettings.DeanTeachingDuties | site_settings/models.py:342 | the teaching-duties field is the dean page's boolean field and follows its own flag |
| UniversityAdmin.YearsWithCurrent | university_structure/admin.py:491-502 | the intended result keeps one entry per year |
| UniversityAdmin.YearsWithCurrentExact | university_structure/admin.py:491-502 | after the intended action exactly the first selected year is current (none when nothing is selected), and nothing but the flag changes |
| UniversityAdmin.SetYearCurrentAsWritten | university_structure/admin.py:491-502 | as written, the year table ends with every flag cleared, because the flag is set on one fetched copy of the first row and a different copy is saved; the other tables are unchanged |
| UniversityAdmin.SetYearCurrentLosesFlag | university_structure/admin.py:491-502 | after the action as written no year is current, while the intended result marks the selected year, so the two differ |
| UniversityAdmin.SetYearCurrent | university_structure/admin.py:491-502 | the corrected action leaves the years as the intended result and changes no other table |
| UniversityAdmin.SetSemesterCurrent | university_structure/admin.py:537-556 | every semester flag is cleared; with a selection the first selected semester becomes current and so does exactly its academic year; groups and plans are unchanged |
| UniversityAdmin.SemesterCurrentExact | university_structure/admin.py:537-556 | afterwards exactly the selected semester is current, and exactly the year it belongs to |
| UniversityAdmin.IncreaseSemester | university_structure/admin.py:634-640 | each selected group moves up one semester, and nothing else changes |
| UniversityAdmin.SemesterSumUpdate | university_structure/admin.py:636-638 | moving one group up raises the sum of semester numbers by one |
| UniversityAdmin.IncreaseSemesterTotal | university_structure/admin.py:634-640 | the sum of the groups' semester numbers rises by exactly the number of groups selected |
| UniversityAdmin.NextSemesterCopy | university_structure/admin.py:417-429 | the copy is the plan subject with its semester raised by one and every other field kept |
| UniversityAdmin.Copies | university_structure/admin.py:416-429 | one copy per selected plan subject, in selection order |
| UniversityAdmin.CopyToNextSemester | university_structure/admin.py:414-433 | the copies are appended in order; when a copy would repeat a plan, subject and semester already present, the action stops there with the earlier copies kept |
| UniversityAdmin.DayRange | university_structure/admin.py:724-727 | the days from start to end, each exactly once |
| UniversityAdmin.DurationCountsDaysOff | university_structure/admin.py:724-727 | the duration shown counts exactly the days the holiday covers, both ends included |
| Reports.UpperHexChar | reports/models.py:152 | upper-casing a lower-case hex digit gives an upper-case hex digit |
| Reports.UpperHex | reports/models.py:152 | `str.upper()` on a hex string keeps its length and upper-cases each character |
| Reports.AccessCodeShape | reports/models.py:149-153 | `AccessCode`: a new report without a code gets ten upper-case hex digits that lower-case back to the first ten of the UUID's hex; any other report keeps its code |
| Reports.CategoryNameOneLevel | reports/models.py:656-659 | a category's name shows only its direct parent: three levels deep the root is left out |
| Reports.ClosedRunsSettle | reports/models.py:798-815 | once a report has finished none of its runs is still running; each run closed ended as the report did, now, with the report's message only when it failed with one; other runs are untouched; a second signal changes nothing |
| Reports.GeneratingClosesNothing | reports/models.py:803 | a report still generating changes no run |
| Reports.ReportStore.UpdateReportStatus | reports/models.py:798-815 | the runs after the signal are the closed runs of the saved report; reports are unchanged |
| Reports.EntriesForCount | reports/models.py:781-796 | each student of the group is entered on the new sheet as often as it is listed (once for distinct students); nobody else is |
| Reports.CountEntriesAppend | reports/models.py:793-796 | entries counted over two batches add up |
| Reports.NoEntriesOfOthers | reports/models.py:781-796 | entries of other sheets never count for this one |
| Reports.SheetStore.CreateSheet | reports/models.py:781-796 | creating a sheet appends it and one blank entry per student of its group |
| Reports.NewSheetEntries | reports/models.py:781-796 | after a sheet is created each student of its group has exactly as many entries on it as it is listed in the group |
| Decorators.RoleRequiredIff | accounts/decorators.py:5-13 | `role_required` runs the view exactly for a signed-in user whose role is listed; an empty list admits nobody; only the anonymous user makes it fail with an attribute error |
| Decorators.RoleDecoratorAgreesWithRoleRequired | accounts/decorators.py:15-68 | each `*_required` decorator admits a signed-in user exactly when `role_required([its role])` does, sends the anonymous user to sign in, and no two role tests pass together |
| Permissions.AdminOrSelfIff | accounts/api/permissions.py:9-19 | safe methods always pass; an unsafe one passes exactly for staff, admins and the user the object is, and fails on the anonymous user (reading `role`) |
| Permissions.AdminOrTeacherWritesAsRoleMatch | accounts/api/permissions.py:27-37 | writing through `IsAdminOrTeacher` is allowed exactly as `IsUserRoleMatch` allows with no roles (or only admin) listed |
| Permissions.AdminOrTeacherReadsByRole | accounts/api/permissions.py:27-37 | reading through `IsAdminOrTeacher` goes by role alone (admin, teacher, dean); a staff student may write but not read; an admin may do both |
| Permissions.UserRoleMatchProperties | accounts/api/permissions.py:43-56 | anonymous never passes; staff and admins always do; a missing list is the empty list, which admits only staff and admins; a longer list admits more |
| AccountsUtils.GetNestedFieldValue | accounts/utils.py:1-32 | the loop over the dotted path returns what walking the attributes gives (`None` on a missing attribute or `None` part way), a plain name prefers the display getter, then the attribute, then `None` |
| AccountsUtils.FollowAppend | accounts/utils.py:10-21 | walking a dotted path in two pieces gives the same value as walking it in one |
| AccountsUtils.DottedPathStops | accounts/utils.py:13-20 | once the walk meets `None` or a missing attribute, the value is `None` whatever follows |
| AccountsUtils.DottedPathIgnoresDisplays | accounts/utils.py:10-21 | a dotted path never reads a display getter |
| AccountsUtils.PlainNameReading | accounts/utils.py:24-32 | for a name without a dot the display getter wins; without one the name is read as a one-step path |
| AccountsUtils.NullObjectGivesNull | accounts/utils.py:6-7 | `None` in gives `None` out |
| Accounts.GivenNamesJoin | accounts/models.py:44-46 | the text `get_full_name` strips is the given names joined by single spaces |
| Accounts.FullNameOfWords | accounts/models.py:40-47 | `FullName`: for single-word names the full name is the given names joined by spaces and splits back into exactly those names |
| Accounts.StripKeepsTrimmed | accounts/models.py:47 | `strip` leaves text that starts and ends with a non-space unchanged |
| Accounts.FullNameWithoutFirstName | accounts/models.py:40-47 | an empty first name leaves two spaces between surname and patronymic |
| Accounts.FullNameOfSurnameOnly | accounts/models.py:40-47 | a user with only a surname gets that word as the full name |
| Accounts.FullNameOfFirstNameOnly | accounts/models.py:40-47 | a user with only a first name gets that word as the full name |
| Accounts.DeanTextDefined | accounts/models.py:265-281 | `DeanText`: every row the `position_matches_entity` constraint admits has a text naming the faculty (dean, vice-dean) or department (head of department); a row without that entity has none |
| Accounts.NewUserGetsOneProfile | accounts/models.py:326-345 | an administrator gets exactly one profile row and one notification-settings row; a user without a role gets the settings row only; for a teacher, student, methodist or dean the profile `create` fails, so no profile or settings row is stored; other users' rows do not change |
| Accounts.NewUserTables | accounts/models.py:326-345 | each profile table and the settings table after the signal, role by role: rows are added only for an administrator (profile) or a role whose create succeeds (settings) |
| Accounts.NewDeanViolatesConstraint | accounts/models.py:341-342 | the dean row the signal creates has no position and no entity, so the check constraint rejects it |
| Accounts.Directory.CreateUser | accounts/models.py:326-345 | saving a new user appends it; the receiver's `IntegrityError` is reported exactly for the roles whose profile row the database refuses, and the profile tables are those the signal leaves; when no error is raised, messaging's `create_notification_preferences` (messaging/models.py:497-502) gives the user the default notification preferences, and otherwise the preferences are unchanged |
| AccountsAdmin.IndexOf | accounts/admin.py:63-76 | finds a row holding the user exactly when there is one |
| AccountsAdmin.ProfileLinkIff | accounts/admin.py:59-78 | a link is shown exactly when the user has a profile of its own role, and it leads to that user's row; otherwise "-" |
| AccountsAdmin.NewUserHasProfileLink | accounts/admin.py:59-78 | a user just created through the signal has a profile link exactly when it is an administrator, the only role whose profile row is stored |
| AccountsAdmin.IncrementSemester | accounts/admin.py:237-243 | each selected student's semester goes up by one; the rest are unchanged |
| AccountsAdmin.IncrementTwice | accounts/admin.py:237-243 | running the action twice moves the selected students on by two and leaves the others alone |
| AccountsAdmin.SaveGuardMatchesConstraint | accounts/admin.py:352-362 | for every offered position the guard accepts exactly what the check constraint admits, and accepted rows have a text; an empty position passes the guard although the constraint rejects it |
| AccountsAdmin.SaveDeanProfile | accounts/admin.py:352-362 | the row is stored only when the guard accepts it; otherwise nothing changes |

## Left out

- The framework is not modelled: ORM persistence, querysets, many-to-many `.set()`, admin configuration attributes, `message_user` and notification text. Tables are sequences or maps, and a query is a filter over them.
- The clock, `uuid4`, `secrets`, `slugify` and the cache are parameters or left out. `SiteSettings.get_settings` is modelled without its cache, and its `except` fallback to an unsaved row is not modelled, since it needs a database error.
- Floating point: the numeric-answer tolerance, `GradeSheetItemAdmin.recalculate_percentage`, the `attendance_stats` column and the KB/MB size displays are left out. The percentages that are modelled use exact rationals or exact integer division. These are score percentage, completion rate, attendance percentage, the GPA and `GradeAdmin.recalculate_percentage`.
- CourseElements.CheckCorrectness: the numeric and matching question types are excluded by its precondition. The first needs a float tolerance; the second decodes JSON and looks options up in the database.
- CourseElements.PassRule, QuizAttempt.CalculateScore, QuizProgress: the score percentage is an exact rational, while the source computes `(earned / total) * 100` as a float (course_elements/models.py:312). At a boundary the two disagree: 29 of 100 points gives 28.999999999999996 in the source, so with a passing score of 29 the source fails the attempt, stores `grade_percent` 28 and leaves the progress row not completed, where the model passes it, stores 29 and completes the row. `QuizProgressFacts` inherits the same difference.
- Accounts.Directory.CreateUser: the receivers on a user's save are taken to run in the order of the applications, the accounts receiver before messaging's `create_notification_preferences`, so an `IntegrityError` from the profile receiver stops the preferences from being created. The settings that fix that order are not part of this model.
- CourseElements.UpdateDiscussionProgress: `grade_percent` is computed exactly as grade·100 div maximum. Python's float form can fall just below a whole number: 29/100·100 is 28.999…, which is stored as 28. A zero maximum score, which raises `ZeroDivisionError` in the source, is modelled as nothing being saved.
- Courses.CourseElementProgress.UpdateCourseProgress: `int(completed / required * 100)` is computed exactly, so it does not reproduce float results that fall just below a whole number.
- The matching answer is not modelled: it needs JSON decoding and lookups by id.
- `Course.save` is not modelled: it builds a slug and a uuid.
- `MaterialTag.save` and `Literature.save` are not modelled: they only slugify a name or copy a file size.
- `regenerate_credentials` and `regenerate_secret` (api/admin.py:220-231 and 355-364) are not modelled. Neither are the save hooks of `APIClient` and `WebhookSubscription`. They have the same shape as `regenerate_key` and `APIKey.save`, which are modelled.
- `Message.is_completely_deleted` is modelled only as the predicate `Messaging.CompletelyDeleted`. No rule of the core reads it, so no property is stated about it.
- Dead code in the source is not modelled:
  - The `AcademicStanding.is_active` property is shadowed by a method of the same name.
  - The group-conflict branches of the `clean` methods are unreachable, because they need a primary key inside an `if not self.id` block.
  - The first, garbled `TimeSlot` definition.
- `create_group_message_notification` (messaging/models.py:580-640) is not modelled. It reads `send_notification`, which a group message does not have, so it raises `AttributeError` after every creation of a group message. No save of a group message is modelled either.
- `check_course_completion` (courses/models.py:666-674) is not composed as a method of its own. Every modelled save of an enrollment lists its fields (`update_fields`), so the status and completion moment it sets in memory are never stored by them; its one visible effect, that `update_course_progress` never stores a completion, is the first row of "## Findings". The in-memory status it leaves on the enrollment object is not modelled.
- Reports.SheetStore.CreateSheet: a sheet models only its group. Its subject, semester and control form, and the `unique_together` over those four columns (reports/models.py:350), are not modelled, so a second sheet for the same subject, group, semester and control form is appended where the database raises `IntegrityError`.
- ScheduleAdmin.FindConsultationToCreate: `create_consultation` passes `groups=` to `create`, which raises `TypeError`. The model stops at that call and reports which exam reaches it.
- `user_passes_test` is modelled only as a redirect to the login page. The login URL and the `next` parameter are not modelled.
- AccountsUtils.GetNestedFieldValue: attributes of plain values (strings, dates) are not followed. Only model fields and the display methods of choice fields are.
- StudyMaterials.TestPathIsDeeper: only the test-material label is shown to contain a slash. The other labels are not proved slash-free.
- Receivers that only write tables outside this model are not composed into the saves that fire them: `generate_certificate` (certificates, after an enrollment completes), `create_schedule_change_notification` and `create_exam_notification` (schedule notifications, with their text and recipients), and `save_user_profile` (a re-save of the profile row that changes no modelled column). `create_element_content`, `create_default_section` and `create_grade_sheet_items` follow saves that are not modelled (a new course element, a new course, a new grade sheet), and `update_groups_in_classes` and `update_subgroups_in_classes` follow many-to-many changes, which are not modelled either. `create_message_notification` is modelled on its own as `Messaging.NotifyPersonalMessage`, since no save of a personal message is modelled. `update_assignment_status` is not composed into `CourseElementsAdmin.SaveSubmission`, which models the save as intended; `CourseElementsAdmin.SaveSubmissionAsWritten` models what it does (see "## Findings"). `create_group_message_notification` and `check_course_completion` have lines of their own above.
- Loops that save row by row work on a local copy of the table, written back once at the end. Interleaving with other writers is not modelled.
- The profile rows the signal creates for a new user leave some columns empty. The teacher, student and methodist rows miss a column the database requires (hire date, group, department), and the empty position of the dean row breaks the check constraint (`Accounts.NewDeanViolatesConstraint`). `Accounts.Directory.CreateUser` models each of these as the receiver's `IntegrityError`, with no profile or settings row stored. Whether an enclosing transaction also rolls back the user row is not modelled: the user row stays.
- CreateClassesFromTemplate: the partial unique constraint `unique_date_timeslot_room` on classes (schedule/models.py:276-280) is not modelled. A class clashing with a class that is not canceled at its date, slot and room is appended, where the database raises `IntegrityError`.
- GenerateForItem: the same constraint is not modelled. Its existence check looks for a class of the same item, so a class of another item in the room and slot is no obstacle to it, while the database would refuse it.
- GenerateClasses: the same constraint is not modelled, for the same reason.
- GenerateTemplateClasses: the same class constraint is not modelled. The unique generation date is modelled, through `failedAt`.
- CopyClassesToNextWeek: the same constraint is not modelled. Its existence check also requires the same subject, so a class of another subject at the slot and room a week later is no obstacle to it, while the database would refuse the copy.
- CopyItemsToNextWeek: the class constraint is not modelled for the classes the item receiver creates for each copy. The item constraints are modelled, through `failedAt`.
- MarkAsComplete: no attempt may occur twice in the selection, and no two selected attempts may share a progress row. Two attempts of the same student and element do share one, and that case, in which the later attempt's copy overwrites the earlier one, is not modelled.
- UpdateProgress: `get_or_create` is not modelled. The progress row the method is given stands for the row it returns, whether found or new.
- CheckCorrectness: the save of the answer row is not modelled. The verdict is returned as a value. The multiple-choice branch without correct options and the empty matching and ordering answers return before the save, so their verdict stays unsaved in the source.
- IsSpace, Lower: `Common.IsSpace` treats only space, tab, newline and carriage return as whitespace, and `Common.Lower` lower-cases only the Latin and Russian alphabets. Python's `split`, `strip` and `lower` work on all of Unicode. The word counts, stripping and lower-casing built on them, such as lecture word counts, full names, comma lists and file extensions, agree with the source only on text whose spaces and letters fall in those sets.
- Client-side scripts, views, serializers, forms, middleware, URL configurations, migrations and the management command have no rule of their own to model. The admin-only files of messaging, reports and study materials are not part of this model.

## Findings

| source | as written | input that shows it | evidently intended | confidence | as-written member | corrected member |
|---|---|---|---|---|---|---|
| university_structure/admin.py:491-502 | `queryset[0].is_current = True` and `queryset[0].save()` each fetch a fresh row, so the flag set on one copy is never saved. The action leaves no academic year current, as `SetYearCurrentLosesFlag` shows. | select any year, e.g. the one at position 0 | the first selected year becomes the only current one; `YearsWithCurrentExact` proves this of the corrected action | not executed | UniversityAdmin.SetYearCurrentAsWritten | UniversityAdmin.SetYearCurrent |
| schedule/admin.py:1013-1018 | when two days before the exam is a weekend day, the consultation moves to three days before. For a Tuesday exam that is a Saturday, as `ConsultationDateAsWritten` computes. | an exam on day 8, a Tuesday: the consultation falls on day 5, a Saturday | the consultation falls on the last working day at most two days before the exam, as `ConsultationDate` computes. `FindConsultationToCreate` models the action as written and looks the consultation up on the computed date | not executed | ScheduleAdmin.ConsultationBeforeTuesdayExamIsSaturday | ScheduleAdmin.ConsultationDateIsWorkingDay |
| courses/models.py:486-494 | the first save stores only `progress` and `last_accessed`, but its `pre_save` receiver `check_course_completion` (courses/models.py:666-674) already marks the enrollment completed in memory. The `status == 'active'` test that follows then fails, and the second save, the only one that stores the status, never runs. The receiver's own change is not stored either, because the first save lists its fields. So the completion is never stored, as `CompletionLostAsWritten` shows of `CourseProgressAsWritten`. | an active enrollment at 75% in a course with threshold 100, whose 4 of 4 required elements are now completed | the enrollment is stored as completed at the moment its progress reaches the threshold; `CourseProgressFacts` proves this of `CourseProgress`, which `UpdateCourseProgress` and `MarkAsCompleted` use | not executed | Courses.CompletionLostAsWritten | Courses.CourseProgressFacts |
| course_elements/models.py:1553-1559 | the `post_save` receiver `update_assignment_status` calls `instance.update_progress()`, and `AssignmentSubmission` has no such method. Every save of a graded submission raises `AttributeError`, and the admin's transaction rolls the save back. So who graded it and when, as course_elements/admin.py:459-466 sets them, is never stored, as `SaveSubmissionAsWritten` states. | a graded submission with score 8 whose score was edited in the admin | the edit is stored, with who graded it and when, as `SaveSubmission` states | not executed | CourseElementsAdmin.SaveSubmissionAsWritten | CourseElementsAdmin.SaveSubmission |
