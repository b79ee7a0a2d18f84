/** Display helpers and actions of the course-element admin pages. */
module CourseElementsAdmin {
  import opened Common
  import opened CourseElements
  import opened Courses
  import opened CoursesAdmin

  /** `VideoContentAdmin.duration_display`: "-" for no duration, otherwise
      "h:mm:ss" from the first hour on and "mm:ss" below it. */
  function DurationDisplay(seconds: nat): string {
    if seconds == 0 then "-"
    else
      var c := ClockOf(seconds);
      if c.hours > 0 then Join([NatToString(c.hours), Pad2(c.minutes), Pad2(c.seconds)], ":")
      else Join([Pad2(c.minutes), Pad2(c.seconds)], ":")
  }

  lemma DigitsHaveNoColon(s: string)
    requires forall c :: c in s ==> IsDigit(c)
    ensures ':' !in s
  {
  }

  /** Reading a duration back: the colon-separated fields are decimal
      numbers, minutes and seconds have two digits or more, the hour field
      appears exactly from 3600 seconds on, and the fields add up to the
      duration. */
  lemma DurationDisplayReadsBack(seconds: nat)
    requires seconds > 0
    ensures var fields := Split(DurationDisplay(seconds), ':');
      (|fields| == 3 || |fields| == 2) &&
      (|fields| == 3 <==> seconds >= 3600) &&
      (forall i :: 0 <= i < |fields| ==> forall c :: c in fields[i] ==> IsDigit(c)) &&
      |fields[|fields| - 1]| >= 2 && |fields[|fields| - 2]| >= 2 &&
      (|fields| == 3 ==>
        ParseNat(fields[0]) * 3600 + ParseNat(fields[1]) * 60 + ParseNat(fields[2]) == seconds) &&
      (|fields| == 2 ==> ParseNat(fields[0]) * 60 + ParseNat(fields[1]) == seconds)
  {
    var c := ClockOf(seconds);
    TimeSpentDisplayAccounts(seconds);
    ParseNatToString(c.hours);
    DigitsHaveNoColon(NatToString(c.hours));
    DigitsHaveNoColon(Pad2(c.minutes));
    DigitsHaveNoColon(Pad2(c.seconds));
    if c.hours > 0 {
      var parts := [NatToString(c.hours), Pad2(c.minutes), Pad2(c.seconds)];
      SplitJoin(parts, ':');
      assert seconds >= 3600 by {
        MulMono(1, c.hours, 3600);
      }
    } else {
      var parts := [Pad2(c.minutes), Pad2(c.seconds)];
      SplitJoin(parts, ':');
    }
  }

  /** The words of `QuizAttemptAdmin.time_spent_display`: hours, minutes
      and seconds from the first hour on, minutes and seconds from the
      first minute on, seconds alone below that. */
  function AttemptTimeWords(seconds: nat): seq<string> {
    var c := ClockOf(seconds);
    if c.hours > 0 then
      [NatToString(c.hours) + "ч", NatToString(c.minutes) + "мин", NatToString(c.seconds) + "с"]
    else if c.minutes > 0 then [NatToString(c.minutes) + "мин", NatToString(c.seconds) + "с"]
    else [NatToString(c.seconds) + "с"]
  }

  /** `QuizAttemptAdmin.time_spent_display`: "-" for no time spent. */
  function AttemptTimeSpentDisplay(seconds: nat): string {
    if seconds == 0 then "-" else Join(AttemptTimeWords(seconds), " ")
  }

  lemma NumberWordIsWord(n: nat, unit: string)
    requires unit != [] && forall c :: c in unit ==> !IsSpace(c)
    ensures IsWord(NatToString(n) + unit)
  {
    var s := NatToString(n);
    forall c | c in s + unit ensures !IsSpace(c) {
      if c in s {
        assert IsDigit(c);
      }
    }
  }

  /** The display splits into one word per unit shown; the hour and minute
      words are left out exactly when they would be zero at the front, and
      the units shown account for the whole time. */
  lemma AttemptTimeSpentReadsBack(seconds: nat)
    requires seconds > 0
    ensures Words(AttemptTimeSpentDisplay(seconds)) == AttemptTimeWords(seconds)
    ensures |AttemptTimeWords(seconds)| == if seconds >= 3600 then 3 else if seconds >= 60 then 2 else 1
    ensures var c := ClockOf(seconds);
      c.hours * 3600 + c.minutes * 60 + c.seconds == seconds && c.minutes < 60 && c.seconds < 60
  {
    var c := ClockOf(seconds);
    TimeSpentDisplayAccounts(seconds);
    NumberWordIsWord(c.hours, "ч");
    NumberWordIsWord(c.minutes, "мин");
    NumberWordIsWord(c.seconds, "с");
    WordsOfJoin(AttemptTimeWords(seconds));
    if c.hours > 0 {
      MulMono(1, c.hours, 3600);
    } else if c.minutes > 0 {
      MulMono(1, c.minutes, 60);
    }
  }

  /** The `*_preview` columns: at most 50 characters of the text, then
      "...". */
  function Preview(text: string): string {
    Truncate(text, 50)
  }

  /** A preview never runs past 53 characters, agrees with the text on its
      first 50, and leaves a short text as it is. */
  lemma PreviewShape(text: string)
    ensures |Preview(text)| <= 53
    ensures |text| <= 50 ==> Preview(text) == text
    ensures |text| > 50 ==> Preview(text)[..50] == text[..50] && Preview(text)[50..] == "..."
  {
  }

  /** Which of the attempts are still in progress. */
  function InProgressFlags(attempts: seq<QuizAttempt>): seq<bool>
    reads set a | a in attempts
  {
    seq(|attempts|, i requires 0 <= i < |attempts| reads attempts => attempts[i].status == InProgress)
  }

  /** The enrollments of the progress records of the attempts from the
      `k`-th on that `open` flags. */
  function OpenEnrollments(open: seq<bool>, progress: seq<CourseElementProgress?>, k: nat): set<CourseEnrollment>
    requires |open| <= |progress|
    decreases |open| - k
  {
    if k >= |open| then {}
    else (if open[k] && progress[k] != null then {progress[k].enrollment} else {}) + OpenEnrollments(open, progress, k + 1)
  }

  /** One pass of the `mark_as_complete` loop: `complete()` on an attempt
      still in progress, whose progress record's save makes now the last
      access of the record's enrollment; any other attempt is skipped. */
  method CompleteSelected(a: QuizAttempt, answers: seq<AnsweredQuestion>, p: CourseElementProgress?, now: int,
                          ghost enrollments: set<CourseEnrollment>)
    requires p != null ==> p.enrollment in enrollments
    modifies a, p, if p == null then {} else {p.enrollment}
    ensures forall e :: e in enrollments ==> e.Row() == old(e.Row()).(lastAccessed :=
      if old(a.status) == InProgress && p != null && e == p.enrollment then Some(now) else old(e.lastAccessed))
    ensures old(a.status) == InProgress ==> a.ClosedAndScored(now, answers)
    ensures old(a.status) == InProgress && p != null ==>
      a.LeftInRecord(p, old(p.Row()), now, old(a.passed), old(a.scorePercentage))
    ensures old(a.status) != InProgress ==> unchanged(a) && (p != null ==> unchanged(p))
  {
    if a.status == InProgress {
      a.Complete(now, answers, p);
    }
  }

  /** The `mark_as_complete` loop from the `k`-th selected attempt on:
      the `k`-th attempt, then the rest. `open` flags the attempts that
      were in progress when the action started. */
  method MarkFrom(attempts: seq<QuizAttempt>, answers: seq<seq<AnsweredQuestion>>,
                  progress: seq<CourseElementProgress?>, k: nat, now: int,
                  ghost enrollments: set<CourseEnrollment>, ghost open: seq<bool>)
    requires k <= |attempts| && |answers| == |attempts| && |progress| == |attempts| && |open| == |attempts|
    requires forall j :: 0 <= j < |attempts| ==> attempts[j] !in attempts[j + 1..]
    requires forall j :: 0 <= j < |progress| && progress[j] != null ==> progress[j] !in progress[j + 1..]
    requires forall i :: 0 <= i < |progress| && progress[i] != null ==> progress[i].enrollment in enrollments
    requires forall i :: k <= i < |attempts| ==> open[i] == (attempts[i].status == InProgress)
    modifies attempts[k..], enrollments
    modifies set i | k <= i < |progress| && progress[i] != null :: progress[i]
    decreases |attempts| - k
    ensures forall i :: k <= i < |attempts| && open[i] ==> attempts[i].ClosedAndScored(now, answers[i])
    ensures forall i :: k <= i < |attempts| && open[i] && progress[i] != null ==>
      attempts[i].LeftInRecord(progress[i], old(progress[i].Row()), now, old(attempts[i].passed), old(attempts[i].scorePercentage))
    ensures forall i :: k <= i < |attempts| && !open[i] ==>
      unchanged(attempts[i]) && (progress[i] != null ==> unchanged(progress[i]))
    ensures forall e :: e in enrollments ==> e.Row() == old(e.Row()).(lastAccessed :=
      if e in OpenEnrollments(open, progress, k) then Some(now) else old(e.lastAccessed))
  {
    if k == |attempts| {
      return;
    }
    CompleteSelected(attempts[k], answers[k], progress[k], now, enrollments);
    // The attempts after the k-th, and their records, are other objects.
    forall i | k < i < |attempts|
      ensures unchanged(attempts[i]) && (progress[i] != null ==> unchanged(progress[i]))
    {
      assert attempts[i] == attempts[k + 1..][i - k - 1];
      assert progress[i] == progress[k + 1..][i - k - 1];
    }
    MarkFrom(attempts, answers, progress, k + 1, now, enrollments, open);
  }

  /** `QuizAttemptAdmin.mark_as_complete`: `complete()` on every selected
      attempt that is still in progress; `answers[i]` are the graded answers
      of `attempts[i]` and `progress[i]` its progress record (null when the
      student is not enrolled). Attempts that finished or timed out stay as
      they were. `enrollments` holds the enrollments of the records, of
      which several records may share one; every completion makes now the
      last access of its record's enrollment. No attempt is selected twice,
      and no two selected attempts share a record. */
  method MarkAsComplete(attempts: seq<QuizAttempt>, answers: seq<seq<AnsweredQuestion>>,
                        progress: seq<CourseElementProgress?>, ghost enrollments: set<CourseEnrollment>, now: int)
    requires |answers| == |attempts| && |progress| == |attempts|
    requires forall j :: 0 <= j < |attempts| ==> attempts[j] !in attempts[j + 1..]
    requires forall j :: 0 <= j < |progress| && progress[j] != null ==> progress[j] !in progress[j + 1..]
    requires forall i :: 0 <= i < |progress| && progress[i] != null ==> progress[i].enrollment in enrollments
    modifies attempts, enrollments
    modifies set p | p in progress && p != null
    ensures forall i :: 0 <= i < |attempts| && old(attempts[i].status) == InProgress ==>
      attempts[i].ClosedAndScored(now, answers[i])
    ensures forall i :: 0 <= i < |attempts| && old(attempts[i].status) == InProgress && progress[i] != null ==>
      progress[i].Row() == CompletedProgress(old(progress[i].Row()), attempts[i].startedAt, now,
                                             old(attempts[i].passed), old(attempts[i].scorePercentage),
                                             attempts[i].passed, attempts[i].scorePercentage)
    ensures forall i :: 0 <= i < |attempts| && old(attempts[i].status) != InProgress ==>
      unchanged(attempts[i]) && (progress[i] != null ==> unchanged(progress[i]))
    ensures forall e :: e in enrollments ==>
      e.Row() == old(e.Row()).(lastAccessed :=
        if e in OpenEnrollments(old(InProgressFlags(attempts)), progress, 0) then Some(now)
        else old(e.lastAccessed))
  {
    MarkFrom(attempts, answers, progress, 0, now, enrollments, InProgressFlags(attempts));
  }

  datatype SubmissionStatus = Submitted | BeingChecked | Graded | ReturnedForRevision

  class AssignmentSubmission {
    var status: SubmissionStatus
    var score: Option<nat>
    var gradedBy: Option<int>
    var gradedAt: Option<int>

    constructor (status: SubmissionStatus, score: Option<nat>)
      ensures this.status == status && this.score == score
      ensures gradedBy.None? && gradedAt.None?
    {
      this.status := status;
      this.score := score;
      gradedBy := None;
      gradedAt := None;
    }
  }

  /** When `AssignmentSubmissionAdmin.save_model` records who graded the work. */
  predicate StampsGrader(s: SubmissionStatus, score: Option<nat>, changedData: set<string>) {
    ("score" in changedData || "status" in changedData) && s == Graded && score.Some?
  }

  /** `AssignmentSubmissionAdmin.save_model` as the source runs it. The
      save fires the `post_save` receiver `update_assignment_status`, which
      calls `update_progress` on every graded submission; the submission
      class defines no such method, so the receiver raises `AttributeError`
      and the admin's transaction rolls the save back. `raised` says whether
      that happens; the stored submission never changes. */
  method SaveSubmissionAsWritten(s: AssignmentSubmission, changedData: set<string>, requester: int, now: int)
    returns (raised: bool)
    ensures raised <==> s.status == Graded
    ensures StampsGrader(s.status, s.score, changedData) ==> raised
  {
    raised := s.status == Graded;
  }

  /** `AssignmentSubmissionAdmin.save_model` as intended: a graded
      submission whose score or status was edited records who graded it
      and when, and the save is stored. */
  method SaveSubmission(s: AssignmentSubmission, changedData: set<string>, requester: int, now: int)
    modifies s
    ensures StampsGrader(s.status, s.score, changedData) ==>
      s.gradedBy == Some(requester) && s.gradedAt == Some(now)
    ensures !StampsGrader(s.status, s.score, changedData) ==>
      s.gradedBy == old(s.gradedBy) && s.gradedAt == old(s.gradedAt)
    ensures s.status == old(s.status) && s.score == old(s.score)
  {
    if "score" in changedData || "status" in changedData {
      if s.status == Graded && s.score.Some? {
        s.gradedBy := Some(requester);
        s.gradedAt := Some(now);
      }
    }
  }
}
