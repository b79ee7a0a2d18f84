/** The content types of a course element (the `course_elements`
    application's models): lecture and video time estimates, quiz attempts
    and the grading of each answer, assignment deadlines, graded
    discussions and webinars, and what each of them writes into the
    student's progress record for the element. */
module CourseElements {
  import opened Common
  import opened Courses

  // -----------------------------------------------------------------------
  // Time estimates

  /** `max(1, int(word_count / 200))`: about 200 words a minute, and never
      less than a minute. */
  function ReadMinutes(wordCount: nat): (m: nat)
    ensures m >= 1
    ensures wordCount >= 200 ==> m * 200 <= wordCount < (m + 1) * 200
    ensures wordCount < 200 ==> m == 1
  {
    DivBelow(wordCount, 200);
    if wordCount / 200 >= 1 then wordCount / 200 else 1
  }

  /** `max(1, int(duration / 60))`: whole minutes of a video, at least one. */
  function VideoMinutes(seconds: nat): (m: nat)
    ensures m >= 1
    ensures seconds >= 60 ==> m * 60 <= seconds < (m + 1) * 60
    ensures seconds < 60 ==> m == 1
  {
    DivBelow(seconds, 60);
    if seconds / 60 >= 1 then seconds / 60 else 1
  }

  class LectureContent {
    const element: CourseElement
    var content: string
    var wordCount: nat
    var estimatedReadTime: nat

    constructor (element: CourseElement, content: string)
      ensures this.element == element && this.content == content
      ensures wordCount == 0 && estimatedReadTime == 0
    {
      this.element := element;
      this.content := content;
      wordCount := 0;
      estimatedReadTime := 0;
    }

    /** `LectureContent.save`: a non-empty text is counted again; the
        element's estimated time then follows the read time, which an empty
        text leaves as it was. */
    method Save()
      modifies this, element
      ensures content == old(content)
      ensures old(content) != [] ==>
        wordCount == |Words(content)| && estimatedReadTime == ReadMinutes(wordCount)
      ensures old(content) == [] ==>
        wordCount == old(wordCount) && estimatedReadTime == old(estimatedReadTime)
      ensures element.estimatedTime == estimatedReadTime
    {
      if content != [] {
        wordCount := |Words(content)|;
        estimatedReadTime := ReadMinutes(wordCount);
      }
      if element.estimatedTime != estimatedReadTime {
        element.estimatedTime := estimatedReadTime;
      }
    }
  }

  /** A lecture made of `ws` joined by spaces counts exactly `|ws|` words. */
  lemma LectureWordCount(ws: seq<string>)
    requires forall w :: w in ws ==> IsWord(w)
    ensures |Words(Join(ws, " "))| == |ws|
  {
    WordsOfJoin(ws);
  }

  class VideoContent {
    const element: CourseElement
    const duration: nat

    constructor (element: CourseElement, duration: nat)
      ensures this.element == element && this.duration == duration
    {
      this.element := element;
      this.duration := duration;
    }

    /** `VideoContent.save`: the element's estimate becomes the video's
        length in whole minutes. */
    method Save()
      modifies element
      ensures element.estimatedTime == VideoMinutes(duration)
    {
      var minutes := VideoMinutes(duration);
      if element.estimatedTime != minutes {
        element.estimatedTime := minutes;
      }
    }
  }

  // -----------------------------------------------------------------------
  // Quiz attempts

  /** The points of an answered question and whether the answer was graded
      correct. */
  datatype AnsweredQuestion = AnsweredQuestion(points: nat, isCorrect: bool)

  function TotalPoints(answers: seq<AnsweredQuestion>): nat {
    if answers == [] then 0
    else TotalPoints(answers[..|answers| - 1]) + answers[|answers| - 1].points
  }

  function EarnedPoints(answers: seq<AnsweredQuestion>): nat {
    if answers == [] then 0
    else
      var last := answers[|answers| - 1];
      EarnedPoints(answers[..|answers| - 1]) + (if last.isCorrect then last.points else 0)
  }

  /** The score never exceeds the maximum, and it reaches it exactly when
      every question that is worth points was answered correctly. */
  lemma {:induction false} EarnedWithinTotal(answers: seq<AnsweredQuestion>)
    ensures EarnedPoints(answers) <= TotalPoints(answers)
    ensures EarnedPoints(answers) == TotalPoints(answers) <==>
      forall i :: 0 <= i < |answers| && answers[i].points > 0 ==> answers[i].isCorrect
  {
    if answers != [] {
      var init := answers[..|answers| - 1];
      EarnedWithinTotal(init);
      assert forall i :: 0 <= i < |init| ==> init[i] == answers[i];
    }
  }

  /** The loop of `QuizAttempt.calculate_score`. */
  method TallyPoints(answers: seq<AnsweredQuestion>) returns (earned: nat, total: nat)
    ensures earned == EarnedPoints(answers) && total == TotalPoints(answers)
    ensures earned <= total
  {
    earned, total := 0, 0;
    var i := 0;
    while i < |answers|
      invariant 0 <= i <= |answers|
      invariant earned == EarnedPoints(answers[..i])
      invariant total == TotalPoints(answers[..i])
    {
      assert answers[..i + 1][..i] == answers[..i];
      total := total + answers[i].points;
      if answers[i].isCorrect {
        earned := earned + answers[i].points;
      }
      i := i + 1;
    }
    assert answers[..i] == answers;
    EarnedWithinTotal(answers);
  }

  /** `score_percentage`: earned over total times 100, or 0 with no points. */
  function ScorePercentage(earned: nat, total: nat): real {
    if total > 0 then (earned as real / total as real) * 100.0 else 0.0
  }

  /** A score within the maximum is a percentage, 100 only for full marks. */
  lemma ScorePercentageRange(earned: nat, total: nat)
    requires earned <= total
    ensures 0.0 <= ScorePercentage(earned, total) <= 100.0
    ensures ScorePercentage(earned, total) == 100.0 <==> total > 0 && earned == total
  {
    if total > 0 {
      var q := earned as real / total as real;
      assert q * (total as real) == earned as real;
      assert q <= 1.0;
      if q == 1.0 {
        assert earned as real == total as real;
      }
    }
  }

  /** The pass rule in whole numbers: with points to earn, passing means
      `earned * 100 >= passing * total`; with none, only a zero threshold
      passes. */
  lemma PassRule(earned: nat, total: nat, passing: nat)
    ensures ScorePercentage(earned, total) >= passing as real <==>
      if total > 0 then earned * 100 >= passing * total else passing == 0
  {
    if total > 0 {
      var t := total as real;
      var q := earned as real / t;
      assert q * t == earned as real;
      assert (q * 100.0) * t == (earned * 100) as real;
      assert (passing * total) as real == (passing as real) * t;
      RealScale(q * 100.0, passing as real, t);
    }
  }

  lemma RealScale(x: real, y: real, t: real)
    requires t > 0.0
    ensures x >= y <==> x * t >= y * t
  {
  }

  datatype AttemptStatus = InProgress | Finished | TimedOut

  class QuizAttempt {
    const passingScore: nat
    const startedAt: int
    var status: AttemptStatus
    var completedAt: Option<int>
    var timeSpent: int
    var score: nat
    var maxScore: nat
    var scorePercentage: real
    var passed: bool

    constructor (passingScore: nat, startedAt: int)
      ensures this.passingScore == passingScore && this.startedAt == startedAt
      ensures status == InProgress && completedAt.None? && timeSpent == 0
      ensures score == 0 && maxScore == 0 && scorePercentage == 0.0 && !passed
    {
      this.passingScore := passingScore;
      this.startedAt := startedAt;
      status := InProgress;
      completedAt := None;
      timeSpent := 0;
      score := 0;
      maxScore := 0;
      scorePercentage := 0.0;
      passed := false;
    }

    /** `QuizAttempt.update_progress`: only a completed attempt is copied
        into a progress record; `progress` is null when the student is not
        enrolled in the course, and otherwise the record `get_or_create`
        returns. The record's save makes the attempt's completion time the
        enrollment's last access. The `post_save` receiver
        `update_quiz_progress` makes the same copy, so it is modelled by
        this method too. */
    method UpdateProgress(progress: CourseElementProgress?)
      modifies Footprint(progress)
      ensures progress != null ==>
        progress.Row() == if status == Finished then QuizProgress(old(progress.Row()), startedAt, completedAt, passed, scorePercentage)
                          else old(progress.Row())
      ensures progress != null ==>
        progress.enrollment.Row() ==
          if status == Finished then
            old(progress.enrollment.Row()).(lastAccessed := LastAccess(old(progress.enrollment.lastAccessed), completedAt))
          else old(progress.enrollment.Row())
    {
      if progress != null && status == Finished {
        progress.isViewed := true;
        progress.isCompleted := passed;
        progress.grade := Some(scorePercentage);
        progress.gradePercent := Some(scorePercentage.Floor);
        if progress.firstViewedAt.None? {
          progress.firstViewedAt := Some(startedAt);
        }
        progress.lastViewedAt := completedAt;
        if passed && progress.completedAt.None? {
          progress.completedAt := completedAt;
        }
        progress.UpdateEnrollmentLastAccessed();
      }
    }

    /** `QuizAttempt.calculate_score`: score, maximum, percentage and the
        pass flag of the graded answers. The save runs the receiver
        `update_quiz_progress` on the new values, then `update_progress`
        copies the same values again. */
    method CalculateScore(answers: seq<AnsweredQuestion>, progress: CourseElementProgress?)
      returns (percentage: real)
      modifies this, Footprint(progress)
      ensures score == EarnedPoints(answers) && maxScore == TotalPoints(answers)
      ensures scorePercentage == ScorePercentage(score, maxScore) && percentage == scorePercentage
      ensures passed <==> scorePercentage >= passingScore as real
      ensures status == old(status) && completedAt == old(completedAt) && timeSpent == old(timeSpent)
      ensures progress != null ==>
        progress.Row() == if status == Finished then QuizProgress(old(progress.Row()), startedAt, completedAt, passed, scorePercentage)
                          else old(progress.Row())
      ensures progress != null ==>
        progress.enrollment.Row() ==
          if status == Finished then
            old(progress.enrollment.Row()).(lastAccessed := LastAccess(old(progress.enrollment.lastAccessed), completedAt))
          else old(progress.enrollment.Row())
    {
      var earned, total := TallyPoints(answers);
      score := earned;
      maxScore := total;
      scorePercentage := ScorePercentage(earned, total);
      passed := scorePercentage >= passingScore as real;
      UpdateProgress(progress);
      UpdateProgress(progress);
      percentage := scorePercentage;
    }

    /** The attempt is closed at `now` and scored on `answers`: the
        score, maximum, percentage and pass flag of the graded answers. */
    predicate ClosedAndScored(now: int, answers: seq<AnsweredQuestion>)
      reads this
    {
      status == Finished && completedAt == Some(now) && timeSpent == now - startedAt &&
      score == EarnedPoints(answers) && maxScore == TotalPoints(answers) &&
      scorePercentage == ScorePercentage(score, maxScore) &&
      (passed <==> scorePercentage >= passingScore as real)
    }

    /** `p` holds what completing this attempt at `now` leaves in a record
        that held `r`, the attempt having held `stalePassed` and
        `stalePercentage` before it was scored. */
    predicate LeftInRecord(p: CourseElementProgress, r: ProgressRow, now: int, stalePassed: bool, stalePercentage: real)
      reads this, p
    {
      p.Row() == CompletedProgress(r, startedAt, now, stalePassed, stalePercentage, passed, scorePercentage)
    }

    /** `QuizAttempt.complete`: a completed attempt is left alone; any other
        one is closed at `now` and scored. The first save, of the status
        and times only, already runs the receiver `update_quiz_progress`,
        which copies the pass flag and percentage the attempt held before
        it was scored; `calculate_score` then copies the new ones over
        them. Every copy makes now the enrollment's last access. */
    method Complete(now: int, answers: seq<AnsweredQuestion>, progress: CourseElementProgress?)
      modifies this, progress, if progress == null then {} else {progress.enrollment}
      ensures old(status) == Finished ==> unchanged(this) && (progress != null ==> unchanged(progress, progress.enrollment))
      ensures old(status) != Finished ==> ClosedAndScored(now, answers)
      ensures old(status) != Finished && progress != null ==>
        LeftInRecord(progress, old(progress.Row()), now, old(passed), old(scorePercentage))
      ensures old(status) != Finished && progress != null ==>
        progress.enrollment.Row() == old(progress.enrollment.Row()).(lastAccessed := Some(now))
    {
      if status != Finished {
        status := Finished;
        completedAt := Some(now);
        timeSpent := now - startedAt;
        UpdateProgress(progress);
        var _ := CalculateScore(answers, progress);
      }
    }
  }

  /** The progress record after `update_progress` for a completed attempt. */
  function QuizProgress(r: ProgressRow, startedAt: int, completedAt: Option<int>, passed: bool, percentage: real): ProgressRow {
    r.(isViewed := true, isCompleted := passed, grade := Some(percentage), gradePercent := Some(percentage.Floor),
       firstViewedAt := if r.firstViewedAt.Some? then r.firstViewedAt else Some(startedAt),
       lastViewedAt := completedAt,
       completedAt := if passed && r.completedAt.None? then completedAt else r.completedAt)
  }

  /** What a completed attempt leaves in the record: the element is viewed
      and graded with the attempt's percentage, its whole part between 0
      and 100; the first view and the completion time, once set, are
      kept, and the completion time is set only by a passing attempt; the
      completion flag follows the latest attempt, so a failed retake
      clears it while the completion time stays; the `gradedBy` and `gradedAt` columns are
      untouched, and copying the same attempt again changes nothing. */
  lemma QuizProgressFacts(r: ProgressRow, startedAt: int, completedAt: Option<int>, passed: bool, percentage: real)
    requires 0.0 <= percentage <= 100.0
    ensures var q := QuizProgress(r, startedAt, completedAt, passed, percentage);
      q.isViewed && q.grade == Some(percentage) && 0 <= q.gradePercent.value <= 100 &&
      (r.firstViewedAt.Some? ==> q.firstViewedAt == r.firstViewedAt) && q.firstViewedAt.Some? &&
      (r.completedAt.Some? ==> q.completedAt == r.completedAt) &&
      (q.completedAt != r.completedAt ==> passed && q.completedAt == completedAt) &&
      (q.isCompleted <==> passed) &&
      q.gradedBy == r.gradedBy && q.gradedAt == r.gradedAt &&
      QuizProgress(q, startedAt, completedAt, passed, percentage) == q
  {
  }

  /** The progress record after `complete`: the copy of the pass flag and
      percentage held before scoring, then the copy of the scored ones. */
  function CompletedProgress(r: ProgressRow, startedAt: int, now: int, stalePassed: bool, stalePercentage: real,
                             passed: bool, percentage: real): ProgressRow {
    QuizProgress(QuizProgress(r, startedAt, Some(now), stalePassed, stalePercentage), startedAt, Some(now), passed, percentage)
  }

  /** The early copy is overwritten except for the completion time: the
      record ends as one copy of the scored attempt, but a completion time
      is set when either copy passes. So an attempt that held a pass from
      an earlier scoring and now fails leaves a record not completed but
      with a completion time. */
  lemma CompletedProgressFacts(r: ProgressRow, startedAt: int, now: int, stalePassed: bool, stalePercentage: real,
                               passed: bool, percentage: real)
    ensures CompletedProgress(r, startedAt, now, stalePassed, stalePercentage, passed, percentage) ==
      QuizProgress(r, startedAt, Some(now), passed, percentage).(completedAt :=
        if (stalePassed || passed) && r.completedAt.None? then Some(now) else r.completedAt)
    ensures !stalePassed ==>
      CompletedProgress(r, startedAt, now, stalePassed, stalePercentage, passed, percentage) ==
      QuizProgress(r, startedAt, Some(now), passed, percentage)
    ensures stalePassed && !passed && r.completedAt.None? ==>
      var q := CompletedProgress(r, startedAt, now, stalePassed, stalePercentage, passed, percentage);
      !q.isCompleted && q.completedAt == Some(now)
  {
  }

  // -----------------------------------------------------------------------
  // Grading one answer (`QuizAnswer.check_correctness`)

  datatype QuestionType = Single | Multiple | TrueFalse | Text | Numeric | Matching | Ordering

  datatype QuizOption = QuizOption(id: int, isCorrect: bool)

  /** The `is_correct` and `partial_score` that `check_correctness` sets
      on an answer. Most paths then save them; the multiple-choice branch
      without correct options and the empty matching and ordering answers
      return before the save. */
  datatype Verdict = Verdict(isCorrect: bool, partialScore: real)

  /** Full credit exactly for a correct answer, partial credit in [0, 1]. */
  predicate Consistent(v: Verdict) {
    0.0 <= v.partialScore <= 1.0 && (v.isCorrect <==> v.partialScore == 1.0)
  }

  const Wrong := Verdict(false, 0.0)
  const Right := Verdict(true, 1.0)

  /** Single choice and true/false: the first selected option decides. */
  function FirstChoiceVerdict(selected: seq<QuizOption>): Verdict {
    if selected != [] && selected[0].isCorrect then Right else Wrong
  }

  function CorrectOptions(options: seq<QuizOption>): set<QuizOption> {
    set o | o in options && o.isCorrect
  }

  function IncorrectOptions(options: seq<QuizOption>): set<QuizOption> {
    set o | o in options && !o.isCorrect
  }

  /** Multiple choice: right when every correct option and no other is
      selected, otherwise (correct picks - incorrect picks) over the number
      of correct options, cut off at 0. */
  function MultipleChoiceVerdict(options: seq<QuizOption>, selected: seq<QuizOption>): Verdict {
    var correct := |CorrectOptions(options)|;
    if correct == 0 then Wrong
    else
      var picked := |CorrectOptions(selected)|;
      var wrong := |IncorrectOptions(selected)|;
      if picked == correct && wrong == 0 then Right
      else
        var partial := (picked - wrong) as real / correct as real;
        Verdict(false, if partial > 0.0 then partial else 0.0)
  }

  lemma EqualCardSubset<T>(a: set<T>, b: set<T>)
    requires a <= b && |a| == |b|
    ensures a == b
  {
    if a != b {
      var x :| x in b && x !in a;
      SubsetCard(a, b - {x});
    }
  }

  /** A selection drawn from the options splits into its correct and its
      incorrect part, and picks no more correct options than there are. */
  lemma SelectionSplit(options: seq<QuizOption>, selected: seq<QuizOption>)
    requires forall o :: o in selected ==> o in options
    ensures CorrectOptions(selected) <= CorrectOptions(options)
    ensures |CorrectOptions(selected)| <= |CorrectOptions(options)|
    ensures (set o | o in selected) == CorrectOptions(selected) + IncorrectOptions(selected)
  {
    SubsetCard(CorrectOptions(selected), CorrectOptions(options));
  }

  /** Selecting exactly the correct options picks all of them and no other. */
  lemma ExactSelection(options: seq<QuizOption>, selected: seq<QuizOption>)
    requires (set o | o in selected) == CorrectOptions(options)
    ensures CorrectOptions(selected) == CorrectOptions(options)
    ensures IncorrectOptions(selected) == {}
  {
    assert forall o :: o in selected ==> o in CorrectOptions(options);
  }

  /** With selections taken from the question's options, a multiple-choice
      answer is right exactly when the selection is the set of correct
      options, and a wrong one scores below full credit. */
  lemma MultipleChoiceExact(options: seq<QuizOption>, selected: seq<QuizOption>)
    requires forall o :: o in selected ==> o in options
    ensures Consistent(MultipleChoiceVerdict(options, selected))
    ensures MultipleChoiceVerdict(options, selected).isCorrect <==>
      CorrectOptions(options) != {} && (set o | o in selected) == CorrectOptions(options)
  {
    var c := CorrectOptions(options);
    var sc := CorrectOptions(selected);
    var si := IncorrectOptions(selected);
    SelectionSplit(options, selected);
    if (set o | o in selected) == c {
      ExactSelection(options, selected);
    }
    if |c| > 0 {
      if |sc| == |c| && |si| == 0 {
        EqualCardSubset(sc, c);
      } else {
        Ratio(|sc| - |si|, |c|);
      }
    }
  }

  /** How an ordering answer arrives: empty, not a list of ids, or the ids
      in the order the student put them. */
  datatype OrderAnswer = Blank | Unparsable | Ids(order: seq<int>)

  /** `list.index`: the first position of `x`, or None where Python raises
      `ValueError`. */
  function IndexOf(s: seq<int>, x: int): (r: Option<nat>)
    ensures r.Some? ==> r.value < |s| && s[r.value] == x && x !in s[..r.value]
    ensures r.None? <==> x !in s
  {
    if s == [] then None
    else if s[0] == x then Some(0)
    else
      var r := IndexOf(s[1..], x);
      assert s[1..] == s[1..];
      if r.Some? then
        assert s[..r.value + 1] == [s[0]] + s[1..][..r.value];
        Some(r.value + 1)
      else None
  }

  /** The pair at `i` keeps its two ids next to each other, in the correct
      order. */
  predicate ConsecutiveAt(order: seq<int>, correct: seq<int>, i: nat)
    requires i + 1 < |order|
  {
    var a, b := IndexOf(correct, order[i]), IndexOf(correct, order[i + 1]);
    a.Some? && b.Some? && a.value + 1 == b.value
  }

  /** The number of consecutive pairs among the first `k`. */
  function ConsecutivePairs(order: seq<int>, correct: seq<int>, k: nat): (n: nat)
    requires k < |order|
    ensures n <= k
  {
    if k == 0 then 0
    else ConsecutivePairs(order, correct, k - 1) + (if ConsecutiveAt(order, correct, k - 1) then 1 else 0)
  }

  /** Both ids of the pair at `j` are among the options. */
  predicate PairKnown(order: seq<int>, correct: seq<int>, j: nat)
    requires j + 1 < |order|
  {
    order[j] in correct && order[j + 1] in correct
  }

  predicate AllKnown(order: seq<int>, correct: seq<int>) {
    forall i :: 0 <= i < |order| ==> order[i] in correct
  }

  /** Ordering questions, as `check_correctness` grades them. */
  function OrderingVerdict(answer: OrderAnswer, correct: seq<int>): Verdict {
    match answer
    case Blank => Wrong
    case Unparsable => Wrong
    case Ids(order) =>
      if |order| != |correct| then Wrong
      else if order == correct then Right
      else if |order| - 1 == 0 then Wrong
      else if !AllKnown(order, correct) then Wrong
      else
        var partial := ConsecutivePairs(order, correct, |order| - 1) as real / (|order| - 1) as real;
        Verdict(partial >= 1.0, partial)
  }

  /** The element-wise comparison of `check_correctness`. */
  method SameOrder(order: seq<int>, correct: seq<int>) returns (same: bool)
    requires |order| == |correct|
    ensures same <==> order == correct
  {
    same := true;
    var i := 0;
    while i < |order| && same
      invariant 0 <= i <= |order|
      invariant same ==> order[..i] == correct[..i]
      invariant !same ==> order != correct
    {
      if order[i] != correct[i] {
        same := false;
      } else {
        assert order[..i + 1] == order[..i] + [order[i]];
        assert correct[..i + 1] == correct[..i] + [correct[i]];
      }
      i := i + 1;
    }
    if same {
      assert order == order[..i] && correct == correct[..i];
    }
  }

  /** The pair count of `check_correctness`; None where an id is not among
      the options and `list.index` raises. */
  method CountConsecutivePairs(order: seq<int>, correct: seq<int>) returns (pairs: Option<nat>)
    requires |order| >= 2
    ensures pairs.None? <==> !AllKnown(order, correct)
    ensures pairs.Some? ==> pairs.value == ConsecutivePairs(order, correct, |order| - 1)
  {
    var count := 0;
    var k := 0;
    while k < |order| - 1
      invariant 0 <= k <= |order| - 1
      invariant forall j :: 0 <= j < k ==> PairKnown(order, correct, j)
      invariant count == ConsecutivePairs(order, correct, k)
    {
      var cur := IndexOf(correct, order[k]);
      var next := IndexOf(correct, order[k + 1]);
      if cur.None? || next.None? {
        return None;
      }
      assert ConsecutiveAt(order, correct, k) <==> cur.value + 1 == next.value;
      if cur.value + 1 == next.value {
        count := count + 1;
      }
      k := k + 1;
    }
    forall i | 0 <= i < |order|
      ensures order[i] in correct
    {
      if i < k {
        assert PairKnown(order, correct, i);
      } else {
        assert PairKnown(order, correct, i - 1);
      }
    }
    return Some(count);
  }

  /** The ordering branch of `check_correctness`: exact order first, then
      partial credit for the consecutive pairs. */
  method CheckOrdering(answer: OrderAnswer, correct: seq<int>) returns (v: Verdict)
    ensures v == OrderingVerdict(answer, correct)
  {
    if answer.Blank? || answer.Unparsable? {
      return Wrong;
    }
    var order := answer.order;
    if |order| != |correct| {
      return Wrong;
    }
    var same := SameOrder(order, correct);
    if same {
      return Right;
    }
    if |order| < 2 {
      return Wrong;
    }
    var pairs := CountConsecutivePairs(order, correct);
    if pairs.None? {
      return Wrong;
    }
    var partial := pairs.value as real / (|order| - 1) as real;
    v := Verdict(partial >= 1.0, partial);
  }

  /** Every pair counts as consecutive only when the `k` pairs are. */
  lemma {:induction false} AllPairsConsecutive(order: seq<int>, correct: seq<int>, k: nat)
    requires k < |order| && ConsecutivePairs(order, correct, k) == k
    ensures forall i :: 0 <= i < k ==> ConsecutiveAt(order, correct, i)
  {
    if k > 0 {
      AllPairsConsecutive(order, correct, k - 1);
    }
  }

  /** Consecutive pairs all the way put each id `i` places after the first. */
  lemma {:induction false} ConsecutiveRun(order: seq<int>, correct: seq<int>, k: nat)
    requires k < |order| && order[0] in correct
    requires forall i :: 0 <= i < k ==> ConsecutiveAt(order, correct, i)
    ensures IndexOf(correct, order[k]).Some?
    ensures IndexOf(correct, order[k]).value == IndexOf(correct, order[0]).value + k
  {
    if k > 0 {
      ConsecutiveRun(order, correct, k - 1);
      assert ConsecutiveAt(order, correct, k - 1);
    }
  }

  /** An ordering answer is graded correct only when it is exactly the
      correct order: the partial-credit branch never yields a correct
      answer. */
  lemma OrderingCorrectOnlyWhenExact(answer: OrderAnswer, correct: seq<int>)
    ensures OrderingVerdict(answer, correct).isCorrect ==> answer.Ids? && answer.order == correct
  {
    if answer.Ids? {
      var order := answer.order;
      var n := |order|;
      if n == |correct| && order != correct && n - 1 > 0 && AllKnown(order, correct) {
        var pairs := ConsecutivePairs(order, correct, n - 1);
        var partial := pairs as real / (n - 1) as real;
        if partial >= 1.0 {
          FullShare(pairs, n - 1);
          AllPairsConsecutive(order, correct, n - 1);
          ConsecutiveRunFrom(order, correct);
          assert false;
        }
      }
    }
  }

  /** A share of at least one is a count of at least the whole. */
  lemma FullShare(part: nat, whole: nat)
    requires whole > 0 && part as real / whole as real >= 1.0
    ensures part >= whole
  {
    assert part as real == (part as real / whole as real) * whole as real;
  }

  /** An answer of the right length whose every pair is consecutive is the
      correct order itself. */
  lemma ConsecutiveRunFrom(order: seq<int>, correct: seq<int>)
    requires |order| == |correct| >= 2 && AllKnown(order, correct)
    requires forall i :: 0 <= i < |order| - 1 ==> ConsecutiveAt(order, correct, i)
    ensures order == correct
  {
    var n := |order|;
    ConsecutiveRun(order, correct, n - 1);
    var first := IndexOf(correct, order[0]).value;
    assert first == 0;
    forall i | 0 <= i < n ensures order[i] == correct[i] {
      ConsecutiveRun(order, correct, i);
    }
  }

  /** Ordering verdicts are consistent: partial credit stays in [0, 1]. */
  lemma OrderingConsistent(answer: OrderAnswer, correct: seq<int>)
    ensures Consistent(OrderingVerdict(answer, correct))
  {
    if answer.Ids? {
      var order := answer.order;
      var n := |order|;
      if n == |correct| && order != correct && n - 1 > 0 && AllKnown(order, correct) {
        var pairs := ConsecutivePairs(order, correct, n - 1);
        Ratio(pairs, n - 1);
      }
    }
  }

  /** `QuizAnswer.check_correctness` for every question type it grades
      without floating point or JSON dictionaries. The options are the
      question's options and `selected` the selected ones, both in display
      order; `correctOrder` is the ids of the options sorted by `order`. */
  method CheckCorrectness(questionType: QuestionType, options: seq<QuizOption>,
                          selected: seq<QuizOption>, answer: OrderAnswer, correctOrder: seq<int>)
    returns (v: Verdict)
    requires questionType != Numeric && questionType != Matching
    ensures questionType == Single || questionType == TrueFalse ==> v == FirstChoiceVerdict(selected)
    ensures questionType == Multiple ==> v == MultipleChoiceVerdict(options, selected)
    ensures questionType == Text ==> v == Wrong
    ensures questionType == Ordering ==> v == OrderingVerdict(answer, correctOrder)
    ensures (forall o :: o in selected ==> o in options) ==> Consistent(v)
  {
    match questionType {
      case Single => v := FirstChoiceVerdict(selected);
      case TrueFalse => v := FirstChoiceVerdict(selected);
      case Multiple =>
        v := MultipleChoiceVerdict(options, selected);
        if forall o :: o in selected ==> o in options {
          MultipleChoiceExact(options, selected);
        }
      case Text => v := Wrong;
      case Ordering =>
        v := CheckOrdering(answer, correctOrder);
        OrderingConsistent(answer, correctOrder);
    }
  }

  // -----------------------------------------------------------------------
  // Assignments

  datatype Assignment = Assignment(
    dueDate: Option<int>,
    lateSubmissionsAllowed: bool,
    lateDeadline: Option<int>)

  /** `Assignment.is_overdue`. */
  predicate IsOverdue(a: Assignment, now: int) {
    a.dueDate.Some? && now > a.dueDate.value
  }

  /** `Assignment.is_closed`. */
  predicate IsClosed(a: Assignment, now: int) {
    if !a.lateSubmissionsAllowed then IsOverdue(a, now)
    else if a.lateDeadline.None? then false
    else now > a.lateDeadline.value
  }

  /** Once closed, an assignment stays closed. */
  lemma ClosedStaysClosed(a: Assignment, now: int, later: int)
    requires IsClosed(a, now) && now <= later
    ensures IsClosed(a, later)
  {
  }

  /** A late deadline after the due date never closes the assignment before
      it is overdue; late submissions without a deadline never close it. */
  lemma LateWindow(a: Assignment, now: int)
    requires a.lateSubmissionsAllowed
    ensures a.lateDeadline.None? ==> !IsClosed(a, now)
    ensures a.dueDate.Some? && a.lateDeadline.Some? && a.lateDeadline.value >= a.dueDate.value ==>
      (IsClosed(a, now) ==> IsOverdue(a, now))
  {
  }

  // -----------------------------------------------------------------------
  // Graded discussions

  datatype Discussion = Discussion(isGraded: bool, maxScore: nat, requiredPosts: nat, requiredReplies: nat)

  datatype Participation = Participation(
    grade: Option<nat>,
    messagesPosted: nat,
    repliesPosted: nat,
    gradedAt: Option<int>)

  /** A discussion counts as completed with enough posts and replies. */
  predicate DiscussionCompleted(d: Discussion, p: Participation) {
    p.messagesPosted >= d.requiredPosts && p.repliesPosted >= d.requiredReplies
  }

  /** `DiscussionParticipation.update_progress`. `firstMessageAt` and
      `lastMessageAt` are the times of the student's first and last
      messages. A zero maximum score makes the source's percentage divide
      by zero; the result is then false and nothing is saved. A save makes
      the last message the enrollment's last access. */
  method UpdateDiscussionProgress(d: Discussion, p: Participation, firstMessageAt: Option<int>,
                                  lastMessageAt: Option<int>, now: int,
                                  progress: CourseElementProgress?)
    returns (saved: bool)
    modifies Footprint(progress)
    ensures saved <==> progress != null && d.isGraded && p.grade.Some? && d.maxScore > 0
    ensures saved ==>
      progress.isViewed &&
      progress.isCompleted == DiscussionCompleted(d, p) &&
      progress.grade == Some(p.grade.value as real) &&
      progress.gradePercent == Some(p.grade.value * 100 / d.maxScore) &&
      progress.firstViewedAt ==
        (if old(progress.firstViewedAt).Some? then old(progress.firstViewedAt)
         else Some(firstMessageAt.GetOr(now))) &&
      progress.lastViewedAt == Some(lastMessageAt.GetOr(now)) &&
      progress.completedAt ==
        (if DiscussionCompleted(d, p) && old(progress.completedAt).None?
         then Some(p.gradedAt.GetOr(lastMessageAt.GetOr(now)))
         else old(progress.completedAt))
    ensures saved ==>
      progress.Row() == old(progress.Row()).(isViewed := progress.isViewed, isCompleted := progress.isCompleted,
        grade := progress.grade, gradePercent := progress.gradePercent, firstViewedAt := progress.firstViewedAt,
        lastViewedAt := progress.lastViewedAt, completedAt := progress.completedAt)
    ensures !saved && progress != null ==> progress.Row() == old(progress.Row())
    ensures saved ==>
      progress.enrollment.Row() == old(progress.enrollment.Row()).(lastAccessed := Some(lastMessageAt.GetOr(now)))
    ensures !saved && progress != null ==> progress.enrollment.Row() == old(progress.enrollment.Row())
  {
    saved := false;
    if !d.isGraded || p.grade.None? || progress == null || d.maxScore == 0 {
      return;
    }
    var completed := DiscussionCompleted(d, p);
    progress.isViewed := true;
    progress.isCompleted := completed;
    progress.grade := Some(p.grade.value as real);
    progress.gradePercent := Some(p.grade.value * 100 / d.maxScore);
    if progress.firstViewedAt.None? {
      progress.firstViewedAt := Some(firstMessageAt.GetOr(now));
    }
    progress.lastViewedAt := Some(lastMessageAt.GetOr(now));
    if completed && progress.completedAt.None? {
      progress.completedAt := Some(p.gradedAt.GetOr(progress.lastViewedAt.value));
    }
    progress.UpdateEnrollmentLastAccessed();
    saved := true;
  }

  // -----------------------------------------------------------------------
  // Webinars

  datatype Webinar = Webinar(start: Option<int>, end: Option<int>, minimumAttendanceMinutes: nat)

  /** `Webinar.is_past`. */
  predicate IsPast(w: Webinar, now: int) {
    w.start.Some? && now > w.start.value
  }

  /** `Webinar.is_live`. */
  predicate IsLive(w: Webinar, now: int) {
    w.start.Some? && w.end.Some? && w.start.value <= now <= w.end.value
  }

  /** A live webinar has begun: from its second second on it is also past. */
  lemma LiveThenPast(w: Webinar, now: int)
    requires IsLive(w, now)
    ensures IsPast(w, now) <==> now != w.start.value
  {
  }

  datatype AttendanceStatus = Registered | Attended | Partial | Absent | WatchedRecording

  datatype WebinarAttendance = WebinarAttendance(
    joinedAt: Option<int>,
    leftAt: Option<int>,
    attendanceMinutes: nat,
    status: AttendanceStatus)

  /** Attendance that completes the element. */
  predicate AttendanceCompletes(a: WebinarAttendance, w: Webinar) {
    a.status == Attended || a.status == WatchedRecording ||
    (a.status == Partial && a.attendanceMinutes >= w.minimumAttendanceMinutes)
  }

  /** Attendance that counts as having viewed the element. */
  predicate AttendanceViewed(a: WebinarAttendance) {
    a.status in {Attended, Partial, WatchedRecording}
  }

  /** Completion implies viewing, and a registration or an absence is
      neither. */
  lemma CompletedAttendanceWasViewed(a: WebinarAttendance, w: Webinar)
    ensures AttendanceCompletes(a, w) ==> AttendanceViewed(a)
    ensures a.status == Registered || a.status == Absent ==>
      !AttendanceViewed(a) && !AttendanceCompletes(a, w)
  {
  }

  /** `WebinarAttendance.update_progress`. The save passes the record's
      last view on to the enrollment's last access. */
  method UpdateWebinarProgress(a: WebinarAttendance, w: Webinar, now: int,
                               progress: CourseElementProgress?)
    modifies Footprint(progress)
    ensures progress != null ==>
      progress.isViewed == AttendanceViewed(a) &&
      progress.isCompleted == AttendanceCompletes(a, w) &&
      progress.firstViewedAt ==
        (if old(progress.firstViewedAt).None? && a.joinedAt.Some? then a.joinedAt
         else old(progress.firstViewedAt)) &&
      progress.lastViewedAt == (if a.leftAt.Some? then a.leftAt else old(progress.lastViewedAt)) &&
      progress.completedAt ==
        (if AttendanceCompletes(a, w) && old(progress.completedAt).None?
         then Some(a.leftAt.GetOr(now)) else old(progress.completedAt))
    ensures progress != null ==>
      progress.Row() == old(progress.Row()).(isViewed := progress.isViewed, isCompleted := progress.isCompleted,
        firstViewedAt := progress.firstViewedAt, lastViewedAt := progress.lastViewedAt, completedAt := progress.completedAt)
    ensures progress != null ==>
      progress.enrollment.Row() ==
        old(progress.enrollment.Row()).(lastAccessed := LastAccess(old(progress.enrollment.lastAccessed), progress.lastViewedAt))
  {
    var completes := AttendanceCompletes(a, w);
    if progress != null {
      progress.isViewed := AttendanceViewed(a);
      progress.isCompleted := completes;
      if progress.firstViewedAt.None? && a.joinedAt.Some? {
        progress.firstViewedAt := a.joinedAt;
      }
      if a.leftAt.Some? {
        progress.lastViewedAt := a.leftAt;
      }
      if completes && progress.completedAt.None? {
        progress.completedAt := Some(a.leftAt.GetOr(now));
      }
      progress.UpdateEnrollmentLastAccessed();
    }
  }
}
