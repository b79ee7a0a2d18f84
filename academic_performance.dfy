/** Academic records (`academic_performance` application models): grade
    sheet items and the grades and history rows they write, the semester
    performance summary, attendance statistics, the academic standing
    derived from debts, debt clearance by a passing grade, scholarship
    assignments and individual plan hours. Dates are day numbers, moments
    are integers, decimal fields are exact reals. */
module AcademicPerformance {
  import opened Common

  // -----------------------------------------------------------------------
  // Grade values and grade types

  /** A value of a grading system (`GradeValue`). */
  datatype GradeValue = GradeValue(id: int, numericValue: real, isPassing: bool)

  /** The sheet types a grade sheet may have. */
  const SheetTypes: set<string> := {"exam", "credit", "credit_grade", "course_work", "practice", "final"}

  /** The code of the grade type a graded sheet item writes: the sheet type
      itself, except that both kinds of credit write `credit` and an
      unknown sheet type writes `current`. */
  function GradeTypeCode(sheetType: string): (code: string)
    ensures code in {"current", "exam", "credit", "course_work", "practice", "final"}
  {
    if sheetType == "exam" then "exam"
    else if sheetType == "credit" || sheetType == "credit_grade" then "credit"
    else if sheetType == "course_work" then "course_work"
    else if sheetType == "practice" then "practice"
    else if sheetType == "final" then "final"
    else "current"
  }

  /** Two sheet types write the same grade type exactly when they are equal
      or both are kinds of credit; no sheet type writes `current`. */
  lemma GradeTypeCodeCollapsesOnlyCredits(a: string, b: string)
    requires a in SheetTypes && b in SheetTypes
    ensures GradeTypeCode(a) == GradeTypeCode(b) <==>
      a == b || (a in {"credit", "credit_grade"} && b in {"credit", "credit_grade"})
    ensures GradeTypeCode(a) != "current"
    ensures a != "credit_grade" ==> GradeTypeCode(a) == a
  {
  }

  // -----------------------------------------------------------------------
  // Grades

  datatype GradeStatus = Draft | Final | Corrected | Annulled

  /** A grade (`Grade`); `gradeType` is the code of its grade type. */
  datatype GradeRecord = GradeRecord(
    student: int,
    subject: int,
    semester: int,
    gradeType: string,
    value: GradeValue,
    points: Option<real>,
    maxPoints: Option<real>,
    percentage: Option<real>,
    date: int,
    gradedBy: Option<int>,
    status: GradeStatus)

  /** The lookup key of `update_or_create`. */
  predicate SameKey(a: GradeRecord, b: GradeRecord) {
    a.student == b.student && a.subject == b.subject && a.semester == b.semester && a.gradeType == b.gradeType
  }

  predicate UniqueKeys(grades: seq<GradeRecord>) {
    forall i, j :: 0 <= i < j < |grades| ==> !SameKey(grades[i], grades[j])
  }

  /** The position of the grade with the key of `g`, if any. */
  function FindKey(grades: seq<GradeRecord>, g: GradeRecord): (r: Option<nat>)
    ensures r.Some? ==> r.value < |grades| && SameKey(grades[r.value], g)
    ensures r.None? ==> forall i :: 0 <= i < |grades| ==> !SameKey(grades[i], g)
  {
    if grades == [] then None
    else
      var n := |grades| - 1;
      match FindKey(grades[..n], g)
      case Some(i) => Some(i)
      case None => if SameKey(grades[n], g) then Some(n) else None
  }

  /** `update_or_create` with `g` as the defaults: an existing grade takes
      every field of `g` but its maximum of points, which is not among the
      defaults; otherwise `g` is added. */
  function Upsert(grades: seq<GradeRecord>, g: GradeRecord): seq<GradeRecord> {
    match FindKey(grades, g)
    case Some(i) => grades[i := g.(maxPoints := grades[i].maxPoints)]
    case None => grades + [g]
  }

  /** With unique keys before, keys stay unique and the table holds exactly
      one grade with the key of `g`, carrying the values of `g`; grades
      with other keys are untouched. */
  lemma UpsertKeepsOneGradePerKey(grades: seq<GradeRecord>, g: GradeRecord)
    requires UniqueKeys(grades)
    ensures var r := Upsert(grades, g);
      UniqueKeys(r) && |grades| <= |r| <= |grades| + 1 &&
      (exists i :: 0 <= i < |r| && SameKey(r[i], g) && r[i].value == g.value && r[i].date == g.date) &&
      (forall i :: 0 <= i < |grades| && !SameKey(grades[i], g) ==> r[i] == grades[i])
  {
    var r := Upsert(grades, g);
    match FindKey(grades, g)
    case Some(i) => {
      assert SameKey(r[i], g);
      forall a, b | 0 <= a < b < |r| ensures !SameKey(r[a], r[b]) {
        if a == i {
          assert SameKey(grades[i], r[i]) && r[b] == grades[b];
        } else if b == i {
          assert SameKey(grades[i], r[i]) && r[a] == grades[a];
        } else {
          assert r[a] == grades[a] && r[b] == grades[b];
        }
      }
    }
    case None => {
      assert SameKey(r[|grades|], g);
    }
  }

  // -----------------------------------------------------------------------
  // Grade sheet items and the history of grades

  datatype ItemStatus = NotGraded | Graded | Absent | NotAllowed

  datatype ChangeKind = Create | Update

  /** A row of the grade history (`GradeHistory`). */
  datatype HistoryRow = HistoryRow(
    student: int,
    subject: int,
    semester: int,
    item: int,
    previous: Option<GradeValue>,
    newValue: GradeValue,
    changedBy: Option<int>,
    change: ChangeKind)

  /** The sheet an item belongs to. */
  datatype SheetInfo = SheetInfo(subject: int, semester: int, sheetType: string)

  /** Whether saving an item writes a grade and a history row: the item is
      new or its grade value changed, and it is graded with a value.
      `previous` is the stored value of the item, `None` for a new item. */
  predicate WritesGrade(previous: Option<Option<GradeValue>>, status: ItemStatus, value: Option<GradeValue>) {
    (previous.None? || previous.value != value) && status == Graded && value.Some?
  }

  /** The grade written for an item. */
  function ItemGrade(student: int, sheet: SheetInfo, value: GradeValue, points: Option<real>,
                     percentage: Option<real>, gradedBy: Option<int>, today: int): GradeRecord
  {
    GradeRecord(student, sheet.subject, sheet.semester, GradeTypeCode(sheet.sheetType), value,
                points, None, percentage, today, gradedBy, Final)
  }

  /** The history row written for an item: an update exactly when the
      stored item had a value. */
  function ItemHistory(id: int, student: int, sheet: SheetInfo, previous: Option<Option<GradeValue>>,
                       value: GradeValue, gradedBy: Option<int>): (h: HistoryRow)
    ensures h.change == Update <==> previous.Some? && previous.value.Some?
    ensures h.change == Update ==> h.previous == previous.value
    ensures h.change == Create ==> h.previous.None?
  {
    var had := previous.Some? && previous.value.Some?;
    HistoryRow(student, sheet.subject, sheet.semester, id,
               if had then previous.value else None, value, gradedBy, if had then Update else Create)
  }

  /** A row of a grade sheet (`GradeSheetItem`). */
  class GradeSheetItem {
    const id: int
    const student: int
    const sheet: SheetInfo
    var status: ItemStatus
    var gradeValue: Option<GradeValue>
    var points: Option<real>
    var percentage: Option<real>
    var gradedAt: Option<int>
    var gradedBy: Option<int>

    constructor (id: int, student: int, sheet: SheetInfo)
      ensures this.id == id && this.student == student && this.sheet == sheet
      ensures status == NotGraded && gradeValue.None? && gradedAt.None?
    {
      this.id := id;
      this.student := student;
      this.sheet := sheet;
      status := NotGraded;
      gradeValue := None;
      points := None;
      percentage := None;
      gradedAt := None;
      gradedBy := None;
    }
  }

  /** The grade tables: grades, their history and the performance
      summaries by student and semester. */
  class Gradebook {
    var grades: seq<GradeRecord>
    var history: seq<HistoryRow>
    var summaries: map<(int, int), Summary>

    constructor ()
      ensures grades == [] && history == [] && summaries == map[]
    {
      grades := [];
      history := [];
      summaries := map[];
    }
  }

  /** `GradeSheetItem.save`: stamps the grading moment once, then writes
      the grade and a history row when `WritesGrade` holds. Saving the
      grade runs its two `post_save` receivers in the order they are
      connected: the performance summary, then the debt clearance. */
  method SaveGradeSheetItem(item: GradeSheetItem, previous: Option<Option<GradeValue>>, now: int, today: int,
                            book: Gradebook, reg: DebtRegistry)
    modifies item, book, reg
    ensures old(item.gradedAt).Some? ==> item.gradedAt == old(item.gradedAt)
    ensures old(item.gradedAt).None? ==> item.gradedAt == if item.status == Graded then Some(now) else None
    ensures item.status == old(item.status) && item.gradeValue == old(item.gradeValue)
    ensures item.points == old(item.points) && item.percentage == old(item.percentage)
    ensures item.gradedBy == old(item.gradedBy)
    ensures WritesGrade(previous, item.status, item.gradeValue) ==>
      var g := ItemGrade(item.student, item.sheet, item.gradeValue.value, item.points, item.percentage, item.gradedBy, today);
      var key := (g.student, g.semester);
      book.grades == Upsert(old(book.grades), g) &&
      book.history == old(book.history) + [ItemHistory(item.id, item.student, item.sheet, previous, item.gradeValue.value, item.gradedBy)] &&
      book.summaries == old(book.summaries)[key := SummaryAfterGrade(SummaryOf(old(book.summaries), key), g, book.grades)] &&
      reg.debts == MapAfterGrade(old(reg.debts), g) &&
      reg.standings == StandingsUpTo(old(reg.debts), old(reg.standings), g, today, |old(reg.debts)|)
    ensures !WritesGrade(previous, item.status, item.gradeValue) ==>
      book.grades == old(book.grades) && book.history == old(book.history) && book.summaries == old(book.summaries) &&
      reg.debts == old(reg.debts) && reg.standings == old(reg.standings)
  {
    if item.status == Graded && item.gradedAt.None? {
      item.gradedAt := Some(now);
    }
    if previous.None? || previous.value != item.gradeValue {
      if item.status == Graded && item.gradeValue.Some? {
        var g := ItemGrade(item.student, item.sheet, item.gradeValue.value, item.points, item.percentage, item.gradedBy, today);
        book.grades := Upsert(book.grades, g);
        UpdatePerformanceSummary(book, g);
        ClearDebts(reg, g, today);
        book.history := book.history + [ItemHistory(item.id, item.student, item.sheet, previous, item.gradeValue.value, item.gradedBy)];
      }
    }
  }

  /** Saving an item twice without changing it writes the grade once: the
      second save sees its own value stored. */
  lemma SecondSaveWritesNothing(status: ItemStatus, value: Option<GradeValue>)
    ensures !WritesGrade(Some(value), status, value)
    ensures WritesGrade(None, status, value) <==> status == Graded && value.Some?
  {
  }

  // -----------------------------------------------------------------------
  // The semester performance summary (`AcademicPerformanceSummary`)

  datatype Summary = Summary(
    totalSubjects: nat,
    excellent: nat,
    good: nat,
    satisfactory: nat,
    failed: nat,
    gpa: real,
    totalCredits: nat,
    earnedCredits: nat,
    totalClasses: nat,
    attendedClasses: nat,
    attendancePercentage: real)

  /** The defaults of `get_or_create`. */
  function NewSummary(): Summary {
    Summary(0, 0, 0, 0, 0, 0.0, 0, 0, 0, 0, 0.0)
  }

  function SummaryOf(summaries: map<(int, int), Summary>, key: (int, int)): Summary {
    if key in summaries then summaries[key] else NewSummary()
  }

  function Buckets(s: Summary): nat {
    s.excellent + s.good + s.satisfactory + s.failed
  }

  /** One more grade counted in its bucket: 90 and above excellent, 75
      good, 60 satisfactory, failed below; the subject total is the sum of
      the buckets. */
  function Counted(s: Summary, v: real): (r: Summary)
    ensures r.totalSubjects == Buckets(r) == Buckets(s) + 1
    ensures r.excellent == s.excellent + (if v >= 90.0 then 1 else 0)
    ensures r.good == s.good + (if 75.0 <= v < 90.0 then 1 else 0)
    ensures r.satisfactory == s.satisfactory + (if 60.0 <= v < 75.0 then 1 else 0)
    ensures r.failed == s.failed + (if v < 60.0 then 1 else 0)
    ensures r.gpa == s.gpa && r.totalClasses == s.totalClasses && r.attendedClasses == s.attendedClasses
  {
    var b :=
      if v >= 90.0 then s.(excellent := s.excellent + 1)
      else if v >= 75.0 then s.(good := s.good + 1)
      else if v >= 60.0 then s.(satisfactory := s.satisfactory + 1)
      else s.(failed := s.failed + 1);
    b.(totalSubjects := Buckets(b))
  }

  predicate InSemester(g: GradeRecord, student: int, semester: int) {
    g.student == student && g.semester == semester
  }

  /** The sum and number of the student's grade values in the semester. */
  function SemesterTotal(grades: seq<GradeRecord>, student: int, semester: int): real {
    if grades == [] then 0.0
    else
      var n := |grades| - 1;
      SemesterTotal(grades[..n], student, semester) +
      (if InSemester(grades[n], student, semester) then grades[n].value.numericValue else 0.0)
  }

  function SemesterCount(grades: seq<GradeRecord>, student: int, semester: int): nat {
    if grades == [] then 0
    else
      var n := |grades| - 1;
      SemesterCount(grades[..n], student, semester) + (if InSemester(grades[n], student, semester) then 1 else 0)
  }

  /** When every grade value of the semester is at least `lo`, their sum
      is at least their number times `lo`. */
  lemma {:induction false} SemesterTotalAtLeast(grades: seq<GradeRecord>, student: int, semester: int, lo: real)
    requires forall i :: 0 <= i < |grades| && InSemester(grades[i], student, semester) ==>
      lo <= grades[i].value.numericValue
    ensures SemesterCount(grades, student, semester) as real * lo <= SemesterTotal(grades, student, semester)
  {
    if grades != [] {
      var n := |grades| - 1;
      var init := grades[..n];
      assert forall i :: 0 <= i < |init| ==> init[i] == grades[i];
      SemesterTotalAtLeast(init, student, semester, lo);
      var c := SemesterCount(init, student, semester) as real;
      var t := SemesterTotal(init, student, semester);
      if InSemester(grades[n], student, semester) {
        var v := grades[n].value.numericValue;
        assert lo <= v;
        assert SemesterTotal(grades, student, semester) == t + v;
        assert SemesterCount(grades, student, semester) as real == c + 1.0;
        assert (c + 1.0) * lo == c * lo + lo;
      } else {
        assert SemesterTotal(grades, student, semester) == t;
        assert SemesterCount(grades, student, semester) as real == c;
      }
    }
  }

  /** When every grade value of the semester is at most `hi`, their sum is
      at most their number times `hi`. */
  lemma {:induction false} SemesterTotalAtMost(grades: seq<GradeRecord>, student: int, semester: int, hi: real)
    requires forall i :: 0 <= i < |grades| && InSemester(grades[i], student, semester) ==>
      grades[i].value.numericValue <= hi
    ensures SemesterTotal(grades, student, semester) <= SemesterCount(grades, student, semester) as real * hi
  {
    if grades != [] {
      var n := |grades| - 1;
      var init := grades[..n];
      assert forall i :: 0 <= i < |init| ==> init[i] == grades[i];
      SemesterTotalAtMost(init, student, semester, hi);
      var c := SemesterCount(init, student, semester) as real;
      var t := SemesterTotal(init, student, semester);
      if InSemester(grades[n], student, semester) {
        var v := grades[n].value.numericValue;
        assert v <= hi;
        assert SemesterTotal(grades, student, semester) == t + v;
        assert SemesterCount(grades, student, semester) as real == c + 1.0;
        assert (c + 1.0) * hi == c * hi + hi;
      } else {
        assert SemesterTotal(grades, student, semester) == t;
        assert SemesterCount(grades, student, semester) as real == c;
      }
    }
  }

  /** The summary after a grade is saved. */
  function SummaryAfterGrade(s: Summary, g: GradeRecord, grades: seq<GradeRecord>): Summary {
    var c := Counted(s, g.value.numericValue);
    var n := SemesterCount(grades, g.student, g.semester);
    if n > 0 then c.(gpa := SemesterTotal(grades, g.student, g.semester) / n as real) else c
  }

  /** The average never leaves the range of the values it averages, and it
      is left as it was when the semester has no grade. */
  lemma GpaIsMean(s: Summary, g: GradeRecord, grades: seq<GradeRecord>, lo: real, hi: real)
    requires forall i :: 0 <= i < |grades| && InSemester(grades[i], g.student, g.semester) ==>
      lo <= grades[i].value.numericValue <= hi
    ensures SemesterCount(grades, g.student, g.semester) > 0 ==> lo <= SummaryAfterGrade(s, g, grades).gpa <= hi
    ensures SemesterCount(grades, g.student, g.semester) == 0 ==> SummaryAfterGrade(s, g, grades).gpa == s.gpa
    ensures SummaryAfterGrade(s, g, grades).totalSubjects == Buckets(s) + 1
  {
    var n := SemesterCount(grades, g.student, g.semester);
    if n > 0 {
      SemesterTotalAtLeast(grades, g.student, g.semester, lo);
      SemesterTotalAtMost(grades, g.student, g.semester, hi);
      MeanBetween(SemesterTotal(grades, g.student, g.semester), n as real, lo, hi);
    }
  }

  /** The loop of the signal over the student's grades of the semester. */
  method SumSemester(grades: seq<GradeRecord>, student: int, semester: int) returns (total: real, count: nat)
    ensures total == SemesterTotal(grades, student, semester)
    ensures count == SemesterCount(grades, student, semester)
  {
    total, count := 0.0, 0;
    var i := 0;
    while i < |grades|
      invariant 0 <= i <= |grades|
      invariant total == SemesterTotal(grades[..i], student, semester)
      invariant count == SemesterCount(grades[..i], student, semester)
    {
      assert grades[..i + 1][..i] == grades[..i];
      if InSemester(grades[i], student, semester) {
        total := total + grades[i].value.numericValue;
        count := count + 1;
      }
      i := i + 1;
    }
    assert grades[..i] == grades;
  }

  /** `update_academic_performance_summary`, run after grade `g` is saved. */
  method UpdatePerformanceSummary(book: Gradebook, g: GradeRecord)
    modifies book
    ensures book.summaries == old(book.summaries)[(g.student, g.semester) :=
      SummaryAfterGrade(SummaryOf(old(book.summaries), (g.student, g.semester)), g, old(book.grades))]
    ensures book.grades == old(book.grades) && book.history == old(book.history)
  {
    var key := (g.student, g.semester);
    var s := SummaryOf(book.summaries, key);
    s := Counted(s, g.value.numericValue);
    var total, count := SumSemester(book.grades, g.student, g.semester);
    if count > 0 {
      s := s.(gpa := total / count as real);
    }
    book.summaries := book.summaries[key := s];
  }

  // -----------------------------------------------------------------------
  // Attendance statistics

  datatype Mark = Present | Absent | Late | Sick | Excused

  /** An attendance record with the semester of its class's template;
      records of classes without a template item never match the signal's
      filter and are not among the rows. */
  datatype AttendanceRow = AttendanceRow(student: int, semester: int, status: Mark)

  function CountRows(rows: seq<AttendanceRow>, student: int, semester: int): nat {
    if rows == [] then 0
    else
      var n := |rows| - 1;
      CountRows(rows[..n], student, semester) +
      (if rows[n].student == student && rows[n].semester == semester then 1 else 0)
  }

  function CountPresent(rows: seq<AttendanceRow>, student: int, semester: int): nat {
    if rows == [] then 0
    else
      var n := |rows| - 1;
      CountPresent(rows[..n], student, semester) +
      (if rows[n].student == student && rows[n].semester == semester && rows[n].status == Present then 1 else 0)
  }

  /** No more classes attended than held, and all of them exactly when
      every record of the semester is `present`. */
  lemma {:induction false} PresentWithinRows(rows: seq<AttendanceRow>, student: int, semester: int)
    ensures CountPresent(rows, student, semester) <= CountRows(rows, student, semester)
    ensures CountPresent(rows, student, semester) == CountRows(rows, student, semester) <==>
      forall i :: 0 <= i < |rows| && rows[i].student == student && rows[i].semester == semester ==>
        rows[i].status == Present
  {
    if rows != [] {
      var n := |rows| - 1;
      PresentWithinRows(rows[..n], student, semester);
      assert forall i :: 0 <= i < n ==> rows[..n][i] == rows[i];
    }
  }

  /** The summary after the attendance signal: the percentage is only
      recomputed when there are classes. */
  function WithAttendance(s: Summary, rows: seq<AttendanceRow>, student: int, semester: int): Summary {
    var total := CountRows(rows, student, semester);
    var attended := CountPresent(rows, student, semester);
    var t := s.(totalClasses := total, attendedClasses := attended);
    if total > 0 then t.(attendancePercentage := attended as real / total as real * 100.0) else t
  }

  /** The recorded percentage lies between 0 and 100 and is 100 exactly
      when the student attended every class of the semester. */
  lemma AttendancePercentageBounds(s: Summary, rows: seq<AttendanceRow>, student: int, semester: int)
    requires 0.0 <= s.attendancePercentage <= 100.0
    ensures var r := WithAttendance(s, rows, student, semester);
      r.attendedClasses <= r.totalClasses && 0.0 <= r.attendancePercentage <= 100.0 &&
      (r.totalClasses > 0 ==> (r.attendancePercentage == 100.0 <==> r.attendedClasses == r.totalClasses))
  {
    PresentWithinRows(rows, student, semester);
    var total := CountRows(rows, student, semester);
    if total > 0 {
      Ratio(CountPresent(rows, student, semester), total);
    }
  }

  /** `update_attendance_stats`, run after an attendance record of the
      student is saved; `rows` is the attendance table. `semester` is the
      semester of the template of the record's class: `None` when the class
      has no template item (a copied class), where following the missing
      item raises `AttributeError` and no summary is written. */
  method UpdateAttendanceStats(book: Gradebook, rows: seq<AttendanceRow>, student: int, semester: Option<int>)
    modifies book
    ensures semester.Some? ==> book.summaries == old(book.summaries)[(student, semester.value) :=
      WithAttendance(SummaryOf(old(book.summaries), (student, semester.value)), rows, student, semester.value)]
    ensures semester.None? ==> book.summaries == old(book.summaries)
    ensures book.grades == old(book.grades) && book.history == old(book.history)
  {
    if semester.None? {
      return;
    }
    var key := (student, semester.value);
    var s := SummaryOf(book.summaries, key);
    var total := CountRows(rows, student, semester.value);
    var attended := CountPresent(rows, student, semester.value);
    s := s.(totalClasses := total, attendedClasses := attended);
    if total > 0 {
      s := s.(attendancePercentage := attended as real / total as real * 100.0);
    }
    book.summaries := book.summaries[key := s];
  }

  // -----------------------------------------------------------------------
  // Debts and academic standing

  datatype DebtStatus = Active | Extended | Cleared | Expired | Waived

  /** An academic debt (`AcademicDebt`). */
  datatype Debt = Debt(student: int, subject: int, semester: int, deadline: int, status: DebtStatus, clearedAt: Option<int>)

  /** The statuses the standing signal counts. */
  predicate Outstanding(d: Debt) {
    d.status == DebtStatus.Active || d.status == Extended || d.status == DebtStatus.Expired
  }

  function OutstandingCount(debts: seq<Debt>, student: int): nat {
    if debts == [] then 0
    else
      var n := |debts| - 1;
      OutstandingCount(debts[..n], student) + (if debts[n].student == student && Outstanding(debts[n]) then 1 else 0)
  }

  datatype StandingType = Good | Warning | Probation | AcademicLeave | RiskExpulsion | Expulsion
                        | Reinstated | Graduated | Transferred

  /** The standing for a number of outstanding debts: none good, one or
      two a warning, three or four probation, five or more risk of
      expulsion. */
  function StandingFor(count: nat): StandingType {
    if count == 0 then Good
    else if count <= 2 then Warning
    else if count <= 4 then Probation
    else RiskExpulsion
  }

  function Severity(t: StandingType): nat {
    match t
    case Good => 0
    case Warning => 1
    case Probation => 2
    case RiskExpulsion => 3
    case _ => 4
  }

  /** More debts never give a milder standing, and each of the four
      standings is reached. */
  lemma StandingMonotone(a: nat, b: nat)
    requires a <= b
    ensures Severity(StandingFor(a)) <= Severity(StandingFor(b))
    ensures StandingFor(0) == Good && StandingFor(2) == Warning && StandingFor(3) == Probation
    ensures StandingFor(4) == Probation && StandingFor(5) == RiskExpulsion
    ensures StandingFor(a) in {Good, Warning, Probation, RiskExpulsion}
  {
  }

  /** An academic standing (`AcademicStanding`); open while it has no end. */
  datatype Standing = Standing(student: int, statusType: StandingType, start: int, end: Option<int>, semester: Option<int>)

  predicate OpenFor(s: Standing, student: int) {
    s.student == student && s.end.None?
  }

  /** The current standing: the open standing of the student with the
      latest start, the first one among equals. */
  function CurrentStanding(standings: seq<Standing>, student: int): (r: Option<nat>)
    ensures r.Some? ==> (r.value < |standings| && OpenFor(standings[r.value], student) &&
      forall j :: 0 <= j < |standings| && OpenFor(standings[j], student) ==> standings[j].start <= standings[r.value].start)
    ensures r.None? ==> forall j :: 0 <= j < |standings| ==> !OpenFor(standings[j], student)
  {
    if standings == [] then None
    else
      var n := |standings| - 1;
      var before := CurrentStanding(standings[..n], student);
      if !OpenFor(standings[n], student) then before
      else if before.Some? && standings[n].start <= standings[before.value].start then before
      else Some(n)
  }

  /** The standings after the signal: a standing of type `t` is opened on
      `today`, closing the current one, unless the current one already has
      type `t`. */
  function StandingsAfter(standings: seq<Standing>, student: int, t: StandingType, semester: Option<int>, today: int): seq<Standing> {
    var cur := CurrentStanding(standings, student);
    if cur.Some? && standings[cur.value].statusType == t then standings
    else
      var closed := if cur.Some? then standings[cur.value := standings[cur.value].(end := Some(today))] else standings;
      closed + [Standing(student, t, today, None, semester)]
  }

  /** At most one open standing per student. */
  predicate AtMostOneOpen(standings: seq<Standing>, student: int) {
    forall i, j :: 0 <= i < j < |standings| && OpenFor(standings[i], student) ==> !OpenFor(standings[j], student)
  }

  /** The signal keeps at most one open standing for the student, after it
      the open standing has the type the debts call for, and running it
      again changes nothing. */
  lemma StandingsAfterKeepsOneOpen(standings: seq<Standing>, student: int, t: StandingType, semester: Option<int>, today: int)
    requires AtMostOneOpen(standings, student)
    ensures var r := StandingsAfter(standings, student, t, semester, today);
      AtMostOneOpen(r, student) &&
      CurrentStanding(r, student).Some? && r[CurrentStanding(r, student).value].statusType == t &&
      StandingsAfter(r, student, t, semester, today) == r
  {
    var cur := CurrentStanding(standings, student);
    var r := StandingsAfter(standings, student, t, semester, today);
    if !(cur.Some? && standings[cur.value].statusType == t) {
      var closed := if cur.Some? then standings[cur.value := standings[cur.value].(end := Some(today))] else standings;
      assert forall j :: 0 <= j < |closed| ==> !OpenFor(closed[j], student);
      var m := |closed|;
      assert r == closed + [Standing(student, t, today, None, semester)];
      assert forall j :: 0 <= j < m ==> !OpenFor(r[j], student);
      assert OpenFor(r[m], student);
      var c := CurrentStanding(r, student);
      assert c.Some? && c.value == m;
    }
  }

  /** The current standing of a student depends only on that student's
      open standings: rows the other students change or add leave it. */
  lemma {:induction false} CurrentStandingOwnRows(xs: seq<Standing>, ys: seq<Standing>, b: int)
    requires |xs| <= |ys|
    requires forall j :: 0 <= j < |xs| && (OpenFor(xs[j], b) || OpenFor(ys[j], b)) ==> xs[j] == ys[j]
    requires forall j :: |xs| <= j < |ys| ==> !OpenFor(ys[j], b)
    ensures CurrentStanding(ys, b) == CurrentStanding(xs, b)
    decreases |ys|
  {
    if |ys| > |xs| {
      var n := |ys| - 1;
      CurrentStandingOwnRows(xs, ys[..n], b);
    } else if ys != [] {
      var n := |ys| - 1;
      CurrentStandingOwnRows(xs[..n], ys[..n], b);
    }
  }

  /** The signal for one student leaves every other student's open
      standings, so it keeps their single open standing and their current
      standing. */
  lemma StandingsAfterOtherStudent(standings: seq<Standing>, a: int, b: int, t: StandingType, semester: Option<int>, today: int)
    requires a != b
    ensures var r := StandingsAfter(standings, a, t, semester, today);
      (AtMostOneOpen(standings, b) ==> AtMostOneOpen(r, b)) &&
      CurrentStanding(r, b) == CurrentStanding(standings, b) &&
      (CurrentStanding(r, b).Some? ==> r[CurrentStanding(r, b).value] == standings[CurrentStanding(r, b).value])
  {
    var r := StandingsAfter(standings, a, t, semester, today);
    assert forall j :: 0 <= j < |standings| && (OpenFor(standings[j], b) || OpenFor(r[j], b)) ==> standings[j] == r[j];
    CurrentStandingOwnRows(standings, r, b);
  }

  /** The debt and standing tables. */
  class DebtRegistry {
    var debts: seq<Debt>
    var standings: seq<Standing>

    constructor ()
      ensures debts == [] && standings == []
    {
      debts := [];
      standings := [];
    }
  }

  /** `update_student_academic_standing`, run after a debt of the student
      is saved. */
  method UpdateStanding(reg: DebtRegistry, student: int, semester: Option<int>, today: int)
    modifies reg
    ensures reg.standings == StandingsAfter(old(reg.standings), student, StandingFor(OutstandingCount(old(reg.debts), student)), semester, today)
    ensures reg.debts == old(reg.debts)
  {
    var t := StandingFor(OutstandingCount(reg.debts, student));
    var cur := CurrentStanding(reg.standings, student);
    if cur.None? || reg.standings[cur.value].statusType != t {
      if cur.Some? {
        reg.standings := reg.standings[cur.value := reg.standings[cur.value].(end := Some(today))];
      }
      reg.standings := reg.standings + [Standing(student, t, today, None, semester)];
    }
  }

  /** Whether a passing grade clears the debt. */
  predicate ClearedBy(d: Debt, g: GradeRecord) {
    g.value.isPassing && d.student == g.student && d.subject == g.subject && d.semester == g.semester &&
    (d.status == DebtStatus.Active || d.status == Extended)
  }

  function AfterGrade(d: Debt, g: GradeRecord): Debt {
    if ClearedBy(d, g) then d.(status := Cleared, clearedAt := Some(g.date)) else d
  }

  /** The debts with the first `k` of them passed through the grade. */
  function ClearedUpTo(debts: seq<Debt>, g: GradeRecord, k: nat): seq<Debt>
    requires k <= |debts|
  {
    seq(|debts|, i requires 0 <= i < |debts| => if i < k then AfterGrade(debts[i], g) else debts[i])
  }

  /** The standings after the clearance loop has passed the first `k`
      debts: each debt it clears is saved, and its `post_save` receiver
      `update_student_academic_standing` runs on the debts as they are at
      that moment. */
  function StandingsUpTo(debts: seq<Debt>, standings: seq<Standing>, g: GradeRecord, today: int, k: nat): seq<Standing>
    requires k <= |debts|
  {
    if k == 0 then standings
    else
      var before := StandingsUpTo(debts, standings, g, today, k - 1);
      var d := debts[k - 1];
      if ClearedBy(d, g) then
        StandingsAfter(before, d.student, StandingFor(OutstandingCount(ClearedUpTo(debts, g, k), d.student)), Some(d.semester), today)
      else before
  }

  /** `check_academic_debt_clearance`, run after grade `g` is saved: the
      loop over the debts the grade clears; `today` is the day the standing
      receiver reads from the clock. */
  method ClearDebts(reg: DebtRegistry, g: GradeRecord, today: int)
    modifies reg
    ensures reg.debts == MapAfterGrade(old(reg.debts), g)
    ensures reg.standings == StandingsUpTo(old(reg.debts), old(reg.standings), g, today, |old(reg.debts)|)
  {
    var debts, standings := reg.debts, reg.standings;
    if !g.value.isPassing {
      NoClearanceWithoutPass(debts, standings, g, today, |debts|);
      return;
    }
    var k := 0;
    while k < |debts|
      invariant 0 <= k <= |debts| && |reg.debts| == |debts|
      invariant reg.debts == ClearedUpTo(debts, g, k)
      invariant reg.standings == StandingsUpTo(debts, standings, g, today, k)
    {
      var d := reg.debts[k];
      if d.student == g.student && d.subject == g.subject && d.semester == g.semester &&
         (d.status == DebtStatus.Active || d.status == Extended) {
        reg.debts := reg.debts[k := d.(status := Cleared, clearedAt := Some(g.date))];
        assert reg.debts == ClearedUpTo(debts, g, k + 1);
        UpdateStanding(reg, d.student, Some(d.semester), today);
      } else {
        assert reg.debts == ClearedUpTo(debts, g, k + 1);
      }
      k := k + 1;
    }
    assert reg.debts == MapAfterGrade(debts, g);
  }

  /** A grade that is not passing clears nothing and leaves the standings. */
  lemma {:induction false} NoClearanceWithoutPass(debts: seq<Debt>, standings: seq<Standing>, g: GradeRecord, today: int, k: nat)
    requires !g.value.isPassing && k <= |debts|
    ensures MapAfterGrade(debts, g) == debts
    ensures StandingsUpTo(debts, standings, g, today, k) == standings
  {
    if k > 0 {
      NoClearanceWithoutPass(debts, standings, g, today, k - 1);
    }
  }

  /** The clearance loop keeps at most one open standing for the student,
      and once it has cleared a debt the student's current standing has
      the type the remaining outstanding debts call for. */
  lemma {:induction false} ClearingSetsStanding(debts: seq<Debt>, standings: seq<Standing>, g: GradeRecord, today: int, k: nat)
    requires k <= |debts| && AtMostOneOpen(standings, g.student)
    ensures var r := StandingsUpTo(debts, standings, g, today, k);
      AtMostOneOpen(r, g.student) &&
      ((exists i :: 0 <= i < k && ClearedBy(debts[i], g)) ==>
        CurrentStanding(r, g.student).Some? &&
        r[CurrentStanding(r, g.student).value].statusType == StandingFor(OutstandingCount(ClearedUpTo(debts, g, k), g.student)))
    ensures (forall i :: 0 <= i < k ==> !ClearedBy(debts[i], g)) ==> StandingsUpTo(debts, standings, g, today, k) == standings
  {
    NothingClearedKeepsStandings(debts, standings, g, today, k);
    if k > 0 {
      ClearingSetsStanding(debts, standings, g, today, k - 1);
      var before := StandingsUpTo(debts, standings, g, today, k - 1);
      var d := debts[k - 1];
      if ClearedBy(d, g) {
        StandingsAfterKeepsOneOpen(before, g.student, StandingFor(OutstandingCount(ClearedUpTo(debts, g, k), g.student)), Some(d.semester), today);
      } else {
        assert ClearedUpTo(debts, g, k) == ClearedUpTo(debts, g, k - 1);
        if exists i :: 0 <= i < k && ClearedBy(debts[i], g) {
          var i :| 0 <= i < k && ClearedBy(debts[i], g);
          assert i < k - 1;
        }
      }
    }
  }

  lemma {:induction false} NothingClearedKeepsStandings(debts: seq<Debt>, standings: seq<Standing>, g: GradeRecord, today: int, k: nat)
    requires k <= |debts|
    ensures (forall i :: 0 <= i < k ==> !ClearedBy(debts[i], g)) ==> StandingsUpTo(debts, standings, g, today, k) == standings
  {
    if k > 0 {
      NothingClearedKeepsStandings(debts, standings, g, today, k - 1);
    }
  }

  function MapAfterGrade(debts: seq<Debt>, g: GradeRecord): (r: seq<Debt>)
    ensures |r| == |debts| && forall i :: 0 <= i < |debts| ==> r[i] == AfterGrade(debts[i], g)
  {
    if debts == [] then [] else MapAfterGrade(debts[..|debts| - 1], g) + [AfterGrade(debts[|debts| - 1], g)]
  }

  /** After a passing grade no active or extended debt of the student for
      that subject and semester is left, and the number of outstanding
      debts never grows, so the standing never gets worse. */
  lemma {:induction false} ClearanceNeverWorsens(debts: seq<Debt>, g: GradeRecord, student: int)
    ensures var r := MapAfterGrade(debts, g);
      OutstandingCount(r, student) <= OutstandingCount(debts, student) &&
      Severity(StandingFor(OutstandingCount(r, student))) <= Severity(StandingFor(OutstandingCount(debts, student))) &&
      (g.value.isPassing ==> forall i :: 0 <= i < |r| ==> !ClearedBy(r[i], g))
  {
    var r := MapAfterGrade(debts, g);
    if debts != [] {
      var n := |debts| - 1;
      ClearanceNeverWorsens(debts[..n], g, student);
      assert r[..n] == MapAfterGrade(debts[..n], g);
    }
    StandingMonotone(OutstandingCount(r, student), OutstandingCount(debts, student));
  }

  // -----------------------------------------------------------------------
  // Scholarship assignments

  datatype AssignmentStatus = Pending | Active | Suspended | Terminated | Completed

  /** A scholarship assignment (`ScholarshipAssignment`). */
  class ScholarshipAssignment {
    var status: AssignmentStatus
    var start: int
    var end: int
    var amount: Option<real>

    constructor (status: AssignmentStatus, start: int, end: int, amount: Option<real>)
      ensures this.status == status && this.start == start && this.end == end && this.amount == amount
    {
      this.status := status;
      this.start := start;
      this.end := end;
      this.amount := amount;
    }

    /** `is_active`: active and running on `today`. */
    predicate IsActive(today: int)
      reads this
    {
      status == AssignmentStatus.Active && start <= today <= end
    }

    /** `save`: an assignment without an amount takes the scholarship's. */
    method Save(scholarshipAmount: real)
      modifies this
      ensures amount == if old(amount).Some? then old(amount) else Some(scholarshipAmount)
      ensures status == old(status) && start == old(start) && end == old(end)
    {
      if amount.None? {
        amount := Some(scholarshipAmount);
      }
    }
  }

  // -----------------------------------------------------------------------
  // Individual plan items

  datatype PlanHours = PlanHours(lectures: nat, seminars: nat, labs: nat, practices: nat, selfStudy: nat)

  /** `IndividualPlanItem.total_hours`. */
  function TotalHours(h: PlanHours): nat {
    h.lectures + h.seminars + h.labs + h.practices + h.selfStudy
  }
}
