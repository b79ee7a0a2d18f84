/** Actions of the university-structure admin pages
    (`university_structure/admin.py`): marking the current academic year
    and semester, moving groups to the next semester, copying plan
    subjects to the next semester, and the length of a holiday. */
module UniversityAdmin {
  import opened Common
  import Schedule

  datatype AcademicYear = AcademicYear(name: string, start: int, end: int, isCurrent: bool)

  /** A semester; `year` is the position of its academic year. */
  datatype Semester = Semester(year: nat, number: nat, isCurrent: bool)

  datatype Group = Group(name: string, currentSemester: nat, isActive: bool)

  datatype ControlForm =
    | ExamForm | CreditForm | CreditGradeForm | Coursework | CourseworkProject
    | StateExam | PracticeForm | ThesisDefence

  /** A subject of an academic plan in one semester
      (`AcademicPlanSubject`); plan, subject and semester are unique
      together. */
  datatype PlanSubject = PlanSubject(
    plan: nat, subject: nat, semester: nat,
    lectures: nat, seminars: nat, labs: nat, practices: nat, selfStudy: nat,
    credits: nat, controlForm: ControlForm, isOptional: bool)

  /** The tables the actions touch; every semester's year is a row of
      `years`. */
  class Structure {
    var years: seq<AcademicYear>
    var semesters: seq<Semester>
    var groups: seq<Group>
    var planSubjects: seq<PlanSubject>

    ghost predicate Valid()
      reads this
    {
      forall i :: 0 <= i < |semesters| ==> semesters[i].year < |years|
    }

    constructor ()
      ensures Valid() && years == [] && semesters == [] && groups == [] && planSubjects == []
    {
      years := [];
      semesters := [];
      groups := [];
      planSubjects := [];
    }
  }

  // -----------------------------------------------------------------------
  // The current academic year

  function ClearYear(y: AcademicYear): AcademicYear { y.(isCurrent := false) }

  function MarkYear(y: AcademicYear): AcademicYear { y.(isCurrent := true) }

  /** `AcademicYear.objects.all().update(is_current=False)`. */
  function ClearedYears(years: seq<AcademicYear>): seq<AcademicYear>
  {
    seq(|years|, i requires 0 <= i < |years| => ClearYear(years[i]))
  }

  /** The outcome the action is meant to have: only the first selected
      year is current, and none is when nothing is selected. */
  function YearsWithCurrent(years: seq<AcademicYear>, selected: seq<nat>): (r: seq<AcademicYear>)
    requires Selection(|years|, selected)
    ensures |r| == |years|
  {
    var cleared := ClearedYears(years);
    if selected == [] then cleared else cleared[selected[0] := MarkYear(cleared[selected[0]])]
  }

  /** Exactly the first selected year is current afterwards, and the years
      differ from before in nothing but the flag. */
  lemma YearsWithCurrentExact(years: seq<AcademicYear>, selected: seq<nat>)
    requires Selection(|years|, selected)
    ensures var r := YearsWithCurrent(years, selected);
      (forall i :: 0 <= i < |r| ==> (r[i].isCurrent <==> selected != [] && i == selected[0])) &&
      (forall i :: 0 <= i < |r| ==> r[i].(isCurrent := years[i].isCurrent) == years[i])
  {
  }

  /** `AcademicYearAdmin.set_as_current` as written. `queryset[0]` on a
      queryset that was never evaluated runs a new query each time it is
      used, so the flag is set on one fetched copy of the year and a second,
      freshly fetched copy is saved: the save writes the cleared row back. */
  method SetYearCurrentAsWritten(s: Structure, selected: seq<nat>)
    requires Selection(|s.years|, selected)
    modifies s
    ensures s.years == ClearedYears(old(s.years))
    ensures s.semesters == old(s.semesters) && s.groups == old(s.groups) && s.planSubjects == old(s.planSubjects)
  {
    s.years := ClearedYears(s.years);
    if |selected| > 0 {
      var marked := s.years[selected[0]];
      marked := MarkYear(marked);
      var fetched := s.years[selected[0]];
      s.years := s.years[selected[0] := fetched];
    }
  }

  /** What the action as written leaves: with a year selected, no year is
      current, although exactly one should be. */
  lemma SetYearCurrentLosesFlag(years: seq<AcademicYear>, k: nat)
    requires k < |years|
    ensures forall i :: 0 <= i < |years| ==> !ClearedYears(years)[i].isCurrent
    ensures YearsWithCurrent(years, [k])[k].isCurrent
    ensures ClearedYears(years) != YearsWithCurrent(years, [k])
  {
    assert ClearedYears(years)[k] != YearsWithCurrent(years, [k])[k];
  }

  /** The action with the year fetched once, saved with its flag set. */
  method SetYearCurrent(s: Structure, selected: seq<nat>)
    requires Selection(|s.years|, selected)
    modifies s
    ensures s.years == YearsWithCurrent(old(s.years), selected)
    ensures s.semesters == old(s.semesters) && s.groups == old(s.groups) && s.planSubjects == old(s.planSubjects)
  {
    s.years := ClearedYears(s.years);
    if |selected| > 0 {
      var year := s.years[selected[0]];
      year := MarkYear(year);
      s.years := s.years[selected[0] := year];
    }
  }

  // -----------------------------------------------------------------------
  // The current semester

  function ClearedSemesters(semesters: seq<Semester>): seq<Semester>
  {
    seq(|semesters|, i requires 0 <= i < |semesters| => semesters[i].(isCurrent := false))
  }

  /** `SemesterAdmin.set_as_current`: the semester is fetched once into a
      variable, so its flag is saved; its academic year becomes the only
      current year. With nothing selected every semester flag is cleared
      and the years are left alone. */
  method SetSemesterCurrent(s: Structure, selected: seq<nat>)
    requires s.Valid() && Selection(|s.semesters|, selected)
    modifies s
    ensures s.Valid()
    ensures selected == [] ==> s.semesters == ClearedSemesters(old(s.semesters)) && s.years == old(s.years)
    ensures selected != [] ==>
      var k := selected[0];
      var y := old(s.semesters)[k].year;
      s.semesters == ClearedSemesters(old(s.semesters))[k := old(s.semesters)[k].(isCurrent := true)] &&
      s.years == YearsWithCurrent(old(s.years), [y])
    ensures s.groups == old(s.groups) && s.planSubjects == old(s.planSubjects)
  {
    s.semesters := ClearedSemesters(s.semesters);
    if |selected| > 0 {
      var semester := s.semesters[selected[0]];
      semester := semester.(isCurrent := true);
      s.semesters := s.semesters[selected[0] := semester];
      var y := semester.year;
      s.years := ClearedYears(s.years);
      var year := s.years[y];
      year := MarkYear(year);
      s.years := s.years[y := year];
    }
  }

  /** After the action exactly one semester is current, the first selected
      one, and exactly one year, the one it belongs to. */
  lemma SemesterCurrentExact(semesters: seq<Semester>, years: seq<AcademicYear>, k: nat)
    requires k < |semesters| && semesters[k].year < |years|
    ensures var r := ClearedSemesters(semesters)[k := semesters[k].(isCurrent := true)];
      var ys := YearsWithCurrent(years, [semesters[k].year]);
      (forall i :: 0 <= i < |r| ==> (r[i].isCurrent <==> i == k)) &&
      (forall i :: 0 <= i < |ys| ==> (ys[i].isCurrent <==> i == r[k].year))
  {
    YearsWithCurrentExact(years, [semesters[k].year]);
  }

  // -----------------------------------------------------------------------
  // Groups

  function NextSemester(g: Group): Group {
    g.(currentSemester := g.currentSemester + 1)
  }

  /** The sum of the groups' semester numbers. */
  function SemesterSum(groups: seq<Group>): nat {
    if groups == [] then 0 else SemesterSum(groups[..|groups| - 1]) + groups[|groups| - 1].currentSemester
  }

  /** `GroupAdmin.increase_semester`: each selected group moves up one
      semester and nothing else changes. */
  method IncreaseSemester(s: Structure, selected: seq<nat>)
    requires Selection(|s.groups|, selected)
    modifies s
    ensures s.groups == Updated(old(s.groups), selected, NextSemester)
    ensures s.years == old(s.years) && s.semesters == old(s.semesters) && s.planSubjects == old(s.planSubjects)
  {
    s.groups := ForEachSelected(s.groups, selected, NextSemester);
  }

  /** Raising one group raises the sum by one. */
  lemma {:induction false} SemesterSumUpdate(groups: seq<Group>, i: nat)
    requires i < |groups|
    ensures SemesterSum(groups[i := NextSemester(groups[i])]) == SemesterSum(groups) + 1
  {
    var n := |groups| - 1;
    var u := groups[i := NextSemester(groups[i])];
    if i == n {
      assert u[..n] == groups[..n];
    } else {
      SemesterSumUpdate(groups[..n], i);
      assert u[..n] == groups[..n][i := NextSemester(groups[..n][i])];
    }
  }

  /** Every selected group is one semester further, so together the
      groups gain exactly as many semesters as were selected. */
  lemma {:induction false} IncreaseSemesterTotal(groups: seq<Group>, selected: seq<nat>)
    requires Selection(|groups|, selected)
    ensures SemesterSum(Updated(groups, selected, NextSemester)) == SemesterSum(groups) + |selected|
    decreases |selected|
  {
    if selected == [] {
      assert Updated(groups, selected, NextSemester) == groups;
    } else {
      var n := |selected| - 1;
      var last := selected[n];
      var init := selected[..n];
      IncreaseSemesterTotal(groups, init);
      var before := Updated(groups, init, NextSemester);
      assert last !in init;
      SemesterSumUpdate(before, last);
      assert Updated(groups, selected, NextSemester) == before[last := NextSemester(before[last])] by {
        forall j | 0 <= j < |groups|
          ensures Updated(groups, selected, NextSemester)[j] == before[last := NextSemester(before[last])][j]
        {
          assert j in selected <==> j in init || j == last;
        }
      }
    }
  }

  // -----------------------------------------------------------------------
  // Plan subjects

  /** The copy `copy_to_next_semester` creates: the next semester, the
      same plan, subject, hours, credits, control form and optional flag. */
  function NextSemesterCopy(p: PlanSubject): (c: PlanSubject)
    ensures c.semester == p.semester + 1
    ensures c.(semester := p.semester) == p
  {
    p.(semester := p.semester + 1)
  }

  predicate SameSlot(a: PlanSubject, b: PlanSubject) {
    a.plan == b.plan && a.subject == b.subject && a.semester == b.semester
  }

  /** The unique-together rule of plan subjects. */
  predicate SlotTaken(rows: seq<PlanSubject>, p: PlanSubject) {
    exists i :: 0 <= i < |rows| && SameSlot(rows[i], p)
  }

  function Copies(rows: seq<PlanSubject>, selected: seq<nat>): (cs: seq<PlanSubject>)
    requires forall k :: 0 <= k < |selected| ==> selected[k] < |rows|
    ensures |cs| == |selected|
    ensures forall k :: 0 <= k < |selected| ==> cs[k] == NextSemesterCopy(rows[selected[k]])
  {
    if selected == [] then []
    else Copies(rows, selected[..|selected| - 1]) + [NextSemesterCopy(rows[selected[|selected| - 1]])]
  }

  /** `AcademicPlanSubjectAdmin.copy_to_next_semester`: one `create` per
      selected row. A copy whose plan, subject and semester already exist
      breaks the unique-together rule; the database refuses it and the
      action stops there with the copies made so far kept, which `failedAt`
      reports. */
  method CopyToNextSemester(s: Structure, selected: seq<nat>) returns (failedAt: Option<nat>)
    requires forall k :: 0 <= k < |selected| ==> selected[k] < |s.planSubjects|
    modifies s
    ensures failedAt.None? ==> s.planSubjects == old(s.planSubjects) + Copies(old(s.planSubjects), selected)
    ensures failedAt.Some? ==>
      var k := failedAt.value;
      k < |selected| &&
      s.planSubjects == old(s.planSubjects) + Copies(old(s.planSubjects), selected[..k]) &&
      SlotTaken(s.planSubjects, NextSemesterCopy(old(s.planSubjects)[selected[k]]))
    ensures forall i :: 0 <= i < |s.planSubjects| ==> i < |old(s.planSubjects)| || s.planSubjects[i].semester >= 1
    ensures s.years == old(s.years) && s.semesters == old(s.semesters) && s.groups == old(s.groups)
  {
    var rows := s.planSubjects;
    var k := 0;
    failedAt := None;
    while k < |selected|
      invariant 0 <= k <= |selected|
      invariant s.planSubjects == rows + Copies(rows, selected[..k])
      invariant s.years == old(s.years) && s.semesters == old(s.semesters) && s.groups == old(s.groups)
    {
      var copy := NextSemesterCopy(rows[selected[k]]);
      var taken := false;
      var j := 0;
      while j < |s.planSubjects| && !taken
        invariant 0 <= j <= |s.planSubjects|
        invariant taken ==> SlotTaken(s.planSubjects, copy)
        invariant !taken ==> forall i :: 0 <= i < j ==> !SameSlot(s.planSubjects[i], copy)
      {
        taken := SameSlot(s.planSubjects[j], copy);
        j := j + 1;
      }
      if taken {
        failedAt := Some(k);
        return;
      }
      s.planSubjects := s.planSubjects + [copy];
      assert selected[..k + 1][..k] == selected[..k];
      k := k + 1;
    }
    assert selected[..k] == selected;
  }

  // -----------------------------------------------------------------------
  // Holidays

  /** `HolidayAdmin.duration_days`: the end day counts too. */
  function DurationDays(h: Schedule.Holiday): int {
    h.end - h.start + 1
  }

  /** The days from `from` to `to`, in order. */
  function DayRange(from: int, to: int): (ds: seq<int>)
    ensures |ds| == if to < from then 0 else to - from + 1
    ensures forall d :: d in ds <==> from <= d <= to
    decreases if to < from then 0 else to - from + 1
  {
    if to < from then [] else DayRange(from, to - 1) + [to]
  }

  /** The duration is the number of days of the holiday, and those are
      the days on which the timetable treats the holiday as a day off. */
  lemma DurationCountsDaysOff(h: Schedule.Holiday)
    requires h.start <= h.end
    ensures |DayRange(h.start, h.end)| == DurationDays(h)
    ensures forall d :: Schedule.InHoliday([h], d) <==> d in DayRange(h.start, h.end)
  {
    forall d | h.start <= d <= h.end ensures Schedule.InHoliday([h], d) {
      assert [h][0] == h;
    }
  }
}
