/** The timetable (`schedule` application models): weekly templates and
    their items, dated classes, changes to classes, consultations and
    exams, the validation in their `clean` methods, and the generation of
    dated classes from a template item. Dates are day numbers with day 0 a
    Monday; times of day are hours and minutes. */
module Schedule {
  import opened Common

  // -----------------------------------------------------------------------
  // Times of day and intervals

  datatype Time = Time(hour: nat, minute: nat)

  predicate ValidTime(t: Time) {
    t.hour < 24 && t.minute < 60
  }

  function MinuteOfDay(t: Time): nat {
    t.hour * 60 + t.minute
  }

  /** The order of `datetime.time` values, seconds left out. */
  predicate Before(a: Time, b: Time) {
    a.hour < b.hour || (a.hour == b.hour && a.minute < b.minute)
  }

  /** Comparing times is comparing their minutes since midnight. */
  lemma BeforeIsMinuteOrder(a: Time, b: Time)
    requires ValidTime(a) && ValidTime(b)
    ensures Before(a, b) <==> MinuteOfDay(a) < MinuteOfDay(b)
  {
    MulMono(a.hour + 1, b.hour, 60);
    MulMono(b.hour + 1, a.hour, 60);
  }

  /** The first check of `TimeSlot.clean`, `ConsultationSchedule.clean`
      and `ExamSchedule.clean`: with both times given, the start must come
      before the end. */
  predicate TimesRejected(start: Option<Time>, end: Option<Time>) {
    start.Some? && end.Some? && !Before(start.value, end.value)
  }

  /** The strict overlap of two time ranges used by the consultation and
      exam checks. */
  predicate Overlaps(s1: Time, e1: Time, s2: Time, e2: Time) {
    Before(s1, e2) && Before(s2, e1)
  }

  /** Two ranges overlap exactly when the later start comes before the
      earlier end, so back-to-back ranges never do. */
  lemma OverlapsMeansCommonMinutes(s1: Time, e1: Time, s2: Time, e2: Time)
    requires ValidTime(s1) && ValidTime(e1) && ValidTime(s2) && ValidTime(e2)
    ensures Before(s1, e1) && Before(s2, e2) ==>
      (Overlaps(s1, e1, s2, e2) <==>
       Max(MinuteOfDay(s1), MinuteOfDay(s2)) < MinOf(MinuteOfDay(e1), MinuteOfDay(e2)))
    ensures !Overlaps(s1, e1, e1, e2)
    ensures Overlaps(s1, e1, s2, e2) == Overlaps(s2, e2, s1, e1)
  {
    BeforeIsMinuteOrder(s1, e2);
    BeforeIsMinuteOrder(s2, e1);
    BeforeIsMinuteOrder(s1, e1);
    BeforeIsMinuteOrder(s2, e2);
  }

  function MinOf(a: int, b: int): int { if a <= b then a else b }

  // -----------------------------------------------------------------------
  // Week types

  datatype WeekType = Every | Odd | Even

  /** Whether an item of week type `t` takes place in week number `week`. */
  predicate WeekOccurs(t: WeekType, week: int) {
    t == Every || (t == Odd && week % 2 == 1) || (t == Even && week % 2 == 0)
  }

  /** The week-type rule of the conflict checks: a weekly entry clashes
      with anything, odd and even entries only with a weekly entry or one of
      their own type. */
  predicate WeekTypesClash(incoming: WeekType, existing: WeekType) {
    if incoming == Every then true
    else existing == Every || existing == incoming
  }

  /** Two week types clash exactly when there is a week in which both take
      place; types that do not clash never meet. */
  lemma WeekTypesClashShareWeek(a: WeekType, b: WeekType)
    ensures WeekTypesClash(a, b) == WeekTypesClash(b, a)
    ensures WeekTypesClash(a, b) <==>
      (WeekOccurs(a, 1) && WeekOccurs(b, 1)) || (WeekOccurs(a, 2) && WeekOccurs(b, 2))
    ensures !WeekTypesClash(a, b) ==> forall week :: !(WeekOccurs(a, week) && WeekOccurs(b, week))
  {
  }

  // -----------------------------------------------------------------------
  // Weekly template items

  datatype ScheduleItem = ScheduleItem(
    id: int,
    template: int,
    subject: int,
    teacher: int,
    room: int,
    timeSlot: int,
    weekday: nat,
    weekType: WeekType,
    comment: string)

  datatype Conflict = BadTimes | RoomTaken | TeacherBusy | OutsideSession

  predicate ItemRoomClash(incoming: ScheduleItem, other: ScheduleItem) {
    other.template == incoming.template && other.room == incoming.room &&
    other.timeSlot == incoming.timeSlot && other.weekday == incoming.weekday &&
    WeekTypesClash(incoming.weekType, other.weekType)
  }

  predicate ItemTeacherClash(incoming: ScheduleItem, other: ScheduleItem) {
    other.template == incoming.template && other.teacher == incoming.teacher &&
    other.timeSlot == incoming.timeSlot && other.weekday == incoming.weekday &&
    WeekTypesClash(incoming.weekType, other.weekType)
  }

  /** `ScheduleItem.clean` for a new item: the room is checked first, then
      the teacher. */
  function ItemClean(incoming: ScheduleItem, existing: seq<ScheduleItem>): Option<Conflict> {
    if exists i :: 0 <= i < |existing| && ItemRoomClash(incoming, existing[i]) then Some(RoomTaken)
    else if exists i :: 0 <= i < |existing| && ItemTeacherClash(incoming, existing[i]) then Some(TeacherBusy)
    else None
  }

  /** Same template, slot and weekday, and the same room or teacher. */
  predicate SameSlot(incoming: ScheduleItem, other: ScheduleItem) {
    other.template == incoming.template && other.timeSlot == incoming.timeSlot &&
    other.weekday == incoming.weekday &&
    (other.room == incoming.room || other.teacher == incoming.teacher)
  }

  /** An accepted item never takes place in the same week as an existing
      item of its template in the same room or with the same teacher, at
      the same slot on the same weekday; a rejected one does. */
  lemma AcceptedItemNeverMeets(incoming: ScheduleItem, existing: seq<ScheduleItem>)
    ensures ItemClean(incoming, existing).None? ==>
      forall i, week :: 0 <= i < |existing| && SameSlot(incoming, existing[i]) ==>
        !(WeekOccurs(incoming.weekType, week) && WeekOccurs(existing[i].weekType, week))
    ensures ItemClean(incoming, existing) == Some(RoomTaken) ==>
      exists i :: 0 <= i < |existing| && ItemRoomClash(incoming, existing[i]) &&
        ((WeekOccurs(incoming.weekType, 1) && WeekOccurs(existing[i].weekType, 1)) ||
         (WeekOccurs(incoming.weekType, 2) && WeekOccurs(existing[i].weekType, 2)))
  {
    forall i | 0 <= i < |existing| {
      WeekTypesClashShareWeek(incoming.weekType, existing[i].weekType);
    }
  }

  // -----------------------------------------------------------------------
  // Dated classes

  datatype ClassStatus = Scheduled | Canceled | Rescheduled | Completed

  /** A dated class (`Class`). */
  datatype Lesson = Lesson(
    item: Option<int>,
    subject: int,
    teacher: int,
    room: int,
    timeSlot: int,
    date: int,
    status: ClassStatus,
    topic: string,
    description: string,
    cancellationReason: string)

  predicate LessonRoomClash(incoming: Lesson, other: Lesson) {
    other.date == incoming.date && other.timeSlot == incoming.timeSlot &&
    other.room == incoming.room && other.status != Canceled
  }

  predicate LessonTeacherClash(incoming: Lesson, other: Lesson) {
    other.date == incoming.date && other.timeSlot == incoming.timeSlot &&
    other.teacher == incoming.teacher && other.status != Canceled
  }

  /** `Class.clean` for a new class: a class that is not canceled blocks
      its room, then its teacher, at its date and slot. */
  function LessonClean(incoming: Lesson, existing: seq<Lesson>): Option<Conflict> {
    if exists i :: 0 <= i < |existing| && LessonRoomClash(incoming, existing[i]) then Some(RoomTaken)
    else if exists i :: 0 <= i < |existing| && LessonTeacherClash(incoming, existing[i]) then Some(TeacherBusy)
    else None
  }

  /** No two classes that are not canceled share a room, or a teacher, at
      the same date and slot. */
  predicate NoDoubleBooking(lessons: seq<Lesson>) {
    forall i, j :: 0 <= i < j < |lessons| && lessons[i].status != Canceled ==>
      !LessonRoomClash(lessons[i], lessons[j]) && !LessonTeacherClash(lessons[i], lessons[j])
  }

  /** Adding only classes that pass `Class.clean` keeps every room and
      every teacher booked at most once per date and slot. */
  lemma AcceptedLessonKeepsBookings(existing: seq<Lesson>, incoming: Lesson)
    requires NoDoubleBooking(existing)
    requires LessonClean(incoming, existing).None?
    ensures NoDoubleBooking(existing + [incoming])
  {
    var all := existing + [incoming];
    forall i, j | 0 <= i < j < |all| && all[i].status != Canceled
      ensures !LessonRoomClash(all[i], all[j]) && !LessonTeacherClash(all[i], all[j])
    {
      if j == |existing| {
        assert !LessonRoomClash(incoming, existing[i]);
        assert !LessonTeacherClash(incoming, existing[i]);
      }
    }
  }

  // -----------------------------------------------------------------------
  // Changes to a class (`ScheduleChange.save`)

  datatype ChangeType = Cancel | Reschedule | RoomChange | TeacherChange | OtherChange

  /** The class after a change is saved: cancel and reschedule set the
      status and record the description as the reason unless the class is
      already in that status; the other change types leave it alone. */
  function AfterChange(l: Lesson, change: ChangeType, description: string): Lesson {
    if change == Cancel && l.status != Canceled then
      l.(status := Canceled, cancellationReason := description)
    else if change == Reschedule && l.status != Rescheduled then
      l.(status := Rescheduled, cancellationReason := description)
    else l
  }

  /** Saving the same change twice is saving it once; a cancel or a
      reschedule always ends in its status, and nothing but the status and
      the reason ever changes. */
  lemma AfterChangeIdempotent(l: Lesson, change: ChangeType, description: string)
    ensures AfterChange(AfterChange(l, change, description), change, description) ==
      AfterChange(l, change, description)
    ensures change == Cancel ==> AfterChange(l, change, description).status == Canceled
    ensures change == Reschedule ==> AfterChange(l, change, description).status == Rescheduled
    ensures AfterChange(l, change, description).(status := l.status, cancellationReason := l.cancellationReason) == l
  {
  }

  // -----------------------------------------------------------------------
  // Consultations

  datatype Consultation = Consultation(
    teacher: int,
    semester: int,
    room: int,
    weekday: nat,
    start: Time,
    end: Time,
    weekType: WeekType)

  predicate ConsultationRoomClash(incoming: Consultation, other: Consultation) {
    other.room == incoming.room && other.weekday == incoming.weekday &&
    other.semester == incoming.semester &&
    Overlaps(other.start, other.end, incoming.start, incoming.end) &&
    WeekTypesClash(incoming.weekType, other.weekType)
  }

  predicate ConsultationTeacherClash(incoming: Consultation, other: Consultation) {
    other.teacher == incoming.teacher && other.weekday == incoming.weekday &&
    other.semester == incoming.semester &&
    Overlaps(other.start, other.end, incoming.start, incoming.end) &&
    WeekTypesClash(incoming.weekType, other.weekType)
  }

  /** `ConsultationSchedule.clean` for a new consultation. */
  function ConsultationClean(incoming: Consultation, existing: seq<Consultation>): Option<Conflict> {
    if TimesRejected(Some(incoming.start), Some(incoming.end)) then Some(BadTimes)
    else if exists i :: 0 <= i < |existing| && ConsultationRoomClash(incoming, existing[i]) then Some(RoomTaken)
    else if exists i :: 0 <= i < |existing| && ConsultationTeacherClash(incoming, existing[i]) then Some(TeacherBusy)
    else None
  }

  /** A consultation ending when another one begins in the same room does
      not clash with it, and an accepted consultation has its start before
      its end. */
  lemma BackToBackConsultations(incoming: Consultation, other: Consultation)
    requires other.start == incoming.end || other.end == incoming.start
    requires ValidTime(incoming.start) && ValidTime(incoming.end)
    requires ValidTime(other.start) && ValidTime(other.end)
    ensures ConsultationClean(incoming, [other]) != Some(RoomTaken)
    ensures ConsultationClean(incoming, [other]).None? ==> Before(incoming.start, incoming.end)
  {
    OverlapsMeansCommonMinutes(other.start, other.end, incoming.start, incoming.end);
    BeforeIsMinuteOrder(incoming.start, incoming.end);
    BeforeIsMinuteOrder(other.start, other.end);
  }

  /** Same semester and weekday, and the same room or teacher. */
  predicate SameRoomOrTeacher(incoming: Consultation, other: Consultation) {
    other.semester == incoming.semester && other.weekday == incoming.weekday &&
    (other.room == incoming.room || other.teacher == incoming.teacher)
  }

  /** An accepted consultation starts before it ends and, in any week in
      which both take place, never overlaps an existing consultation of its
      semester and weekday in its room or with its teacher; with valid times
      they share no minute. */
  lemma AcceptedConsultationMeetsNone(incoming: Consultation, existing: seq<Consultation>, week: int)
    requires ConsultationClean(incoming, existing).None?
    ensures Before(incoming.start, incoming.end)
    ensures forall i :: (0 <= i < |existing| && SameRoomOrTeacher(incoming, existing[i]) &&
                         WeekOccurs(incoming.weekType, week) && WeekOccurs(existing[i].weekType, week)) ==>
      !Overlaps(existing[i].start, existing[i].end, incoming.start, incoming.end)
    ensures ValidTime(incoming.start) && ValidTime(incoming.end) ==>
      forall i :: (0 <= i < |existing| && SameRoomOrTeacher(incoming, existing[i]) &&
                   WeekOccurs(incoming.weekType, week) && WeekOccurs(existing[i].weekType, week) &&
                   ValidTime(existing[i].start) && ValidTime(existing[i].end) &&
                   Before(existing[i].start, existing[i].end)) ==>
        MinOf(MinuteOfDay(existing[i].end), MinuteOfDay(incoming.end)) <=
        Max(MinuteOfDay(existing[i].start), MinuteOfDay(incoming.start))
  {
    forall i | 0 <= i < |existing| && SameRoomOrTeacher(incoming, existing[i]) &&
      WeekOccurs(incoming.weekType, week) && WeekOccurs(existing[i].weekType, week)
      ensures !Overlaps(existing[i].start, existing[i].end, incoming.start, incoming.end)
    {
      WeekTypesClashShareWeek(incoming.weekType, existing[i].weekType);
      assert WeekTypesClash(incoming.weekType, existing[i].weekType);
      assert !ConsultationRoomClash(incoming, existing[i]) && !ConsultationTeacherClash(incoming, existing[i]);
    }
    if ValidTime(incoming.start) && ValidTime(incoming.end) {
      forall i | 0 <= i < |existing| && SameRoomOrTeacher(incoming, existing[i]) &&
        WeekOccurs(incoming.weekType, week) && WeekOccurs(existing[i].weekType, week) &&
        ValidTime(existing[i].start) && ValidTime(existing[i].end) &&
        Before(existing[i].start, existing[i].end)
        ensures MinOf(MinuteOfDay(existing[i].end), MinuteOfDay(incoming.end)) <=
          Max(MinuteOfDay(existing[i].start), MinuteOfDay(incoming.start))
      {
        OverlapsMeansCommonMinutes(existing[i].start, existing[i].end, incoming.start, incoming.end);
      }
    }
  }

  // -----------------------------------------------------------------------
  // Exams

  datatype ExamType = Exam | Credit | CreditGrade | PreExamConsultation

  datatype ExamEntry = ExamEntry(
    subject: int,
    teacher: int,
    room: int,
    date: int,
    start: Time,
    end: Time,
    examType: ExamType,
    status: ClassStatus)

  /** The session window of `ExamSchedule.clean`: an exam must fall within
      the exam period, while a consultation may also come up to seven days
      before it, and is never refused for coming after it. */
  predicate OutsideExamWindow(examType: ExamType, date: int, examStart: int, examEnd: int) {
    !(examStart <= date <= examEnd) &&
    (examType != PreExamConsultation || date < examStart - 7)
  }

  lemma ExamWindow(examType: ExamType, date: int, examStart: int, examEnd: int)
    ensures examType != PreExamConsultation ==>
      (OutsideExamWindow(examType, date, examStart, examEnd) <==> !(examStart <= date <= examEnd))
    ensures examType == PreExamConsultation && examStart <= examEnd ==>
      (OutsideExamWindow(examType, date, examStart, examEnd) <==> date < examStart - 7)
  {
  }

  predicate ExamBlocks(other: ExamEntry, incoming: ExamEntry) {
    other.date == incoming.date && other.status != Canceled && other.status != Rescheduled &&
    Overlaps(other.start, other.end, incoming.start, incoming.end)
  }

  predicate ExamRoomBlocks(other: ExamEntry, incoming: ExamEntry) {
    other.room == incoming.room && ExamBlocks(other, incoming)
  }

  predicate ExamTeacherBlocks(other: ExamEntry, incoming: ExamEntry) {
    other.teacher == incoming.teacher && ExamBlocks(other, incoming)
  }

  /** `ExamSchedule.clean` for a new exam: times, then the session window,
      then the room, then the teacher; canceled and rescheduled exams block
      nothing. */
  function ExamClean(incoming: ExamEntry, examStart: int, examEnd: int, existing: seq<ExamEntry>): Option<Conflict> {
    if TimesRejected(Some(incoming.start), Some(incoming.end)) then Some(BadTimes)
    else if OutsideExamWindow(incoming.examType, incoming.date, examStart, examEnd) then Some(OutsideSession)
    else if exists i :: 0 <= i < |existing| && ExamRoomBlocks(existing[i], incoming) then Some(RoomTaken)
    else if exists i :: 0 <= i < |existing| && ExamTeacherBlocks(existing[i], incoming) then Some(TeacherBusy)
    else None
  }

  /** An active exam (neither canceled nor rescheduled) in the same room
      or with the same teacher on the same day. */
  predicate SharesRoomOrTeacher(other: ExamEntry, incoming: ExamEntry) {
    other.status != Canceled && other.status != Rescheduled && other.date == incoming.date &&
    (other.room == incoming.room || other.teacher == incoming.teacher)
  }

  /** An accepted exam starts before it ends, lies in the session or is a
      consultation at most a week before it, and shares no minute with any
      active exam of its day in its room or with its teacher; a refusal for
      the room names such an exam. */
  lemma AcceptedExamFits(incoming: ExamEntry, examStart: int, examEnd: int, existing: seq<ExamEntry>)
    ensures ExamClean(incoming, examStart, examEnd, existing).None? ==>
      Before(incoming.start, incoming.end) &&
      (examStart <= incoming.date <= examEnd ||
       (incoming.examType == PreExamConsultation && incoming.date >= examStart - 7))
    ensures ExamClean(incoming, examStart, examEnd, existing).None? ==>
      forall i :: 0 <= i < |existing| && SharesRoomOrTeacher(existing[i], incoming) ==>
        !Overlaps(existing[i].start, existing[i].end, incoming.start, incoming.end)
    ensures (ExamClean(incoming, examStart, examEnd, existing).None? &&
             ValidTime(incoming.start) && ValidTime(incoming.end)) ==>
      forall i :: (0 <= i < |existing| && SharesRoomOrTeacher(existing[i], incoming) &&
                   ValidTime(existing[i].start) && ValidTime(existing[i].end) &&
                   Before(existing[i].start, existing[i].end)) ==>
        MinOf(MinuteOfDay(existing[i].end), MinuteOfDay(incoming.end)) <=
        Max(MinuteOfDay(existing[i].start), MinuteOfDay(incoming.start))
    ensures ExamClean(incoming, examStart, examEnd, existing) == Some(RoomTaken) ==>
      exists i :: 0 <= i < |existing| && SharesRoomOrTeacher(existing[i], incoming) &&
        existing[i].room == incoming.room &&
        Overlaps(existing[i].start, existing[i].end, incoming.start, incoming.end)
  {
    if ExamClean(incoming, examStart, examEnd, existing).None? &&
      ValidTime(incoming.start) && ValidTime(incoming.end)
    {
      forall i | 0 <= i < |existing| && SharesRoomOrTeacher(existing[i], incoming) &&
        ValidTime(existing[i].start) && ValidTime(existing[i].end) &&
        Before(existing[i].start, existing[i].end)
        ensures MinOf(MinuteOfDay(existing[i].end), MinuteOfDay(incoming.end)) <=
          Max(MinuteOfDay(existing[i].start), MinuteOfDay(incoming.start))
      {
        assert !ExamRoomBlocks(existing[i], incoming) && !ExamTeacherBlocks(existing[i], incoming);
        OverlapsMeansCommonMinutes(existing[i].start, existing[i].end, incoming.start, incoming.end);
      }
    }
  }

  // -----------------------------------------------------------------------
  // Attendance tracking

  /** `ClassAttendanceTracking.attendance_percentage`. */
  function AttendancePercentage(present: nat, count: nat): real {
    if count > 0 then (present as real / count as real) * 100.0 else 0.0
  }

  lemma AttendancePercentageRange(present: nat, count: nat)
    requires present <= count
    ensures 0.0 <= AttendancePercentage(present, count) <= 100.0
    ensures AttendancePercentage(present, count) == 100.0 <==> count > 0 && present == count
  {
    if count > 0 {
      Ratio(present, count);
    }
  }

  // -----------------------------------------------------------------------
  // Generating dated classes from an item

  datatype Holiday = Holiday(start: int, end: int)

  /** The class period of an item's semester and its academic year's
      holidays. */
  datatype Term = Term(classStart: int, classEnd: int, holidays: seq<Holiday>)

  predicate InHoliday(holidays: seq<Holiday>, day: int) {
    exists i :: 0 <= i < |holidays| && holidays[i].start <= day <= holidays[i].end
  }

  /** The loop over holidays, stopping at the first one that covers `day`. */
  method IsHoliday(holidays: seq<Holiday>, day: int) returns (found: bool)
    ensures found == InHoliday(holidays, day)
  {
    found := false;
    var i := 0;
    while i < |holidays| && !found
      invariant 0 <= i <= |holidays|
      invariant found ==> InHoliday(holidays, day)
      invariant !found ==> forall j :: 0 <= j < i ==> !(holidays[j].start <= day <= holidays[j].end)
    {
      if holidays[i].start <= day <= holidays[i].end {
        found := true;
      }
      i := i + 1;
    }
  }

  /** The week of the semester `day` falls in, counting from 1. */
  function WeekNumber(term: Term, day: int): int {
    (day - term.classStart) / 7 + 1
  }

  /** The days on which an item takes place: its weekday, a week of its
      parity, and no holiday. */
  predicate ClassDay(item: ScheduleItem, term: Term, day: int) {
    Weekday(day) == item.weekday && WeekOccurs(item.weekType, WeekNumber(term, day)) &&
    !InHoliday(term.holidays, day)
  }

  /** The class days from `from` to `to`, in order. */
  function ClassDays(item: ScheduleItem, term: Term, from: int, to: int): seq<int>
    decreases if to < from then 0 else to - from + 1
  {
    if to < from then []
    else ClassDays(item, term, from, to - 1) + (if ClassDay(item, term, to) then [to] else [])
  }

  /** The class days are exactly the days of the range that are class days,
      in increasing order. */
  lemma {:induction false} ClassDaysExact(item: ScheduleItem, term: Term, from: int, to: int)
    ensures forall d :: d in ClassDays(item, term, from, to) <==> from <= d <= to && ClassDay(item, term, d)
    ensures forall i, j :: 0 <= i < j < |ClassDays(item, term, from, to)| ==>
      ClassDays(item, term, from, to)[i] < ClassDays(item, term, from, to)[j]
    decreases if to < from then 0 else to - from + 1
  {
    if to >= from {
      ClassDaysExact(item, term, from, to - 1);
      var init := ClassDays(item, term, from, to - 1);
      var tail := if ClassDay(item, term, to) then [to] else [];
      assert ClassDays(item, term, from, to) == init + tail;
      forall i | 0 <= i < |init|
        ensures init[i] <= to - 1
      {
        assert init[i] in init;
      }
    }
  }

  /** The first day generation considers: the class start, or today if
      later. */
  function GenerationStart(term: Term, today: int): int {
    Max(term.classStart, today)
  }

  /** The class a generation run creates for `item` on `day`. */
  function NewLesson(item: ScheduleItem, day: int): Lesson {
    Lesson(Some(item.id), item.subject, item.teacher, item.room, item.timeSlot, day, Scheduled, "", "", "")
  }

  function LessonsOn(item: ScheduleItem, days: seq<int>): (ls: seq<Lesson>)
    ensures |ls| == |days|
    ensures forall i :: 0 <= i < |days| ==> ls[i] == NewLesson(item, days[i])
  {
    if days == [] then [] else LessonsOn(item, days[..|days| - 1]) + [NewLesson(item, days[|days| - 1])]
  }

  /** One more day at the end adds its class at the end. */
  lemma LessonsOnAppend(item: ScheduleItem, days: seq<int>, day: int)
    ensures LessonsOn(item, days + [day]) == LessonsOn(item, days) + [NewLesson(item, day)]
  {
    assert (days + [day])[..|days|] == days;
  }

  /** Extending the range by one day adds that day when it is a class
      day. */
  lemma ClassDaysStep(item: ScheduleItem, term: Term, from: int, day: int)
    requires from <= day
    ensures LessonsOn(item, ClassDays(item, term, from, day)) ==
      LessonsOn(item, ClassDays(item, term, from, day - 1)) +
      (if ClassDay(item, term, day) then [NewLesson(item, day)] else [])
  {
    var before := ClassDays(item, term, from, day - 1);
    if ClassDay(item, term, day) {
      LessonsOnAppend(item, before, day);
    } else {
      assert ClassDays(item, term, from, day) == before + [];
      assert before + [] == before;
    }
  }

  /** The loop of `create_classes_from_template`: a class on every class
      day from `start` to the end of the class period. */
  method ClassesFromTemplate(item: ScheduleItem, term: Term, start: int) returns (added: seq<Lesson>)
    ensures added == LessonsOn(item, ClassDays(item, term, start, term.classEnd))
  {
    var day := start;
    added := [];
    while day <= term.classEnd
      invariant start <= day && (day <= term.classEnd + 1 || day == start)
      invariant added == LessonsOn(item, ClassDays(item, term, start, day - 1))
      decreases term.classEnd - day
    {
      ClassDaysStep(item, term, start, day);
      if Weekday(day) == item.weekday {
        var week := WeekNumber(term, day);
        if WeekOccurs(item.weekType, week) {
          var holiday := IsHoliday(term.holidays, day);
          if !holiday {
            added := added + [NewLesson(item, day)];
          }
        }
      }
      day := day + 1;
    }
    assert ClassDays(item, term, start, day - 1) == ClassDays(item, term, start, term.classEnd);
  }

  /** A numbered class period of the day (`TimeSlot`). */
  datatype TimeSlot = TimeSlot(number: nat, start: Time, end: Time)

  /** The conduct record of one class (`ClassAttendanceTracking`); `lesson`
      is the position of its class in the class table. */
  datatype Tracking = Tracking(
    lesson: nat,
    isConducted: bool,
    actualStart: Option<Time>,
    actualEnd: Option<Time>)

  /** The rows `create_class_attendance_tracking` creates for the classes
      at positions `first` to `first + count - 1`, one per class in the
      order the classes were created: not yet conducted, with no actual
      times. */
  function NewTrackings(first: nat, count: nat): seq<Tracking>
  {
    seq(count, i requires 0 <= i < count => Tracking(first + i, false, None, None))
  }

  lemma NewTrackingsAppend(first: nat, m: nat, n: nat)
    ensures NewTrackings(first, m) + NewTrackings(first + m, n) == NewTrackings(first, m + n)
  {
    var a, b := NewTrackings(first, m) + NewTrackings(first + m, n), NewTrackings(first, m + n);
    assert |a| == |b|;
    forall i | 0 <= i < |a| ensures a[i] == b[i] {
      if i >= m {
        assert a[i] == NewTrackings(first + m, n)[i - m];
      }
    }
  }

  /** The tracking of class `i` is a row of `trackings`. */
  predicate HasTracking(trackings: seq<Tracking>, i: nat) {
    exists j :: 0 <= j < |trackings| && trackings[j].lesson == i
  }

  /** `class_instance` is a one-to-one link: every tracking names a class,
      and no two name the same one. */
  predicate OneTrackingPerClass(classes: seq<Lesson>, trackings: seq<Tracking>) {
    (forall j :: 0 <= j < |trackings| ==> trackings[j].lesson < |classes|) &&
    (forall i, j :: 0 <= i < j < |trackings| ==> trackings[i].lesson != trackings[j].lesson)
  }

  /** The receiver keeps the link one-to-one, and every class it sees
      created gets its tracking, not yet conducted. */
  lemma NewTrackingsKeepOnePerClass(classes: seq<Lesson>, trackings: seq<Tracking>, added: seq<Lesson>)
    requires OneTrackingPerClass(classes, trackings)
    ensures OneTrackingPerClass(classes + added, trackings + NewTrackings(|classes|, |added|))
    ensures forall i :: |classes| <= i < |classes| + |added| ==>
      HasTracking(trackings + NewTrackings(|classes|, |added|), i)
    ensures forall j :: |trackings| <= j < |trackings| + |added| ==>
      !(trackings + NewTrackings(|classes|, |added|))[j].isConducted
  {
    var ts := trackings + NewTrackings(|classes|, |added|);
    forall i | |classes| <= i < |classes| + |added| ensures HasTracking(ts, i) {
      assert ts[|trackings| + (i - |classes|)].lesson == i;
    }
  }

  /** A generation log entry (`DailyScheduleGeneration`): the day and the
      template. */
  datatype Generation = Generation(date: int, template: int)

  /** The tables of the timetable. */
  class Timetable {
    var items: seq<ScheduleItem>
    var classes: seq<Lesson>
    var generations: seq<Generation>
    var trackings: seq<Tracking>
    var timeSlots: map<int, TimeSlot>

    constructor ()
      ensures items == [] && classes == [] && generations == [] && trackings == [] && timeSlots == map[]
    {
      items := [];
      classes := [];
      generations := [];
      trackings := [];
      timeSlots := map[];
    }

    /** `ScheduleChange.save` for a change to class `i`. */
    method SaveChange(i: nat, change: ChangeType, description: string)
      requires i < |classes|
      modifies this
      ensures classes == old(classes)[i := AfterChange(old(classes)[i], change, description)]
      ensures items == old(items) && generations == old(generations)
      ensures trackings == old(trackings) && timeSlots == old(timeSlots)
    {
      classes := classes[i := AfterChange(classes[i], change, description)];
    }

    /** `Class.objects.create` for each class of `added` in turn; the
        `post_save` receiver `create_class_attendance_tracking` gives each
        new class its tracking. */
    method AddClasses(added: seq<Lesson>)
      modifies this
      ensures classes == old(classes) + added
      ensures trackings == old(trackings) + NewTrackings(|old(classes)|, |added|)
      ensures items == old(items) && generations == old(generations) && timeSlots == old(timeSlots)
    {
      trackings := trackings + NewTrackings(|classes|, |added|);
      classes := classes + added;
    }

    /** `create_classes_from_template`: when an item is created, one
        scheduled class on every class day from the generation start to the
        end of the class period, each with its tracking. Unlike the
        `generate_classes` actions, the receiver does not look for classes
        the item already has; the database's unique date, slot and room of
        classes that are not canceled, which would refuse a clash, is not
        part of this model. */
    method CreateClassesFromTemplate(item: ScheduleItem, term: Term, today: int, created: bool)
      modifies this
      ensures created ==>
        classes == old(classes) + LessonsOn(item, ClassDays(item, term, GenerationStart(term, today), term.classEnd))
      ensures !created ==> classes == old(classes)
      ensures trackings == old(trackings) + NewTrackings(|old(classes)|, |classes| - |old(classes)|)
      ensures items == old(items) && generations == old(generations) && timeSlots == old(timeSlots)
    {
      if !created {
        return;
      }
      var added := ClassesFromTemplate(item, term, GenerationStart(term, today));
      AddClasses(added);
    }
  }
}
