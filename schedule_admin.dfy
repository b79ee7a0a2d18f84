/** The timetable admin pages: the slot duration column, copying items and
    classes to the next week, the relative date filter of classes, the
    date of a consultation before an exam, and marking classes as
    conducted or not conducted. */
module ScheduleAdmin {
  import opened Common
  import opened Schedule

  // -----------------------------------------------------------------------
  // `TimeSlotAdmin.duration_display`

  /** The length of a slot in minutes; negative when it ends before it
      starts, which only a slot that bypassed `clean` can do. */
  function SlotMinutes(start: Time, end: Time): int {
    MinuteOfDay(end) - MinuteOfDay(start)
  }

  /** "{minutes} мин." when both times are set, "-" otherwise. */
  function SlotDurationDisplay(start: Option<Time>, end: Option<Time>): string {
    if start.Some? && end.Some? then IntToString(SlotMinutes(start.value, end.value)) + " мин."
    else "-"
  }

  /** The column reads back as its two words, the first of them the number
      of minutes; that number is positive exactly for the slots `clean`
      accepts. */
  lemma SlotDurationReadsBack(start: Option<Time>, end: Option<Time>)
    ensures start.None? || end.None? ==> SlotDurationDisplay(start, end) == "-"
    ensures start.Some? && end.Some? ==>
      var ws := Words(SlotDurationDisplay(start, end));
      |ws| == 2 && ws[1] == "мин." && IsIntText(ws[0]) &&
      ParseInt(ws[0]) == SlotMinutes(start.value, end.value)
    ensures start.Some? && end.Some? && ValidTime(start.value) && ValidTime(end.value) ==>
      (SlotMinutes(start.value, end.value) > 0 <==> !TimesRejected(start, end))
  {
    if start.Some? && end.Some? {
      var n := IntToString(SlotMinutes(start.value, end.value));
      IntToStringReadsBack(SlotMinutes(start.value, end.value));
      assert SlotDurationDisplay(start, end) == Join([n, "мин."], " ");
      WordsOfJoin([n, "мин."]);
      if ValidTime(start.value) && ValidTime(end.value) {
        BeforeIsMinuteOrder(start.value, end.value);
      }
    }
  }

  // -----------------------------------------------------------------------
  // `ScheduleItemAdmin.copy_to_next_week`

  /** Odd and even weeks swap, weekly items stay weekly. */
  function InvertWeek(t: WeekType): (r: WeekType)
    ensures (r == Every) == (t == Every)
  {
    match t
    case Every => Every
    case Odd => Even
    case Even => Odd
  }

  /** The inverted week type takes place exactly in the weeks after those of
      the original, and inverting twice gives the original back. */
  lemma InvertWeekShifts(t: WeekType, week: int)
    ensures WeekOccurs(InvertWeek(t), week + 1) == WeekOccurs(t, week)
    ensures InvertWeek(InvertWeek(t)) == t
  {
    assert (week + 1) % 2 == 1 <==> week % 2 == 0;
  }

  /** The copy of one item: a new id and the inverted week type. */
  function NextWeekItem(item: ScheduleItem, newId: int): ScheduleItem {
    item.(id := newId, weekType := InvertWeek(item.weekType))
  }

  predicate ValidSelection(size: nat, selected: seq<nat>) {
    forall k :: 0 <= k < |selected| ==> selected[k] < size
  }

  /** The copies of the selected items, in the order of the selection;
      `newIds[k]` is the key the database gives the k-th copy. */
  function ItemCopies(items: seq<ScheduleItem>, selected: seq<nat>, newIds: seq<int>): (cs: seq<ScheduleItem>)
    requires ValidSelection(|items|, selected) && |newIds| == |selected|
    ensures |cs| == |selected|
    ensures forall k :: 0 <= k < |selected| ==>
      var item := items[selected[k]];
      cs[k] == NextWeekItem(item, newIds[k]) &&
      cs[k].template == item.template && cs[k].subject == item.subject &&
      cs[k].teacher == item.teacher && cs[k].room == item.room &&
      cs[k].timeSlot == item.timeSlot && cs[k].weekday == item.weekday &&
      cs[k].comment == item.comment && cs[k].id == newIds[k]
  {
    if selected == [] then []
    else
      var n := |selected| - 1;
      ItemCopies(items, selected[..n], newIds[..n]) + [NextWeekItem(items[selected[n]], newIds[n])]
  }

  /** A copy meets in the week after each week its original meets in. */
  lemma ItemCopiesShiftWeeks(items: seq<ScheduleItem>, selected: seq<nat>, newIds: seq<int>, k: nat, week: int)
    requires ValidSelection(|items|, selected) && |newIds| == |selected| && k < |selected|
    ensures WeekOccurs(ItemCopies(items, selected, newIds)[k].weekType, week + 1) ==
      WeekOccurs(items[selected[k]].weekType, week)
  {
    InvertWeekShifts(items[selected[k]].weekType, week);
  }

  /** Same template, room, slot and weekday. */
  predicate SameSlot(a: ScheduleItem, b: ScheduleItem) {
    a.template == b.template && a.room == b.room && a.timeSlot == b.timeSlot && a.weekday == b.weekday
  }

  /** The partial unique constraints `unique_room_timeslot_weekday_every`
      and `unique_room_timeslot_weekday_week_type`: a weekly item clashes
      with a weekly item of the same slot, an odd or even one with an item
      of the same slot and week type. */
  predicate ItemClash(items: seq<ScheduleItem>, c: ScheduleItem) {
    exists j :: 0 <= j < |items| && SameSlot(items[j], c) && items[j].weekType == c.weekType
  }

  /** From the `k`-th selected item on, the first whose copy the
      constraints refuse, the copies before it saved. */
  function ItemClashFrom(items: seq<ScheduleItem>, selected: seq<nat>, newIds: seq<int>, k: nat): (r: Option<nat>)
    requires ValidSelection(|items|, selected) && |newIds| == |selected|
    ensures r.Some? ==> k <= r.value < |selected|
    decreases |selected| - k
  {
    if k >= |selected| then None
    else if ItemClash(items + ItemCopies(items, selected[..k], newIds[..k]), NextWeekItem(items[selected[k]], newIds[k])) then Some(k)
    else ItemClashFrom(items, selected, newIds, k + 1)
  }

  /** The number of copies the action saves. */
  function CopiesSaved(items: seq<ScheduleItem>, selected: seq<nat>, newIds: seq<int>): (n: nat)
    requires ValidSelection(|items|, selected) && |newIds| == |selected|
    ensures n <= |selected|
  {
    var f := ItemClashFrom(items, selected, newIds, 0);
    if f.None? then |selected| else f.value
  }

  /** The classes `create_classes_from_template` creates for each new item
      in turn, each from its template's semester. */
  function ClassesOfCopies(copies: seq<ScheduleItem>, terms: map<int, Term>, today: int): seq<Lesson>
    requires forall c :: c in copies ==> c.template in terms
  {
    if copies == [] then []
    else
      var c := copies[|copies| - 1];
      var term := terms[c.template];
      ClassesOfCopies(copies[..|copies| - 1], terms, today) +
      LessonsOn(c, ClassDays(c, term, GenerationStart(term, today), term.classEnd))
  }

  /** A weekly item can never be copied: its copy has the same slot and is
      weekly too, so the action fails at that item at the latest. */
  lemma {:induction false} WeeklyItemCannotBeCopied(items: seq<ScheduleItem>, selected: seq<nat>, newIds: seq<int>, i: nat, k: nat)
    requires ValidSelection(|items|, selected) && |newIds| == |selected|
    requires i <= k < |selected| && items[selected[k]].weekType == Every
    ensures ItemClashFrom(items, selected, newIds, i).Some?
    ensures ItemClashFrom(items, selected, newIds, i).value <= k
    decreases k - i
  {
    var before := items + ItemCopies(items, selected[..i], newIds[..i]);
    if i == k {
      assert before[selected[k]] == items[selected[k]];
      assert SameSlot(before[selected[k]], NextWeekItem(items[selected[k]], newIds[k]));
    } else if !ItemClash(before, NextWeekItem(items[selected[i]], newIds[i])) {
      WeeklyItemCannotBeCopied(items, selected, newIds, i + 1, k);
    }
  }

  /** The action: a copy of each selected item in turn. The `post_save`
      receiver `create_classes_from_template` gives each copy its classes,
      and each class gets its tracking. The first copy the unique
      constraints refuse ends the action with `IntegrityError`; the copies
      before it stay saved. `terms` gives each template its semester. */
  method CopyItemsToNextWeek(t: Timetable, selected: seq<nat>, newIds: seq<int>, terms: map<int, Term>, today: int)
    returns (failedAt: Option<nat>)
    requires ValidSelection(|t.items|, selected) && |newIds| == |selected|
    requires forall k :: 0 <= k < |selected| ==> t.items[selected[k]].template in terms
    modifies t
    ensures failedAt == ItemClashFrom(old(t.items), selected, newIds, 0)
    ensures var n := CopiesSaved(old(t.items), selected, newIds);
      var copies := ItemCopies(old(t.items), selected[..n], newIds[..n]);
      t.items == old(t.items) + copies &&
      t.classes == old(t.classes) + ClassesOfCopies(copies, terms, today)
    ensures t.trackings == old(t.trackings) + NewTrackings(|old(t.classes)|, |t.classes| - |old(t.classes)|)
    ensures t.generations == old(t.generations) && t.timeSlots == old(t.timeSlots)
  {
    var saved, classes, trackings;
    failedAt, saved, classes, trackings := CopyItemsLoop(t.items, t.classes, t.trackings, selected, newIds, terms, today);
    t.items, t.classes, t.trackings := saved, classes, trackings;
  }

  /** The loop of the action over the tables: each copy and the classes its
      receiver creates, until the constraints refuse a copy. */
  method CopyItemsLoop(items: seq<ScheduleItem>, table: seq<Lesson>, trackings0: seq<Tracking>,
                       selected: seq<nat>, newIds: seq<int>, terms: map<int, Term>, today: int)
    returns (failedAt: Option<nat>, saved: seq<ScheduleItem>, classes: seq<Lesson>, trackings: seq<Tracking>)
    requires ValidSelection(|items|, selected) && |newIds| == |selected|
    requires forall k :: 0 <= k < |selected| ==> items[selected[k]].template in terms
    ensures failedAt == ItemClashFrom(items, selected, newIds, 0)
    ensures var n := CopiesSaved(items, selected, newIds);
      var copies := ItemCopies(items, selected[..n], newIds[..n]);
      saved == items + copies && classes == table + ClassesOfCopies(copies, terms, today)
    ensures trackings == trackings0 + NewTrackings(|table|, |classes| - |table|)
  {
    saved, classes, trackings := items, table, trackings0;
    failedAt := None;
    var k := 0;
    ghost var copies: seq<ScheduleItem> := [];
    CopyLoopStarts(items, table, trackings0, selected, newIds, terms, today);
    while k < |selected|
      invariant 0 <= k <= |selected|
      invariant CopyState(items, table, trackings0, selected, newIds, terms, today, k, copies, saved, classes, trackings)
    {
      var copy := NextWeekItem(items[selected[k]], newIds[k]);
      if ItemClash(saved, copy) {
        failedAt := Some(k);
        CopyLoopFails(items, table, trackings0, selected, newIds, terms, today, k, copies, saved, classes, trackings);
        return;
      }
      saved, classes, trackings := SaveCopy(items, table, trackings0, selected, newIds, terms, today, k, copies, saved, classes, trackings);
      copies := copies + [copy];
      k := k + 1;
    }
    CopyLoopEnds(items, table, trackings0, selected, newIds, terms, today, copies, saved, classes, trackings);
  }

  /** One copy the constraints accept: saved, with the classes its
      receiver creates and their trackings. */
  method SaveCopy(items: seq<ScheduleItem>, table: seq<Lesson>, trackings0: seq<Tracking>,
                  selected: seq<nat>, newIds: seq<int>, terms: map<int, Term>, today: int, k: nat,
                  ghost copies: seq<ScheduleItem>, saved: seq<ScheduleItem>, classes: seq<Lesson>, trackings: seq<Tracking>)
    returns (saved': seq<ScheduleItem>, classes': seq<Lesson>, trackings': seq<Tracking>)
    requires ValidSelection(|items|, selected) && |newIds| == |selected| && k < |selected|
    requires forall i :: 0 <= i < |selected| ==> items[selected[i]].template in terms
    requires CopyState(items, table, trackings0, selected, newIds, terms, today, k, copies, saved, classes, trackings)
    requires !ItemClash(saved, NextWeekItem(items[selected[k]], newIds[k]))
    ensures CopyState(items, table, trackings0, selected, newIds, terms, today, k + 1,
                      copies + [NextWeekItem(items[selected[k]], newIds[k])], saved', classes', trackings')
  {
    var copy := NextWeekItem(items[selected[k]], newIds[k]);
    var term := terms[copy.template];
    var made := ClassesFromTemplate(copy, term, GenerationStart(term, today));
    CopyLoopNext(items, table, trackings0, selected, newIds, terms, today, k, copies, saved, classes, trackings);
    saved', classes', trackings' := saved + [copy], classes + made, trackings + NewTrackings(|classes|, |made|);
  }

  /** The loop's state once the first `k` copies are saved, none refused. */
  predicate CopyState(items: seq<ScheduleItem>, table: seq<Lesson>, trackings0: seq<Tracking>,
                      selected: seq<nat>, newIds: seq<int>, terms: map<int, Term>, today: int, k: nat,
                      copies: seq<ScheduleItem>, saved: seq<ScheduleItem>, classes: seq<Lesson>, trackings: seq<Tracking>)
    requires ValidSelection(|items|, selected) && |newIds| == |selected| && k <= |selected|
  {
    copies == ItemCopies(items, selected[..k], newIds[..k]) &&
    (forall c :: c in copies ==> c.template in terms) &&
    ItemClashFrom(items, selected, newIds, 0) == ItemClashFrom(items, selected, newIds, k) &&
    CopiedUpTo(items, table, trackings0, terms, today, copies, saved, classes, trackings)
  }

  lemma CopyLoopNext(items: seq<ScheduleItem>, table: seq<Lesson>, trackings0: seq<Tracking>,
                     selected: seq<nat>, newIds: seq<int>, terms: map<int, Term>, today: int, k: nat,
                     copies: seq<ScheduleItem>, saved: seq<ScheduleItem>, classes: seq<Lesson>, trackings: seq<Tracking>)
    requires ValidSelection(|items|, selected) && |newIds| == |selected| && k < |selected|
    requires forall i :: 0 <= i < |selected| ==> items[selected[i]].template in terms
    requires CopyState(items, table, trackings0, selected, newIds, terms, today, k, copies, saved, classes, trackings)
    requires !ItemClash(saved, NextWeekItem(items[selected[k]], newIds[k]))
    ensures var c := NextWeekItem(items[selected[k]], newIds[k]);
      var term := terms[c.template];
      var made := LessonsOn(c, ClassDays(c, term, GenerationStart(term, today), term.classEnd));
      CopyState(items, table, trackings0, selected, newIds, terms, today, k + 1,
                copies + [c], saved + [c], classes + made, trackings + NewTrackings(|classes|, |made|))
  {
    var c := NextWeekItem(items[selected[k]], newIds[k]);
    CopyLoopStep(items, selected, newIds, terms, today, k, copies);
    CopyLoopPasses(items, selected, newIds, k);
    CopyLoopStepTables(items, table, trackings0, terms, today, copies, c, saved, classes, trackings);
  }

  /** The tables once `copies` are saved, each with its classes. */
  predicate CopiedUpTo(items: seq<ScheduleItem>, table: seq<Lesson>, trackings0: seq<Tracking>,
                       terms: map<int, Term>, today: int, copies: seq<ScheduleItem>,
                       saved: seq<ScheduleItem>, classes: seq<Lesson>, trackings: seq<Tracking>)
    requires forall c :: c in copies ==> c.template in terms
  {
    saved == items + copies &&
    classes == table + ClassesOfCopies(copies, terms, today) &&
    trackings == trackings0 + NewTrackings(|table|, |classes| - |table|)
  }

  lemma CopyLoopStarts(items: seq<ScheduleItem>, table: seq<Lesson>, trackings0: seq<Tracking>,
                       selected: seq<nat>, newIds: seq<int>, terms: map<int, Term>, today: int)
    requires ValidSelection(|items|, selected) && |newIds| == |selected|
    ensures CopyState(items, table, trackings0, selected, newIds, terms, today, 0, [], items, table, trackings0)
  {
    assert ItemCopies(items, selected[..0], newIds[..0]) == [];
    assert NewTrackings(|table|, 0) == [];
  }

  lemma CopyLoopFails(items: seq<ScheduleItem>, table: seq<Lesson>, trackings0: seq<Tracking>,
                      selected: seq<nat>, newIds: seq<int>, terms: map<int, Term>, today: int, k: nat,
                      copies: seq<ScheduleItem>, saved: seq<ScheduleItem>, classes: seq<Lesson>, trackings: seq<Tracking>)
    requires ValidSelection(|items|, selected) && |newIds| == |selected| && k < |selected|
    requires CopyState(items, table, trackings0, selected, newIds, terms, today, k, copies, saved, classes, trackings)
    requires ItemClash(saved, NextWeekItem(items[selected[k]], newIds[k]))
    ensures ItemClashFrom(items, selected, newIds, 0) == Some(k)
    ensures var n := CopiesSaved(items, selected, newIds);
      var copies := ItemCopies(items, selected[..n], newIds[..n]);
      (forall c :: c in copies ==> c.template in terms) &&
      saved == items + copies && classes == table + ClassesOfCopies(copies, terms, today)
    ensures trackings == trackings0 + NewTrackings(|table|, |classes| - |table|)
  {
  }

  /** One more copy in the list of copies. */
  lemma CopyLoopStep(items: seq<ScheduleItem>, selected: seq<nat>, newIds: seq<int>, terms: map<int, Term>, today: int,
                     k: nat, copies: seq<ScheduleItem>)
    requires ValidSelection(|items|, selected) && |newIds| == |selected| && k < |selected|
    requires forall i :: 0 <= i < |selected| ==> items[selected[i]].template in terms
    requires copies == ItemCopies(items, selected[..k], newIds[..k])
    ensures var c := NextWeekItem(items[selected[k]], newIds[k]);
      copies + [c] == ItemCopies(items, selected[..k + 1], newIds[..k + 1]) &&
      forall x :: x in copies + [c] ==> x.template in terms
  {
    CopyStep(items, selected, newIds, k, terms, today);
  }

  /** A copy the constraints accept does not change where the action
      fails. */
  lemma CopyLoopPasses(items: seq<ScheduleItem>, selected: seq<nat>, newIds: seq<int>, k: nat)
    requires ValidSelection(|items|, selected) && |newIds| == |selected| && k < |selected|
    requires !ItemClash(items + ItemCopies(items, selected[..k], newIds[..k]), NextWeekItem(items[selected[k]], newIds[k]))
    ensures ItemClashFrom(items, selected, newIds, k) == ItemClashFrom(items, selected, newIds, k + 1)
  {
  }

  /** The tables after one more copy and its classes. */
  lemma CopyLoopStepTables(items: seq<ScheduleItem>, table: seq<Lesson>, trackings0: seq<Tracking>,
                           terms: map<int, Term>, today: int, copies: seq<ScheduleItem>, c: ScheduleItem,
                           saved: seq<ScheduleItem>, classes: seq<Lesson>, trackings: seq<Tracking>)
    requires forall x :: x in copies + [c] ==> x.template in terms
    requires CopiedUpTo(items, table, trackings0, terms, today, copies, saved, classes, trackings)
    ensures var term := terms[c.template];
      var made := LessonsOn(c, ClassDays(c, term, GenerationStart(term, today), term.classEnd));
      CopiedUpTo(items, table, trackings0, terms, today, copies + [c],
                 saved + [c], classes + made, trackings + NewTrackings(|classes|, |made|))
  {
    var term := terms[c.template];
    var made := LessonsOn(c, ClassDays(c, term, GenerationStart(term, today), term.classEnd));
    assert (copies + [c])[..|copies|] == copies;
    assert ClassesOfCopies(copies + [c], terms, today) == ClassesOfCopies(copies, terms, today) + made;
    StepTables(table, ClassesOfCopies(copies, terms, today), made, trackings0, trackings);
  }

  lemma CopyLoopEnds(items: seq<ScheduleItem>, table: seq<Lesson>, trackings0: seq<Tracking>,
                     selected: seq<nat>, newIds: seq<int>, terms: map<int, Term>, today: int,
                     copies: seq<ScheduleItem>, saved: seq<ScheduleItem>, classes: seq<Lesson>, trackings: seq<Tracking>)
    requires ValidSelection(|items|, selected) && |newIds| == |selected|
    requires CopyState(items, table, trackings0, selected, newIds, terms, today, |selected|, copies, saved, classes, trackings)
    ensures ItemClashFrom(items, selected, newIds, 0) == None
    ensures var n := CopiesSaved(items, selected, newIds);
      var copies := ItemCopies(items, selected[..n], newIds[..n]);
      (forall c :: c in copies ==> c.template in terms) &&
      saved == items + copies && classes == table + ClassesOfCopies(copies, terms, today)
    ensures trackings == trackings0 + NewTrackings(|table|, |classes| - |table|)
  {
  }

  /** The class and tracking tables after one more item's classes. */
  lemma StepTables(table: seq<Lesson>, sofar: seq<Lesson>, made: seq<Lesson>,
                   trackings0: seq<Tracking>, trackings: seq<Tracking>)
    requires trackings == trackings0 + NewTrackings(|table|, |sofar|)
    ensures (table + sofar) + made == table + (sofar + made)
    ensures trackings + NewTrackings(|table + sofar|, |made|) == trackings0 + NewTrackings(|table|, |sofar| + |made|)
  {
    NewTrackingsAppend(|table|, |sofar|, |made|);
    assert trackings + NewTrackings(|table + sofar|, |made|) ==
      trackings0 + (NewTrackings(|table|, |sofar|) + NewTrackings(|table| + |sofar|, |made|));
  }

  /** One more copy: its item and its classes at the end. */
  lemma CopyStep(items: seq<ScheduleItem>, selected: seq<nat>, newIds: seq<int>, k: nat, terms: map<int, Term>, today: int)
    requires ValidSelection(|items|, selected) && |newIds| == |selected| && k < |selected|
    requires forall i :: 0 <= i < |selected| ==> items[selected[i]].template in terms
    ensures forall c :: c in ItemCopies(items, selected[..k], newIds[..k]) ==> c.template in terms
    ensures forall c :: c in ItemCopies(items, selected[..k + 1], newIds[..k + 1]) ==> c.template in terms
    ensures var c := NextWeekItem(items[selected[k]], newIds[k]);
      var term := terms[c.template];
      ItemCopies(items, selected[..k + 1], newIds[..k + 1]) == ItemCopies(items, selected[..k], newIds[..k]) + [c] &&
      ClassesOfCopies(ItemCopies(items, selected[..k + 1], newIds[..k + 1]), terms, today) ==
        ClassesOfCopies(ItemCopies(items, selected[..k], newIds[..k]), terms, today) +
        LessonsOn(c, ClassDays(c, term, GenerationStart(term, today), term.classEnd))
  {
    assert selected[..k + 1][..k] == selected[..k];
    assert newIds[..k + 1][..k] == newIds[..k];
    var cs := ItemCopies(items, selected[..k + 1], newIds[..k + 1]);
    assert cs[..k] == ItemCopies(items, selected[..k], newIds[..k]);
    forall c | c in cs ensures c.template in terms {
      var i :| 0 <= i < |cs| && cs[i] == c;
      assert selected[..k + 1][i] == selected[i];
    }
  }

  // -----------------------------------------------------------------------
  // `ClassAdmin.copy_to_next_week`

  /** The class `l` of the table is the copy target of `c`: same subject,
      slot and room, a week later. */
  predicate IsCopyTarget(l: Lesson, c: Lesson) {
    l.subject == c.subject && l.date == c.date + 7 && l.timeSlot == c.timeSlot && l.room == c.room
  }

  predicate HasCopyOf(table: seq<Lesson>, c: Lesson) {
    exists j :: 0 <= j < |table| && IsCopyTarget(table[j], c)
  }

  /** The copy: a scheduled class a week later with the same subject,
      teacher, slot, room, topic and description, tied to no template
      item. */
  function NextWeekLesson(c: Lesson): (n: Lesson)
    ensures IsCopyTarget(n, c) && n.status == Scheduled && n.item.None?
    ensures n.teacher == c.teacher && n.topic == c.topic && n.description == c.description
  {
    Lesson(None, c.subject, c.teacher, c.room, c.timeSlot, c.date + 7, Scheduled, c.topic, c.description, "")
  }

  /** The table after the action: each selected class in turn is copied
      unless the table as it stands already holds its copy target. */
  function CopyAll(table: seq<Lesson>, selected: seq<nat>): (r: seq<Lesson>)
    requires ValidSelection(|table|, selected)
    ensures |r| >= |table| && r[..|table|] == table
  {
    if selected == [] then table
    else
      var n := |selected| - 1;
      var before := CopyAll(table, selected[..n]);
      var c := table[selected[n]];
      if HasCopyOf(before, c) then before else before + [NextWeekLesson(c)]
  }

  /** After the action every selected class has its copy target. */
  lemma {:induction false} CopyAllCovers(table: seq<Lesson>, selected: seq<nat>)
    requires ValidSelection(|table|, selected)
    ensures forall k :: 0 <= k < |selected| ==> HasCopyOf(CopyAll(table, selected), table[selected[k]])
  {
    if selected != [] {
      var n := |selected| - 1;
      var before := CopyAll(table, selected[..n]);
      var after := CopyAll(table, selected);
      CopyAllCovers(table, selected[..n]);
      forall k | 0 <= k < |selected| ensures HasCopyOf(after, table[selected[k]]) {
        var c := table[selected[k]];
        if k < n {
          assert selected[..n][k] == selected[k];
          var j :| 0 <= j < |before| && IsCopyTarget(before[j], c);
          assert after[j] == before[j];
        } else if !HasCopyOf(before, c) {
          assert IsCopyTarget(after[|before|], c);
        }
      }
    }
  }

  /** Every class the action adds is the copy of a selected class. */
  lemma {:induction false} CopyAllAddsOnlyCopies(table: seq<Lesson>, selected: seq<nat>)
    requires ValidSelection(|table|, selected)
    ensures forall i :: |table| <= i < |CopyAll(table, selected)| ==>
      exists k :: 0 <= k < |selected| && CopyAll(table, selected)[i] == NextWeekLesson(table[selected[k]])
  {
    if selected != [] {
      var n := |selected| - 1;
      var before := CopyAll(table, selected[..n]);
      var after := CopyAll(table, selected);
      CopyAllAddsOnlyCopies(table, selected[..n]);
      forall i | |table| <= i < |after|
        ensures exists k :: 0 <= k < |selected| && after[i] == NextWeekLesson(table[selected[k]])
      {
        if i < |before| {
          var k :| 0 <= k < n && before[i] == NextWeekLesson(table[selected[..n][k]]);
          assert after[i] == before[i];
          assert selected[..n][k] == selected[k];
          assert after[i] == NextWeekLesson(table[selected[k]]);
        } else {
          assert !HasCopyOf(before, table[selected[n]]);
          assert after == before + [NextWeekLesson(table[selected[n]])];
          assert after[i] == NextWeekLesson(table[selected[n]]);
        }
      }
    } else {
      assert CopyAll(table, selected) == table;
    }
  }

  /** When every selected class already has its copy target the action
      adds nothing. */
  lemma {:induction false} CopyAllWhenCovered(table: seq<Lesson>, selected: seq<nat>)
    requires ValidSelection(|table|, selected)
    requires forall k :: 0 <= k < |selected| ==> HasCopyOf(table, table[selected[k]])
    ensures CopyAll(table, selected) == table
  {
    if selected != [] {
      var n := |selected| - 1;
      forall k | 0 <= k < n ensures HasCopyOf(table, table[selected[..n][k]]) {
        assert selected[..n][k] == selected[k];
      }
      CopyAllWhenCovered(table, selected[..n]);
    }
  }

  /** Running the action twice on the same selection copies nothing the
      second time: the selected positions still hold the same classes. */
  lemma RerunCopiesNothing(table: seq<Lesson>, selected: seq<nat>)
    requires ValidSelection(|table|, selected)
    ensures CopyAll(CopyAll(table, selected), selected) == CopyAll(table, selected)
  {
    var once := CopyAll(table, selected);
    CopyAllCovers(table, selected);
    forall k | 0 <= k < |selected| ensures HasCopyOf(once, once[selected[k]]) {
      assert once[selected[k]] == once[..|table|][selected[k]];
    }
    CopyAllWhenCovered(once, selected);
  }

  /** The action; `count` is the number of classes it reports copied. Each
      new class gets its tracking from the `post_save` receiver
      `create_class_attendance_tracking`. */
  method CopyClassesToNextWeek(t: Timetable, selected: seq<nat>) returns (count: nat)
    requires ValidSelection(|t.classes|, selected)
    modifies t
    ensures t.classes == CopyAll(old(t.classes), selected)
    ensures count == |t.classes| - |old(t.classes)|
    ensures t.trackings == old(t.trackings) + NewTrackings(|old(t.classes)|, count)
    ensures t.items == old(t.items) && t.generations == old(t.generations) && t.timeSlots == old(t.timeSlots)
  {
    var table := t.classes;
    var classes := table;
    count := 0;
    var k := 0;
    while k < |selected|
      invariant 0 <= k <= |selected|
      invariant classes == CopyAll(table, selected[..k])
      invariant count == |classes| - |table|
      modifies {}
    {
      assert selected[..k + 1][..k] == selected[..k];
      var c := classes[selected[k]];
      assert c == classes[..|table|][selected[k]];
      var exists_ := HasCopyIn(classes, c);
      if !exists_ {
        classes := classes + [NextWeekLesson(c)];
        count := count + 1;
      }
      k := k + 1;
    }
    assert selected[..k] == selected;
    assert table + classes[|table|..] == classes;
    t.AddClasses(classes[|table|..]);
  }

  /** The existence query of the action. */
  method HasCopyIn(table: seq<Lesson>, c: Lesson) returns (found: bool)
    ensures found == HasCopyOf(table, c)
  {
    found := false;
    var j := 0;
    while j < |table| && !found
      invariant 0 <= j <= |table|
      invariant found == exists i :: 0 <= i < j && IsCopyTarget(table[i], c)
    {
      found := IsCopyTarget(table[j], c);
      j := j + 1;
    }
  }

  // -----------------------------------------------------------------------
  // `ClassDateFilter.queryset`

  datatype DateFilter = Today | Tomorrow | ThisWeek | NextWeek | Past | Future | Unfiltered

  /** The first day of the filter's week for `this_week` and `next_week`. */
  function WeekStart(f: DateFilter, today: int): int {
    if f == NextWeek then today + (7 - Weekday(today)) else today - Weekday(today)
  }

  /** Whether the filter keeps a class dated `date`. */
  predicate Shows(f: DateFilter, today: int, date: int) {
    match f
    case Today => date == today
    case Tomorrow => date == today + 1
    case ThisWeek => WeekStart(f, today) <= date <= WeekStart(f, today) + 6
    case NextWeek => WeekStart(f, today) <= date <= WeekStart(f, today) + 6
    case Past => date < today
    case Future => date >= today
    case Unfiltered => true
  }

  /** The classes the filter keeps, in their order. */
  function FilterClasses(classes: seq<Lesson>, f: DateFilter, today: int): (r: seq<Lesson>)
    ensures |r| <= |classes|
    ensures forall l :: l in r <==> l in classes && Shows(f, today, l.date)
  {
    if classes == [] then []
    else
      var n := |classes| - 1;
      var before := FilterClasses(classes[..n], f, today);
      assert classes == classes[..n] + [classes[n]];
      if Shows(f, today, classes[n].date) then before + [classes[n]] else before
  }

  /** A range of seven days starting on the Monday of a calendar week holds
      exactly the days of that week. */
  lemma WeekOfMonday(start: int, date: int)
    requires Weekday(start) == 0
    ensures start <= date <= start + 6 <==> date / 7 == start / 7
  {
    var q, p := start / 7, date / 7;
    assert start == 7 * q;
    assert date == 7 * p + date % 7;
    if p < q {
      MulMono(p + 1, q, 7);
    } else if p > q {
      MulMono(q + 1, p, 7);
    }
  }

  /** `this_week` is the calendar week, Monday to Sunday, holding today,
      and `next_week` the one after it. */
  lemma WeekFiltersAreCalendarWeeks(today: int, date: int)
    ensures Weekday(WeekStart(ThisWeek, today)) == 0 && Weekday(WeekStart(NextWeek, today)) == 0
    ensures WeekStart(NextWeek, today) == WeekStart(ThisWeek, today) + 7
    ensures Shows(ThisWeek, today, date) <==> date / 7 == today / 7
    ensures Shows(NextWeek, today, date) <==> date / 7 == today / 7 + 1
    ensures Shows(ThisWeek, today, today)
  {
    var s := WeekStart(ThisWeek, today);
    assert s == 7 * (today / 7);
    assert s + 7 == 7 * (today / 7 + 1);
    WeekOfMonday(s, date);
    WeekOfMonday(s + 7, date);
    WeekOfMonday(s, today);
  }

  /** Past and future split the classes: every class is in exactly one. */
  lemma {:induction false} PastAndFuturePartition(classes: seq<Lesson>, today: int)
    ensures forall date :: Shows(Past, today, date) != Shows(Future, today, date)
    ensures |FilterClasses(classes, Past, today)| + |FilterClasses(classes, Future, today)| == |classes|
  {
    if classes != [] {
      PastAndFuturePartition(classes[..|classes| - 1], today);
    }
  }

  /** Today's and tomorrow's classes are among the future ones. */
  lemma NearDaysAreFuture(today: int, date: int)
    ensures Shows(Today, today, date) || Shows(Tomorrow, today, date) ==> Shows(Future, today, date)
    ensures Shows(Today, today, date) ==> Shows(ThisWeek, today, date)
  {
    WeekFiltersAreCalendarWeeks(today, date);
  }

  // -----------------------------------------------------------------------
  // `ExamScheduleAdmin.create_consultation`: the consultation date

  /** The date as the action computes it: two days before the exam, or
      three when that falls on a weekend. */
  function ConsultationDateAsWritten(exam: int): int {
    if Weekday(exam - 2) >= 5 then exam - 3 else exam - 2
  }

  /** For an exam on a Tuesday, two days before is a Sunday and one day
      more is a Saturday: the weekend is not avoided. */
  lemma ConsultationBeforeTuesdayExamIsSaturday(exam: int)
    requires Weekday(exam) == 1
    ensures Weekday(ConsultationDateAsWritten(exam)) == 5
  {
  }

  /** An example: the exam on day 8, a Tuesday, gets its consultation on
      day 5, a Saturday. */
  lemma ConsultationAsWrittenExample()
    ensures Weekday(8) == 1 && ConsultationDateAsWritten(8) == 5 && Weekday(5) == 5
  {
    ConsultationBeforeTuesdayExamIsSaturday(8);
  }

  /** The evidently intended date: the last working day at least two days
      before the exam. */
  function ConsultationDate(exam: int): int {
    var d := exam - 2;
    if Weekday(d) == 5 then d - 1 else if Weekday(d) == 6 then d - 2 else d
  }

  /** The consultation falls on a working day, two to four days before the
      exam, with only weekend days between it and two days before the exam;
      it agrees with the computed date whenever two days before is not a
      Sunday. */
  lemma ConsultationDateIsWorkingDay(exam: int)
    ensures Weekday(ConsultationDate(exam)) < 5
    ensures exam - 4 <= ConsultationDate(exam) <= exam - 2
    ensures forall d :: ConsultationDate(exam) < d <= exam - 2 ==> Weekday(d) >= 5
    ensures Weekday(exam - 2) != 6 ==> ConsultationDate(exam) == ConsultationDateAsWritten(exam)
  {
    var c := exam - 2;
    forall d | ConsultationDate(exam) < d <= c ensures Weekday(d) >= 5 {
      assert d == c || d == c - 1;
      if d == c - 1 {
        assert Weekday(c) == 6;
        assert (c - 1) % 7 == 5;
      }
    }
    if Weekday(c) == 5 {
      assert (c - 1) % 7 == 4;
    } else if Weekday(c) == 6 {
      assert (c - 2) % 7 == 4;
    }
  }

  /** Whether a consultation for the subject is already set on the date. */
  predicate HasConsultation(exams: seq<ExamEntry>, subject: int, date: int) {
    exists j :: 0 <= j < |exams| && exams[j].examType == PreExamConsultation &&
      exams[j].subject == subject && exams[j].date == date
  }

  /** The selection loop up to the creation call: exams whose consultation
      exists are skipped; for the first one without, the creation call is
      reached, and `reached` is its position. */
  method FindConsultationToCreate(selected: seq<ExamEntry>, existing: seq<ExamEntry>)
    returns (reached: Option<nat>)
    ensures reached.None? <==> forall k :: 0 <= k < |selected| ==>
      HasConsultation(existing, selected[k].subject, ConsultationDateAsWritten(selected[k].date))
    ensures reached.Some? ==> (reached.value < |selected| &&
      !HasConsultation(existing, selected[reached.value].subject, ConsultationDateAsWritten(selected[reached.value].date)) &&
      forall k :: 0 <= k < reached.value ==>
        HasConsultation(existing, selected[k].subject, ConsultationDateAsWritten(selected[k].date)))
  {
    reached := None;
    var k := 0;
    while k < |selected| && reached.None?
      invariant 0 <= k <= |selected|
      invariant reached.None? ==> forall i :: 0 <= i < k ==>
        HasConsultation(existing, selected[i].subject, ConsultationDateAsWritten(selected[i].date))
      invariant reached.Some? ==> (reached.value == k - 1 &&
        !HasConsultation(existing, selected[k - 1].subject, ConsultationDateAsWritten(selected[k - 1].date)) &&
        forall i :: 0 <= i < k - 1 ==>
          HasConsultation(existing, selected[i].subject, ConsultationDateAsWritten(selected[i].date)))
    {
      var date := ConsultationDateAsWritten(selected[k].date);
      if !HasConsultation(existing, selected[k].subject, date) {
        reached := Some(k);
      }
      k := k + 1;
    }
  }

  // -----------------------------------------------------------------------
  // `ClassAttendanceTrackingAdmin.mark_as_conducted` / `mark_as_not_conducted`

  /** A tracking marked as conducted: the actual times come from the slot
      where they are not set yet. A tracking already conducted is left as
      it is, times and all. */
  function Conducted(tr: Tracking, slot: TimeSlot): (r: Tracking)
    ensures r.isConducted && r.lesson == tr.lesson
    ensures tr.isConducted ==> r == tr
    ensures !tr.isConducted ==> r.actualStart.Some? && r.actualEnd.Some?
    ensures tr.actualStart.Some? ==> r.actualStart == tr.actualStart
    ensures tr.actualEnd.Some? ==> r.actualEnd == tr.actualEnd
    ensures !tr.isConducted && tr.actualStart.None? ==> r.actualStart == Some(slot.start)
    ensures !tr.isConducted && tr.actualEnd.None? ==> r.actualEnd == Some(slot.end)
  {
    if tr.isConducted then tr
    else
      tr.(isConducted := true,
          actualStart := if tr.actualStart.Some? then tr.actualStart else Some(slot.start),
          actualEnd := if tr.actualEnd.Some? then tr.actualEnd else Some(slot.end))
  }

  /** A tracking marked as not conducted keeps its actual times. */
  function NotConducted(tr: Tracking): (r: Tracking)
    ensures !r.isConducted && r.lesson == tr.lesson
    ensures r.actualStart == tr.actualStart && r.actualEnd == tr.actualEnd
  {
    if tr.isConducted then tr.(isConducted := false) else tr
  }

  /** Marking twice is marking once, and the two marks undo each other: a
      conducted tracking with its times survives the round trip, and a
      tracking not conducted comes back with the slot's times filled in. */
  lemma ConductMarksRoundTrip(tr: Tracking, slot: TimeSlot)
    ensures Conducted(Conducted(tr, slot), slot) == Conducted(tr, slot)
    ensures NotConducted(NotConducted(tr)) == NotConducted(tr)
    ensures tr.isConducted ==> Conducted(NotConducted(tr), slot) == tr.(actualStart := Conducted(NotConducted(tr), slot).actualStart, actualEnd := Conducted(NotConducted(tr), slot).actualEnd)
    ensures tr.isConducted && tr.actualStart.Some? && tr.actualEnd.Some? ==> Conducted(NotConducted(tr), slot) == tr
    ensures !tr.isConducted ==> (NotConducted(Conducted(tr, slot)) ==
      tr.(actualStart := Conducted(tr, slot).actualStart, actualEnd := Conducted(tr, slot).actualEnd))
  {
  }

  /** The class of a conducted tracking. */
  function CompletedLesson(l: Lesson): (r: Lesson)
    ensures r.status == Completed && r == l.(status := Completed)
  {
    if l.status != Completed then l.(status := Completed) else l
  }

  /** The class of a tracking marked as not conducted: only a completed
      class goes back to scheduled. */
  function ReopenedLesson(l: Lesson): (r: Lesson)
    ensures r.status != Completed
    ensures l.status != Completed ==> r == l
    ensures l.status == Completed ==> r == l.(status := Scheduled)
  {
    if l.status == Completed then l.(status := Scheduled) else l
  }

  /** A class reopened after being completed is scheduled whatever its
      status was before; a canceled or rescheduled class that was never
      completed keeps its status. */
  lemma CompleteThenReopen(l: Lesson)
    ensures ReopenedLesson(CompletedLesson(l)) == l.(status := Scheduled)
    ensures l.status == Canceled || l.status == Rescheduled ==> ReopenedLesson(l) == l
  {
  }

  /** Every tracking refers to a class, and the class to a slot. */
  predicate Wired(tr: Tracking, classes: seq<Lesson>, slots: map<int, TimeSlot>) {
    tr.lesson < |classes| && classes[tr.lesson].timeSlot in slots
  }

  function SlotOf(tr: Tracking, classes: seq<Lesson>, slots: map<int, TimeSlot>): TimeSlot
    requires Wired(tr, classes, slots)
  {
    slots[classes[tr.lesson].timeSlot]
  }

  predicate Distinct(selected: seq<nat>) {
    forall i, j :: 0 <= i < j < |selected| ==> selected[i] != selected[j]
  }

  /** Whether a selected tracking of class `j` was in the state
      `conducted` before the action. */
  predicate Reaches(trackings: seq<Tracking>, selected: seq<nat>, j: nat, conducted: bool) {
    exists k :: 0 <= k < |selected| && selected[k] < |trackings| &&
      trackings[selected[k]].lesson == j && trackings[selected[k]].isConducted == conducted
  }

  predicate SelectionWired(t: Timetable, selected: seq<nat>)
    reads t
  {
    ValidSelection(|t.trackings|, selected) && Distinct(selected) &&
    forall i :: i in selected ==> i < |t.trackings| && Wired(t.trackings[i], t.classes, t.timeSlots)
  }

  /** `mark_as_conducted`: each selected tracking not yet conducted becomes
      conducted and its class completed; the others are not touched. */
  method MarkAsConducted(t: Timetable, selected: seq<nat>)
    requires SelectionWired(t, selected)
    modifies t
    ensures |t.trackings| == |old(t.trackings)| && |t.classes| == |old(t.classes)|
    ensures forall i :: 0 <= i < |t.trackings| ==>
      t.trackings[i] == if i in selected
        then Conducted(old(t.trackings[i]), SlotOf(old(t.trackings[i]), old(t.classes), old(t.timeSlots)))
        else old(t.trackings[i])
    ensures forall j :: 0 <= j < |t.classes| ==>
      t.classes[j] == if Reaches(old(t.trackings), selected, j, false)
        then CompletedLesson(old(t.classes[j])) else old(t.classes[j])
    ensures t.items == old(t.items) && t.generations == old(t.generations) && t.timeSlots == old(t.timeSlots)
  {
    var trackings, classes, slots := t.trackings, t.classes, t.timeSlots;
    var ts, cs := trackings, classes;
    var k := 0;
    while k < |selected|
      invariant 0 <= k <= |selected|
      invariant MarkedUpTo(trackings, classes, slots, selected[..k], ts, cs)
      modifies {}
    {
      var i := selected[k];
      assert i !in selected[..k];
      var tr := ts[i];
      MarkStep(trackings, classes, slots, selected, k, ts, cs);
      if !tr.isConducted {
        var slot := slots[cs[tr.lesson].timeSlot];
        ts := ts[i := Conducted(tr, slot)];
        var l := cs[tr.lesson];
        if l.status != Completed {
          cs := cs[tr.lesson := l.(status := Completed)];
        }
      }
      k := k + 1;
    }
    assert selected[..k] == selected;
    t.trackings, t.classes := ts, cs;
  }

  /** The tables of `mark_as_conducted` once the trackings `done` are
      handled. */
  predicate MarkedUpTo(trackings: seq<Tracking>, classes: seq<Lesson>, slots: map<int, TimeSlot>, done: seq<nat>,
                       ts: seq<Tracking>, cs: seq<Lesson>)
    requires forall n :: 0 <= n < |done| ==> done[n] < |trackings| && Wired(trackings[done[n]], classes, slots)
  {
    |ts| == |trackings| && |cs| == |classes| &&
    (forall i {:trigger ts[i]} :: 0 <= i < |trackings| ==>
      ts[i] == if i in done then Conducted(trackings[i], SlotOf(trackings[i], classes, slots)) else trackings[i]) &&
    (forall j {:trigger cs[j]} :: 0 <= j < |classes| ==>
      cs[j] == if Reaches(trackings, done, j, false) then CompletedLesson(classes[j]) else classes[j])
  }

  lemma MarkStep(trackings: seq<Tracking>, classes: seq<Lesson>, slots: map<int, TimeSlot>, selected: seq<nat>, k: nat,
                 ts: seq<Tracking>, cs: seq<Lesson>)
    requires k < |selected|
    requires forall n :: 0 <= n <= k ==> selected[n] < |trackings| && Wired(trackings[selected[n]], classes, slots)
    requires selected[k] !in selected[..k]
    requires MarkedUpTo(trackings, classes, slots, selected[..k], ts, cs)
    ensures var i := selected[k];
      var tr := ts[i];
      tr.lesson < |cs| && cs[tr.lesson].timeSlot in slots &&
      var cs' := if cs[tr.lesson].status != Completed then cs[tr.lesson := cs[tr.lesson].(status := Completed)] else cs;
      MarkedUpTo(trackings, classes, slots, selected[..k + 1],
        if !tr.isConducted then ts[i := Conducted(tr, slots[cs[tr.lesson].timeSlot])] else ts,
        if !tr.isConducted then cs' else cs)
  {
    var i := selected[k];
    assert selected[..k + 1] == selected[..k] + [i];
    assert ts[i] == trackings[i];
    if !trackings[i].isConducted {
      MarkStepMarks(trackings, classes, slots, selected, k, ts, cs);
    } else {
      ReachesSkip(trackings, selected, k, false);
    }
  }

  lemma MarkStepMarks(trackings: seq<Tracking>, classes: seq<Lesson>, slots: map<int, TimeSlot>, selected: seq<nat>, k: nat,
                      ts: seq<Tracking>, cs: seq<Lesson>)
    requires k < |selected|
    requires forall n :: 0 <= n <= k ==> selected[n] < |trackings| && Wired(trackings[selected[n]], classes, slots)
    requires selected[k] !in selected[..k] && !trackings[selected[k]].isConducted
    requires MarkedUpTo(trackings, classes, slots, selected[..k], ts, cs)
    ensures var i := selected[k];
      var tr := ts[i];
      tr.lesson < |cs| && cs[tr.lesson].timeSlot in slots &&
      var cs' := if cs[tr.lesson].status != Completed then cs[tr.lesson := cs[tr.lesson].(status := Completed)] else cs;
      MarkedUpTo(trackings, classes, slots, selected[..k + 1], ts[i := Conducted(tr, slots[cs[tr.lesson].timeSlot])], cs')
  {
    assert selected[..k + 1] == selected[..k] + [selected[k]];
    ReachesStep(trackings, selected, k, trackings[selected[k]].lesson, false);
  }

  lemma ReachesStep(trackings: seq<Tracking>, selected: seq<nat>, k: nat, lesson: nat, conducted: bool)
    requires k < |selected| && selected[k] < |trackings|
    requires trackings[selected[k]].lesson == lesson && trackings[selected[k]].isConducted == conducted
    ensures forall j :: Reaches(trackings, selected[..k + 1], j, conducted) <==>
      Reaches(trackings, selected[..k], j, conducted) || j == lesson
  {
    var pre, next := selected[..k], selected[..k + 1];
    assert next[k] == selected[k];
    forall j | Reaches(trackings, next, j, conducted) && j != lesson
      ensures Reaches(trackings, pre, j, conducted)
    {
      var m :| 0 <= m < |next| && next[m] < |trackings| &&
        trackings[next[m]].lesson == j && trackings[next[m]].isConducted == conducted;
      assert m < k;
      assert pre[m] == next[m];
    }
    forall j | Reaches(trackings, pre, j, conducted) ensures Reaches(trackings, next, j, conducted) {
      var m :| 0 <= m < |pre| && pre[m] < |trackings| &&
        trackings[pre[m]].lesson == j && trackings[pre[m]].isConducted == conducted;
      assert next[m] == pre[m];
    }
  }

  lemma ReachesSkip(trackings: seq<Tracking>, selected: seq<nat>, k: nat, conducted: bool)
    requires k < |selected| && selected[k] < |trackings|
    requires trackings[selected[k]].isConducted != conducted
    ensures forall j :: Reaches(trackings, selected[..k + 1], j, conducted) <==>
      Reaches(trackings, selected[..k], j, conducted)
  {
    var pre, next := selected[..k], selected[..k + 1];
    forall j | Reaches(trackings, next, j, conducted) ensures Reaches(trackings, pre, j, conducted) {
      var m :| 0 <= m < |next| && next[m] < |trackings| &&
        trackings[next[m]].lesson == j && trackings[next[m]].isConducted == conducted;
      assert m < k;
      assert pre[m] == next[m];
    }
    forall j | Reaches(trackings, pre, j, conducted) ensures Reaches(trackings, next, j, conducted) {
      var m :| 0 <= m < |pre| && pre[m] < |trackings| &&
        trackings[pre[m]].lesson == j && trackings[pre[m]].isConducted == conducted;
      assert next[m] == pre[m];
    }
  }

  /** `mark_as_not_conducted`: each selected conducted tracking is no longer
      conducted and its class, if completed, is scheduled again; the
      others are not touched. */
  method MarkAsNotConducted(t: Timetable, selected: seq<nat>)
    requires SelectionWired(t, selected)
    modifies t
    ensures |t.trackings| == |old(t.trackings)| && |t.classes| == |old(t.classes)|
    ensures forall i :: 0 <= i < |t.trackings| ==>
      t.trackings[i] == if i in selected then NotConducted(old(t.trackings[i])) else old(t.trackings[i])
    ensures forall j :: 0 <= j < |t.classes| ==>
      t.classes[j] == if Reaches(old(t.trackings), selected, j, true)
        then ReopenedLesson(old(t.classes[j])) else old(t.classes[j])
    ensures t.items == old(t.items) && t.generations == old(t.generations) && t.timeSlots == old(t.timeSlots)
  {
    var trackings, classes := t.trackings, t.classes;
    var ts, cs := trackings, classes;
    var k := 0;
    while k < |selected|
      invariant 0 <= k <= |selected|
      invariant UnmarkedUpTo(trackings, classes, selected[..k], ts, cs)
      modifies {}
    {
      var i := selected[k];
      assert i !in selected[..k];
      var tr := ts[i];
      UnmarkStep(trackings, classes, selected, k, ts, cs);
      if tr.isConducted {
        ts := ts[i := tr.(isConducted := false)];
        var l := cs[tr.lesson];
        if l.status == Completed {
          cs := cs[tr.lesson := l.(status := Scheduled)];
        }
      }
      k := k + 1;
    }
    assert selected[..k] == selected;
    t.trackings, t.classes := ts, cs;
  }

  /** The tables of `mark_as_not_conducted` once the trackings `done` are
      handled. */
  predicate UnmarkedUpTo(trackings: seq<Tracking>, classes: seq<Lesson>, done: seq<nat>,
                         ts: seq<Tracking>, cs: seq<Lesson>)
  {
    |ts| == |trackings| && |cs| == |classes| &&
    (forall i {:trigger ts[i]} :: 0 <= i < |trackings| ==>
      ts[i] == if i in done then NotConducted(trackings[i]) else trackings[i]) &&
    (forall j {:trigger cs[j]} :: 0 <= j < |classes| ==>
      cs[j] == if Reaches(trackings, done, j, true) then ReopenedLesson(classes[j]) else classes[j])
  }

  lemma UnmarkStep(trackings: seq<Tracking>, classes: seq<Lesson>, selected: seq<nat>, k: nat,
                   ts: seq<Tracking>, cs: seq<Lesson>)
    requires k < |selected| && selected[k] < |trackings| && trackings[selected[k]].lesson < |classes|
    requires selected[k] !in selected[..k]
    requires UnmarkedUpTo(trackings, classes, selected[..k], ts, cs)
    ensures var i := selected[k];
      var tr := ts[i];
      var cs' := if cs[tr.lesson].status == Completed then cs[tr.lesson := cs[tr.lesson].(status := Scheduled)] else cs;
      UnmarkedUpTo(trackings, classes, selected[..k + 1],
        if tr.isConducted then ts[i := tr.(isConducted := false)] else ts,
        if tr.isConducted then cs' else cs)
  {
    var i := selected[k];
    assert selected[..k + 1] == selected[..k] + [i];
    assert ts[i] == trackings[i];
    if trackings[i].isConducted {
      ReachesStep(trackings, selected, k, trackings[i].lesson, true);
    } else {
      ReachesSkip(trackings, selected, k, true);
    }
  }
}
