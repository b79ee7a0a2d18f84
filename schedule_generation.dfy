/** The two `generate_classes` admin actions of the timetable: dated
    classes for selected template items, or for every item of selected
    templates, skipping the days on which the item already has its class. */
module ScheduleGeneration {
  import opened Common
  import opened Schedule

  /** An item together with the term of its template's semester. */
  datatype PlannedItem = PlannedItem(item: ScheduleItem, term: Term)

  /** Whether the table already holds the item's class on `day`, in its
      slot and room. */
  predicate HasClass(table: seq<Lesson>, item: ScheduleItem, day: int) {
    exists i :: 0 <= i < |table| && IsClassOf(table[i], item, day)
  }

  predicate IsClassOf(l: Lesson, item: ScheduleItem, day: int) {
    l.item == Some(item.id) && l.date == day && l.timeSlot == item.timeSlot && l.room == item.room
  }

  /** The days among `days` on which the table does not yet hold the
      item's class. */
  function MissingDays(item: ScheduleItem, days: seq<int>, table: seq<Lesson>): seq<int> {
    if days == [] then []
    else
      var last := days[|days| - 1];
      MissingDays(item, days[..|days| - 1], table) + (if HasClass(table, item, last) then [] else [last])
  }

  lemma {:induction false} MissingDaysExact(item: ScheduleItem, days: seq<int>, table: seq<Lesson>)
    ensures forall d :: d in MissingDays(item, days, table) <==> d in days && !HasClass(table, item, d)
  {
    if days != [] {
      MissingDaysExact(item, days[..|days| - 1], table);
      assert days == days[..|days| - 1] + [days[|days| - 1]];
    }
  }

  /** The classes one run creates for a planned item against `table`. */
  function Generate(p: PlannedItem, today: int, table: seq<Lesson>): seq<Lesson> {
    var days := ClassDays(p.item, p.term, GenerationStart(p.term, today), p.term.classEnd);
    LessonsOn(p.item, MissingDays(p.item, days, table))
  }

  /** A run over `plans`, each item checked against the table as it stands
      after the items before it. */
  function GenerateAll(plans: seq<PlannedItem>, today: int, table: seq<Lesson>): seq<Lesson> {
    if plans == [] then table
    else
      var before := GenerateAll(plans[..|plans| - 1], today, table);
      before + Generate(plans[|plans| - 1], today, before)
  }

  /** Classes created only for days that had none: new classes never
      depend on classes of other items, and the item's own classes of
      earlier days leave the check for a later day unchanged. */
  lemma HasClassAfterEarlierDays(table: seq<Lesson>, item: ScheduleItem, days: seq<int>, day: int)
    requires forall d :: d in days ==> d < day
    ensures HasClass(table + LessonsOn(item, days), item, day) == HasClass(table, item, day)
  {
    var all := table + LessonsOn(item, days);
    forall k | |table| <= k < |all| ensures all[k].date < day {
      assert all[k] == NewLesson(item, days[k - |table|]);
      assert days[k - |table|] in days;
    }
    if HasClass(all, item, day) {
      var i :| 0 <= i < |all| && IsClassOf(all[i], item, day);
      assert i < |table|;
      assert all[i] == table[i];
    }
    if HasClass(table, item, day) {
      var i :| 0 <= i < |table| && IsClassOf(table[i], item, day);
      assert all[i] == table[i];
    }
  }

  /** Every class day of the planned item. */
  predicate Covered(p: PlannedItem, today: int, table: seq<Lesson>) {
    forall d :: d in ClassDays(p.item, p.term, GenerationStart(p.term, today), p.term.classEnd) ==>
      HasClass(table, p.item, d)
  }

  lemma CoveredAfterAppend(p: PlannedItem, today: int, table: seq<Lesson>, more: seq<Lesson>)
    requires Covered(p, today, table)
    ensures Covered(p, today, table + more)
  {
    forall d | d in ClassDays(p.item, p.term, GenerationStart(p.term, today), p.term.classEnd)
      ensures HasClass(table + more, p.item, d)
    {
      var i :| 0 <= i < |table| && IsClassOf(table[i], p.item, d);
      assert (table + more)[i] == table[i];
    }
  }

  /** After a run, the planned item has its class on every class day. */
  lemma GenerateCovers(p: PlannedItem, today: int, table: seq<Lesson>)
    ensures Covered(p, today, table + Generate(p, today, table))
  {
    var days := ClassDays(p.item, p.term, GenerationStart(p.term, today), p.term.classEnd);
    var missing := MissingDays(p.item, days, table);
    MissingDaysExact(p.item, days, table);
    var all := table + Generate(p, today, table);
    forall d | d in days ensures HasClass(all, p.item, d) {
      if HasClass(table, p.item, d) {
        var i :| 0 <= i < |table| && IsClassOf(table[i], p.item, d);
        assert all[i] == table[i];
      } else {
        assert d in missing;
        var k :| 0 <= k < |missing| && missing[k] == d;
        assert all[|table| + k] == NewLesson(p.item, d);
      }
    }
  }

  /** A covered item gets nothing. */
  lemma GenerateWhenCovered(p: PlannedItem, today: int, table: seq<Lesson>)
    requires Covered(p, today, table)
    ensures Generate(p, today, table) == []
  {
    var days := ClassDays(p.item, p.term, GenerationStart(p.term, today), p.term.classEnd);
    NoneMissing(p.item, days, table);
  }

  lemma {:induction false} NoneMissing(item: ScheduleItem, days: seq<int>, table: seq<Lesson>)
    requires forall d :: d in days ==> HasClass(table, item, d)
    ensures MissingDays(item, days, table) == []
  {
    if days != [] {
      var init := days[..|days| - 1];
      assert forall d :: d in init ==> d in days;
      NoneMissing(item, init, table);
      assert days[|days| - 1] in days;
    }
  }

  /** A run leaves every planned item covered. */
  lemma {:induction false} GenerateAllCovers(plans: seq<PlannedItem>, today: int, table: seq<Lesson>)
    ensures forall p :: p in plans ==> Covered(p, today, GenerateAll(plans, today, table))
  {
    if plans != [] {
      var init := plans[..|plans| - 1];
      var last := plans[|plans| - 1];
      var before := GenerateAll(init, today, table);
      GenerateAllCovers(init, today, table);
      GenerateCovers(last, today, before);
      forall p | p in plans ensures Covered(p, today, GenerateAll(plans, today, table)) {
        if p != last {
          assert p in init by {
            var j :| 0 <= j < |plans| && plans[j] == p;
            assert j < |plans| - 1;
            assert init[j] == p;
          }
          CoveredAfterAppend(p, today, before, Generate(last, today, before));
        }
      }
    }
  }

  /** A run over items that are all covered changes nothing. */
  lemma {:induction false} GenerateAllWhenCovered(plans: seq<PlannedItem>, today: int, table: seq<Lesson>)
    requires forall p :: p in plans ==> Covered(p, today, table)
    ensures GenerateAll(plans, today, table) == table
  {
    if plans != [] {
      var init := plans[..|plans| - 1];
      assert forall p :: p in init ==> p in plans;
      GenerateAllWhenCovered(init, today, table);
      GenerateWhenCovered(plans[|plans| - 1], today, table);
    }
  }

  /** Re-running the generation for the same items on the same day creates
      no class. */
  lemma RerunCreatesNothing(plans: seq<PlannedItem>, today: int, table: seq<Lesson>)
    ensures GenerateAll(plans, today, GenerateAll(plans, today, table)) == GenerateAll(plans, today, table)
  {
    GenerateAllCovers(plans, today, table);
    GenerateAllWhenCovered(plans, today, GenerateAll(plans, today, table));
  }

  /** A run only ever adds classes: it starts with the old table. */
  lemma {:induction false} GenerateAllExtends(plans: seq<PlannedItem>, today: int, table: seq<Lesson>)
    ensures |GenerateAll(plans, today, table)| >= |table|
    ensures GenerateAll(plans, today, table)[..|table|] == table
  {
    if plans != [] {
      GenerateAllExtends(plans[..|plans| - 1], today, table);
    }
  }

  /** A run over two lists of items in a row is a run over their
      concatenation. */
  lemma {:induction false} GenerateAllAppend(a: seq<PlannedItem>, b: seq<PlannedItem>, today: int, table: seq<Lesson>)
    ensures GenerateAll(a + b, today, table) == GenerateAll(b, today, GenerateAll(a, today, table))
  {
    if b != [] {
      var init, last := b[..|b| - 1], b[|b| - 1];
      assert (a + b)[..|a + b| - 1] == a + init;
      assert (a + b)[|a + b| - 1] == last;
      GenerateAllAppend(a, init, today, table);
      var mid := GenerateAll(a, today, table);
      var before := GenerateAll(a + init, today, table);
      assert before == GenerateAll(init, today, mid);
      assert GenerateAll(a + b, today, table) == before + Generate(last, today, before);
      assert GenerateAll(b, today, mid) == GenerateAll(init, today, mid) + Generate(last, today, GenerateAll(init, today, mid));
    } else {
      assert a + b == a;
    }
  }

  /** The classes created so far when the loop reaches `day`. */
  function CreatedBefore(item: ScheduleItem, term: Term, start: int, day: int, table: seq<Lesson>): seq<Lesson> {
    LessonsOn(item, MissingDays(item, ClassDays(item, term, start, day - 1), table))
  }

  /** The check against the growing table sees the same as a check against
      the table before the loop. */
  lemma CheckSeesOldTable(item: ScheduleItem, term: Term, start: int, day: int, table: seq<Lesson>)
    ensures HasClass(table + CreatedBefore(item, term, start, day, table), item, day) ==
      HasClass(table, item, day)
  {
    var earlier := ClassDays(item, term, start, day - 1);
    ClassDaysExact(item, term, start, day - 1);
    MissingDaysExact(item, earlier, table);
    HasClassAfterEarlierDays(table, item, MissingDays(item, earlier, table), day);
  }

  /** One more day of the loop. */
  lemma CreatedStep(item: ScheduleItem, term: Term, start: int, day: int, table: seq<Lesson>)
    requires start <= day
    ensures CreatedBefore(item, term, start, day + 1, table) ==
      CreatedBefore(item, term, start, day, table) +
      (if ClassDay(item, term, day) && !HasClass(table, item, day) then [NewLesson(item, day)] else [])
  {
    var earlier := ClassDays(item, term, start, day - 1);
    var now := ClassDays(item, term, start, day);
    var sofar := MissingDays(item, earlier, table);
    var ms := MissingDays(item, now, table);
    if ClassDay(item, term, day) {
      assert now == earlier + [day];
      assert now[..|now| - 1] == earlier;
      if !HasClass(table, item, day) {
        assert ms == sofar + [day];
        LessonsOnSnoc(item, sofar, day);
      } else {
        assert ms == sofar;
      }
    } else {
      assert now == earlier;
    }
  }

  lemma LessonsOnSnoc(item: ScheduleItem, days: seq<int>, day: int)
    ensures LessonsOn(item, days + [day]) == LessonsOn(item, days) + [NewLesson(item, day)]
  {
    assert (days + [day])[..|days|] == days;
  }

  /** The date loop for one item of `generate_classes`, over the table as
      it grows: a class is added on each class day that has none yet. */
  method NewClassesFor(p: PlannedItem, today: int, table: seq<Lesson>) returns (classes: seq<Lesson>, count: nat)
    ensures classes == table + Generate(p, today, table)
    ensures count == |Generate(p, today, table)|
  {
    var item, term := p.item, p.term;
    var start := GenerationStart(term, today);
    classes := table;
    count := 0;
    var day := start;
    while day <= term.classEnd
      invariant start <= day && (day <= term.classEnd + 1 || day == start)
      invariant classes == table + CreatedBefore(item, term, start, day, table)
      invariant count == |CreatedBefore(item, term, start, day, table)|
      decreases term.classEnd - day
    {
      CheckSeesOldTable(item, term, start, day, table);
      CreatedStep(item, term, start, day, table);
      if Weekday(day) == item.weekday {
        var week := WeekNumber(term, day);
        if WeekOccurs(item.weekType, week) {
          var holiday := IsHoliday(term.holidays, day);
          if !holiday && !HasClass(classes, item, day) {
            classes := classes + [NewLesson(item, day)];
            count := count + 1;
          }
        }
      }
      day := day + 1;
    }
    assert ClassDays(item, term, start, day - 1) == ClassDays(item, term, start, term.classEnd);
  }

  /** One item of `generate_classes`, saving its new classes. */
  method GenerateForItem(t: Timetable, p: PlannedItem, today: int) returns (count: nat)
    modifies t
    ensures t.classes == old(t.classes) + Generate(p, today, old(t.classes))
    ensures count == |Generate(p, today, old(t.classes))|
    ensures t.trackings == old(t.trackings) + NewTrackings(|old(t.classes)|, count)
    ensures t.items == old(t.items) && t.generations == old(t.generations) && t.timeSlots == old(t.timeSlots)
  {
    var table := t.classes;
    var classes;
    classes, count := NewClassesFor(p, today, table);
    assert classes[|table|..] == Generate(p, today, table);
    t.AddClasses(classes[|table|..]);
  }

  /** The item loop of `generate_classes`: every item in turn, each
      checked against the table the items before it left. */
  method NewClassesForAll(plans: seq<PlannedItem>, today: int, table: seq<Lesson>) returns (classes: seq<Lesson>)
    ensures classes == GenerateAll(plans, today, table)
  {
    classes := table;
    var k := 0;
    while k < |plans|
      invariant 0 <= k <= |plans|
      invariant classes == GenerateAll(plans[..k], today, table)
    {
      assert plans[..k + 1][..k] == plans[..k];
      var count;
      classes, count := NewClassesFor(plans[k], today, classes);
      k := k + 1;
    }
    assert plans[..k] == plans;
  }

  /** `ScheduleItemAdmin.generate_classes`: every selected item in turn;
      the count is the number of classes created. */
  method GenerateClasses(t: Timetable, plans: seq<PlannedItem>, today: int) returns (count: nat)
    modifies t
    ensures t.classes == GenerateAll(plans, today, old(t.classes))
    ensures count == |t.classes| - |old(t.classes)|
    ensures t.trackings == old(t.trackings) + NewTrackings(|old(t.classes)|, count)
    ensures t.items == old(t.items) && t.generations == old(t.generations) && t.timeSlots == old(t.timeSlots)
  {
    var table := t.classes;
    GenerateAllExtends(plans, today, table);
    var classes := NewClassesForAll(plans, today, table);
    assert table + classes[|table|..] == classes;
    t.AddClasses(classes[|table|..]);
    count := |classes| - |table|;
  }

  /** A template selected for generation: its id, its semester's term and
      its items. */
  datatype TemplatePlan = TemplatePlan(id: int, term: Term, items: seq<ScheduleItem>)

  function PlansOf(tp: TemplatePlan): seq<PlannedItem>
  {
    seq(|tp.items|, i requires 0 <= i < |tp.items| => PlannedItem(tp.items[i], tp.term))
  }

  /** The items of the selected templates, template by template. */
  function AllPlans(tps: seq<TemplatePlan>): seq<PlannedItem> {
    if tps == [] then [] else AllPlans(tps[..|tps| - 1]) + PlansOf(tps[|tps| - 1])
  }

  function GenerationLog(tps: seq<TemplatePlan>, today: int): seq<Generation>
  {
    seq(|tps|, i requires 0 <= i < |tps| => Generation(today, tps[i].id))
  }

  lemma TemplateStep(tps: seq<TemplatePlan>, k: nat, today: int, table: seq<Lesson>)
    requires k < |tps|
    ensures AllPlans(tps[..k + 1]) == AllPlans(tps[..k]) + PlansOf(tps[k])
    ensures GenerateAll(AllPlans(tps[..k + 1]), today, table) ==
      GenerateAll(PlansOf(tps[k]), today, GenerateAll(AllPlans(tps[..k]), today, table))
  {
    assert tps[..k + 1][..k] == tps[..k];
    GenerateAllAppend(AllPlans(tps[..k]), PlansOf(tps[k]), today, table);
  }

  lemma LogStep(tps: seq<TemplatePlan>, k: nat, today: int)
    requires k < |tps|
    ensures GenerationLog(tps[..k + 1], today) == GenerationLog(tps[..k], today) + [Generation(today, tps[k].id)]
  {
  }

  /** The log already has an entry for `today`: `DailyScheduleGeneration.date`
      is unique, so another entry for that day raises `IntegrityError`. */
  predicate LoggedOn(log: seq<Generation>, today: int) {
    exists j :: 0 <= j < |log| && log[j].date == today
  }

  /** From template `k` on, the first template whose log entry the unique
      date refuses, the entries of the templates before it written. */
  function LogClashFrom(tps: seq<TemplatePlan>, log: seq<Generation>, today: int, k: nat): (r: Option<nat>)
    ensures r.Some? ==> k <= r.value < |tps|
    decreases |tps| - k
  {
    if k >= |tps| then None
    else if LoggedOn(log + GenerationLog(tps[..k], today), today) then Some(k)
    else LogClashFrom(tps, log, today, k + 1)
  }

  /** The template at which a run stops with `IntegrityError`, if any. */
  function LogClash(tps: seq<TemplatePlan>, log: seq<Generation>, today: int): Option<nat> {
    LogClashFrom(tps, log, today, 0)
  }

  /** A run fails at the first template when the day is already logged and
      otherwise at the second: every entry of one run has the same date. */
  lemma LogClashCases(tps: seq<TemplatePlan>, log: seq<Generation>, today: int)
    ensures |tps| == 0 ==> LogClash(tps, log, today).None?
    ensures |tps| > 0 && LoggedOn(log, today) ==> LogClash(tps, log, today) == Some(0)
    ensures |tps| > 0 && !LoggedOn(log, today) ==>
      LogClash(tps, log, today) == if |tps| == 1 then None else Some(1)
  {
    if |tps| > 0 {
      assert log + GenerationLog(tps[..0], today) == log;
      if !LoggedOn(log, today) && |tps| > 1 {
        var l1 := log + GenerationLog(tps[..1], today);
        assert l1[|log|].date == today;
        assert LogClashFrom(tps, log, today, 1) == Some(1);
      }
    }
  }

  /** The number of templates whose items a run generates classes for:
      all of them, or up to and including the one that fails. */
  function TemplatesDone(tps: seq<TemplatePlan>, log: seq<Generation>, today: int): (n: nat)
    ensures n <= |tps|
  {
    var f := LogClash(tps, log, today);
    if f.None? then |tps| else f.value + 1
  }

  /** The number of templates whose log entry a run writes. */
  function TemplatesLogged(tps: seq<TemplatePlan>, log: seq<Generation>, today: int): (n: nat)
    ensures n <= TemplatesDone(tps, log, today)
  {
    var f := LogClash(tps, log, today);
    if f.None? then |tps| else f.value
  }

  /** The class table after a run of the template action. */
  function TemplateRunClasses(tps: seq<TemplatePlan>, today: int, table: seq<Lesson>, log: seq<Generation>): seq<Lesson> {
    GenerateAll(AllPlans(tps[..TemplatesDone(tps, log, today)]), today, table)
  }

  /** The generation log after a run of the template action. */
  function TemplateRunLog(tps: seq<TemplatePlan>, today: int, log: seq<Generation>): seq<Generation> {
    log + GenerationLog(tps[..TemplatesLogged(tps, log, today)], today)
  }

  /** `ScheduleTemplateAdmin.generate_classes`: the same rule for every item
      of every selected template, then a generation entry for the template.
      The entry that the unique date refuses ends the action with
      `IntegrityError`; what was saved before stays saved. */
  method GenerateTemplateClasses(t: Timetable, tps: seq<TemplatePlan>, today: int) returns (count: nat, failedAt: Option<nat>)
    modifies t
    ensures failedAt == LogClash(tps, old(t.generations), today)
    ensures t.classes == TemplateRunClasses(tps, today, old(t.classes), old(t.generations))
    ensures t.generations == TemplateRunLog(tps, today, old(t.generations))
    ensures count == |t.classes| - |old(t.classes)|
    ensures t.trackings == old(t.trackings) + NewTrackings(|old(t.classes)|, count)
    ensures t.items == old(t.items) && t.timeSlots == old(t.timeSlots)
  {
    var table := t.classes;
    var classes, generations;
    classes, generations, failedAt := TemplateLoop(tps, today, table, t.generations);
    GenerateAllExtends(AllPlans(tps[..TemplatesDone(tps, t.generations, today)]), today, table);
    assert table + classes[|table|..] == classes;
    t.AddClasses(classes[|table|..]);
    t.generations := generations;
    count := |classes| - |table|;
  }

  /** The template loop of `generate_classes`: each template's items in
      turn, then a generation entry for the template, until the unique date
      refuses one. */
  method TemplateLoop(tps: seq<TemplatePlan>, today: int, table: seq<Lesson>, log: seq<Generation>)
    returns (classes: seq<Lesson>, generations: seq<Generation>, failedAt: Option<nat>)
    ensures failedAt == LogClash(tps, log, today)
    ensures classes == TemplateRunClasses(tps, today, table, log)
    ensures generations == TemplateRunLog(tps, today, log)
  {
    classes, generations, failedAt := table, log, None;
    var k := 0;
    while k < |tps| && failedAt.None?
      invariant 0 <= k <= |tps|
      invariant TemplatesUpTo(tps, today, table, log, k, classes, generations, failedAt)
    {
      var tp := tps[k];
      TemplateStep(tps, k, today, table);
      classes := NewClassesForAll(PlansOf(tp), today, classes);
      var taken := LoggedOn(generations, today);
      if taken {
        TemplateLoopFails(tps, log, today, k);
        failedAt := Some(k);
      } else {
        TemplateLoopPasses(tps, log, today, k);
        LogStep(tps, k, today);
        generations := generations + [Generation(today, tp.id)];
      }
      k := k + 1;
    }
    TemplateLoopEnds(tps, today, table, log, k, classes, generations, failedAt);
  }

  /** The tables once the first `k` templates are handled: the classes of
      their items, and their log entries up to the one refused, if any. */
  predicate TemplatesUpTo(tps: seq<TemplatePlan>, today: int, table: seq<Lesson>, log: seq<Generation>, k: nat,
                          classes: seq<Lesson>, generations: seq<Generation>, failedAt: Option<nat>)
    requires k <= |tps|
  {
    classes == GenerateAll(AllPlans(tps[..k]), today, table) &&
    (failedAt.None? ==>
      generations == log + GenerationLog(tps[..k], today) && LogClash(tps, log, today) == LogClashFrom(tps, log, today, k)) &&
    (failedAt.Some? ==>
      1 <= k && failedAt.value == k - 1 && LogClash(tps, log, today) == failedAt &&
      generations == log + GenerationLog(tps[..k - 1], today))
  }

  /** A template whose log entry is refused is where the run stops. */
  lemma TemplateLoopFails(tps: seq<TemplatePlan>, log: seq<Generation>, today: int, k: nat)
    requires k < |tps| && LoggedOn(log + GenerationLog(tps[..k], today), today)
    ensures LogClashFrom(tps, log, today, k) == Some(k)
  {
  }

  /** A template whose log entry is accepted does not change where the run
      stops. */
  lemma TemplateLoopPasses(tps: seq<TemplatePlan>, log: seq<Generation>, today: int, k: nat)
    requires k < |tps| && !LoggedOn(log + GenerationLog(tps[..k], today), today)
    ensures LogClashFrom(tps, log, today, k) == LogClashFrom(tps, log, today, k + 1)
  {
  }

  lemma TemplateLoopEnds(tps: seq<TemplatePlan>, today: int, table: seq<Lesson>, log: seq<Generation>, k: nat,
                         classes: seq<Lesson>, generations: seq<Generation>, failedAt: Option<nat>)
    requires k <= |tps| && TemplatesUpTo(tps, today, table, log, k, classes, generations, failedAt)
    requires k == |tps| || failedAt.Some?
    ensures failedAt == LogClash(tps, log, today)
    ensures classes == TemplateRunClasses(tps, today, table, log)
    ensures generations == TemplateRunLog(tps, today, log)
  {
  }

  /** The items of a shorter prefix of the templates are items of a longer
      one. */
  lemma {:induction false} AllPlansPrefix(tps: seq<TemplatePlan>, i: nat, j: nat)
    requires i <= j <= |tps|
    ensures forall p :: p in AllPlans(tps[..i]) ==> p in AllPlans(tps[..j])
    decreases j - i
  {
    if i < j {
      AllPlansPrefix(tps, i, j - 1);
      assert tps[..j][..j - 1] == tps[..j - 1];
      assert AllPlans(tps[..j]) == AllPlans(tps[..j - 1]) + PlansOf(tps[j - 1]);
    }
  }

  /** Re-running the template action on the same day stops at its first
      template, since that day is logged now, and generates nothing for
      it: its items got their classes in the first run. Nothing else
      changes. */
  lemma TemplateRerunCreatesNothing(tps: seq<TemplatePlan>, today: int, table: seq<Lesson>, log: seq<Generation>)
    requires |tps| > 0
    ensures var classes := TemplateRunClasses(tps, today, table, log);
      var generations := TemplateRunLog(tps, today, log);
      LogClash(tps, generations, today) == Some(0) &&
      TemplateRunClasses(tps, today, classes, generations) == classes &&
      TemplateRunLog(tps, today, generations) == generations
  {
    var done := TemplatesDone(tps, log, today);
    var logged := TemplatesLogged(tps, log, today);
    var classes := TemplateRunClasses(tps, today, table, log);
    var generations := TemplateRunLog(tps, today, log);
    LogClashCases(tps, log, today);
    assert LoggedOn(generations, today) by {
      if logged > 0 {
        assert generations[|log|].date == today;
      } else {
        assert LoggedOn(log, today);
        assert generations[..|log|] == log;
      }
    }
    LogClashCases(tps, generations, today);
    assert generations + GenerationLog(tps[..0], today) == generations;
    AllPlansPrefix(tps, 1, done);
    GenerateAllCovers(AllPlans(tps[..done]), today, table);
    GenerateAllWhenCovered(AllPlans(tps[..1]), today, classes);
  }
}
