/** Actions of the academic-records admin pages. An action receives the
    rows the administrator selected, given as distinct positions in their
    table; a loop over the selection saves row by row, a bulk `update` is
    one assignment of the whole table. */
module AcademicPerformanceAdmin {
  import opened Common
  import opened AcademicPerformance

  // -----------------------------------------------------------------------
  // Grading systems

  datatype GradeSystem = GradeSystem(name: string, isDefault: bool)

  /** `make_default`: every system loses the flag, then all the selected
      ones get it. */
  function MadeDefault(systems: seq<GradeSystem>, selected: seq<nat>): (r: seq<GradeSystem>)
    ensures |r| == |systems|
    ensures forall i :: 0 <= i < |systems| ==> (r[i].isDefault <==> i in selected) && r[i].name == systems[i].name
  {
    var cleared := seq(|systems|, i requires 0 <= i < |systems| => systems[i].(isDefault := false));
    Updated(cleared, selected, SetDefault)
  }

  function SetDefault(s: GradeSystem): GradeSystem {
    s.(isDefault := true)
  }

  /** Selecting a single system leaves exactly one default. */
  lemma MakeDefaultSingle(systems: seq<GradeSystem>, k: nat)
    requires k < |systems|
    ensures var r := MadeDefault(systems, [k]);
      r[k].isDefault && forall i :: 0 <= i < |r| && r[i].isDefault ==> i == k
  {
  }

  // -----------------------------------------------------------------------
  // Grades

  /** `GradeAdmin.recalculate_percentage` on one grade. */
  predicate Recalculable(g: GradeRecord) {
    g.points.Some? && g.maxPoints.Some? && g.maxPoints.value > 0.0
  }

  function Recalculated(g: GradeRecord): GradeRecord {
    if Recalculable(g) then
      g.(percentage := Some(g.points.value / g.maxPoints.value * 100.0))
    else g
  }

  /** The recalculated percentage is the share of the maximum, between 0
      and 100 for points within it and 100 at the maximum; a grade without
      points or a positive maximum is left alone, and a second
      recalculation changes nothing. */
  lemma RecalculatedIsShare(g: GradeRecord)
    ensures var r := Recalculated(g);
      r.points == g.points && r.maxPoints == g.maxPoints && r.value == g.value &&
      Recalculated(r) == r &&
      (!(g.points.Some? && g.maxPoints.Some? && g.maxPoints.value > 0.0) ==> r == g) &&
      (g.points.Some? && g.maxPoints.Some? && 0.0 <= g.points.value <= g.maxPoints.value && g.maxPoints.value > 0.0 ==>
        r.percentage.Some? && 0.0 <= r.percentage.value <= 100.0 &&
        (r.percentage.value == 100.0 <==> g.points.value == g.maxPoints.value))
  {
    if g.points.Some? && g.maxPoints.Some? && g.maxPoints.value > 0.0 {
      var p, m := g.points.value, g.maxPoints.value;
      var q := p / m;
      assert q * m == p;
      if 0.0 <= p <= m {
        assert 0.0 <= q <= 1.0;
        assert q * 100.0 == 100.0 <==> p == m;
      }
    }
  }

  /** The grade, summary, debt and standing tables, which saving a grade
      changes. */
  datatype GradeTables = GradeTables(grades: seq<GradeRecord>, summaries: map<(int, int), Summary>,
                                     debts: seq<Debt>, standings: seq<Standing>)

  /** The tables after the action has passed the first `k` selected
      grades. Each recalculated grade is saved, and its two `post_save`
      receivers run: the summary counts the grade once more, then the
      debt clearance. The grades are those of `Updated`. */
  function RecalcUpTo(start: GradeTables, selected: seq<nat>, today: int, k: nat): (r: GradeTables)
    requires Selection(|start.grades|, selected) && k <= |selected|
    ensures r.grades == Updated(start.grades, selected[..k], Recalculated)
  {
    if k == 0 then start
    else
      var before := RecalcUpTo(start, selected, today, k - 1);
      var i := selected[k - 1];
      assert i !in selected[..k - 1] && selected[..k][..k - 1] == selected[..k - 1];
      assert forall j :: j in selected[..k] <==> j in selected[..k - 1] || j == i;
      var g := before.grades[i];
      if !Recalculable(g) then before
      else
        var g' := Recalculated(g);
        var grades := before.grades[i := g'];
        var key := (g'.student, g'.semester);
        GradeTables(grades, before.summaries[key := SummaryAfterGrade(SummaryOf(before.summaries, key), g', grades)],
                    MapAfterGrade(before.debts, g'), StandingsUpTo(before.debts, before.standings, g', today, |before.debts|))
  }

  /** One more grade of the selection. */
  lemma RecalcStep(start: GradeTables, selected: seq<nat>, today: int, k: nat)
    requires Selection(|start.grades|, selected) && k < |selected|
    ensures var before := RecalcUpTo(start, selected, today, k);
      var i := selected[k];
      |before.grades| == |start.grades| &&
      RecalcUpTo(start, selected, today, k + 1) ==
        if !Recalculable(before.grades[i]) then before
        else
          var g := Recalculated(before.grades[i]);
          var grades := before.grades[i := g];
          var key := (g.student, g.semester);
          GradeTables(grades, before.summaries[key := SummaryAfterGrade(SummaryOf(before.summaries, key), g, grades)],
                      MapAfterGrade(before.debts, g), StandingsUpTo(before.debts, before.standings, g, today, |before.debts|))
  {
  }

  /** `recalculate_percentage`: the loop saves each selected grade with
      points and a positive maximum; `today` is the day the standing
      receiver reads from the clock. */
  method RecalculatePercentage(book: Gradebook, reg: DebtRegistry, selected: seq<nat>, today: int)
    requires Selection(|book.grades|, selected)
    modifies book, reg
    ensures var r := RecalcUpTo(GradeTables(old(book.grades), old(book.summaries), old(reg.debts), old(reg.standings)),
                                selected, today, |selected|);
      book.grades == r.grades && book.summaries == r.summaries && reg.debts == r.debts && reg.standings == r.standings
    ensures book.grades == Updated(old(book.grades), selected, Recalculated)
    ensures book.history == old(book.history)
  {
    var start := GradeTables(book.grades, book.summaries, reg.debts, reg.standings);
    var k := 0;
    while k < |selected|
      invariant 0 <= k <= |selected|
      invariant GradeTables(book.grades, book.summaries, reg.debts, reg.standings) == RecalcUpTo(start, selected, today, k)
      invariant book.history == old(book.history)
    {
      RecalcStep(start, selected, today, k);
      ghost var after := RecalcUpTo(start, selected, today, k + 1);
      var i := selected[k];
      var g := book.grades[i];
      if Recalculable(g) {
        g := Recalculated(g);
        book.grades := book.grades[i := g];
        UpdatePerformanceSummary(book, g);
        assert book.summaries == after.summaries;
        ClearDebts(reg, g, today);
        assert reg.debts == after.debts && reg.standings == after.standings;
      }
      k := k + 1;
    }
    assert selected[..k] == selected;
  }

  // -----------------------------------------------------------------------
  // The tables of the remaining actions

  datatype SheetStatus = Draft | Approved | Closed

  /** A grade sheet (`GradeSheet`) with its optional expiration day. */
  datatype GradeSheet = GradeSheet(number: string, status: SheetStatus, expiration: Option<int>)

  datatype PermissionStatus = Issued | Used | Expired | Canceled

  /** A retake permission (`RetakePermission`); its expiration day is
      required. */
  datatype RetakePermission = RetakePermission(debt: nat, expiration: int, status: PermissionStatus)

  datatype ImportStatus = Pending | Processing | Completed | Failed | PartiallyCompleted

  datatype ImportItemStatus = Waiting | Processed | Error | Skipped

  /** A grade import (`GradeImport`) and a row of it (`GradeImportItem`,
      whose `pending` status is `Waiting` here); `owner` is the position of
      the import the row belongs to. */
  datatype GradeImport = GradeImport(fileName: string, status: ImportStatus)

  datatype ImportItem = ImportItem(owner: nat, row: nat, status: ImportItemStatus)

  class AcademicTables {
    var sheets: seq<GradeSheet>
    var permissions: seq<RetakePermission>
    var imports: seq<GradeImport>
    var importItems: seq<ImportItem>
    var systems: seq<GradeSystem>

    constructor ()
      ensures sheets == [] && permissions == [] && imports == [] && importItems == [] && systems == []
    {
      sheets := [];
      permissions := [];
      imports := [];
      importItems := [];
      systems := [];
    }
  }

  /** `GradeSystemAdmin.make_default`: two bulk updates. */
  method MakeDefault(t: AcademicTables, selected: seq<nat>)
    modifies t
    ensures t.systems == MadeDefault(old(t.systems), selected)
    ensures t.sheets == old(t.sheets) && t.permissions == old(t.permissions)
    ensures t.imports == old(t.imports) && t.importItems == old(t.importItems)
  {
    var systems := t.systems;
    t.systems := seq(|systems|, i requires 0 <= i < |systems| => systems[i].(isDefault := false));
    t.systems := Updated(t.systems, selected, SetDefault);
  }

  // -----------------------------------------------------------------------
  // Grade sheets

  /** `extend_expiration_date` on one sheet: a week past its expiration,
      or a week from today when it has none. */
  function ExtendedSheet(today: int): GradeSheet -> GradeSheet {
    (s: GradeSheet) => s.(expiration := Some(if s.expiration.Some? then s.expiration.value + 7 else today + 7))
  }

  /** Every sheet the action touches comes out with an expiration a week
      later than its old one, or than today; nothing else about it
      changes. */
  lemma ExtendedSheetIsWeekLater(s: GradeSheet, today: int)
    ensures var r := ExtendedSheet(today)(s);
      r.expiration.Some? && r.number == s.number && r.status == s.status &&
      r.expiration.value == (if s.expiration.Some? then s.expiration.value else today) + 7 &&
      (s.expiration.Some? && s.expiration.value >= today ==> r.expiration.value >= today + 7)
  {
  }

  method ExtendExpirationDate(t: AcademicTables, selected: seq<nat>, today: int)
    requires Selection(|t.sheets|, selected)
    modifies t
    ensures t.sheets == Updated(old(t.sheets), selected, ExtendedSheet(today))
    ensures t.systems == old(t.systems) && t.permissions == old(t.permissions)
    ensures t.imports == old(t.imports) && t.importItems == old(t.importItems)
  {
    t.sheets := ForEachSelected(t.sheets, selected, ExtendedSheet(today));
  }

  // -----------------------------------------------------------------------
  // Academic standings

  predicate Extendable(s: Standing) {
    s.statusType == Warning || s.statusType == Probation || s.statusType == AcademicLeave
  }

  /** `extend_for_month` on one standing: only warnings, probations and
      academic leaves, whose end moves 30 days on, or to 30 days from today
      when they have none. */
  function ExtendedStanding(today: int): Standing -> Standing {
    (s: Standing) =>
      if Extendable(s) then s.(end := Some(if s.end.Some? then s.end.value + 30 else today + 30)) else s
  }

  /** An extended standing always has an end afterwards, so an open one
      stops being the current standing of the student; other standings are
      untouched. */
  lemma ExtendForMonthEndsOpenStandings(standings: seq<Standing>, selected: seq<nat>, today: int, student: int)
    ensures var r := Updated(standings, selected, ExtendedStanding(today));
      (forall i :: 0 <= i < |r| && i in selected && Extendable(standings[i]) ==> r[i].end.Some? && !OpenFor(r[i], student)) &&
      (forall i :: 0 <= i < |r| && (i !in selected || !Extendable(standings[i])) ==> r[i] == standings[i]) &&
      (forall i :: 0 <= i < |r| && OpenFor(r[i], student) ==> OpenFor(standings[i], student))
  {
  }

  method ExtendForMonth(reg: DebtRegistry, selected: seq<nat>, today: int)
    requires Selection(|reg.standings|, selected)
    modifies reg
    ensures reg.standings == Updated(old(reg.standings), selected, ExtendedStanding(today))
    ensures reg.debts == old(reg.debts)
  {
    reg.standings := ForEachSelected(reg.standings, selected, ExtendedStanding(today));
  }

  // -----------------------------------------------------------------------
  // Scholarship assignments

  /** `extend_for_semester`: the end of every selected active assignment
      moves 180 days on; an assignment running on a day still runs on it,
      and it now runs 180 days longer. */
  method ExtendForSemester(assignments: seq<ScholarshipAssignment>)
    requires forall i, j :: 0 <= i < j < |assignments| ==> assignments[i] != assignments[j]
    modifies set a | a in assignments
    ensures forall i :: 0 <= i < |assignments| ==>
      assignments[i].status == old(assignments[i].status) &&
      assignments[i].start == old(assignments[i].start) &&
      assignments[i].amount == old(assignments[i].amount) &&
      assignments[i].end == old(assignments[i].end) + (if old(assignments[i].status) == AssignmentStatus.Active then 180 else 0)
    ensures forall i, d :: 0 <= i < |assignments| && old(assignments[i].IsActive(d)) ==>
      assignments[i].IsActive(d) && assignments[i].IsActive(old(assignments[i].end) + 180)
  {
    var k := 0;
    while k < |assignments|
      invariant 0 <= k <= |assignments|
      invariant forall i :: 0 <= i < |assignments| ==>
        assignments[i].status == old(assignments[i].status) &&
        assignments[i].start == old(assignments[i].start) &&
        assignments[i].amount == old(assignments[i].amount) &&
        assignments[i].end == old(assignments[i].end) +
          (if i < k && old(assignments[i].status) == AssignmentStatus.Active then 180 else 0)
    {
      var a := assignments[k];
      if a.status == AssignmentStatus.Active {
        a.end := a.end + 180;
      }
      k := k + 1;
    }
  }

  // -----------------------------------------------------------------------
  // Debts

  /** `extend_deadline` on one debt: active and extended debts get 14 more
      days and become extended. */
  function ExtendedDebt(d: Debt): Debt {
    if DebtExtendable(d) then d.(deadline := d.deadline + 14, status := Extended) else d
  }

  lemma {:induction false} SameOutstanding(a: seq<Debt>, b: seq<Debt>, student: int)
    requires |a| == |b|
    requires forall i :: 0 <= i < |a| ==> a[i].student == b[i].student && (Outstanding(a[i]) <==> Outstanding(b[i]))
    ensures OutstandingCount(a, student) == OutstandingCount(b, student)
  {
    if a != [] {
      var n := |a| - 1;
      SameOutstanding(a[..n], b[..n], student);
    }
  }

  /** Extending deadlines never changes which debts are outstanding, so the
      standing the debts call for stays the same; an extended debt is due
      14 days later. */
  lemma ExtendDeadlineKeepsStanding(debts: seq<Debt>, selected: seq<nat>, student: int)
    ensures var r := Updated(debts, selected, ExtendedDebt);
      OutstandingCount(r, student) == OutstandingCount(debts, student) &&
      StandingFor(OutstandingCount(r, student)) == StandingFor(OutstandingCount(debts, student)) &&
      (forall i :: 0 <= i < |r| && i in selected && (debts[i].status == DebtStatus.Active || debts[i].status == Extended) ==>
        r[i].deadline == debts[i].deadline + 14 && r[i].status == Extended) &&
      (forall i :: 0 <= i < |r| && !(debts[i].status == DebtStatus.Active || debts[i].status == Extended) ==> r[i] == debts[i])
  {
    SameOutstanding(Updated(debts, selected, ExtendedDebt), debts, student);
  }

  predicate DebtExtendable(d: Debt) {
    d.status == DebtStatus.Active || d.status == Extended
  }

  /** The standings after the action has saved the first `k` selected
      debts: each extended debt's `post_save` receiver
      `update_student_academic_standing` runs for its student, whose
      outstanding count the extensions leave as it was. */
  function ExtendStandingsUpTo(debts: seq<Debt>, standings: seq<Standing>, selected: seq<nat>, today: int, k: nat): seq<Standing>
    requires Selection(|debts|, selected) && k <= |selected|
  {
    if k == 0 then standings
    else
      var before := ExtendStandingsUpTo(debts, standings, selected, today, k - 1);
      var d := debts[selected[k - 1]];
      if DebtExtendable(d) then
        StandingsAfter(before, d.student, StandingFor(OutstandingCount(debts, d.student)), Some(d.semester), today)
      else before
  }

  /** `extend_deadline`: each selected active or extended debt is saved in
      turn, and its standing receiver runs on the debts as they are then;
      `today` is the day that receiver reads from the clock. */
  method ExtendDeadline(reg: DebtRegistry, selected: seq<nat>, today: int)
    requires Selection(|reg.debts|, selected)
    modifies reg
    ensures reg.debts == Updated(old(reg.debts), selected, ExtendedDebt)
    ensures reg.standings == ExtendStandingsUpTo(old(reg.debts), old(reg.standings), selected, today, |selected|)
  {
    var debts, standings := reg.debts, reg.standings;
    var k := 0;
    while k < |selected|
      invariant 0 <= k <= |selected|
      invariant reg.debts == Updated(debts, selected[..k], ExtendedDebt)
      invariant reg.standings == ExtendStandingsUpTo(debts, standings, selected, today, k)
    {
      var i := selected[k];
      assert i !in selected[..k];
      assert forall j :: j in selected[..k + 1] <==> j in selected[..k] || j == i;
      var d := reg.debts[i];
      if d.status == DebtStatus.Active || d.status == Extended {
        reg.debts := reg.debts[i := d.(deadline := d.deadline + 14, status := Extended)];
        assert reg.debts == Updated(debts, selected[..k + 1], ExtendedDebt);
        ExtendDeadlineKeepsStanding(debts, selected[..k + 1], d.student);
        UpdateStanding(reg, d.student, Some(d.semester), today);
      } else {
        assert reg.debts == Updated(debts, selected[..k + 1], ExtendedDebt);
      }
      k := k + 1;
    }
    assert selected[..k] == selected;
  }

  /** The action keeps at most one open standing for every student, and a
      student with an extended debt ends with a current standing of the
      type the outstanding debts call for, which the extension leaves as it
      was. */
  lemma {:induction false} ExtendingSetsStanding(debts: seq<Debt>, standings: seq<Standing>, selected: seq<nat>, today: int,
                                                 k: nat, s: int)
    requires Selection(|debts|, selected) && k <= |selected| && AtMostOneOpen(standings, s)
    ensures var r := ExtendStandingsUpTo(debts, standings, selected, today, k);
      AtMostOneOpen(r, s) &&
      ((exists j :: 0 <= j < k && debts[selected[j]].student == s && DebtExtendable(debts[selected[j]])) ==>
        CurrentStanding(r, s).Some? && r[CurrentStanding(r, s).value].statusType == StandingFor(OutstandingCount(debts, s)))
  {
    if k > 0 {
      ExtendingSetsStanding(debts, standings, selected, today, k - 1, s);
      var before := ExtendStandingsUpTo(debts, standings, selected, today, k - 1);
      var d := debts[selected[k - 1]];
      if DebtExtendable(d) {
        var t := StandingFor(OutstandingCount(debts, d.student));
        if d.student == s {
          StandingsAfterKeepsOneOpen(before, s, t, Some(d.semester), today);
        } else {
          StandingsAfterOtherStudent(before, d.student, s, t, Some(d.semester), today);
        }
      }
    }
  }

  // -----------------------------------------------------------------------
  // Retake permissions

  /** `extend_permission` on one permission: issued and expired ones get
      14 more days and are issued again. */
  function ExtendedPermission(p: RetakePermission): RetakePermission {
    if p.status == Issued || p.status == PermissionStatus.Expired then p.(expiration := p.expiration + 14, status := Issued) else p
  }

  /** After the action no selected permission is left expired, used and
      canceled permissions are untouched, and a touched permission is
      usable 14 days past its old expiration. */
  lemma ExtendPermissionRevives(ps: seq<RetakePermission>, selected: seq<nat>)
    ensures var r := Updated(ps, selected, ExtendedPermission);
      (forall i :: 0 <= i < |r| && i in selected ==> r[i].status != PermissionStatus.Expired) &&
      (forall i :: 0 <= i < |r| && (ps[i].status == Used || ps[i].status == PermissionStatus.Canceled) ==> r[i] == ps[i]) &&
      (forall i :: 0 <= i < |r| && i in selected && ps[i].status in {Issued, PermissionStatus.Expired} ==>
        r[i].status == Issued && r[i].expiration == ps[i].expiration + 14)
  {
  }

  method ExtendPermission(t: AcademicTables, selected: seq<nat>)
    requires Selection(|t.permissions|, selected)
    modifies t
    ensures t.permissions == Updated(old(t.permissions), selected, ExtendedPermission)
    ensures t.systems == old(t.systems) && t.sheets == old(t.sheets)
    ensures t.imports == old(t.imports) && t.importItems == old(t.importItems)
  {
    t.permissions := ForEachSelected(t.permissions, selected, ExtendedPermission);
  }

  // -----------------------------------------------------------------------
  // Grade imports

  /** `cancel_imports` on one import: pending and processing imports fail. */
  function CancelImport(g: GradeImport): GradeImport {
    if g.status == ImportStatus.Pending || g.status == Processing then g.(status := Failed) else g
  }

  /** After a cancel no selected import is pending or processing, finished
      imports keep their status, and canceling again changes nothing. */
  lemma CancelImportsSettles(imports: seq<GradeImport>, selected: seq<nat>)
    ensures var r := Updated(imports, selected, CancelImport);
      (forall i :: 0 <= i < |r| && i in selected ==> r[i].status != ImportStatus.Pending && r[i].status != Processing) &&
      (forall i :: 0 <= i < |r| && imports[i].status in {ImportStatus.Completed, Failed, PartiallyCompleted} ==> r[i] == imports[i]) &&
      Updated(r, selected, CancelImport) == r
  {
    var r := Updated(imports, selected, CancelImport);
    forall i | 0 <= i < |r| ensures Updated(r, selected, CancelImport)[i] == r[i] {
    }
  }

  /** One bulk update of the selected imports. */
  method CancelImports(t: AcademicTables, selected: seq<nat>)
    modifies t
    ensures t.imports == Updated(old(t.imports), selected, CancelImport)
    ensures t.systems == old(t.systems) && t.sheets == old(t.sheets)
    ensures t.permissions == old(t.permissions) && t.importItems == old(t.importItems)
  {
    t.imports := Updated(t.imports, selected, CancelImport);
  }

  /** The rows of the imports in `owners` that failed are queued again. */
  function Retried(items: seq<ImportItem>, owners: seq<nat>): (r: seq<ImportItem>)
    ensures |r| == |items|
  {
    seq(|items|, j requires 0 <= j < |items| =>
      if items[j].owner in owners && items[j].status == Error then items[j].(status := Waiting) else items[j])
  }

  lemma RetriedStep(items: seq<ImportItem>, owners: seq<nat>, o: nat)
    ensures Retried(Retried(items, owners), [o]) == Retried(items, owners + [o])
  {
    var a, b := Retried(Retried(items, owners), [o]), Retried(items, owners + [o]);
    forall j | 0 <= j < |items| ensures a[j] == b[j] {
      assert items[j].owner in owners + [o] <==> items[j].owner in owners || items[j].owner == o;
    }
  }

  function StartProcessing(g: GradeImport): GradeImport {
    g.(status := Processing)
  }

  /** After a retry no row of a selected import is in error, the rows
      that were in error are queued again, and every other row is
      untouched. */
  lemma RetryLeavesNoErrors(items: seq<ImportItem>, owners: seq<nat>)
    ensures var r := Retried(items, owners);
      (forall j :: 0 <= j < |r| && r[j].owner in owners ==> r[j].status != Error) &&
      (forall j :: 0 <= j < |r| && items[j].owner in owners && items[j].status == Error ==> r[j].status == Waiting) &&
      (forall j :: 0 <= j < |r| && (items[j].owner !in owners || items[j].status != Error) ==> r[j] == items[j])
  {
  }

  /** `retry_failed_items`: for each selected import, a bulk update of its
      failed rows, then the import is saved as processing. */
  method RetryFailedItems(t: AcademicTables, selected: seq<nat>)
    requires Selection(|t.imports|, selected)
    modifies t
    ensures t.importItems == Retried(old(t.importItems), selected)
    ensures t.imports == Updated(old(t.imports), selected, StartProcessing)
    ensures t.systems == old(t.systems) && t.sheets == old(t.sheets) && t.permissions == old(t.permissions)
  {
    var k := 0;
    while k < |selected|
      invariant 0 <= k <= |selected|
      invariant t.importItems == Retried(old(t.importItems), selected[..k])
      invariant |t.imports| == |old(t.imports)|
      invariant forall i :: 0 <= i < |t.imports| ==>
        t.imports[i] == if i in selected[..k] then old(t.imports[i]).(status := Processing) else old(t.imports[i])
      invariant t.systems == old(t.systems) && t.sheets == old(t.sheets) && t.permissions == old(t.permissions)
    {
      var owner := selected[k];
      assert forall o :: o in selected[..k + 1] <==> o in selected[..k] || o == owner;
      assert selected[..k + 1] == selected[..k] + [owner];
      RetriedStep(old(t.importItems), selected[..k], owner);
      t.importItems := Retried(t.importItems, [owner]);
      t.imports := t.imports[owner := t.imports[owner].(status := Processing)];
      k := k + 1;
    }
    assert selected[..k] == selected;
  }
}
