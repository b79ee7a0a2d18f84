/** Reports (`reports/models.py`): the access code a new report receives,
    the name of a report category, the signal that closes the scheduled
    runs of a finished report, and the signal that fills a new grade sheet
    with one entry per student of its group. The random hex text of a UUID
    and the current time are passed in. */
module Reports {
  import opened Common

  // -----------------------------------------------------------------------
  // Access codes

  predicate IsLowerHex(c: char) { '0' <= c <= '9' || 'a' <= c <= 'f' }

  predicate IsUpperHex(c: char) { '0' <= c <= '9' || 'A' <= c <= 'F' }

  /** `str.upper()` on one character of `uuid4().hex`. */
  function UpperHexChar(c: char): (u: char)
    ensures IsLowerHex(c) ==> IsUpperHex(u)
  {
    if 'a' <= c <= 'f' then (c as int - 32) as char else c
  }

  function UpperHex(s: string): (r: string)
    ensures |r| == |s|
    ensures forall i :: 0 <= i < |s| ==> r[i] == UpperHexChar(s[i])
  {
    if s == [] then [] else [UpperHexChar(s[0])] + UpperHex(s[1..])
  }

  /** The access code after `Report.save`: a new report without one gets
      the first ten hex digits of a fresh UUID in upper case; any other
      report keeps what it has. */
  function AccessCode(isNew: bool, current: string, uuidHex: string): string
    requires |uuidHex| == 32
  {
    if isNew && current == "" then UpperHex(uuidHex[..10]) else current
  }

  /** A generated code is ten upper-case hex digits that spell the start of
      the UUID; a code that is set, or the code of a saved report, never
      changes. */
  lemma AccessCodeShape(isNew: bool, current: string, uuidHex: string)
    requires |uuidHex| == 32 && forall i :: 0 <= i < 32 ==> IsLowerHex(uuidHex[i])
    ensures var c := AccessCode(isNew, current, uuidHex);
      (isNew && current == "" ==>
        |c| == 10 && (forall i :: 0 <= i < 10 ==> IsUpperHex(c[i])) &&
        Lower(c) == uuidHex[..10]) &&
      (!isNew || current != "" ==> c == current)
  {
    if isNew && current == "" {
      var c := UpperHex(uuidHex[..10]);
      forall i | 0 <= i < 10 ensures Lower(c)[i] == uuidHex[i] {
        assert c[i] == UpperHexChar(uuidHex[i]);
      }
    }
  }

  // -----------------------------------------------------------------------
  // Categories

  datatype Category = Category(name: string, parent: Option<Category>)

  /** `ReportCategory.__str__`: the parent's own name, " > " and the name;
      only one level of the hierarchy is shown. */
  function CategoryName(c: Category): string {
    if c.parent.Some? then c.parent.value.name + " > " + c.name else c.name
  }

  /** The name of a category three levels deep leaves the root out. */
  lemma CategoryNameOneLevel(root: string, middle: string, leaf: string)
    ensures var c := Category(leaf, Some(Category(middle, Some(Category(root, None)))));
      CategoryName(c) == middle + " > " + leaf &&
      CategoryName(c) == CategoryName(Category(leaf, Some(Category(middle, None))))
  {
  }

  // -----------------------------------------------------------------------
  // Scheduled runs of a report

  datatype ReportStatus = Generating | Completed | Failed

  datatype Report = Report(title: string, status: ReportStatus, errorMessage: string)

  datatype RunStatus = RunPending | Running | RunCompleted | RunFailed

  /** A scheduled run (`ReportScheduledRun`); `report` is the position of
      its report, if it has one. */
  datatype Run = Run(report: Option<nat>, status: RunStatus, finishedAt: Option<int>, errorMessage: string)

  /** One run after `update_report_status` for report `id`: a running run
      of that report ends as the report did, at `now`, taking the report's
      error message when the report failed with one. */
  function Closed(run: Run, id: nat, r: Report, now: int): Run {
    if r.status != Generating && run.report == Some(id) && run.status == Running then
      run.(status := if r.status == Completed then RunCompleted else RunFailed,
           finishedAt := Some(now),
           errorMessage := if r.status == Failed && r.errorMessage != "" then r.errorMessage else run.errorMessage)
    else run
  }

  function ClosedRuns(runs: seq<Run>, id: nat, r: Report, now: int): seq<Run>
  {
    seq(|runs|, i requires 0 <= i < |runs| => Closed(runs[i], id, r, now))
  }

  /** What the signal promises: once a report has finished, none of its
      runs is still running, each run it closed ended as the report did and
      carries its message only when it failed with one; runs of other
      reports and runs in other states are untouched, and a second signal
      changes nothing more. */
  lemma ClosedRunsSettle(runs: seq<Run>, id: nat, r: Report, now: int, later: int)
    requires r.status != Generating
    ensures var rs := ClosedRuns(runs, id, r, now);
      (forall i :: 0 <= i < |rs| && rs[i].report == Some(id) ==> rs[i].status != Running) &&
      (forall i :: 0 <= i < |rs| && rs[i] != runs[i] ==>
        runs[i].report == Some(id) && runs[i].status == Running && rs[i].finishedAt == Some(now) &&
        (rs[i].status == RunCompleted <==> r.status == Completed) &&
        (rs[i].errorMessage != runs[i].errorMessage ==> r.status == Failed && rs[i].errorMessage == r.errorMessage)) &&
      (forall i :: 0 <= i < |rs| && (runs[i].report != Some(id) || runs[i].status != Running) ==> rs[i] == runs[i]) &&
      ClosedRuns(rs, id, r, later) == rs
  {
  }

  /** A report still generating closes nothing. */
  lemma GeneratingClosesNothing(runs: seq<Run>, id: nat, r: Report, now: int)
    requires r.status == Generating
    ensures ClosedRuns(runs, id, r, now) == runs
  {
  }

  class ReportStore {
    var reports: seq<Report>
    var runs: seq<Run>

    constructor ()
      ensures reports == [] && runs == []
    {
      reports := [];
      runs := [];
    }

    /** `update_report_status` after report `id` is saved: the filtered
        runs are updated one by one. The source reads the clock once per
        run; the model stamps every run with the one moment `now`, so runs
        closed in the same pass share their `finishedAt`. */
    method UpdateReportStatus(id: nat, now: int)
      requires id < |reports|
      modifies this
      ensures runs == ClosedRuns(old(runs), id, old(reports)[id], now)
      ensures reports == old(reports)
    {
      var r := reports[id];
      if r.status == Completed || r.status == Failed {
        var i := 0;
        while i < |runs|
          invariant 0 <= i <= |runs| && |runs| == |old(runs)| && reports == old(reports)
          invariant forall j :: 0 <= j < i ==> runs[j] == Closed(old(runs)[j], id, r, now)
          invariant forall j :: i <= j < |runs| ==> runs[j] == old(runs)[j]
        {
          var run := runs[i];
          if run.report == Some(id) && run.status == Running {
            run := run.(status := if r.status == Completed then RunCompleted else RunFailed);
            run := run.(finishedAt := Some(now));
            if r.status == Failed && r.errorMessage != "" {
              run := run.(errorMessage := r.errorMessage);
            }
            runs := runs[i := run];
          }
          i := i + 1;
        }
      }
    }
  }

  // -----------------------------------------------------------------------
  // Grade sheets

  /** A student profile and the position of its group. */
  datatype Student = Student(id: nat, group: nat)

  /** A grade sheet of the reports module, for one group. */
  datatype GradeSheet = GradeSheet(group: nat)

  /** An entry of a grade sheet, with no grade yet. */
  datatype Entry = Entry(sheet: nat, student: nat, grade: Option<string>)

  /** The entries created for sheet `sheet` of group `group`, in the order
      of the student table. */
  function EntriesFor(students: seq<Student>, sheet: nat, group: nat): (es: seq<Entry>)
    ensures forall e :: e in es ==> e.sheet == sheet && e.grade.None?
  {
    if students == [] then []
    else
      var last := students[|students| - 1];
      EntriesFor(students[..|students| - 1], sheet, group) +
        (if last.group == group then [Entry(sheet, last.id, None)] else [])
  }

  function CountEntries(es: seq<Entry>, sheet: nat, student: nat): nat {
    if es == [] then 0
    else
      var last := es[|es| - 1];
      CountEntries(es[..|es| - 1], sheet, student) + (if last.sheet == sheet && last.student == student then 1 else 0)
  }

  function CountStudent(students: seq<Student>, id: nat, group: nat): nat {
    if students == [] then 0
    else
      var last := students[|students| - 1];
      CountStudent(students[..|students| - 1], id, group) + (if last.id == id && last.group == group then 1 else 0)
  }

  /** A student of the group is entered on the sheet as many times as it
      appears in the group, so once for distinct students; nobody else is
      entered. */
  lemma {:induction false} EntriesForCount(students: seq<Student>, sheet: nat, group: nat, id: nat)
    ensures CountEntries(EntriesFor(students, sheet, group), sheet, id) == CountStudent(students, id, group)
  {
    if students != [] {
      var init := students[..|students| - 1];
      var last := students[|students| - 1];
      EntriesForCount(init, sheet, group, id);
      var es := EntriesFor(init, sheet, group);
      if last.group == group {
        assert (es + [Entry(sheet, last.id, None)])[..|es|] == es;
      } else {
        assert es + [] == es;
      }
    }
  }

  lemma {:induction false} CountEntriesAppend(a: seq<Entry>, b: seq<Entry>, sheet: nat, student: nat)
    ensures CountEntries(a + b, sheet, student) == CountEntries(a, sheet, student) + CountEntries(b, sheet, student)
    decreases |b|
  {
    if b == [] {
      assert a + b == a;
    } else {
      var n := |b| - 1;
      CountEntriesAppend(a, b[..n], sheet, student);
      assert (a + b)[..|a + b| - 1] == a + b[..n];
    }
  }

  lemma {:induction false} NoEntriesOfOthers(es: seq<Entry>, sheet: nat, student: nat)
    requires forall e :: e in es ==> e.sheet != sheet
    ensures CountEntries(es, sheet, student) == 0
  {
    if es != [] {
      assert forall e :: e in es[..|es| - 1] ==> e in es;
      NoEntriesOfOthers(es[..|es| - 1], sheet, student);
      assert es[|es| - 1] in es;
    }
  }

  class SheetStore {
    var students: seq<Student>
    var sheets: seq<GradeSheet>
    var entries: seq<Entry>

    ghost predicate Valid()
      reads this
    {
      forall e :: e in entries ==> e.sheet < |sheets|
    }

    constructor ()
      ensures Valid() && students == [] && sheets == [] && entries == []
    {
      students := [];
      sheets := [];
      entries := [];
    }

    /** Saving a new grade sheet: the row and, through
        `create_grade_sheet_entries`, one empty entry per student of its
        group. */
    method CreateSheet(group: nat) returns (sheet: nat)
      requires Valid()
      modifies this
      ensures Valid()
      ensures sheet == old(|sheets|) && sheets == old(sheets) + [GradeSheet(group)]
      ensures entries == old(entries) + EntriesFor(students, sheet, group)
      ensures students == old(students)
    {
      sheet := |sheets|;
      sheets := sheets + [GradeSheet(group)];
      var i := 0;
      ghost var before := entries;
      while i < |students|
        invariant 0 <= i <= |students| && students == old(students)
        invariant sheets == old(sheets) + [GradeSheet(group)] && sheet == |sheets| - 1
        invariant forall e :: e in entries ==> e.sheet < |sheets|
        invariant entries == before + EntriesFor(students[..i], sheet, group)
      {
        if students[i].group == group {
          entries := entries + [Entry(sheet, students[i].id, None)];
        }
        assert students[..i + 1][..i] == students[..i];
        i := i + 1;
      }
      assert students[..i] == students;
    }
  }

  /** After a sheet is created, each student of its group has exactly as
      many entries on it as rows in the student table (one for a table
      without duplicates), and students of other groups have none. */
  lemma NewSheetEntries(entries: seq<Entry>, students: seq<Student>, sheet: nat, group: nat, id: nat)
    requires forall e :: e in entries ==> e.sheet < sheet
    ensures CountEntries(entries + EntriesFor(students, sheet, group), sheet, id) == CountStudent(students, id, group)
  {
    CountEntriesAppend(entries, EntriesFor(students, sheet, group), sheet, id);
    NoEntriesOfOthers(entries, sheet, id);
    EntriesForCount(students, sheet, group, id);
  }
}
