/** Site settings (`site_settings/models.py`): the settings tables that
    hold a single row, and the per-role profile display settings whose
    `show_*` flags become the field and section visibility maps the
    profile pages read. A table is a map from primary key to row; the
    cache in front of `SiteSettings` is not modelled. */
module SiteSettings {
  import opened Common

  // -----------------------------------------------------------------------
  // Tables kept to a single row

  predicate IsLeast(m: nat, keys: set<nat>) {
    m in keys && forall k :: k in keys ==> m <= k
  }

  /** A nonempty set of keys has a least element. */
  lemma {:induction false} HasLeast(keys: set<nat>)
    requires keys != {}
    ensures exists m :: IsLeast(m, keys)
    decreases keys
  {
    var x :| x in keys;
    var rest := keys - {x};
    if rest == {} {
      forall k | k in keys
        ensures x <= k
      {
        assert k !in rest;
      }
      assert IsLeast(x, keys);
    } else {
      HasLeast(rest);
      var m :| IsLeast(m, rest);
      var least := if x < m then x else m;
      forall k | k in keys
        ensures least <= k
      {
        if k != x {
          assert k in rest;
        }
      }
      assert IsLeast(least, keys);
    }
  }

  /** The key of the row `objects.first()` returns: with no ordering of its
      own, `first()` orders by primary key. */
  function FirstKey(keys: set<nat>): (m: nat)
    requires keys != {}
    ensures m in keys && forall k :: k in keys ==> m <= k
  {
    HasLeast(keys);
    var m :| IsLeast(m, keys);
    m
  }

  /** The table after `save`: a row without a key takes the key of the
      first existing row, so it overwrites that row; with no row at all it
      is inserted under the next automatic key. A row with a key is
      written under that key, updating or inserting. */
  function SavedRows<T>(rows: map<nat, T>, nextPk: nat, pk: Option<nat>, data: T): map<nat, T> {
    var key := if pk.Some? then pk.value else if rows != map[] then FirstKey(rows.Keys) else nextPk;
    rows[key := data]
  }

  /** Saving a row without a key into a table that has one replaces that
      row's contents and adds no row; into an empty table it adds exactly
      one row. Either way the saved data is what `first()` then returns. */
  lemma SaveWithoutKey<T>(rows: map<nat, T>, nextPk: nat, data: T)
    requires forall k :: k in rows ==> k < nextPk
    ensures var r := SavedRows(rows, nextPk, None, data);
      (rows != map[] ==> r.Keys == rows.Keys) &&
      (rows == map[] ==> r.Keys == {nextPk}) &&
      r != map[] && r[FirstKey(r.Keys)] == data
  {
    var r := SavedRows(rows, nextPk, None, data);
    if rows != map[] {
      var f := FirstKey(rows.Keys);
      assert r.Keys == rows.Keys;
      assert FirstKey(r.Keys) == f;
    } else {
      assert r.Keys == {nextPk};
    }
  }

  /** The single-row invariant: a table with at most one row still has at
      most one after any save of a new row or of the row it holds. */
  lemma {:induction false} SaveKeepsSingleRow<T>(rows: map<nat, T>, nextPk: nat, pk: Option<nat>, data: T)
    requires |rows| <= 1
    requires pk.Some? ==> pk.value in rows || rows == map[]
    ensures |SavedRows(rows, nextPk, pk, data)| == 1
  {
    var r := SavedRows(rows, nextPk, pk, data);
    if rows == map[] {
      var key := if pk.Some? then pk.value else nextPk;
      assert r.Keys == {key};
    } else {
      var only := FirstKey(rows.Keys);
      assert rows.Keys == {only} by {
        forall k | k in rows.Keys ensures k == only {
          if k != only {
            assert {k, only} <= rows.Keys;
            SubsetCard({k, only}, rows.Keys);
          }
        }
      }
      assert r.Keys == rows.Keys;
    }
  }

  /** A settings table with its automatic key counter. */
  class SettingsTable<T> {
    var rows: map<nat, T>
    var nextPk: nat

    ghost predicate Valid()
      reads this
    {
      forall k :: k in rows ==> k < nextPk
    }

    constructor ()
      ensures Valid() && rows == map[]
    {
      rows := map[];
      nextPk := 1;
    }

    /** `save()` of a settings model, returning the key it wrote under. */
    method Save(pk: Option<nat>, data: T) returns (saved: nat)
      requires Valid()
      modifies this
      ensures Valid()
      ensures rows == SavedRows(old(rows), old(nextPk), pk, data)
      ensures saved in rows && rows[saved] == data
    {
      if pk.Some? {
        saved := pk.value;
      } else if rows != map[] {
        saved := FirstKey(rows.Keys);
      } else {
        saved := nextPk;
      }
      rows := rows[saved := data];
      if saved >= nextPk {
        nextPk := saved + 1;
      }
    }

    /** `get_settings`: the first row, created from the defaults when the
        table is empty. */
    method GetSettings(defaults: T) returns (settings: T)
      requires Valid()
      modifies this
      ensures Valid() && rows != map[]
      ensures old(rows) != map[] ==> rows == old(rows) && settings == rows[FirstKey(rows.Keys)]
      ensures old(rows) == map[] ==> rows == map[old(nextPk) := defaults] && settings == defaults
    {
      if rows == map[] {
        var key := Save(None, defaults);
        settings := defaults;
      } else {
        settings := rows[FirstKey(rows.Keys)];
      }
    }
  }

  // -----------------------------------------------------------------------
  // Visibility configuration of the profile pages
  //
  // A configuration is the dictionary `get_fields_config` or
  // `get_sections_config` returns, as its entries in insertion order, the
  // order in which the profile page lists them.

  datatype FieldKind = Plain | Choice | Boolean

  /** One entry of `get_fields_config`: `is_choice` and `is_boolean` are
      the two non-plain kinds. */
  datatype Field = Field(key: string, displayName: string, visible: bool, kind: FieldKind)

  /** One entry of `get_sections_config`. */
  datatype Section = Section(key: string, displayName: string, visible: bool)

  /** What a page fixes about a field entry: everything but its
      visibility, which a flag of the settings row gives. */
  datatype FieldSpec = FieldSpec(key: string, displayName: string, kind: FieldKind)

  datatype SectionSpec = SectionSpec(key: string, displayName: string)

  /** The field entries of a page with the visibility each flag gives. */
  function ShownFields(layout: seq<FieldSpec>, flags: seq<bool>): seq<Field>
    requires |flags| == |layout|
  {
    seq(|layout|, i requires 0 <= i < |layout| =>
      Field(layout[i].key, layout[i].displayName, flags[i], layout[i].kind))
  }

  function ShownSections(layout: seq<SectionSpec>, flags: seq<bool>): seq<Section>
    requires |flags| == |layout|
  {
    seq(|layout|, i requires 0 <= i < |layout| => Section(layout[i].key, layout[i].displayName, flags[i]))
  }

  /** A choice field is read through its `get_<name>_display` getter, which
      only a plain attribute name reaches: no choice key is a dotted path. */
  predicate ChoicesArePlainNames(fs: seq<Field>) {
    forall i :: 0 <= i < |fs| && fs[i].kind == Choice ==> '.' !in fs[i].key
  }

  predicate SpecChoicesArePlain(layout: seq<FieldSpec>) {
    forall i :: 0 <= i < |layout| && layout[i].kind == Choice ==> '.' !in layout[i].key
  }

  /** The choice keys of entries `i` to `j - 1` of a layout are plain
      names; checking a layout a few entries at a time keeps each check
      small. */
  predicate PlainBetween(layout: seq<FieldSpec>, i: nat, j: nat)
    requires i <= j <= |layout|
    decreases j - i
  {
    i == j || ((layout[i].kind == Choice ==> '.' !in layout[i].key) && PlainBetween(layout, i + 1, j))
  }

  lemma {:induction false} PlainBetweenMeans(layout: seq<FieldSpec>, i: nat, j: nat)
    requires i <= j <= |layout| && PlainBetween(layout, i, j)
    ensures forall k :: i <= k < j && layout[k].kind == Choice ==> '.' !in layout[k].key
    decreases j - i
  {
    if i < j {
      PlainBetweenMeans(layout, i + 1, j);
    }
  }

  /** Two configurations that differ at most in what is visible. */
  predicate SameFields(a: seq<Field>, b: seq<Field>) {
    |a| == |b| && forall i :: 0 <= i < |a| ==> a[i].(visible := true) == b[i].(visible := true)
  }

  predicate SameSections(a: seq<Section>, b: seq<Section>) {
    |a| == |b| && forall i :: 0 <= i < |a| ==> a[i].(visible := true) == b[i].(visible := true)
  }

  predicate AllFieldsVisible(fs: seq<Field>) {
    forall i :: 0 <= i < |fs| ==> fs[i].visible
  }

  predicate AllSectionsVisible(ss: seq<Section>) {
    forall i :: 0 <= i < |ss| ==> ss[i].visible
  }

  predicate AllSet(flags: seq<bool>) {
    forall i :: 0 <= i < |flags| ==> flags[i]
  }

  /** Whatever the flags, a page lists the same entries in the same order;
      flags that are all set show every entry; the choice keys are the
      layout's. */
  lemma ShownShape(layout: seq<FieldSpec>, sections: seq<SectionSpec>,
                   a: seq<bool>, b: seq<bool>, c: seq<bool>, d: seq<bool>)
    requires |a| == |b| == |layout| && |c| == |d| == |sections|
    ensures SameFields(ShownFields(layout, a), ShownFields(layout, b))
    ensures SameSections(ShownSections(sections, c), ShownSections(sections, d))
    ensures AllSet(a) ==> AllFieldsVisible(ShownFields(layout, a))
    ensures AllSet(c) ==> AllSectionsVisible(ShownSections(sections, c))
    ensures SpecChoicesArePlain(layout) ==> ChoicesArePlainNames(ShownFields(layout, a))
  {
  }

  /** Changing one flag changes the visibility of its own entry and
      nothing else. */
  lemma ShownFieldsFlagChange(layout: seq<FieldSpec>, flags: seq<bool>, k: nat, v: bool)
    requires |flags| == |layout| && k < |flags|
    ensures var f := ShownFields(layout, flags);
      ShownFields(layout, flags[k := v]) == f[k := f[k].(visible := v)]
  {
  }

  // Students

  datatype StudentDisplay = StudentDisplay(
    showFaculty: bool, showSpecialization: bool, showGroup: bool,
    showStudentId: bool, showEducationForm: bool, showEducationBasis: bool,
    showEnrollmentYear: bool, showCurrentSemester: bool,
    showAcademicStatus: bool, showScholarshipStatus: bool,
    showDormitory: bool, showPersonalInfo: bool,
    showSkills: bool, showCertificates: bool, showAchievements: bool,
    showCourses: bool, showActivity: bool, showStatistics: bool)

  /** A new row: every flag is on. */
  function StudentDefaults(): StudentDisplay {
    StudentDisplay(true, true, true, true, true, true, true, true, true,
                   true, true, true, true, true, true, true, true, true)
  }

  function StudentFieldLayout(): seq<FieldSpec> {
    [
      FieldSpec("group.specialization.department.faculty.name", "Факультет", Plain),
      FieldSpec("group.specialization.name", "Направление", Plain),
      FieldSpec("group.name", "Группа", Plain),
      FieldSpec("student_id", "Номер студенческого", Plain),
      FieldSpec("education_form", "Форма обучения", Choice),
      FieldSpec("education_basis", "Основа обучения", Choice),
      FieldSpec("enrollment_year", "Год поступления", Plain),
      FieldSpec("current_semester", "Текущий семестр", Plain),
      FieldSpec("academic_status", "Статус", Choice),
      FieldSpec("scholarship_status", "Стипендия", Choice),
      FieldSpec("has_dormitory", "Проживает в общежитии", Boolean)
    ]
  }

  function StudentFieldFlags(s: StudentDisplay): seq<bool> {
    [s.showFaculty, s.showSpecialization, s.showGroup, s.showStudentId,
     s.showEducationForm, s.showEducationBasis, s.showEnrollmentYear,
     s.showCurrentSemester, s.showAcademicStatus, s.showScholarshipStatus,
     s.showDormitory]
  }

  function StudentFields(s: StudentDisplay): seq<Field> {
    ShownFields(StudentFieldLayout(), StudentFieldFlags(s))
  }

  function StudentSectionLayout(): seq<SectionSpec> {
    [
      SectionSpec("personal_info", "Дополнительная информация"),
      SectionSpec("skills", "Навыки"),
      SectionSpec("certificates", "Сертификаты"),
      SectionSpec("achievements", "Достижения"),
      SectionSpec("courses", "Курсы"),
      SectionSpec("activity", "Активность"),
      SectionSpec("statistics", "Статистика")
    ]
  }

  function StudentSectionFlags(s: StudentDisplay): seq<bool> {
    [s.showPersonalInfo, s.showSkills, s.showCertificates, s.showAchievements,
     s.showCourses, s.showActivity, s.showStatistics]
  }

  function StudentSections(s: StudentDisplay): seq<Section> {
    ShownSections(StudentSectionLayout(), StudentSectionFlags(s))
  }

  /** The student configuration lists eleven fields and seven sections
      whatever the flags, and the flags change only visibility. */
  lemma StudentConfigShape(s: StudentDisplay, t: StudentDisplay)
    ensures |StudentFields(s)| == 11 && |StudentSections(s)| == 7
    ensures SameFields(StudentFields(s), StudentFields(t))
    ensures SameSections(StudentSections(s), StudentSections(t))
  {
    ShownShape(StudentFieldLayout(), StudentSectionLayout(), StudentFieldFlags(s), StudentFieldFlags(t),
               StudentSectionFlags(s), StudentSectionFlags(t));
  }

  /** A new student row shows every field and every section. */
  lemma StudentDefaultsShowAll()
    ensures AllFieldsVisible(StudentFields(StudentDefaults()))
    ensures AllSectionsVisible(StudentSections(StudentDefaults()))
  {
    var d := StudentDefaults();
    assert AllSet(StudentFieldFlags(d)) && AllSet(StudentSectionFlags(d));
    ShownShape(StudentFieldLayout(), StudentSectionLayout(), StudentFieldFlags(d), StudentFieldFlags(d),
               StudentSectionFlags(d), StudentSectionFlags(d));
  }

  /** The dormitory field is the only boolean student field. */
  lemma StudentBooleanField(s: StudentDisplay)
    ensures forall i :: 0 <= i < 11 ==> (StudentFields(s)[i].kind == Boolean <==> i == 10)
  {
  }

  lemma StudentChoicesHead()
    ensures PlainBetween(StudentFieldLayout(), 0, 4)
  {
  }

  lemma StudentChoicesMiddle()
    ensures PlainBetween(StudentFieldLayout(), 4, 8)
  {
  }

  lemma StudentChoicesTail()
    ensures PlainBetween(StudentFieldLayout(), 8, 11)
  {
  }

  /** The student choice fields are plain names. */
  lemma StudentFieldKinds(s: StudentDisplay)
    ensures ChoicesArePlainNames(StudentFields(s))
  {
    var l := StudentFieldLayout();
    StudentChoicesHead();
    StudentChoicesMiddle();
    StudentChoicesTail();
    PlainBetweenMeans(l, 0, 4);
    PlainBetweenMeans(l, 4, 8);
    PlainBetweenMeans(l, 8, 11);
    ShownShape(l, [], StudentFieldFlags(s), StudentFieldFlags(s), [], []);
  }

  /** The dormitory flag decides the dormitory field and the statistics
      flag the statistics section. */
  lemma StudentDormitoryAndStatistics(s: StudentDisplay)
    ensures StudentFields(s)[10].key == "has_dormitory" && StudentFields(s)[10].visible == s.showDormitory
    ensures StudentSections(s)[6].key == "statistics" && StudentSections(s)[6].visible == s.showStatistics
  {
    assert StudentFieldLayout()[10].key == "has_dormitory";
    assert StudentSectionLayout()[6].key == "statistics";
  }

  // Teachers

  datatype TeacherDisplay = TeacherDisplay(
    showDepartment: bool, showPosition: bool, showAcademicDegree: bool,
    showAcademicTitle: bool, showEmploymentType: bool,
    showSpecialization: bool, showHireDate: bool, showOfficeLocation: bool,
    showOfficeHours: bool, showBio: bool, showCourses: bool,
    showPublications: bool)

  function TeacherDefaults(): TeacherDisplay {
    TeacherDisplay(true, true, true, true, true, true, true, true, true, true, true, true)
  }

  function TeacherFieldLayout(): seq<FieldSpec> {
    [
      FieldSpec("department.name", "Кафедра", Plain),
      FieldSpec("position", "Должность", Choice),
      FieldSpec("academic_degree", "Учёная степень", Choice),
      FieldSpec("academic_title", "Учёное звание", Choice),
      FieldSpec("employment_type", "Тип занятости", Choice),
      FieldSpec("specialization", "Специализация", Plain),
      FieldSpec("hire_date", "Дата приема на работу", Plain),
      FieldSpec("office_location", "Местоположение кабинета", Plain),
      FieldSpec("office_hours", "Часы консультаций", Plain)
    ]
  }

  function TeacherFieldFlags(s: TeacherDisplay): seq<bool> {
    [s.showDepartment, s.showPosition, s.showAcademicDegree, s.showAcademicTitle,
     s.showEmploymentType, s.showSpecialization, s.showHireDate,
     s.showOfficeLocation, s.showOfficeHours]
  }

  function TeacherFields(s: TeacherDisplay): seq<Field> {
    ShownFields(TeacherFieldLayout(), TeacherFieldFlags(s))
  }

  function TeacherSectionLayout(): seq<SectionSpec> {
    [
      SectionSpec("bio", "Биография"),
      SectionSpec("courses", "Курсы"),
      SectionSpec("publications", "Публикации")
    ]
  }

  function TeacherSectionFlags(s: TeacherDisplay): seq<bool> {
    [s.showBio, s.showCourses, s.showPublications]
  }

  function TeacherSections(s: TeacherDisplay): seq<Section> {
    ShownSections(TeacherSectionLayout(), TeacherSectionFlags(s))
  }

  /** The teacher configuration lists nine fields and three sections
      whatever the flags, and the flags change only visibility. */
  lemma TeacherConfigShape(s: TeacherDisplay, t: TeacherDisplay)
    ensures |TeacherFields(s)| == 9 && |TeacherSections(s)| == 3
    ensures SameFields(TeacherFields(s), TeacherFields(t))
    ensures SameSections(TeacherSections(s), TeacherSections(t))
  {
    ShownShape(TeacherFieldLayout(), TeacherSectionLayout(), TeacherFieldFlags(s), TeacherFieldFlags(t),
               TeacherSectionFlags(s), TeacherSectionFlags(t));
  }

  /** A new teacher row shows every field and every section. */
  lemma TeacherDefaultsShowAll()
    ensures AllFieldsVisible(TeacherFields(TeacherDefaults()))
    ensures AllSectionsVisible(TeacherSections(TeacherDefaults()))
  {
    var d := TeacherDefaults();
    assert AllSet(TeacherFieldFlags(d)) && AllSet(TeacherSectionFlags(d));
    ShownShape(TeacherFieldLayout(), TeacherSectionLayout(), TeacherFieldFlags(d), TeacherFieldFlags(d),
               TeacherSectionFlags(d), TeacherSectionFlags(d));
  }

  lemma TeacherChoicesHead()
    ensures PlainBetween(TeacherFieldLayout(), 0, 3)
  {
  }

  lemma TeacherChoicesMiddle()
    ensures PlainBetween(TeacherFieldLayout(), 3, 6)
  {
  }

  lemma TeacherChoicesTail()
    ensures PlainBetween(TeacherFieldLayout(), 6, 9)
  {
  }

  /** The teacher choice fields are plain names. */
  lemma TeacherFieldKinds(s: TeacherDisplay)
    ensures ChoicesArePlainNames(TeacherFields(s))
  {
    var l := TeacherFieldLayout();
    TeacherChoicesHead();
    TeacherChoicesMiddle();
    TeacherChoicesTail();
    PlainBetweenMeans(l, 0, 3);
    PlainBetweenMeans(l, 3, 6);
    PlainBetweenMeans(l, 6, 9);
    ShownShape(l, [], TeacherFieldFlags(s), TeacherFieldFlags(s), [], []);
  }

  // Administrators

  datatype AdminDisplay = AdminDisplay(
    showPosition: bool, showDepartment: bool, showAccessLevel: bool,
    showResponsibilityArea: bool)

  function AdminDefaults(): AdminDisplay {
    AdminDisplay(true, true, true, true)
  }

  function AdminFieldLayout(): seq<FieldSpec> {
    [
      FieldSpec("position", "Должность", Plain),
      FieldSpec("department.name", "Подразделение", Plain),
      FieldSpec("access_level", "Уровень доступа", Choice)
    ]
  }

  function AdminFields(s: AdminDisplay): seq<Field> {
    ShownFields(AdminFieldLayout(), [s.showPosition, s.showDepartment, s.showAccessLevel])
  }

  function AdminSectionLayout(): seq<SectionSpec> {
    [SectionSpec("responsibility_area", "Область ответственности")]
  }

  function AdminSections(s: AdminDisplay): seq<Section> {
    ShownSections(AdminSectionLayout(), [s.showResponsibilityArea])
  }

  /** The administrator configuration lists three fields and one section
      whatever the flags, and the flags change only visibility. */
  lemma AdminConfigShape(s: AdminDisplay, t: AdminDisplay)
    ensures |AdminFields(s)| == 3 && |AdminSections(s)| == 1
    ensures SameFields(AdminFields(s), AdminFields(t))
    ensures SameSections(AdminSections(s), AdminSections(t))
  {
    ShownShape(AdminFieldLayout(), AdminSectionLayout(),
               [s.showPosition, s.showDepartment, s.showAccessLevel], [t.showPosition, t.showDepartment, t.showAccessLevel],
               [s.showResponsibilityArea], [t.showResponsibilityArea]);
  }

  /** A new administrator row shows everything, and its one choice field is
      a plain name. */
  lemma AdminDefaultsAndKinds(s: AdminDisplay)
    ensures AllFieldsVisible(AdminFields(AdminDefaults()))
    ensures AllSectionsVisible(AdminSections(AdminDefaults()))
    ensures ChoicesArePlainNames(AdminFields(s))
  {
    var l := AdminFieldLayout();
    assert l[2].key == "access_level";
    assert SpecChoicesArePlain(l);
    assert AllSet([true, true, true]) && AllSet([true]);
    ShownShape(l, AdminSectionLayout(), [true, true, true], [true, true, true], [true], [true]);
    ShownShape(l, [], [s.showPosition, s.showDepartment, s.showAccessLevel],
               [s.showPosition, s.showDepartment, s.showAccessLevel], [], []);
  }

  // Methodists

  datatype MethodistDisplay = MethodistDisplay(
    showDepartment: bool, showEmployeeId: bool, showResponsibilities: bool,
    showManagedSpecializations: bool, showManagedGroups: bool)

  function MethodistDefaults(): MethodistDisplay {
    MethodistDisplay(true, true, true, true, true)
  }

  function MethodistFieldLayout(): seq<FieldSpec> {
    [
      FieldSpec("department.name", "Кафедра", Plain),
      FieldSpec("employee_id", "Табельный номер", Plain)
    ]
  }

  function MethodistFields(s: MethodistDisplay): seq<Field> {
    ShownFields(MethodistFieldLayout(), [s.showDepartment, s.showEmployeeId])
  }

  function MethodistSectionLayout(): seq<SectionSpec> {
    [
      SectionSpec("responsibilities", "Обязанности"),
      SectionSpec("managed_specializations", "Курируемые специализации"),
      SectionSpec("managed_groups", "Курируемые группы")
    ]
  }

  function MethodistSectionFlags(s: MethodistDisplay): seq<bool> {
    [s.showResponsibilities, s.showManagedSpecializations, s.showManagedGroups]
  }

  function MethodistSections(s: MethodistDisplay): seq<Section> {
    ShownSections(MethodistSectionLayout(), MethodistSectionFlags(s))
  }

  /** The methodist configuration lists two plain fields and three
      sections whatever the flags, and the flags change only visibility. */
  lemma MethodistConfigShape(s: MethodistDisplay, t: MethodistDisplay)
    ensures |MethodistFields(s)| == 2 && |MethodistSections(s)| == 3
    ensures SameFields(MethodistFields(s), MethodistFields(t))
    ensures SameSections(MethodistSections(s), MethodistSections(t))
    ensures forall i :: 0 <= i < 2 ==> MethodistFields(s)[i].kind == Plain
  {
    ShownShape(MethodistFieldLayout(), MethodistSectionLayout(),
               [s.showDepartment, s.showEmployeeId], [t.showDepartment, t.showEmployeeId],
               MethodistSectionFlags(s), MethodistSectionFlags(t));
  }

  /** A new methodist row shows every field and every section. */
  lemma MethodistDefaultsShowAll()
    ensures AllFieldsVisible(MethodistFields(MethodistDefaults()))
    ensures AllSectionsVisible(MethodistSections(MethodistDefaults()))
  {
    var d := MethodistDefaults();
    assert AllSet([true, true]) && AllSet(MethodistSectionFlags(d));
    ShownShape(MethodistFieldLayout(), MethodistSectionLayout(), [true, true], [true, true],
               MethodistSectionFlags(d), MethodistSectionFlags(d));
  }

  // Deans and heads of department

  datatype DeanDisplay = DeanDisplay(
    showPosition: bool, showFaculty: bool, showDepartment: bool,
    showAcademicDegree: bool, showAcademicTitle: bool,
    showAppointmentDate: bool, showTermEndDate: bool,
    showHasTeachingDuties: bool)

  function DeanDefaults(): DeanDisplay {
    DeanDisplay(true, true, true, true, true, true, true, true)
  }

  function DeanFieldLayout(): seq<FieldSpec> {
    [
      FieldSpec("position", "Должность", Choice),
      FieldSpec("faculty.name", "Факультет", Plain),
      FieldSpec("department.name", "Кафедра", Plain),
      FieldSpec("academic_degree", "Учёная степень", Choice),
      FieldSpec("academic_title", "Учёное звание", Choice),
      FieldSpec("appointment_date", "Дата назначения", Plain),
      FieldSpec("term_end_date", "Срок окончания полномочий", Plain),
      FieldSpec("has_teaching_duties", "Преподавательская деятельность", Boolean)
    ]
  }

  function DeanFieldFlags(s: DeanDisplay): seq<bool> {
    [s.showPosition, s.showFaculty, s.showDepartment, s.showAcademicDegree,
     s.showAcademicTitle, s.showAppointmentDate, s.showTermEndDate,
     s.showHasTeachingDuties]
  }

  function DeanFields(s: DeanDisplay): seq<Field> {
    ShownFields(DeanFieldLayout(), DeanFieldFlags(s))
  }

  /** The dean page has no configurable sections. */
  function DeanSections(s: DeanDisplay): seq<Section> {
    []
  }

  /** The dean configuration lists eight fields and no section whatever
      the flags, the flags change only visibility, and a new row shows
      every field. */
  lemma DeanConfigShape(s: DeanDisplay, t: DeanDisplay)
    ensures |DeanFields(s)| == 8 && DeanSections(s) == []
    ensures SameFields(DeanFields(s), DeanFields(t))
    ensures AllFieldsVisible(DeanFields(DeanDefaults()))
  {
    var d := DeanDefaults();
    assert AllSet(DeanFieldFlags(d));
    ShownShape(DeanFieldLayout(), [], DeanFieldFlags(s), DeanFieldFlags(t), [], []);
    ShownShape(DeanFieldLayout(), [], DeanFieldFlags(d), DeanFieldFlags(d), [], []);
  }

  lemma DeanChoicesHead()
    ensures PlainBetween(DeanFieldLayout(), 0, 3)
  {
  }

  lemma DeanChoicesTail()
    ensures PlainBetween(DeanFieldLayout(), 3, 8)
  {
  }

  /** The dean choice fields are plain names. */
  lemma DeanFieldKinds(s: DeanDisplay)
    ensures ChoicesArePlainNames(DeanFields(s))
  {
    var l := DeanFieldLayout();
    DeanChoicesHead();
    DeanChoicesTail();
    PlainBetweenMeans(l, 0, 3);
    PlainBetweenMeans(l, 3, 8);
    ShownShape(l, [], DeanFieldFlags(s), DeanFieldFlags(s), [], []);
  }

  /** The last dean field is the boolean teaching-duties field, and its own
      flag decides whether it is shown. */
  lemma DeanTeachingDuties(s: DeanDisplay)
    ensures DeanFields(s)[7].key == "has_teaching_duties" && DeanFields(s)[7].kind == Boolean
    ensures DeanFields(s)[7].visible == s.showHasTeachingDuties
  {
    assert DeanFieldLayout()[7].key == "has_teaching_duties";
  }
}
