/** Courses, their sections and elements, enrollments and the per-element
    progress of an enrolled student (the `courses` application's models).

    Course, section and element availability are predicates of the stored
    flags and of "today"/"now", which are parameters. Enrollments and
    progress records are objects whose methods update their fields. */
module Courses {
  import opened Common

  datatype Course = Course(
    isPublished: bool,
    startDate: Option<int>,
    endDate: Option<int>,
    completionThreshold: nat)

  /** `Course.is_active`: published, already started and not yet ended. */
  predicate IsActive(c: Course, today: int) {
    c.isPublished &&
    !(c.startDate.Some? && c.startDate.value > today) &&
    !(c.endDate.Some? && c.endDate.value < today)
  }

  /** A published course without dates is active on every day, and an
      unpublished one on none. */
  lemma ActiveWithoutDates(c: Course, today: int)
    requires c.startDate.None? && c.endDate.None?
    ensures IsActive(c, today) <==> c.isPublished
  {
  }

  function Sum(xs: seq<nat>): nat {
    if xs == [] then 0 else xs[0] + Sum(xs[1..])
  }

  lemma {:induction false} SumBounded(xs: seq<nat>, bound: nat)
    requires forall i :: 0 <= i < |xs| ==> xs[i] <= bound
    ensures Sum(xs) <= bound * |xs|
  {
    if xs != [] {
      SumBounded(xs[1..], bound);
    }
  }

  /** `Course.completion_rate`: the mean progress of the enrollments, 0 with
      none. */
  function CompletionRate(progress: seq<nat>): real {
    if progress == [] then 0.0 else Sum(progress) as real / |progress| as real
  }

  /** A mean of percentages is a percentage; with no enrollments it is 0. */
  lemma CompletionRateRange(progress: seq<nat>)
    requires forall i :: 0 <= i < |progress| ==> progress[i] <= 100
    ensures 0.0 <= CompletionRate(progress) <= 100.0
    ensures progress == [] ==> CompletionRate(progress) == 0.0
  {
    if progress != [] {
      SumBounded(progress, 100);
      var n := |progress| as real;
      assert (Sum(progress) as real) <= 100.0 * n;
    }
  }

  datatype Section = Section(isPublished: bool, isVisible: bool, unlockDate: Option<int>)

  /** `CourseSection.is_available`. */
  predicate SectionAvailable(s: Section, now: int) {
    s.isPublished && s.isVisible && !(s.unlockDate.Some? && s.unlockDate.value > now)
  }

  class CourseElement {
    const isPublished: bool
    const isVisible: bool
    const unlockDate: Option<int>
    const section: Option<Section>
    const isRequired: bool
    var estimatedTime: nat

    constructor (isPublished: bool, isVisible: bool, unlockDate: Option<int>,
                 section: Option<Section>, isRequired: bool, estimatedTime: nat)
      ensures this.isPublished == isPublished && this.isVisible == isVisible
      ensures this.unlockDate == unlockDate && this.section == section
      ensures this.isRequired == isRequired && this.estimatedTime == estimatedTime
    {
      this.isPublished := isPublished;
      this.isVisible := isVisible;
      this.unlockDate := unlockDate;
      this.section := section;
      this.isRequired := isRequired;
      this.estimatedTime := estimatedTime;
    }

    /** `CourseElement.is_available`: the section rule applied to the element
        itself and then to its section, when it has one. */
    predicate IsAvailable(now: int) {
      isPublished && isVisible &&
      !(unlockDate.Some? && unlockDate.value > now) &&
      !(section.Some? && !SectionAvailable(section.value, now))
    }
  }

  /** An element that is available stays available as time goes on, and
      its section is available too. */
  lemma AvailabilityPersists(e: CourseElement, now: int, later: int)
    requires e.IsAvailable(now) && now <= later
    ensures e.IsAvailable(later)
    ensures e.section.Some? ==> SectionAvailable(e.section.value, later)
  {
  }

  // -----------------------------------------------------------------------
  // Attachments

  /** The MIME type `CourseElementAttachment.save` derives from the file
      name; the tests run in this order on the lower-cased name. */
  function MimeType(fileName: string): string {
    MimeTypeOfLower(Lower(fileName))
  }

  /** The tests of `MimeType` on the lower-cased name `n`. */
  function MimeTypeOfLower(n: string): string {
    if EndsWith(n, ".pdf") then "application/pdf"
    else if EndsWith(n, ".doc") || EndsWith(n, ".docx") then "application/msword"
    else if EndsWith(n, ".xls") || EndsWith(n, ".xlsx") then "application/vnd.ms-excel"
    else if EndsWith(n, ".ppt") || EndsWith(n, ".pptx") then "application/vnd.ms-powerpoint"
    else if EndsWith(n, ".zip") then "application/zip"
    else if EndsWith(n, ".jpg") || EndsWith(n, ".jpeg") then "image/jpeg"
    else if EndsWith(n, ".png") then "image/png"
    else if EndsWith(n, ".mp4") then "video/mp4"
    else if EndsWith(n, ".mp3") then "audio/mpeg"
    else "application/octet-stream"
  }

  const KnownMimeTypes: set<string> := {
    "application/pdf", "application/msword", "application/vnd.ms-excel",
    "application/vnd.ms-powerpoint", "application/zip", "image/jpeg",
    "image/png", "video/mp4", "audio/mpeg", "application/octet-stream"
  }

  /** The derived type is one of ten, the fallback included, and it does
      not depend on the case of the name. */
  lemma MimeTypeShape(fileName: string)
    ensures MimeType(fileName) in KnownMimeTypes
    ensures MimeType(Lower(fileName)) == MimeType(fileName)
  {
    LowerIdempotent(fileName);
    MimeTypeKnown(Lower(fileName));
  }

  lemma MimeTypeKnown(n: string)
    ensures MimeTypeOfLower(n) in KnownMimeTypes
  {
  }

  lemma LowerEndsWith(stem: string, ext: string)
    requires Lower(ext) == ext
    ensures EndsWith(Lower(stem + ext), ext)
  {
    LowerAppend(stem, ext);
    var n := Lower(stem + ext);
    assert n == Lower(stem) + ext;
    assert n[|n| - |ext|..] == ext;
  }

  /** Whatever comes before it, a ".pdf" ending in either case is a PDF. */
  lemma MimeTypeOfPdf(stem: string)
    ensures MimeType(stem + ".pdf") == "application/pdf"
    ensures MimeType(stem + ".PDF") == "application/pdf"
  {
    LowerEndsWith(stem, ".pdf");
    LowerAppend(stem, ".PDF");
    LowerAppend(stem, ".pdf");
    LowerPdf();
  }

  lemma LowerPdf()
    ensures Lower(".PDF") == ".pdf" && Lower(".pdf") == ".pdf"
  {
    var u, l := Lower(".PDF"), Lower(".pdf");
    assert u[0] == '.' && u[1] == 'p' && u[2] == 'd' && u[3] == 'f';
    assert l[0] == '.' && l[1] == 'p' && l[2] == 'd' && l[3] == 'f';
  }

  class CourseElementAttachment {
    var fileName: string
    var fileSize: nat
    var fileType: string

    constructor (fileName: string, fileSize: nat, fileType: string)
      ensures this.fileName == fileName && this.fileSize == fileSize && this.fileType == fileType
    {
      this.fileName := fileName;
      this.fileSize := fileSize;
      this.fileType := fileType;
    }

    /** `CourseElementAttachment.save`: size and type are filled in only
        when a file is attached and the size is still 0; `storedSize` is
        what the storage reports for the file. */
    method Save(storedSize: nat)
      modifies this
      ensures fileName == old(fileName)
      ensures old(fileName) != [] && old(fileSize) == 0 ==>
        fileSize == storedSize && fileType == MimeType(fileName)
      ensures !(old(fileName) != [] && old(fileSize) == 0) ==>
        fileSize == old(fileSize) && fileType == old(fileType)
    {
      if fileName != [] && fileSize == 0 {
        fileSize := storedSize;
        fileType := MimeType(fileName);
      }
    }
  }

  // -----------------------------------------------------------------------
  // Enrollment and progress

  datatype EnrollmentStatus = Pending | Active | Completed | Dropped | Suspended

  /** The stored columns of an enrollment the model follows. */
  datatype EnrollmentRow = EnrollmentRow(
    status: EnrollmentStatus, progress: nat, lastAccessed: Option<int>, completedAt: Option<int>)

  class CourseEnrollment {
    const course: Course
    var status: EnrollmentStatus
    var progress: nat
    var lastAccessed: Option<int>
    var completedAt: Option<int>

    /** The enrollment's columns as a value. */
    function Row(): EnrollmentRow
      reads this
    {
      EnrollmentRow(status, progress, lastAccessed, completedAt)
    }

    constructor (course: Course, status: EnrollmentStatus, progress: nat)
      ensures this.course == course && this.status == status && this.progress == progress
      ensures lastAccessed.None? && completedAt.None?
    {
      this.course := course;
      this.status := status;
      this.progress := progress;
      lastAccessed := None;
      completedAt := None;
    }

    /** `CourseEnrollment.is_completed`. */
    predicate IsCompleted() reads this {
      progress >= course.completionThreshold
    }

    /** `CourseEnrollment.mark_as_completed`: progress is raised to the
        threshold when below it and never lowered. */
    method MarkAsCompleted(now: int)
      modifies this
      ensures progress == Max(old(progress), course.completionThreshold)
      ensures IsCompleted()
      ensures status == Completed && completedAt == Some(now)
      ensures lastAccessed == old(lastAccessed)
    {
      if !IsCompleted() {
        progress := course.completionThreshold;
      }
      status := Completed;
      completedAt := Some(now);
    }
  }

  /** `int(completed / required * 100)` computed exactly. */
  function ProgressPercent(completed: nat, required: nat): nat
    requires required > 0
  {
    completed * 100 / required
  }

  /** With no more completed than required elements the progress is a
      percentage, and it is 100 exactly when every required one is done. */
  lemma ProgressPercentRange(completed: nat, required: nat)
    requires required > 0 && completed <= required
    ensures ProgressPercent(completed, required) <= 100
    ensures ProgressPercent(completed, required) == 100 <==> completed == required
  {
    var x := completed * 100;
    var p := x / required;
    DivBelow(x, required);
    assert p * required <= x < (p + 1) * required;
    MulMono(completed, required, 100);
    assert x <= required * 100;
    MulMono(101, p, required);
    assert p <= 100;
    if completed == required {
      MulMono(p + 1, 100, required);
      assert p == 100;
    } else {
      MulMono(completed + 1, required, 100);
      assert x < 100 * required;
      assert p != 100;
    }
  }

  /** More completed elements never mean less progress. */
  lemma ProgressPercentMonotone(c1: nat, c2: nat, required: nat)
    requires required > 0 && c1 <= c2
    ensures ProgressPercent(c1, required) <= ProgressPercent(c2, required)
  {
    MulMono(c1, c2, 100);
    DivMonotone(c1 * 100, c2 * 100, required);
  }

  /** The enrollment's last access after a progress record with last
      view `viewed` is saved (`update_enrollment_last_accessed`): a
      recorded view replaces it, no view leaves it. */
  function LastAccess(last: Option<int>, viewed: Option<int>): Option<int> {
    if viewed.Some? then viewed else last
  }

  /** The last access follows the record's last view whenever there is
      one, once set it is never cleared, and saving the same record twice
      is saving it once. */
  lemma LastAccessFacts(last: Option<int>, viewed: Option<int>)
    ensures viewed.Some? ==> LastAccess(last, viewed) == viewed
    ensures viewed.None? ==> LastAccess(last, viewed) == last
    ensures last.Some? ==> LastAccess(last, viewed).Some?
    ensures LastAccess(LastAccess(last, viewed), viewed) == LastAccess(last, viewed)
  {
  }

  /** What `update_course_progress` stores, as written. Its first save
      writes only `progress` and `last_accessed`; the `pre_save` receiver
      `check_course_completion` then marks the enrollment completed in
      memory, so the `status == 'active'` test that follows fails and the
      second save never happens: the stored status and completion time
      never change. */
  function CourseProgressAsWritten(e: EnrollmentRow, required: nat, completed: nat, now: int): EnrollmentRow {
    if required == 0 then e
    else e.(progress := ProgressPercent(completed, required), lastAccessed := Some(now))
  }

  /** What `update_course_progress` is meant to store: the progress and
      the last access, and the completion of an active enrollment whose
      progress reaches the course's threshold. */
  function CourseProgress(e: EnrollmentRow, threshold: nat, required: nat, completed: nat, now: int): EnrollmentRow {
    var w := CourseProgressAsWritten(e, required, completed, now);
    if required > 0 && e.status == Active && w.progress >= threshold then
      w.(status := Completed, completedAt := Some(now))
    else w
  }

  /** As written, recomputing the course progress never completes the
      enrollment: 4 of 4 required elements done against a threshold of
      100 leave it active, where the intended update completes it. */
  lemma CompletionLostAsWritten(now: int)
    ensures var e := EnrollmentRow(Active, 75, None, None);
      CourseProgressAsWritten(e, 4, 4, now).status == Active &&
      CourseProgressAsWritten(e, 4, 4, now).completedAt.None? &&
      CourseProgress(e, 100, 4, 4, now).status == Completed &&
      CourseProgress(e, 100, 4, 4, now).completedAt == Some(now)
  {
    assert ProgressPercent(4, 4) == 100;
  }

  /** The intended update: with no required elements nothing changes;
      otherwise the progress is the share of completed required elements
      and the last access is now; an enrollment becomes completed, at now,
      exactly when it was active and its progress reached the threshold,
      and no other status changes. Against a threshold of at most 100
      (the field's validator), an active enrollment with every required
      element done is completed. */
  lemma CourseProgressFacts(e: EnrollmentRow, threshold: nat, required: nat, completed: nat, now: int)
    requires completed <= required
    ensures var r := CourseProgress(e, threshold, required, completed, now);
      (required == 0 ==> r == e) &&
      (required > 0 ==>
        r.progress == ProgressPercent(completed, required) && r.progress <= 100 &&
        r.lastAccessed == Some(now) &&
        (r.status != e.status <==> e.status == Active && r.progress >= threshold) &&
        (r.status != e.status ==> r.status == Completed && r.completedAt == Some(now)) &&
        (r.status == e.status ==> r.completedAt == e.completedAt)) &&
      (required > 0 && completed == required && threshold <= 100 && e.status == Active ==>
        r.status == Completed && r.completedAt == Some(now))
  {
    if required > 0 {
      ProgressPercentRange(completed, required);
    }
  }

  /** The columns of a progress record the model follows. */
  datatype ProgressRow = ProgressRow(
    isViewed: bool, isCompleted: bool,
    firstViewedAt: Option<int>, lastViewedAt: Option<int>, completedAt: Option<int>,
    grade: Option<real>, gradePercent: Option<int>, gradedBy: Option<int>, gradedAt: Option<int>)

  /** A progress record and its enrollment, both of which a save of the
      record writes; nothing without a record. */
  function Footprint(p: CourseElementProgress?): set<object> {
    if p == null then {} else {p, p.enrollment}
  }

  class CourseElementProgress {
    const enrollment: CourseEnrollment
    var isViewed: bool
    var isCompleted: bool
    var firstViewedAt: Option<int>
    var lastViewedAt: Option<int>
    var completedAt: Option<int>
    var grade: Option<real>
    var gradePercent: Option<int>
    var gradedBy: Option<int>
    var gradedAt: Option<int>

    constructor (enrollment: CourseEnrollment)
      ensures this.enrollment == enrollment
      ensures !isViewed && !isCompleted
      ensures firstViewedAt.None? && lastViewedAt.None? && completedAt.None?
      ensures grade.None? && gradePercent.None? && gradedBy.None? && gradedAt.None?
    {
      this.enrollment := enrollment;
      isViewed := false;
      isCompleted := false;
      firstViewedAt := None;
      lastViewedAt := None;
      completedAt := None;
      grade := None;
      gradePercent := None;
      gradedBy := None;
      gradedAt := None;
    }

    /** The record's columns as a value. */
    function Row(): ProgressRow
      reads this
    {
      ProgressRow(isViewed, isCompleted, firstViewedAt, lastViewedAt, completedAt, grade, gradePercent, gradedBy, gradedAt)
    }

    /** `update_enrollment_last_accessed`, the `post_save` receiver of
        every save of a progress record: the last view, when recorded,
        becomes the enrollment's last access. */
    method UpdateEnrollmentLastAccessed()
      modifies enrollment
      ensures enrollment.Row() == old(enrollment.Row()).(lastAccessed := LastAccess(old(enrollment.lastAccessed), lastViewedAt))
    {
      if lastViewedAt.Some? {
        enrollment.lastAccessed := lastViewedAt;
      }
    }

    /** `mark_as_viewed`: the first view is recorded once, the last view
        every time, and the save makes now the enrollment's last access. */
    method MarkAsViewed(now: int)
      modifies this, enrollment
      ensures isViewed
      ensures firstViewedAt == if old(isViewed) then old(firstViewedAt) else Some(now)
      ensures lastViewedAt == Some(now)
      ensures Row() == old(Row()).(isViewed := isViewed, firstViewedAt := firstViewedAt, lastViewedAt := lastViewedAt)
      ensures enrollment.Row() == old(enrollment.Row()).(lastAccessed := Some(now))
    {
      if !isViewed {
        isViewed := true;
        firstViewedAt := Some(now);
      }
      lastViewedAt := Some(now);
      UpdateEnrollmentLastAccessed();
    }

    /** `update_course_progress` as written: with `required` required
        elements in the course, of which `completed` have a completed
        progress record for this enrollment. */
    method UpdateCourseProgressAsWritten(now: int, required: nat, completed: nat)
      modifies enrollment
      ensures enrollment.Row() == CourseProgressAsWritten(old(enrollment.Row()), required, completed, now)
    {
      if required > 0 {
        enrollment.progress := ProgressPercent(completed, required);
        enrollment.lastAccessed := Some(now);
      }
    }

    /** `update_course_progress` as intended, the completion of the course
        included. */
    method UpdateCourseProgress(now: int, required: nat, completed: nat)
      modifies enrollment
      ensures enrollment.Row() ==
        CourseProgress(old(enrollment.Row()), enrollment.course.completionThreshold, required, completed, now)
    {
      if required > 0 {
        var p := ProgressPercent(completed, required);
        enrollment.progress := p;
        enrollment.lastAccessed := Some(now);
        if p >= enrollment.course.completionThreshold && enrollment.status == Active {
          enrollment.status := Completed;
          enrollment.completedAt := Some(now);
        }
      }
    }

    /** `CourseElementProgress.mark_as_completed`: idempotent, the
        completion time is set once, and only then is the record saved,
        which passes its last view on to the enrollment, and the course
        progress recomputed. `completedOthers` counts the other completed
        required records of the enrollment. */
    method MarkAsCompleted(now: int, required: nat, completedOthers: nat, elementRequired: bool)
      modifies this, enrollment
      ensures isCompleted
      ensures completedAt == if old(isCompleted) then old(completedAt) else Some(now)
      ensures Row() == old(Row()).(isCompleted := isCompleted, completedAt := completedAt)
      ensures old(isCompleted) ==> enrollment.Row() == old(enrollment.Row())
      ensures !old(isCompleted) ==>
        enrollment.Row() ==
          CourseProgress(old(enrollment.Row()).(lastAccessed := LastAccess(old(enrollment.lastAccessed), lastViewedAt)),
                         enrollment.course.completionThreshold, required,
                         completedOthers + (if elementRequired then 1 else 0), now)
    {
      if !isCompleted {
        isCompleted := true;
        completedAt := Some(now);
        UpdateEnrollmentLastAccessed();
        UpdateCourseProgress(now, required, completedOthers + if elementRequired then 1 else 0);
      }
    }
  }
}
