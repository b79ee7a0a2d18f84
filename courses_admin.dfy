/** Display helpers and save hooks of the course admin pages. */
module CoursesAdmin {
  import opened Common
  import opened Courses

  /** The hours, minutes and seconds a progress record's time is shown in. */
  datatype Clock = Clock(hours: nat, minutes: nat, seconds: nat)

  function ClockOf(seconds: nat): Clock {
    Clock(seconds / 3600, (seconds % 3600) / 60, seconds % 60)
  }

  /** The number and unit words of
      `CourseElementProgressAdmin.time_spent_display`: seconds only under a
      minute, minutes and seconds under an hour, otherwise hours and
      minutes with the seconds dropped. */
  function TimeSpentWords(seconds: nat): seq<string> {
    var c := ClockOf(seconds);
    if seconds < 60 then [NatToString(seconds), "сек."]
    else if seconds < 3600 then [NatToString(c.minutes), "мин.", NatToString(c.seconds), "сек."]
    else [NatToString(c.hours), "ч.", NatToString(c.minutes), "мин."]
  }

  /** `CourseElementProgressAdmin.time_spent_display`. */
  function TimeSpentDisplay(seconds: nat): string {
    var c := ClockOf(seconds);
    if seconds < 60 then NatToString(seconds) + " сек."
    else if seconds < 3600 then NatToString(c.minutes) + " мин. " + NatToString(c.seconds) + " сек."
    else NatToString(c.hours) + " ч. " + NatToString(c.minutes) + " мин."
  }

  lemma NumberIsWord(n: nat)
    ensures IsWord(NatToString(n))
  {
    forall c | c in NatToString(n) ensures !IsSpace(c) {
      assert IsDigit(c);
    }
  }

  /** Reading a shown time back: the display splits into number and unit
      words, the units say which form was chosen, and the numbers give the
      time exactly below an hour and to the minute from an hour on. */
  lemma TimeSpentDisplayReadsBack(seconds: nat)
    ensures Words(TimeSpentDisplay(seconds)) == TimeSpentWords(seconds)
    ensures var ws := TimeSpentWords(seconds);
      (|ws| == 2 <==> seconds < 60) && (ws[1] == "ч." <==> seconds >= 3600) &&
      (forall i :: 0 <= i < |ws| && i % 2 == 0 ==> forall c :: c in ws[i] ==> IsDigit(c))
    ensures seconds < 60 ==> ParseNat(TimeSpentWords(seconds)[0]) == seconds
    ensures 60 <= seconds < 3600 ==>
      ParseNat(TimeSpentWords(seconds)[0]) * 60 + ParseNat(TimeSpentWords(seconds)[2]) == seconds
    ensures seconds >= 3600 ==>
      var shown := ParseNat(TimeSpentWords(seconds)[0]) * 3600 + ParseNat(TimeSpentWords(seconds)[2]) * 60;
      shown <= seconds < shown + 60
  {
    var c := ClockOf(seconds);
    var ws := TimeSpentWords(seconds);
    TimeSpentDisplayAccounts(seconds);
    ParseNatToString(seconds);
    ParseNatToString(c.hours);
    ParseNatToString(c.minutes);
    ParseNatToString(c.seconds);
    TimeSpentWordsAreWords(seconds);
    TimeSpentDisplayIsJoin(seconds);
    WordsOfJoin(ws);
  }

  lemma TimeSpentWordsAreWords(seconds: nat)
    ensures forall w :: w in TimeSpentWords(seconds) ==> IsWord(w)
  {
    var c := ClockOf(seconds);
    NumberIsWord(seconds);
    NumberIsWord(c.hours);
    NumberIsWord(c.minutes);
    NumberIsWord(c.seconds);
    assert IsWord("сек.") && IsWord("мин.") && IsWord("ч.");
  }

  lemma TimeSpentDisplayIsJoin(seconds: nat)
    ensures Join(TimeSpentWords(seconds), " ") == TimeSpentDisplay(seconds)
  {
    var c := ClockOf(seconds);
    if seconds < 60 {
      SecondsText(NatToString(seconds));
    } else if seconds < 3600 {
      MinutesText(NatToString(c.minutes), NatToString(c.seconds));
    } else {
      HoursText(NatToString(c.hours), NatToString(c.minutes));
    }
  }

  lemma SecondsText(s: string)
    ensures Join([s, "сек."], " ") == s + " сек."
  {
    JoinCons(s, ["сек."], " ");
    assert [s] + ["сек."] == [s, "сек."];
  }

  lemma MinutesText(m: string, s: string)
    ensures Join([m, "мин.", s, "сек."], " ") == m + " мин. " + s + " сек."
  {
    JoinCons(m, ["мин.", s, "сек."], " ");
    JoinCons("мин.", [s, "сек."], " ");
    SecondsText(s);
    assert [m] + ["мин.", s, "сек."] == [m, "мин.", s, "сек."];
    assert ["мин."] + [s, "сек."] == ["мин.", s, "сек."];
  }

  lemma HoursText(h: string, m: string)
    ensures Join([h, "ч.", m, "мин."], " ") == h + " ч. " + m + " мин."
  {
    JoinCons(h, ["ч.", m, "мин."], " ");
    JoinCons("ч.", [m, "мин."], " ");
    JoinCons(m, ["мин."], " ");
    assert [h] + ["ч.", m, "мин."] == [h, "ч.", m, "мин."];
    assert ["ч."] + [m, "мин."] == ["ч.", m, "мин."];
    assert [m] + ["мин."] == [m, "мин."];
  }

  /** The numbers shown account for the whole time, except that the hour
      form drops up to 59 seconds. */
  lemma TimeSpentDisplayAccounts(seconds: nat)
    ensures var c := ClockOf(seconds);
      c.minutes < 60 && c.seconds < 60 &&
      c.hours * 3600 + c.minutes * 60 + c.seconds == seconds &&
      (seconds < 3600 ==> c.hours == 0 && c.minutes * 60 + c.seconds == seconds) &&
      (seconds < 60 ==> c.minutes == 0 && c.seconds == seconds)
  {
    var c := ClockOf(seconds);
    assert seconds == (seconds / 3600) * 3600 + seconds % 3600;
    assert seconds % 3600 == ((seconds % 3600) / 60) * 60 + (seconds % 3600) % 60;
    assert (seconds % 3600) % 60 == seconds % 60 by {
      assert seconds % 3600 == seconds - (seconds / 3600) * 3600;
      ModSubMultiple(seconds, seconds / 3600);
    }
    DivBelow(seconds % 3600, 60);
    MulMono(60, (seconds % 3600) / 60, 60);
  }

  /** Removing whole hours does not change the seconds of the minute. */
  lemma ModSubMultiple(s: nat, h: nat)
    requires h * 3600 <= s
    ensures (s - h * 3600) % 60 == s % 60
  {
    var r := s - h * 3600;
    assert s == r + (h * 60) * 60;
    assert (r + (h * 60) * 60) % 60 == r % 60;
  }

  /** The labels of `CourseElementAttachmentAdmin.get_file_type`. */
  const FileTypeLabels: map<string, string> := map[
    "application/pdf" := "PDF",
    "application/msword" := "Word",
    "application/vnd.ms-excel" := "Excel",
    "application/vnd.ms-powerpoint" := "PowerPoint",
    "application/zip" := "ZIP",
    "image/jpeg" := "JPEG",
    "image/png" := "PNG",
    "video/mp4" := "MP4 Видео",
    "audio/mpeg" := "MP3 Аудио",
    "application/octet-stream" := "Файл"
  ]

  /** A known MIME type is shown by its label, any other one as it is. */
  function FileTypeLabel(mime: string): string {
    if mime in FileTypeLabels then FileTypeLabels[mime] else mime
  }

  /** Every type an attachment's save can store has a label, so the raw
      MIME type is shown only for types set by other means. */
  lemma SavedTypesHaveLabels(fileName: string)
    ensures MimeType(fileName) in FileTypeLabels
    ensures FileTypeLabel(MimeType(fileName)) != MimeType(fileName)
  {
    MimeTypeShape(fileName);
    assert FileTypeLabels.Keys == KnownMimeTypes;
  }

  lemma UnknownTypeShownAsIs(mime: string)
    requires mime !in KnownMimeTypes
    ensures FileTypeLabel(mime) == mime
  {
    assert FileTypeLabels.Keys == KnownMimeTypes;
  }

  /** `CourseAdmin.save_model`: the requester becomes the author when the
      course is created and never when it is changed. */
  function AuthorAfterSave(author: Option<int>, requester: int, change: bool): Option<int>
  {
    if !change then Some(requester) else author
  }

  /** One save of a course through the admin page. */
  datatype CourseSave = CourseSave(requester: int, change: bool)

  /** The author after a sequence of saves, each through `AuthorAfterSave`. */
  function AuthorAfterSaves(author: Option<int>, saves: seq<CourseSave>): Option<int>
    decreases |saves|
  {
    if saves == [] then author
    else
      var last := saves[|saves| - 1];
      AuthorAfterSave(AuthorAfterSaves(author, saves[..|saves| - 1]), last.requester, last.change)
  }

  /** The requester of the last save that created the course, if any. */
  function LastCreator(saves: seq<CourseSave>): Option<int>
    decreases |saves|
  {
    if saves == [] then None
    else if !saves[|saves| - 1].change then Some(saves[|saves| - 1].requester)
    else LastCreator(saves[..|saves| - 1])
  }

  /** Whatever the changes in between, the author is the requester of the
      last creating save, and stays as it was when no save created the
      course. */
  lemma {:induction false} AuthorIsLastCreator(author: Option<int>, saves: seq<CourseSave>)
    ensures AuthorAfterSaves(author, saves) ==
      if LastCreator(saves).Some? then LastCreator(saves) else author
    decreases |saves|
  {
    if saves != [] {
      AuthorIsLastCreator(author, saves[..|saves| - 1]);
    }
  }

  /** A course created by one requester and afterwards only changed keeps
      that requester as its author, whoever makes the changes. */
  lemma CreatorStaysAuthor(author: Option<int>, creator: int, changes: seq<CourseSave>)
    requires forall i :: 0 <= i < |changes| ==> changes[i].change
    ensures AuthorAfterSaves(author, [CourseSave(creator, false)] + changes) == Some(creator)
  {
    var saves := [CourseSave(creator, false)] + changes;
    AuthorIsLastCreator(author, saves);
    CreatorIsLastCreator(creator, changes);
  }

  lemma {:induction false} CreatorIsLastCreator(creator: int, changes: seq<CourseSave>)
    requires forall i :: 0 <= i < |changes| ==> changes[i].change
    ensures LastCreator([CourseSave(creator, false)] + changes) == Some(creator)
    decreases |changes|
  {
    var saves := [CourseSave(creator, false)] + changes;
    if changes != [] {
      assert saves[..|saves| - 1] == [CourseSave(creator, false)] + changes[..|changes| - 1];
      assert saves[|saves| - 1] == changes[|changes| - 1];
      CreatorIsLastCreator(creator, changes[..|changes| - 1]);
    }
  }

  /** `CourseElementProgressAdmin.save_model`: a change of the grade or of
      the grade percentage records who graded and when. The save fires
      `update_enrollment_last_accessed`, which makes the record's last view,
      when there is one, the enrollment's last access. */
  method SaveProgress(p: CourseElementProgress, changedData: set<string>, requester: int, now: int)
    modifies p, p.enrollment
    ensures "grade" in changedData || "grade_percent" in changedData ==>
      p.gradedBy == Some(requester) && p.gradedAt == Some(now)
    ensures !("grade" in changedData || "grade_percent" in changedData) ==>
      p.gradedBy == old(p.gradedBy) && p.gradedAt == old(p.gradedAt)
    ensures p.Row() == old(p.Row()).(gradedBy := p.gradedBy, gradedAt := p.gradedAt)
    ensures p.enrollment.Row() == old(p.enrollment.Row()).(lastAccessed := LastAccess(old(p.enrollment.lastAccessed), p.lastViewedAt))
  {
    if "grade" in changedData || "grade_percent" in changedData {
      p.gradedBy := Some(requester);
      p.gradedAt := Some(now);
    }
    p.UpdateEnrollmentLastAccessed();
  }
}
