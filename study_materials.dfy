/** Study materials (`study_materials/models.py`): where an uploaded
    material file is stored, the names of nested material categories, the
    slug and file metadata a material fills in when saved, the narrower
    file typing of attachments, and the subscription window of an
    electronic library. Days are integers; the random hex text of a UUID
    and the slug of a title are passed in. */
module StudyMaterials {
  import opened Common
  import Courses

  // -----------------------------------------------------------------------
  // File paths

  /** The material types and their display labels. */
  datatype MaterialType =
    | Lecture | Practice | Lab | Seminar | Textbook | Manual | Article
    | Video | Presentation | Test | Exam | Literature | OtherMaterial

  function TypeLabel(t: MaterialType): string {
    match t
    case Lecture => "Лекция"
    case Practice => "Практическое занятие"
    case Lab => "Лабораторная работа"
    case Seminar => "Семинар"
    case Textbook => "Учебник"
    case Manual => "Методическое пособие"
    case Article => "Статья"
    case Video => "Видео"
    case Presentation => "Презентация"
    case Test => "Тест/Контрольная работа"
    case Exam => "Экзаменационные материалы"
    case Literature => "Литература"
    case OtherMaterial => "Другое"
  }

  /** The last position of `c` in `s`, or -1. */
  function LastIndex(s: string, c: char): (r: int)
    ensures -1 <= r < |s|
    ensures r >= 0 ==> s[r] == c
    ensures forall j :: r < j < |s| ==> s[j] != c
  {
    if s == [] then -1 else if s[|s| - 1] == c then |s| - 1 else LastIndex(s[..|s| - 1], c)
  }

  predicate AllDots(s: string) {
    forall i :: 0 <= i < |s| ==> s[i] == '.'
  }

  /** What `os.path.splitext` may return as an extension: nothing, or a
      dot followed by characters that are neither dots nor slashes. */
  predicate IsExtension(e: string) {
    e == "" || (e[0] == '.' && forall j :: 0 <= j < |e| ==> e[j] != '/' && (j > 0 ==> e[j] != '.'))
  }

  /** `os.path.splitext`: the extension runs from the last dot of the last
      path component, unless only dots precede that dot in the component. */
  function SplitExt(p: string): (r: (string, string))
    ensures r.0 + r.1 == p && IsExtension(r.1)
  {
    var sepAt := LastIndex(p, '/');
    var dotAt := LastIndex(p, '.');
    if dotAt > sepAt && !AllDots(p[sepAt + 1..dotAt]) then
      assert p[dotAt] == '.';
      ExtensionShape(p, sepAt, dotAt);
      (p[..dotAt], p[dotAt..])
    else (p, "")
  }

  /** The text from the last dot on, when no slash follows that dot. */
  lemma ExtensionShape(p: string, sepAt: int, dotAt: int)
    requires -1 <= sepAt < dotAt < |p| && p[dotAt] == '.'
    requires forall j :: sepAt < j < |p| ==> p[j] != '/'
    requires forall j :: dotAt < j < |p| ==> p[j] != '.'
    ensures IsExtension(p[dotAt..])
    ensures p[..dotAt] + p[dotAt..] == p
  {
    var e := p[dotAt..];
    forall j | 0 <= j < |e| ensures e[j] == p[dotAt + j] {
    }
  }

  /** A name whose last dot follows some other character splits there. */
  lemma SplitExtOfName(stem: string, ext: string)
    requires '/' !in stem && '.' !in ext && '/' !in ext
    requires !AllDots(stem)
    ensures SplitExt(stem + "." + ext) == (stem, "." + ext)
  {
    var p := stem + "." + ext;
    assert p[|stem|] == '.';
    forall j | |stem| < j < |p| ensures p[j] != '.' {
      assert p[j] == ext[j - |stem| - 1];
    }
    forall j | 0 <= j < |p| ensures p[j] != '/' {
      if j < |stem| {
        assert p[j] == stem[j];
      } else if j > |stem| {
        assert p[j] == ext[j - |stem| - 1];
      }
    }
    var dotAt := LastIndex(p, '.');
    assert dotAt == |stem|;
    assert LastIndex(p, '/') == -1;
    assert p[0..dotAt] == stem;
    assert p[..dotAt] == stem && p[dotAt..] == "." + ext;
  }

  /** The name under which `get_material_file_path` stores an upload: the
      uploaded name, "_", the first eight hex digits and the extension. */
  function StoredName(fileName: string, uuidHex: string): string
    requires |uuidHex| == 32
  {
    SplitExt(fileName).0 + "_" + uuidHex[..8] + SplitExt(fileName).1
  }

  /** `get_material_file_path`: `materials/<subject code or "common">/
      <lower-cased type label>/<stored name>`. */
  function MaterialFilePath(subjectCode: Option<string>, t: MaterialType, fileName: string, uuidHex: string): string
    requires |uuidHex| == 32
  {
    var code := if subjectCode.Some? then subjectCode.value else "common";
    "materials/" + code + "/" + Lower(TypeLabel(t)) + "/" + StoredName(fileName, uuidHex)
  }

  lemma StoredNameHasNoSlash(fileName: string, uuidHex: string)
    requires |uuidHex| == 32 && '/' !in fileName && '/' !in uuidHex
    ensures '/' !in StoredName(fileName, uuidHex)
  {
    var (name, ext) := SplitExt(fileName);
    forall i | 0 <= i < |name| ensures name[i] != '/' {
      assert name[i] == fileName[i];
    }
    assert forall i :: 0 <= i < 8 ==> uuidHex[..8][i] == uuidHex[i];
  }

  lemma {:induction false} JoinConcat(a: seq<string>, b: seq<string>, sep: string)
    requires |a| >= 1 && |b| >= 1
    ensures Join(a + b, sep) == Join(a, sep) + sep + Join(b, sep)
  {
    if |a| == 1 {
      assert (a + b)[1..] == b;
    } else {
      JoinConcat(a[1..], b, sep);
      assert (a + b)[1..] == a[1..] + b;
    }
  }

  /** The path read as its slash-separated components. */
  lemma PathAsJoin(code: string, shown: string, stored: string)
    ensures "materials/" + code + "/" + shown + "/" + stored ==
      Join(["materials", code] + Split(shown, '/') + [stored], "/")
  {
    var middle := Split(shown, '/');
    JoinSplit(shown, '/');
    JoinConcat(["materials", code] + middle, [stored], "/");
    JoinConcat(["materials", code], middle, "/");
    assert ["materials", code][1..] == [code];
  }

  /** The path has the components root, subject code, the pieces of the
      type label between its slashes and the stored name. */
  lemma MaterialPathComponents(subjectCode: Option<string>, t: MaterialType, fileName: string, uuidHex: string)
    requires |uuidHex| == 32
    requires '/' !in fileName && '/' !in uuidHex
    requires subjectCode.Some? ==> '/' !in subjectCode.value
    ensures var code := if subjectCode.Some? then subjectCode.value else "common";
      Split(MaterialFilePath(subjectCode, t, fileName, uuidHex), '/') ==
        ["materials", code] + Split(Lower(TypeLabel(t)), '/') + [StoredName(fileName, uuidHex)]
  {
    var code := if subjectCode.Some? then subjectCode.value else "common";
    var shown := Lower(TypeLabel(t));
    var stored := StoredName(fileName, uuidHex);
    StoredNameHasNoSlash(fileName, uuidHex);
    PathAsJoin(code, shown, stored);
    var list := ["materials", code] + Split(shown, '/') + [stored];
    assert '/' !in "materials" by {
      var m := "materials";
      forall i | 0 <= i < |m| ensures m[i] != '/' {
      }
    }
    assert '/' !in code by {
      if subjectCode.None? {
        var m := "common";
        forall i | 0 <= i < |m| ensures m[i] != '/' {
        }
      }
    }
    forall p | p in list ensures '/' !in p {
      if p in Split(shown, '/') {
      } else {
        assert p == "materials" || p == code || p == stored;
      }
    }
    SplitJoin(list, '/');
  }

  /** The label of tests holds a slash, so tests are stored one directory
      deeper than the other types: at least five components. */
  lemma TestPathIsDeeper(subjectCode: Option<string>, fileName: string, uuidHex: string)
    requires |uuidHex| == 32
    requires '/' !in fileName && '/' !in uuidHex
    requires subjectCode.Some? ==> '/' !in subjectCode.value
    ensures |Split(MaterialFilePath(subjectCode, Test, fileName, uuidHex), '/')| >= 5
  {
    var shown := Lower(TypeLabel(Test));
    MaterialPathComponents(subjectCode, Test, fileName, uuidHex);
    TestLabelHasSlash();
    SplitCount(shown, '/');
    CountCharOfMember(shown, '/');
  }

  /** A character that occurs in a text is counted at least once. */
  lemma {:induction false} CountCharOfMember(s: string, c: char)
    requires c in s
    ensures CountChar(s, c) >= 1
  {
    if s[0] != c {
      assert c in s[1..];
      CountCharOfMember(s[1..], c);
    }
  }

  /** Lower-casing neither adds nor removes slashes. */
  lemma LowerKeepsSlash(s: string)
    ensures ('/' in Lower(s)) == ('/' in s)
  {
    var l := Lower(s);
    forall i | 0 <= i < |s| ensures (l[i] == '/') == (s[i] == '/') {
      assert l[i] == LowerChar(s[i]);
    }
    if '/' in l {
      var i :| 0 <= i < |l| && l[i] == '/';
      assert s[i] == '/';
    }
  }

  lemma TestLabelHasSlash()
    ensures '/' in Lower(TypeLabel(Test))
  {
    var l := TypeLabel(Test);
    assert l[4] == '/';
    LowerKeepsSlash(l);
  }

  // -----------------------------------------------------------------------
  // Categories

  /** A category and, through its parents, all its ancestors. */
  datatype Category = Category(name: string, parent: Option<Category>)

  /** `MaterialCategory.__str__`: the parent's string, " > " and the name. */
  function CategoryName(c: Category): string
    decreases c
  {
    if c.parent.Some? then CategoryName(c.parent.value) + " > " + c.name else c.name
  }

  /** The names from the root category down to `c`. */
  function Ancestry(c: Category): (r: seq<string>)
    ensures |r| >= 1 && r[|r| - 1] == c.name
    decreases c
  {
    if c.parent.Some? then Ancestry(c.parent.value) + [c.name] else [c.name]
  }

  lemma {:induction false} JoinAppend(xs: seq<string>, x: string, sep: string)
    requires |xs| >= 1
    ensures Join(xs + [x], sep) == Join(xs, sep) + sep + x
  {
    if |xs| == 1 {
      assert (xs + [x])[1..] == [x];
    } else {
      JoinAppend(xs[1..], x, sep);
      assert (xs + [x])[1..] == xs[1..] + [x];
      assert Join(xs + [x], sep) == xs[0] + sep + Join(xs[1..] + [x], sep);
    }
  }

  /** The string is the whole ancestry, root first, separated by " > ". */
  lemma {:induction false} CategoryNameIsAncestry(c: Category)
    ensures CategoryName(c) == Join(Ancestry(c), " > ")
    decreases c
  {
    if c.parent.Some? {
      CategoryNameIsAncestry(c.parent.value);
      JoinAppend(Ancestry(c.parent.value), c.name, " > ");
    }
  }

  /** The depth of a category: 1 for a root. */
  function Depth(c: Category): (d: nat)
    ensures d >= 1
    decreases c
  {
    if c.parent.Some? then Depth(c.parent.value) + 1 else 1
  }

  /** One name per level, ending in the category's own name. */
  lemma {:induction false} AncestryLength(c: Category)
    ensures |Ancestry(c)| == Depth(c)
    decreases c
  {
    if c.parent.Some? {
      AncestryLength(c.parent.value);
    }
  }

  // -----------------------------------------------------------------------
  // Materials

  /** A study material with the fields `save` fills in. */
  class Material {
    var title: string
    var slug: string
    var fileName: string
    var fileSize: nat
    var fileType: string

    constructor (title: string, slug: string, fileName: string, fileSize: nat, fileType: string)
      ensures this.title == title && this.slug == slug && this.fileName == fileName
      ensures this.fileSize == fileSize && this.fileType == fileType
    {
      this.title := title;
      this.slug := slug;
      this.fileName := fileName;
      this.fileSize := fileSize;
      this.fileType := fileType;
    }

    /** `Material.save`. A missing slug becomes the slugified title, with
        "-" and eight hex digits appended when another material already
        has it. A file with no recorded size gets the stored size and the
        type its lower-cased extension names. */
    method Save(slugified: string, takenSlugs: set<string>, uuidHex: string, storedSize: nat)
      requires |uuidHex| == 32
      modifies this
      ensures slug == if old(slug) != "" then old(slug)
        else if slugified in takenSlugs then slugified + "-" + uuidHex[..8]
        else slugified
      ensures old(fileName) != "" && old(fileSize) == 0 ==>
        fileSize == storedSize && fileType == Courses.MimeType(fileName)
      ensures !(old(fileName) != "" && old(fileSize) == 0) ==>
        fileSize == old(fileSize) && fileType == old(fileType)
      ensures title == old(title) && fileName == old(fileName)
    {
      if slug == "" {
        slug := slugified;
        if slug in takenSlugs {
          slug := slug + "-" + uuidHex[..8];
        }
      }
      if fileName != "" && fileSize == 0 {
        fileSize := storedSize;
        fileType := Courses.MimeType(fileName);
      }
    }
  }

  /** A slug that is set is never replaced, and a new one collides with no
      existing slug unless the slugified title was free or the suffixed
      one was already taken too. */
  lemma NewSlugAvoidsTaken(slugified: string, takenSlugs: set<string>, uuidHex: string)
    requires |uuidHex| == 32
    requires slugified + "-" + uuidHex[..8] !in takenSlugs
    ensures (if slugified in takenSlugs then slugified + "-" + uuidHex[..8] else slugified) !in takenSlugs
    ensures StartsWith(if slugified in takenSlugs then slugified + "-" + uuidHex[..8] else slugified, slugified)
  {
    var s := slugified + "-" + uuidHex[..8];
    assert s[..|slugified|] == slugified;
  }

  /** An attachment's type: only PDF and Word files are recognised. */
  function AttachmentType(fileName: string, current: string): (r: string)
    ensures r == current || r == "application/pdf" || r == "application/msword"
  {
    var n := Lower(fileName);
    if EndsWith(n, ".pdf") then "application/pdf"
    else if EndsWith(n, ".doc") || EndsWith(n, ".docx") then "application/msword"
    else current
  }

  /** The attachment agrees with a material on PDF and Word files and
      keeps its old type for everything else a material would recognise. */
  lemma AttachmentTypeAgreesOnOffice(fileName: string, current: string)
    ensures Courses.MimeType(fileName) == "application/pdf" ==> AttachmentType(fileName, current) == "application/pdf"
    ensures Courses.MimeType(fileName) == "application/msword" ==> AttachmentType(fileName, current) == "application/msword"
    ensures Courses.MimeType(fileName) != "application/pdf" && Courses.MimeType(fileName) != "application/msword" ==>
      AttachmentType(fileName, current) == current
  {
    var n := Lower(fileName);
    if !EndsWith(n, ".pdf") && !(EndsWith(n, ".doc") || EndsWith(n, ".docx")) {
      OtherTypesNotOffice(n);
    }
  }

  /** A name that is neither PDF nor Word gets a type that is neither. */
  lemma OtherTypesNotOffice(n: string)
    requires !EndsWith(n, ".pdf") && !(EndsWith(n, ".doc") || EndsWith(n, ".docx"))
    ensures Courses.MimeTypeOfLower(n) != "application/pdf" && Courses.MimeTypeOfLower(n) != "application/msword"
  {
    var m := Courses.MimeTypeOfLower(n);
    assert m in OtherTypes;
    OtherTypesDiffer(m);
  }

  /** The types a name other than a PDF or Word file can get. */
  const OtherTypes: set<string> := {
    "application/vnd.ms-excel", "application/vnd.ms-powerpoint", "application/zip", "image/jpeg",
    "image/png", "video/mp4", "audio/mpeg", "application/octet-stream"
  }

  lemma OtherTypesDiffer(m: string)
    requires m in OtherTypes
    ensures m != "application/pdf" && m != "application/msword"
  {
  }

  class MaterialAttachment {
    var fileName: string
    var fileSize: nat
    var fileType: string

    constructor (fileName: string, fileSize: nat, fileType: string)
      ensures this.fileName == fileName && this.fileSize == fileSize && this.fileType == fileType
    {
      this.fileName := fileName;
      this.fileSize := fileSize;
      this.fileType := fileType;
    }

    /** `MaterialAttachment.save`: like a material, but with the shorter
        list of types. */
    method Save(storedSize: nat)
      modifies this
      ensures fileName == old(fileName)
      ensures old(fileName) != "" && old(fileSize) == 0 ==>
        fileSize == storedSize && fileType == AttachmentType(fileName, old(fileType))
      ensures !(old(fileName) != "" && old(fileSize) == 0) ==>
        fileSize == old(fileSize) && fileType == old(fileType)
    {
      if fileName != "" && fileSize == 0 {
        fileSize := storedSize;
        fileType := AttachmentType(fileName, fileType);
      }
    }
  }

  // -----------------------------------------------------------------------
  // Electronic libraries

  datatype ElectronicLibrary = ElectronicLibrary(name: string, subscriptionStart: Option<int>, subscriptionEnd: Option<int>)

  /** `is_subscription_valid`: both dates set and today between them. */
  predicate SubscriptionValid(e: ElectronicLibrary, today: int) {
    e.subscriptionStart.Some? && e.subscriptionEnd.Some? &&
    e.subscriptionStart.value <= today <= e.subscriptionEnd.value
  }

  /** The valid days are exactly the closed range of the subscription:
      none without both dates, and every day between two valid days is
      valid too. */
  lemma SubscriptionWindow(e: ElectronicLibrary, d1: int, d: int, d2: int)
    ensures e.subscriptionStart.None? || e.subscriptionEnd.None? ==> !SubscriptionValid(e, d)
    ensures SubscriptionValid(e, d1) && SubscriptionValid(e, d2) && d1 <= d <= d2 ==> SubscriptionValid(e, d)
    ensures e.subscriptionStart.Some? && e.subscriptionEnd.Some? ==>
      (SubscriptionValid(e, e.subscriptionStart.value) <==> e.subscriptionStart.value <= e.subscriptionEnd.value)
  {
  }
}
