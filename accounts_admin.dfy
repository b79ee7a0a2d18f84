/** The accounts admin (`accounts/admin.py`): the profile link of the user
    list, the student action that moves students to the next semester and
    the guard of the dean-profile form. */
module AccountsAdmin {
  import opened Common
  import opened Accounts

  // -----------------------------------------------------------------------
  // Profile link

  /** What `profile_link` shows: a link to row `row` of the profile table
      of `role`, or "-". */
  datatype Link = ProfileLinkTo(role: Role, row: nat) | Dash

  /** The first row of `s` holding `x`. */
  function IndexOf(s: seq<nat>, x: nat): (r: Option<nat>)
    ensures r.Some? <==> x in s
    ensures r.Some? ==> r.value < |s| && s[r.value] == x
  {
    if s == [] then None
    else if s[0] == x then Some(0)
    else
      var r := IndexOf(s[1..], x);
      if r.Some? then Some(r.value + 1) else None
  }

  /** `UserAdmin.profile_link`: the profile of the user's own role, when
      the user has one. */
  function ProfileLink(u: User, p: Profiles): Link {
    if u.role == NoRole then Dash
    else
      var i := IndexOf(ProfileTable(p, u.role), u.id);
      if i.Some? then ProfileLinkTo(u.role, i.value) else Dash
  }

  /** A link is shown exactly when the user has a profile of its role, and
      it leads to a row of that profile table that belongs to the user. */
  lemma ProfileLinkIff(u: User, p: Profiles)
    ensures ProfileLink(u, p).ProfileLinkTo? <==> u.role != NoRole && ProfileCount(p, u.id, u.role) > 0
    ensures ProfileLink(u, p).ProfileLinkTo? ==>
      var l := ProfileLink(u, p);
      l.role == u.role && l.row < |ProfileTable(p, u.role)| && ProfileTable(p, u.role)[l.row] == u.id
  {
  }

  /** A user just created through the signal, whose rows the tables did
      not hold before, has a profile link exactly when it is an
      administrator: every other role's profile row is refused. */
  lemma NewUserHasProfileLink(u: User, p: Profiles)
    requires u.role != NoRole ==> ProfileCount(p, u.id, u.role) == 0
    ensures ProfileLink(u, WithNewUser(p, u.id, u.role)).ProfileLinkTo? <==> u.role == AdminRole
  {
    var q := WithNewUser(p, u.id, u.role);
    if u.role != NoRole {
      NewUserTables(p, u.id, u.role, u.role);
      if u.role == AdminRole {
        assert ProfileTable(q, u.role)[|ProfileTable(q, u.role)| - 1] == u.id;
      }
    }
    ProfileLinkIff(u, q);
  }

  // -----------------------------------------------------------------------
  // increment_semester

  /** A stored student profile, with the column the action changes. */
  datatype StudentRow = StudentRow(user: nat, currentSemester: int)

  function Incremented(s: StudentRow): StudentRow {
    s.(currentSemester := s.currentSemester + 1)
  }

  /** `StudentProfileAdmin.increment_semester`: each selected student is
      saved with its semester one higher. */
  method IncrementSemester(students: seq<StudentRow>, selected: seq<nat>) returns (r: seq<StudentRow>)
    requires Selection(|students|, selected)
    ensures |r| == |students|
    ensures forall i :: 0 <= i < |students| ==>
      r[i].user == students[i].user &&
      r[i].currentSemester == students[i].currentSemester + (if i in selected then 1 else 0)
  {
    r := ForEachSelected(students, selected, Incremented);
  }

  /** Running the action twice on the same selection moves the selected
      students two semesters on and leaves the others as they were. */
  lemma IncrementTwice(students: seq<StudentRow>, selected: seq<nat>)
    ensures var r := Updated(Updated(students, selected, Incremented), selected, Incremented);
      |r| == |students| &&
      forall i :: 0 <= i < |students| ==>
        r[i] == if i in selected then students[i].(currentSemester := students[i].currentSemester + 2) else students[i]
  {
  }

  // -----------------------------------------------------------------------
  // DeanProfileAdmin.save_model

  /** The guard of `save_model`: a dean or vice-dean needs a faculty and a
      head of department a department. */
  predicate SaveAccepted(d: DeanProfile) {
    !((d.position == Dean || d.position == ViceDean) && d.faculty.None?) &&
    !(d.position == HeadOfDepartment && d.department.None?)
  }

  /** For every position the form offers, the guard accepts exactly the
      rows the check constraint admits, and an accepted row has a text.
      The empty position passes the guard although the constraint rejects
      it, and such a row without a department has no text. */
  lemma SaveGuardMatchesConstraint(d: DeanProfile, fullName: string)
    ensures d.position != Unset ==> (SaveAccepted(d) <==> PositionMatchesEntity(d))
    ensures SaveAccepted(d) && d.position != Unset ==> DeanText(d, fullName).Some?
    ensures d.position == Unset ==> SaveAccepted(d) && !PositionMatchesEntity(d)
    ensures d.position == Unset ==> (DeanText(d, fullName).None? <==> d.department.None?)
  {
  }

  /** `save_model`: the row is stored (replacing row `at`, or appended)
      only when the guard accepts it; otherwise an error is reported and
      nothing changes. A row whose position is unset passes the guard:
      only the admin form's required position field keeps it out, and
      that form is not part of this model. */
  method SaveDeanProfile(dir: Directory, d: DeanProfile, at: Option<nat>) returns (saved: bool)
    requires at.Some? ==> at.value < |dir.profiles.deans|
    modifies dir
    ensures saved == SaveAccepted(d)
    ensures dir.users == old(dir.users)
    ensures dir.profiles == if !saved then old(dir.profiles)
      else if at.Some? then old(dir.profiles).(deans := old(dir.profiles).deans[at.value := d])
      else old(dir.profiles).(deans := old(dir.profiles).deans + [d])
  {
    if (d.position == Dean || d.position == ViceDean) && d.faculty.None? {
      return false;
    }
    if d.position == HeadOfDepartment && d.department.None? {
      return false;
    }
    if at.Some? {
      dir.profiles := dir.profiles.(deans := dir.profiles.deans[at.value := d]);
    } else {
      dir.profiles := dir.profiles.(deans := dir.profiles.deans + [d]);
    }
    saved := true;
  }
}
