/** Accounts (`accounts/models.py`): the user's full name, the dean
    profile's check constraint and its text, and the signal that gives a
    new user the profile of its role and its notification settings. Only
    the columns these rules read are modelled. */
module Accounts {
  import opened Common
  import Messaging

  /** `User.role`; `NoRole` is the empty value a user created outside the
      role form (a superuser) has. */
  datatype Role = AdminRole | TeacherRole | StudentRole | MethodistRole | DeanRole | NoRole

  datatype User = User(id: nat, lastName: string, firstName: string, patronymic: string, role: Role, isStaff: bool)

  // -----------------------------------------------------------------------
  // Full name

  /** `User.get_full_name`: surname and first name, the patronymic when
      there is one, and the surrounding whitespace trimmed. */
  function FullName(lastName: string, firstName: string, patronymic: string): string {
    Strip(lastName + " " + firstName + (if patronymic != "" then " " + patronymic else ""))
  }

  /** The names that are given, in the order the full name lists them. */
  function GivenNames(lastName: string, firstName: string, patronymic: string): seq<string> {
    [lastName, firstName] + (if patronymic != "" then [patronymic] else [])
  }

  /** The text `get_full_name` strips is the given names joined by single
      spaces. */
  lemma GivenNamesJoin(lastName: string, firstName: string, patronymic: string)
    ensures Join(GivenNames(lastName, firstName, patronymic), " ") ==
      lastName + " " + firstName + (if patronymic != "" then " " + patronymic else "")
  {
    if patronymic != "" {
      JoinCons(firstName, [patronymic], " ");
      JoinCons(lastName, [firstName, patronymic], " ");
      assert [lastName] + [firstName, patronymic] == [lastName, firstName, patronymic];
    } else {
      JoinCons(lastName, [firstName], " ");
      assert [lastName] + [firstName] == [lastName, firstName];
    }
  }

  /** With a surname and a first name that are single words, the full name
      is the given names joined by single spaces, so it splits back into
      exactly those names. */
  lemma FullNameOfWords(lastName: string, firstName: string, patronymic: string)
    requires IsWord(lastName) && IsWord(firstName) && (patronymic == "" || IsWord(patronymic))
    ensures FullName(lastName, firstName, patronymic) == Join(GivenNames(lastName, firstName, patronymic), " ")
    ensures Words(FullName(lastName, firstName, patronymic)) == GivenNames(lastName, firstName, patronymic)
  {
    FullNameIsJoin(lastName, firstName, patronymic);
    var names := GivenNames(lastName, firstName, patronymic);
    assert forall w :: w in names ==> IsWord(w);
    WordsOfJoin(names);
  }

  /** The text `get_full_name` strips already starts and ends with a
      letter of a name, so stripping leaves it as it is. */
  lemma FullNameIsJoin(lastName: string, firstName: string, patronymic: string)
    requires IsWord(lastName) && IsWord(firstName) && (patronymic == "" || IsWord(patronymic))
    ensures FullName(lastName, firstName, patronymic) == Join(GivenNames(lastName, firstName, patronymic), " ")
  {
    var s := lastName + " " + firstName + (if patronymic != "" then " " + patronymic else "");
    GivenNamesJoin(lastName, firstName, patronymic);
    var last := if patronymic != "" then patronymic else firstName;
    assert s[0] == lastName[0] && lastName[0] in lastName;
    assert s[|s| - 1] == last[|last| - 1] by {
      if patronymic != "" {
        assert s == (lastName + " " + firstName + " ") + patronymic;
      } else {
        assert s == (lastName + " ") + firstName;
      }
    }
    assert last[|last| - 1] in last;
    StripKeepsTrimmed(s);
  }

  /** Text that starts and ends with a non-space is left as it is by
      `strip`. */
  lemma StripKeepsTrimmed(s: string)
    requires s != [] && !IsSpace(s[0]) && !IsSpace(s[|s| - 1])
    ensures Strip(s) == s
  {
    assert StripLeft(s) == s;
  }

  /** A missing first name is not closed up: two spaces are left between
      the surname and the patronymic. */
  lemma FullNameWithoutFirstName(lastName: string, patronymic: string)
    requires IsWord(lastName) && IsWord(patronymic)
    ensures FullName(lastName, "", patronymic) == lastName + "  " + patronymic
  {
    var s := lastName + " " + "" + " " + patronymic;
    assert s == lastName + "  " + patronymic;
    assert s[0] == lastName[0] && lastName[0] in lastName;
    assert s[|s| - 1] == patronymic[|patronymic| - 1] && patronymic[|patronymic| - 1] in patronymic;
    StripKeepsTrimmed(s);
  }

  /** A name with only a surname comes out as that single word. */
  lemma FullNameOfSurnameOnly(name: string)
    requires IsWord(name)
    ensures FullName(name, "", "") == name
  {
    assert name[0] in name && name[|name| - 1] in name;
    var t := name + " " + "" + "";
    assert t == name + " " && t[0] == name[0];
    assert StripLeft(t) == t;
    assert t[..|t| - 1] == name;
    assert StripRight(t) == StripRight(name);
    StripKeepsTrimmed(name);
  }

  /** A name with only a first name comes out as that single word. */
  lemma FullNameOfFirstNameOnly(name: string)
    requires IsWord(name)
    ensures FullName("", name, "") == name
  {
    assert name[0] in name && name[|name| - 1] in name;
    var u := "" + " " + name + "";
    assert u == " " + name && u[1..] == name;
    assert StripLeft(u) == StripLeft(name);
    StripKeepsTrimmed(name);
  }

  // -----------------------------------------------------------------------
  // Dean profiles

  /** `DeanProfile.position`; `Unset` is the empty value a row created
      without one holds. */
  datatype Position = Dean | ViceDean | HeadOfDepartment | Unset

  /** A dean profile with the names of its faculty and department, if set. */
  datatype DeanProfile = DeanProfile(user: nat, position: Position, faculty: Option<string>, department: Option<string>)

  /** The `position_matches_entity` check constraint. */
  predicate PositionMatchesEntity(d: DeanProfile) {
    (d.position == Dean && d.faculty.Some?) ||
    (d.position == ViceDean && d.faculty.Some?) ||
    (d.position == HeadOfDepartment && d.department.Some?)
  }

  /** `get_position_display()`: the label of the choice, or the stored
      value itself when it is not one. */
  function PositionDisplay(p: Position): string {
    match p
    case Dean => "Декан"
    case ViceDean => "Заместитель декана"
    case HeadOfDepartment => "Заведующий кафедрой"
    case Unset => ""
  }

  /** `DeanProfile.__str__`; `None` stands for the `AttributeError` raised
      when the entity it names is not set. */
  function DeanText(d: DeanProfile, fullName: string): Option<string> {
    var entity := if d.position == Dean || d.position == ViceDean then d.faculty else d.department;
    if entity.None? then None
    else Some(fullName + " - " + PositionDisplay(d.position) + " (" + entity.value + ")")
  }

  /** Every row the constraint admits has a text, naming the faculty of a
      dean or vice-dean and the department of a head of department; a row
      without the entity its position names has none. */
  lemma DeanTextDefined(d: DeanProfile, fullName: string)
    ensures PositionMatchesEntity(d) ==> DeanText(d, fullName).Some?
    ensures DeanText(d, fullName).Some? <==>
      (if d.position == Dean || d.position == ViceDean then d.faculty.Some? else d.department.Some?)
    ensures (d.position == Dean || d.position == ViceDean) && d.faculty.Some? ==>
      EndsWith(DeanText(d, fullName).value, " (" + d.faculty.value + ")")
    ensures d.position == HeadOfDepartment && d.department.Some? ==>
      EndsWith(DeanText(d, fullName).value, " (" + d.department.value + ")")
  {
  }

  // -----------------------------------------------------------------------
  // Profiles created for a new user

  /** The profile tables, each as the column of users its rows belong to
      (dean rows with the columns the constraint reads), and the
      notification-settings table. */
  datatype Profiles = Profiles(
    admins: seq<nat>, teachers: seq<nat>, students: seq<nat>, methodists: seq<nat>,
    deans: seq<DeanProfile>, notificationSettings: seq<nat>)

  function DeanUsers(ds: seq<DeanProfile>): seq<nat>
  {
    seq(|ds|, i requires 0 <= i < |ds| => ds[i].user)
  }

  /** The users of the profile table of a role (none for `NoRole`). */
  function ProfileTable(p: Profiles, r: Role): seq<nat> {
    match r
    case AdminRole => p.admins
    case TeacherRole => p.teachers
    case StudentRole => p.students
    case MethodistRole => p.methodists
    case DeanRole => DeanUsers(p.deans)
    case NoRole => []
  }

  /** How many profiles of role `r` user `u` has. */
  function ProfileCount(p: Profiles, u: nat, r: Role): nat {
    multiset(ProfileTable(p, r))[u]
  }

  /** The dean row the signal creates: only the user is given. */
  function NewDeanProfile(u: nat): DeanProfile {
    DeanProfile(u, Unset, None, None)
  }

  /** The dean row the signal would create has no position and no entity,
      so the check constraint rejects it. */
  lemma NewDeanViolatesConstraint(u: nat)
    ensures NewDeanProfile(u).user == u && !PositionMatchesEntity(NewDeanProfile(u))
  {
  }

  /** Whether the database refuses the profile row the signal creates for
      the role with `IntegrityError`: only the user is given, and every
      profile but the administrator's has a column that is neither
      nullable nor defaulted (a teacher's `hire_date`, a student's
      `group`, a methodist's `department`, a dean's `appointment_date`);
      the dean row breaks `position_matches_entity` as well. */
  predicate ProfileRejected(r: Role) {
    r == TeacherRole || r == StudentRole || r == MethodistRole || r == DeanRole
  }

  /** The tables after `create_user_profile` for a newly created user: a
      row in the profile table of its role, then its notification
      settings. When the profile row is refused, the error leaves the
      receiver before the settings row, so neither is stored. */
  function WithNewUser(p: Profiles, u: nat, r: Role): Profiles {
    if ProfileRejected(r) then p
    else
      var q := if r == AdminRole then p.(admins := p.admins + [u]) else p;
      q.(notificationSettings := q.notificationSettings + [u])
  }

  /** A new user gets an administrator profile exactly when it is an
      administrator, no other profile, and one notification-settings row
      exactly when its profile row is not refused; every other user's rows
      are as they were. */
  lemma NewUserGetsOneProfile(p: Profiles, u: nat, role: Role, r: Role, other: nat)
    requires ProfileCount(p, u, r) == 0 && multiset(p.notificationSettings)[u] == 0
    requires other != u
    ensures ProfileCount(WithNewUser(p, u, role), u, r) == if r == role && r == AdminRole then 1 else 0
    ensures multiset(WithNewUser(p, u, role).notificationSettings)[u] == if ProfileRejected(role) then 0 else 1
    ensures ProfileCount(WithNewUser(p, u, role), other, r) == ProfileCount(p, other, r)
  {
    var t := ProfileTable(p, r);
    NewUserTables(p, u, role, r);
    if r == role && r == AdminRole {
      assert multiset(t + [u]) == multiset(t) + multiset{u};
    }
    if !ProfileRejected(role) {
      assert multiset(p.notificationSettings + [u]) == multiset(p.notificationSettings) + multiset{u};
    }
  }

  /** The signal appends an administrator to the administrator table and
      to the notification settings, a user without a role to the settings
      only, and leaves every table alone for a refused role. */
  lemma NewUserTables(p: Profiles, u: nat, role: Role, r: Role)
    ensures ProfileTable(WithNewUser(p, u, role), r) ==
      if r == role && r == AdminRole then ProfileTable(p, r) + [u] else ProfileTable(p, r)
    ensures WithNewUser(p, u, role).notificationSettings ==
      if ProfileRejected(role) then p.notificationSettings else p.notificationSettings + [u]
  {
  }

  /** The users and the profile tables, as the signal changes them. */
  class Directory {
    var users: seq<User>
    var profiles: Profiles

    constructor ()
      ensures users == [] && profiles == Profiles([], [], [], [], [], [])
    {
      users := [];
      profiles := Profiles([], [], [], [], [], []);
    }

    /** Saving a new user, which fires `create_user_profile` with
        `created` set, and after it messaging's
        `create_notification_preferences`. The new user's id is its
        position. `raised` tells that the profile receiver's
        `IntegrityError` reached the caller, so the later receiver did not
        run; the user row itself is already stored by then. */
    method CreateUser(store: Messaging.MessageStore, lastName: string, firstName: string, patronymic: string, role: Role, isStaff: bool)
      returns (u: User, raised: bool)
      requires |users| !in store.preferences
      modifies this, store
      ensures u == User(old(|users|), lastName, firstName, patronymic, role, isStaff)
      ensures users == old(users) + [u]
      ensures raised == ProfileRejected(role)
      ensures profiles == WithNewUser(old(profiles), u.id, role)
      ensures store.preferences == if raised then old(store.preferences) else old(store.preferences)[u.id := Messaging.DefaultPreferences()]
      ensures store.messages == old(store.messages) && store.threads == old(store.threads)
      ensures store.notifications == old(store.notifications)
      ensures store.groupReads == old(store.groupReads) && store.announcementReads == old(store.announcementReads)
    {
      u := User(|users|, lastName, firstName, patronymic, role, isStaff);
      users := users + [u];
      raised := false;
      if role == AdminRole {
        profiles := profiles.(admins := profiles.admins + [u.id]);
      } else if role == TeacherRole || role == StudentRole || role == MethodistRole || role == DeanRole {
        raised := true;
        return;
      }
      profiles := profiles.(notificationSettings := profiles.notificationSettings + [u.id]);
      Messaging.CreatePreferences(store, u.id, true);
    }
  }
}
