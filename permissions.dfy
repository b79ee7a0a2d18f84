/** The REST permission classes of the accounts API
    (`accounts/api/permissions.py`). */
module Permissions {
  import opened Common
  import opened Accounts

  /** `request.user`: Django's anonymous user is not authenticated, is not
      staff and has no `role` attribute. */
  datatype Requester = Anonymous | Authenticated(user: User)

  predicate IsAuthenticated(req: Requester) { req.Authenticated? }

  predicate IsStaff(req: Requester) { req.Authenticated? && req.user.isStaff }

  datatype HttpMethod = Get | Head | Options | Post | Put | Patch | Delete

  /** `permissions.SAFE_METHODS`. */
  predicate IsSafe(m: HttpMethod) { m == Get || m == Head || m == Options }

  /** The answer of a permission check; `Raises` stands for the
      `AttributeError` of reading `role` on the anonymous user. */
  datatype Decision = Allow | Deny | Raises

  /** `IsAdminOrSelf.has_object_permission`, for the user object with id
      `objectId`. */
  function AdminOrSelf(m: HttpMethod, req: Requester, objectId: nat): Decision {
    if IsSafe(m) then Allow
    else if IsStaff(req) then Allow
    else if req.Anonymous? then Raises
    else if req.user.role == AdminRole then Allow
    else if objectId == req.user.id then Allow
    else Deny
  }

  /** Safe methods are always allowed; an unsafe one is allowed exactly to
      staff, to admins and to the user the object is, denied to every
      other signed-in user, and fails on the anonymous user. */
  lemma AdminOrSelfIff(m: HttpMethod, req: Requester, objectId: nat)
    ensures IsSafe(m) ==> AdminOrSelf(m, req, objectId) == Allow
    ensures !IsSafe(m) && req.Authenticated? ==>
      (AdminOrSelf(m, req, objectId) == Allow <==>
        req.user.isStaff || req.user.role == AdminRole || objectId == req.user.id) &&
      AdminOrSelf(m, req, objectId) != Raises
    ensures !IsSafe(m) && req.Anonymous? ==> AdminOrSelf(m, req, objectId) == Raises
  {
  }

  /** `IsAdminOrTeacher.has_permission`. */
  predicate AdminOrTeacher(m: HttpMethod, req: Requester) {
    if !IsAuthenticated(req) then false
    else if IsSafe(m) then req.user.role in {AdminRole, TeacherRole, DeanRole}
    else req.user.role == AdminRole || req.user.isStaff
  }

  /** `IsUserRoleMatch(allowed_roles).has_permission`; a missing list
      counts as the empty one. */
  predicate UserRoleMatch(allowedRoles: Option<seq<Role>>, req: Requester) {
    var allowed := allowedRoles.GetOr([]);
    if !IsAuthenticated(req) then false
    else if req.user.isStaff || req.user.role == AdminRole then true
    else req.user.role in allowed
  }

  /** Changing data through `IsAdminOrTeacher` is exactly what
      `IsUserRoleMatch` allows with no roles listed: staff and admins,
      signed in. */
  lemma AdminOrTeacherWritesAsRoleMatch(m: HttpMethod, req: Requester)
    requires !IsSafe(m)
    ensures AdminOrTeacher(m, req) <==> UserRoleMatch(None, req)
    ensures AdminOrTeacher(m, req) <==> UserRoleMatch(Some([AdminRole]), req)
  {
  }

  /** Reading through `IsAdminOrTeacher` goes by role alone: admins,
      teachers and deans, but not a staff user with another role, who may
      nevertheless change data. */
  lemma AdminOrTeacherReadsByRole(req: Requester, m: HttpMethod, w: HttpMethod)
    requires IsSafe(m) && !IsSafe(w)
    ensures AdminOrTeacher(m, req) <==> req.Authenticated? && req.user.role in {AdminRole, TeacherRole, DeanRole}
    ensures req.Authenticated? && req.user.isStaff && req.user.role == StudentRole ==>
      !AdminOrTeacher(m, req) && AdminOrTeacher(w, req)
    ensures req.Authenticated? && req.user.role == AdminRole ==> AdminOrTeacher(m, req) && AdminOrTeacher(w, req)
  {
  }

  /** `IsUserRoleMatch` never lets the anonymous user in, lets staff and
      admins in whatever the list, denies everyone else when the list is
      empty, and allows more as the list grows. */
  lemma UserRoleMatchProperties(allowed: seq<Role>, more: seq<Role>, req: Requester)
    requires forall r :: r in allowed ==> r in more
    ensures req.Anonymous? ==> !UserRoleMatch(Some(allowed), req)
    ensures req.Authenticated? && (req.user.isStaff || req.user.role == AdminRole) ==> UserRoleMatch(Some(allowed), req)
    ensures UserRoleMatch(None, req) == UserRoleMatch(Some([]), req)
    ensures UserRoleMatch(Some([]), req) <==> req.Authenticated? && (req.user.isStaff || req.user.role == AdminRole)
    ensures UserRoleMatch(Some(allowed), req) ==> UserRoleMatch(Some(more), req)
  {
  }
}
