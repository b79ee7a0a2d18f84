/** The view decorators of the accounts app (`accounts/decorators.py`). */
module Decorators {
  import opened Accounts
  import opened Permissions

  /** What a decorated view does with a request: run the view, raise
      `PermissionDenied`, send the visitor to the login page, or fail with
      the `AttributeError` of reading `role` on the anonymous user. */
  datatype Outcome = RunsView | PermissionDenied | RedirectToLogin | AttributeFailure

  /** `role_required(allowed_roles)`: no sign-in check comes first. */
  function RoleRequired(allowedRoles: seq<Role>, req: Requester): Outcome {
    if req.Anonymous? then AttributeFailure
    else if req.user.role in allowedRoles then RunsView
    else PermissionDenied
  }

  /** The test each of `admin_required`, `teacher_required`,
      `student_required`, `methodist_required` and `dean_required` hands to
      `user_passes_test`, for its own role. */
  predicate RoleTest(role: Role, req: Requester) {
    req.Authenticated? && req.user.role == role
  }

  /** A `*_required` decorator: the view runs when the test passes, and
      otherwise the visitor is sent to sign in. */
  function RoleDecorator(role: Role, req: Requester): Outcome {
    if RoleTest(role, req) then RunsView else RedirectToLogin
  }

  /** `role_required` runs the view exactly for a signed-in user whose role
      is listed; an empty list refuses everyone. */
  lemma RoleRequiredIff(allowedRoles: seq<Role>, req: Requester)
    ensures RoleRequired(allowedRoles, req) == RunsView <==> req.Authenticated? && req.user.role in allowedRoles
    ensures req.Authenticated? ==> RoleRequired(allowedRoles, req) != AttributeFailure
    ensures RoleRequired([], req) != RunsView
  {
  }

  /** For a signed-in user a `*_required` decorator lets through exactly
      whom `role_required` with its one role lets through; the anonymous
      user is sent to sign in by the first and makes the second fail. At
      most one of the five tests passes for any request. */
  lemma RoleDecoratorAgreesWithRoleRequired(role: Role, other: Role, req: Requester)
    ensures req.Authenticated? ==> (RoleDecorator(role, req) == RunsView <==> RoleRequired([role], req) == RunsView)
    ensures req.Anonymous? ==> RoleDecorator(role, req) == RedirectToLogin && RoleRequired([role], req) == AttributeFailure
    ensures role != other ==> !(RoleTest(role, req) && RoleTest(other, req))
  {
  }
}
