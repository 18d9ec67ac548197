/**
  `RolesGuard.canActivate`: a route without required roles is open; a route
  with required roles needs an authenticated user whose role is one of them,
  and every refusal is a 403, never a plain `false`.
 */
module RoleGuard {
  import opened Wrappers
  import opened Exceptions

  /** `UserRole`, with the string each member stands for. */
  datatype UserRole = Admin | Member

  function RoleValue(role: UserRole): string {
    match role
    case Admin => "admin"
    case Member => "member"
  }

  /** The request's `user`; its `role` is whatever the token strategy put there. */
  datatype RequestUser = RequestUser(role: Option<string>)

  /** `requireRoles.some((role) => user.role === role)`. */
  function SomeRoleMatches(required: seq<UserRole>, role: Option<string>): (r: bool)
    ensures r <==> exists k :: 0 <= k < |required| && role == Some(RoleValue(required[k]))
  {
    if required == [] then false
    else if role == Some(RoleValue(required[0])) then true
    else
      var rest := SomeRoleMatches(required[1..], role);
      assert forall k :: 1 <= k < |required| ==> required[k] == required[1..][k - 1];
      rest
  }

  /** `canActivate`, with the roles the route's metadata names (`None` when it
      names none) and the request's user. */
  function CanActivate(required: Option<seq<UserRole>>, user: Option<RequestUser>): (r: Result<bool, Thrown>)
    ensures r.Ok? ==> r.value
    ensures required.None? || required.value == [] ==> r == Ok(true)
    ensures required.Some? && required.value != [] && user.None? ==>
              r == Err(Forbidden("User not found in request"))
    ensures required.Some? && required.value != [] && user.Some? ==>
              (r.Ok? <==> exists k :: 0 <= k < |required.value| && user.value.role == Some(RoleValue(required.value[k])))
    ensures r.Err? ==> r.error == Forbidden("User not found in request")
                       || r.error == Forbidden("User does not have required role")
  {
    if required.None? || |required.value| == 0 then Ok(true)
    else if user.None? then Err(Forbidden("User not found in request"))
    else if !SomeRoleMatches(required.value, user.value.role) then Err(Forbidden("User does not have required role"))
    else Ok(true)
  }

  /** Requiring more roles never shuts out a user who was let in. */
  lemma MoreRolesStillAdmit(required: seq<UserRole>, extra: seq<UserRole>, user: Option<RequestUser>)
    requires required != [] && CanActivate(Some(required), user).Ok?
    ensures CanActivate(Some(required + extra), user).Ok?
  {
    var k :| 0 <= k < |required| && user.value.role == Some(RoleValue(required[k]));
    assert (required + extra)[k] == required[k];
  }

  /** Only a user whose role is listed gets through a guarded route: a user
      without a role, or with a role spelled differently, is refused. */
  lemma UnlistedRoleRefused(required: seq<UserRole>, role: Option<string>)
    requires required != []
    requires forall k :: 0 <= k < |required| ==> role != Some(RoleValue(required[k]))
    ensures CanActivate(Some(required), Some(RequestUser(role))) == Err(Forbidden("User does not have required role"))
  {
  }
}
