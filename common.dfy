/** Values shared by every part of the model: optional values, user roles,
    the requesting user and the HTTP outcome of a view. */
module Common {

  /** A value that may be absent (Python `None`, JavaScript `null`/`undefined`). */
  datatype Option<+T> = None | Some(value: T) {
    /** The value, or `default` when absent. */
    function GetOr(default: T): T {
      match this
      case Some(v) => v
      case None => default
    }
  }

  /** The four roles of accounts.User (ROLE_CHOICES). */
  datatype Role = SuperAdmin | Admin | ManagementLead | GrantOfficer

  type UserId = nat

  /** An authenticated user. A parameter of type `Option<User>` is `None`
      for a request without an authenticated user, or for a call that is
      given no user at all. */
  datatype User = User(id: UserId, role: Role)

  /** The roles that the task manager and the email templates treat as
      managers ("super_admin" or "management_lead"). */
  predicate ManagesAll(role: Role) {
    role == SuperAdmin || role == ManagementLead
  }

  /** The HTTP outcome of a view, without its body. */
  datatype Status = Ok | Created | NoContent | BadRequest | Denied | NotFound
}
