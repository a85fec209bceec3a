/** Shared vocabulary of the MedVault server model: optional values,
    identifiers, time, roles and the HTTP status codes the handlers answer with. */
module Common {

  datatype Option<+T> = None | Some(value: T) {
    function GetOr(default: T): T {
      match this
      case Some(v) => v
      case None => default
    }
  }

  /** Database identifiers are compared through their string form
      (`x.toString() === y.toString()` in the server). */
  type Id = string

  /** Milliseconds since the epoch, as `Date.now()` returns them. */
  type Millis = int

  /** The role of an account. The schema only stores the first three;
      `UnknownRole` lets the access checks' fall-through branches be expressed. */
  datatype Role = Admin | Doctor | Patient | UnknownRole(name: string)

  /** The string a role is stored and compared as. */
  function RoleName(r: Role): string {
    match r
    case Admin => "admin"
    case Doctor => "doctor"
    case Patient => "patient"
    case UnknownRole(n) => n
  }

  /** `UnknownRole` never spells one of the three known roles. */
  predicate Canonical(r: Role) {
    r.UnknownRole? ==> r.name !in ["admin", "doctor", "patient"]
  }

  /** Between canonical roles, comparing roles is comparing their stored
      strings, as the server does. */
  lemma CanonicalRolesCompareByName(r1: Role, r2: Role)
    requires Canonical(r1) && Canonical(r2)
    ensures r1 == r2 <==> RoleName(r1) == RoleName(r2)
  {
  }

  /** The role a request body names. */
  function ParseRole(s: string): (r: Role)
    ensures RoleName(r) == s && Canonical(r)
    ensures r.UnknownRole? <==> s !in ["admin", "doctor", "patient"]
  {
    if s == "admin" then Admin
    else if s == "doctor" then Doctor
    else if s == "patient" then Patient
    else UnknownRole(s)
  }

  const Ok := 200
  const Created := 201
  const BadRequest := 400
  const Unauthorized := 401
  const Forbidden := 403
  const NotFound := 404
  const Locked := 423
  const TooManyRequests := 429
  const ServerError := 500

  /** The status and message a route answers with. */
  datatype Reply = Reply(status: int, message: string)

  /** What a route's `catch` block answers. */
  const ServerErrorReply := Reply(ServerError, "Server error")
}
