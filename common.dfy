/** Shared vocabulary of the portal: optional values, results, identifiers and user roles. */
module Common {

  datatype Option<T> = None | Some(value: T) {
    function GetOr(default: T): T {
      match this
      case Some(v) => v
      case None => default
    }
  }

  datatype Result<T, E> = Ok(value: T) | Err(error: E)

  /** A value of a 32-bit signed integer column (MySQL's INT). */
  predicate IsInt32(n: int) {
    -0x8000_0000 <= n < 0x8000_0000
  }

  /** Primary keys of the stored rows. */
  type UserId = nat
  type CourseId = nat
  type LectureId = nat

  /**
   * A role value. The `role` column is a character field whose choices (ADMIN, LECTURER,
   * STUDENT) are not enforced when a row is saved, so any other text is kept as `Other`.
   */
  datatype Role = Admin | Lecturer | Student | Other(name: string)

  /** The texts of the three listed choices. */
  const ROLE_CHOICES: set<string> := {"ADMIN", "LECTURER", "STUDENT"}

  /** The role of a stored user: an `Other` role never spells one of the listed choices. */
  type UserRole = r: Role | r.Other? ==> r.name !in ROLE_CHOICES witness Admin

  /** The text stored in the `role` column for a role. */
  function RoleName(r: Role): string {
    match r
    case Admin => "ADMIN"
    case Lecturer => "LECTURER"
    case Student => "STUDENT"
    case Other(name) => name
  }

  /** Reads the `role` column back: the three choices by their exact text, anything else as `Other`. */
  function RoleOf(s: string): (r: UserRole)
    ensures r.Other? <==> s !in ROLE_CHOICES
    ensures RoleName(r) == s
  {
    if s == "ADMIN" then Admin
    else if s == "LECTURER" then Lecturer
    else if s == "STUDENT" then Student
    else Other(s)
  }

  /** Storing a user's role and reading it back gives the same role, and two roles are equal iff their texts are. */
  lemma RoleRoundTrip(r: UserRole, r': UserRole)
    ensures RoleOf(RoleName(r)) == r
    ensures r == r' <==> RoleName(r) == RoleName(r')
  {
    if RoleName(r) == RoleName(r') {
      assert RoleOf(RoleName(r)) == r && RoleOf(RoleName(r')) == r';
    }
  }
}
