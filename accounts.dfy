/**
 * Users of the portal: the `User` row with its staff flag kept in step with its role,
 * the user manager's `create_user` / `create_superuser`, and the registration
 * serializer's `create`.
 */
module Accounts {
  import opened Common

  /** The value of a keyword argument handed to the manager (`**extra_fields`). */
  datatype Value = Flag(b: bool) | Text(s: string) | Null

  /** The keyword arguments, by name. */
  type Fields = map<string, Value>

  datatype UserError =
    | EmailRequired           // "The Email field must be set"
    | NotStaff                // "Superuser must have is_staff=True."
    | NotSuperuser            // "Superuser must have is_superuser=True."
    | UnexpectedKeyword       // a keyword argument the user model does not accept
    | InvalidValue(field: string)  // a column value the database refuses

  /** The lengths of the character columns of the user table. */
  const EMAIL_MAX_LENGTH: nat := 254
  const NAME_MAX_LENGTH: nat := 30
  const ROLE_MAX_LENGTH: nat := 10

  /**
   * The keyword arguments the user model's constructor accepts: its columns, the primary
   * key under both names, and the password, which `create_user` takes itself.
   */
  const ACCEPTED_KEYWORDS: set<string> := {
    "first_name", "last_name", "role", "is_staff", "is_superuser", "is_active",
    "date_joined", "master_pin", "last_login", "password", "id", "pk"}

  /** The roles whose users are staff. */
  predicate IsStaffRole(r: Role) {
    r == Admin || r == Lecturer
  }

  /** The columns of a stored user that this model follows. */
  datatype UserRow = UserRow(
    email: string,
    firstName: string,
    lastName: string,
    role: UserRole,
    isStaff: bool,
    isSuperuser: bool,
    isActive: bool)

  /** Python's `dict.setdefault`: adds `k` with `v` unless `k` is already present. */
  function SetDefault(m: Fields, k: string, v: Value): (r: Fields)
    ensures r.Keys == m.Keys + {k}
    ensures r[k] == (if k in m then m[k] else v)
    ensures forall j :: j in m && j != k ==> r[j] == m[j]
  {
    if k in m then m else m[k := v]
  }

  /** A value saved into a boolean column: booleans, and the texts "t"/"True"/"1" and "f"/"False"/"0". */
  function BoolColumn(v: Value): (r: Option<bool>)
    ensures v.Flag? ==> r == Some(v.b)
    ensures v.Null? ==> r == None
  {
    match v
    case Flag(b) => Some(b)
    case Text(s) =>
      if s == "t" || s == "True" || s == "1" then Some(true)
      else if s == "f" || s == "False" || s == "0" then Some(false)
      else None
    case Null => None
  }

  /**
   * A value saved into a NOT NULL character column of `maxLength` characters: a text as it
   * is, a boolean as its Python text. Null is refused, and so is a text too long for the
   * column (MySQL in strict mode, its default since version 5.7).
   */
  function TextColumn(v: Value, maxLength: nat): (r: Option<string>)
    ensures v.Text? ==> (r.Some? <==> |v.s| <= maxLength)
    ensures v.Text? && r.Some? ==> r.value == v.s
    ensures v.Null? ==> r == None
    ensures r.Some? ==> |r.value| <= maxLength
  {
    match v
    case Text(s) => if |s| <= maxLength then Some(s) else None
    case Flag(b) =>
      var s := if b then "True" else "False";
      if |s| <= maxLength then Some(s) else None
    case Null => None
  }

  /** A value saved into the `first_name` or `last_name` column. */
  function NameColumn(v: Value): Option<string> {
    TextColumn(v, NAME_MAX_LENGTH)
  }

  /** A value saved into the ten-character `role` column, read back as a role. */
  function RoleColumn(v: Value): (r: Option<UserRole>)
    ensures v.Text? ==> (r.Some? <==> |v.s| <= ROLE_MAX_LENGTH)
    ensures v.Text? && r.Some? ==> RoleName(r.value) == v.s
    ensures v.Null? ==> r == None
  {
    match TextColumn(v, ROLE_MAX_LENGTH)
    case Some(s) => Some(RoleOf(s))
    case None => None
  }

  /** Column `name` read from the keyword arguments, or its model default when it is absent. */
  function Column<T>(extra: Fields, name: string, convert: Value -> Option<T>, default: T): Option<T> {
    if name in extra then convert(extra[name]) else Some(default)
  }

  /**
   * The row `create_user(email, **extra)` stores, or the error it raises: an empty email
   * first, then a keyword the model does not accept, then a value the database refuses.
   * The staff flag passed in is never stored: saving recomputes it from the role.
   */
  function NewUserRow(email: string, extra: Fields): (r: Result<UserRow, UserError>)
    ensures email == "" ==> r == Err(EmailRequired)
    ensures r.Err? ==> r.error != NotStaff && r.error != NotSuperuser
    ensures r.Ok? <==>
      && email != "" && |email| <= EMAIL_MAX_LENGTH
      && extra.Keys <= ACCEPTED_KEYWORDS
      && ("first_name" in extra ==> NameColumn(extra["first_name"]).Some?)
      && ("last_name" in extra ==> NameColumn(extra["last_name"]).Some?)
      && ("role" in extra ==> RoleColumn(extra["role"]).Some?)
      && ("is_superuser" in extra ==> BoolColumn(extra["is_superuser"]).Some?)
      && ("is_active" in extra ==> BoolColumn(extra["is_active"]).Some?)
    ensures r.Ok? ==>
      && r.value.email == email
      && r.value.firstName == (if "first_name" in extra then NameColumn(extra["first_name"]).value else "")
      && r.value.lastName == (if "last_name" in extra then NameColumn(extra["last_name"]).value else "")
      && r.value.isStaff == IsStaffRole(r.value.role)
      && r.value.role == (if "role" in extra then RoleColumn(extra["role"]).value else Student)
      && r.value.isSuperuser == (if "is_superuser" in extra then BoolColumn(extra["is_superuser"]).value else false)
      && r.value.isActive == (if "is_active" in extra then BoolColumn(extra["is_active"]).value else true)
  {
    if email == "" then Err(EmailRequired)
    else if !(extra.Keys <= ACCEPTED_KEYWORDS) then Err(UnexpectedKeyword)
    else if |email| > EMAIL_MAX_LENGTH then Err(InvalidValue("email"))
    else
      var first := Column(extra, "first_name", NameColumn, "");
      var last := Column(extra, "last_name", NameColumn, "");
      var role := Column<UserRole>(extra, "role", RoleColumn, Student);
      var superuser := Column(extra, "is_superuser", BoolColumn, false);
      var active := Column(extra, "is_active", BoolColumn, true);
      if first.None? then Err(InvalidValue("first_name"))
      else if last.None? then Err(InvalidValue("last_name"))
      else if role.None? then Err(InvalidValue("role"))
      else if superuser.None? then Err(InvalidValue("is_superuser"))
      else if active.None? then Err(InvalidValue("is_active"))
      else Ok(UserRow(email, first.value, last.value, role.value, IsStaffRole(role.value), superuser.value, active.value))
  }

  /** The keyword arguments after `create_superuser`'s four `setdefault` calls. */
  function SuperuserFields(extra: Fields): (f: Fields)
    ensures f.Keys == extra.Keys + {"is_staff", "is_superuser", "is_active", "role"}
    ensures forall k :: k in extra ==> f[k] == extra[k]
    ensures "is_staff" !in extra ==> f["is_staff"] == Flag(true)
    ensures "is_superuser" !in extra ==> f["is_superuser"] == Flag(true)
    ensures "is_active" !in extra ==> f["is_active"] == Flag(true)
    ensures "role" !in extra ==> f["role"] == Text("ADMIN")
  {
    var f := SetDefault(extra, "is_staff", Flag(true));
    var f := SetDefault(f, "is_superuser", Flag(true));
    var f := SetDefault(f, "is_active", Flag(true));
    SetDefault(f, "role", Text("ADMIN"))
  }

  /** A user object: the row's columns, with `save` keeping the staff flag in step with the role. */
  class User {
    const id: UserId
    var email: string
    var firstName: string
    var lastName: string
    var role: UserRole
    var isStaff: bool
    var isSuperuser: bool
    var isActive: bool

    function Row(): UserRow
      reads this
    {
      UserRow(email, firstName, lastName, role, isStaff, isSuperuser, isActive)
    }

    /** The staff flag agrees with the role. */
    predicate StaffConsistent()
      reads this
    {
      isStaff == IsStaffRole(role)
    }

    /** A user object built from a row's columns, before it is saved. */
    constructor (id: UserId, row: UserRow)
      ensures this.id == id && Row() == row
    {
      this.id := id;
      this.email := row.email;
      this.firstName := row.firstName;
      this.lastName := row.lastName;
      this.role := row.role;
      this.isStaff := row.isStaff;
      this.isSuperuser := row.isSuperuser;
      this.isActive := row.isActive;
    }

    /** `User.save`: staff iff the role is ADMIN or LECTURER; every other column is left as it was. */
    method Save()
      modifies this`isStaff
      ensures StaffConsistent()
      ensures Row() == old(Row()).(isStaff := IsStaffRole(role))
    {
      if role == Admin || role == Lecturer {
        isStaff := true;
      } else {
        isStaff := false;
      }
    }
  }

  /** The user table behind `User.objects`. */
  class UserManager {
    var users: seq<User>

    /** Primary keys are row positions and every stored user is staff-consistent. */
    ghost predicate Valid()
      reads this, users
    {
      forall i :: 0 <= i < |users| ==> users[i].id == i && users[i].StaffConsistent()
    }

    constructor ()
      ensures Valid() && users == []
    {
      users := [];
    }

    /** `create_user(email, **extra)`: stores one new user, or raises and stores nothing. */
    method CreateUser(email: string, extra: Fields) returns (r: Result<User, UserError>)
      requires Valid()
      modifies this
      ensures Valid()
      ensures r.Err? ==> users == old(users) && NewUserRow(email, extra) == Err(r.error)
      ensures r.Ok? ==>
        && fresh(r.value)
        && users == old(users) + [r.value]
        && NewUserRow(email, extra) == Ok(r.value.Row())
    {
      var row := NewUserRow(email, extra);
      if row.Err? {
        return Err(row.error);
      }
      // the staff flag given by the caller is held on the object until `save` overwrites it
      var staff := "is_staff" in extra && extra["is_staff"] == Flag(true);
      var u := new User(|users|, row.value.(isStaff := staff));
      u.Save();
      users := users + [u];
      r := Ok(u);
    }

    /**
     * `create_superuser(email, **extra)`: fills in the admin defaults, insists that
     * `is_staff` and `is_superuser` are exactly `True`, then creates the user.
     */
    method CreateSuperuser(email: string, extra: Fields) returns (r: Result<User, UserError>)
      requires Valid()
      modifies this
      ensures Valid()
      ensures r == Err(NotStaff) <==> "is_staff" in extra && extra["is_staff"] != Flag(true)
      ensures r == Err(NotSuperuser) <==>
        ("is_staff" !in extra || extra["is_staff"] == Flag(true))
        && "is_superuser" in extra && extra["is_superuser"] != Flag(true)
      ensures r.Err? ==> users == old(users)
      ensures r.Err? && r.error != NotStaff && r.error != NotSuperuser ==>
        NewUserRow(email, SuperuserFields(extra)) == Err(r.error)
      ensures r.Ok? ==>
        && fresh(r.value)
        && users == old(users) + [r.value]
        && NewUserRow(email, SuperuserFields(extra)) == Ok(r.value.Row())
    {
      var fields := SuperuserFields(extra);
      if fields["is_staff"] != Flag(true) {
        return Err(NotStaff);
      }
      if fields["is_superuser"] != Flag(true) {
        return Err(NotSuperuser);
      }
      r := CreateUser(email, fields);
    }
  }

  /** The value `validated_data.get(name)` hands on: the text given, or None (a null) when the field was left out. */
  function Given(o: Option<string>): Value {
    match o
    case Some(s) => Text(s)
    case None => Null
  }

  /** The keyword arguments `UserSerializer.create` passes to `create_user`. */
  function RegistrationFields(firstName: Option<string>, lastName: Option<string>, role: Option<string>): Fields {
    map["first_name" := Given(firstName), "last_name" := Given(lastName), "role" := Text(role.GetOr("STUDENT"))]
  }

  /**
   * What registering stores, or the error it raises: a name left out reaches the NOT NULL
   * name column as null and is refused.
   */
  function RegisteredRow(email: string, firstName: Option<string>, lastName: Option<string>, role: Option<string>)
    : (r: Result<UserRow, UserError>)
    ensures r.Ok? <==>
      && email != "" && |email| <= EMAIL_MAX_LENGTH
      && firstName.Some? && |firstName.value| <= NAME_MAX_LENGTH
      && lastName.Some? && |lastName.value| <= NAME_MAX_LENGTH
      && |role.GetOr("STUDENT")| <= ROLE_MAX_LENGTH
    ensures r.Ok? ==>
      && r.value.email == email
      && r.value.firstName == firstName.value && r.value.lastName == lastName.value
      && RoleName(r.value.role) == role.GetOr("STUDENT")
      && r.value.isStaff == IsStaffRole(r.value.role)
      && !r.value.isSuperuser && r.value.isActive
  {
    NewUserRow(email, RegistrationFields(firstName, lastName, role))
  }

  /** `UserSerializer.create`: registers a user with the requested role, STUDENT when none is given. */
  method Register(manager: UserManager, email: string, firstName: Option<string>, lastName: Option<string>,
                  role: Option<string>) returns (r: Result<User, UserError>)
    requires manager.Valid()
    modifies manager
    ensures manager.Valid()
    ensures r.Err? ==>
      && manager.users == old(manager.users)
      && RegisteredRow(email, firstName, lastName, role) == Err(r.error)
    ensures r.Ok? ==>
      && fresh(r.value)
      && manager.users == old(manager.users) + [r.value]
      && RegisteredRow(email, firstName, lastName, role) == Ok(r.value.Row())
  {
    r := manager.CreateUser(email, RegistrationFields(firstName, lastName, role));
  }

  /** Registering without a first name is refused, whatever else is given. */
  lemma RegistrationWithoutFirstNameRefused(email: string, lastName: Option<string>, role: Option<string>)
    requires email != "" && |email| <= EMAIL_MAX_LENGTH
    ensures RegisteredRow(email, None, lastName, role) == Err(InvalidValue("first_name"))
  {
    assert RegistrationFields(None, lastName, role)["first_name"] == Null;
  }

  /**
   * The registration the optional name fields evidently intend: a name left out is
   * stored as the empty text, the column's default, and is never a reason to refuse.
   */
  function IntendedRegisteredRow(email: string, firstName: Option<string>, lastName: Option<string>, role: Option<string>)
    : (r: Result<UserRow, UserError>)
    ensures r.Ok? <==>
      && email != "" && |email| <= EMAIL_MAX_LENGTH
      && |firstName.GetOr("")| <= NAME_MAX_LENGTH
      && |lastName.GetOr("")| <= NAME_MAX_LENGTH
      && |role.GetOr("STUDENT")| <= ROLE_MAX_LENGTH
    ensures r.Ok? ==>
      && r.value.firstName == firstName.GetOr("") && r.value.lastName == lastName.GetOr("")
      && RoleName(r.value.role) == role.GetOr("STUDENT")
      && r.value.isStaff == IsStaffRole(r.value.role)
    ensures firstName.Some? && lastName.Some? ==> r == RegisteredRow(email, firstName, lastName, role)
  {
    NewUserRow(email, RegistrationFields(Some(firstName.GetOr("")), Some(lastName.GetOr("")), role))
  }

  /** A superuser created with only an email is an active ADMIN, staff and superuser. */
  lemma SuperuserDefaults(email: string)
    requires email != "" && |email| <= EMAIL_MAX_LENGTH
    ensures NewUserRow(email, SuperuserFields(map[])) == Ok(UserRow(email, "", "", Admin, true, true, true))
  {
    var f := SuperuserFields(map[]);
    assert f["role"] == Text("ADMIN") && f["is_superuser"] == Flag(true) && f["is_active"] == Flag(true);
  }

  /**
   * The staff flag `create_superuser` insists on is not what is stored: a superuser
   * created with the role STUDENT passes the check and is saved as non-staff.
   */
  lemma SuperuserWithStudentRoleIsNotStaff(email: string)
    requires email != "" && |email| <= EMAIL_MAX_LENGTH
    ensures NewUserRow(email, SuperuserFields(map["role" := Text("STUDENT")]))
         == Ok(UserRow(email, "", "", Student, false, true, true))
  {
    var f := SuperuserFields(map["role" := Text("STUDENT")]);
    assert f["role"] == Text("STUDENT") && f["is_superuser"] == Flag(true) && f["is_active"] == Flag(true);
  }
}
