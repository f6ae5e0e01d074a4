/**
 * The user records of the authentication service and the field constraints the
 * SQLModel / pydantic models put on them.
 */
module Models {
  import opened Wrappers
  import opened Encoding

  /** The parts of a pydantic `FieldInfo` that validation looks at. */
  datatype FieldInfo = FieldInfo(minLength: nat, maxLength: nat, defaultNone: bool)

  /** Usernames: 1 to 40 characters (the column is also unique and non-null). */
  const UserNameField := FieldInfo(1, 40, false)

  /** Plaintext passwords, as supplied on creation or to authenticate: 8 to 40 characters. */
  const PlaintextPasswordField := FieldInfo(8, 40, false)

  /** `copy.deepcopy(f)` followed by setting `default = None` on the copy. */
  function OptionalCopy(f: FieldInfo): FieldInfo {
    f.(defaultNone := true)
  }

  const UserNameOptionalField := OptionalCopy(UserNameField)
  const PlaintextPasswordOptionalField := OptionalCopy(PlaintextPasswordField)

  /**
   * Whether validation accepts a value for a field; `None` stands for an omitted or
   * null value, which only a field defaulting to `None` accepts.
   */
  predicate Accepts(f: FieldInfo, v: Option<string>) {
    match v
    case None => f.defaultNone
    case Some(s) => f.minLength <= |s| <= f.maxLength
  }

  /** Length bounds of a username. */
  lemma UserNameBounds(name: string)
    ensures Accepts(UserNameField, Some(name)) <==> 1 <= |name| <= 40
    ensures !Accepts(UserNameField, None)
  {
  }

  /** Length bounds of a plaintext password. */
  lemma PlaintextPasswordBounds(password: string)
    ensures Accepts(PlaintextPasswordField, Some(password)) <==> 8 <= |password| <= 40
    ensures !Accepts(PlaintextPasswordField, None)
  {
  }

  /**
   * The optional copy keeps the bounds for a supplied value and also accepts an omitted
   * one, while the original stays mandatory (the copy is deep).
   */
  lemma OptionalCopyKeepsBounds(f: FieldInfo, s: string)
    requires !f.defaultNone
    ensures Accepts(OptionalCopy(f), Some(s)) <==> Accepts(f, Some(s))
    ensures Accepts(OptionalCopy(f), None) && !Accepts(f, None)
  {
  }

  /** A bcrypt hash, as stored (binary, salt and cost embedded). */
  type Hash = seq<byte>

  /** A stored user: identifier, username and password hash; never a plaintext password. */
  datatype User = User(id: Uuid, username: string, hashedPassword: Hash)

  /** Payload for creating a user. */
  datatype UserCreate = UserCreate(username: string, password: string)

  /**
   * Payload for updating a user: the current password is mandatory, `None` for a new
   * username or password means "leave unchanged".
   */
  datatype UserUpdate = UserUpdate(id: Uuid, password: string, newUsername: Option<string>, newPassword: Option<string>)

  predicate UserValid(u: User) {
    Accepts(UserNameField, Some(u.username))
  }

  predicate UserCreateValid(c: UserCreate) {
    Accepts(UserNameField, Some(c.username)) && Accepts(PlaintextPasswordField, Some(c.password))
  }

  predicate UserUpdateValid(u: UserUpdate) {
    && Accepts(PlaintextPasswordField, Some(u.password))
    && Accepts(UserNameOptionalField, u.newUsername)
    && Accepts(PlaintextPasswordOptionalField, u.newPassword)
  }

  /** An update naming no new values is valid exactly when the current password is. */
  lemma UpdateWithoutChangesValid(id: Uuid, password: string)
    ensures UserUpdateValid(UserUpdate(id, password, None, None)) <==> 8 <= |password| <= 40
  {
  }

  /**
   * The record an update describes, applied only when the current password `upd.password`
   * matches the stored hash (`None` otherwise): fields given as `None` keep their stored
   * value. `checkPw` stands for bcrypt's check and `hashPw` for hashing a new password.
   */
  function ApplyUpdate(u: User, upd: UserUpdate, checkPw: (string, Hash) -> bool, hashPw: string -> Hash): (r: Option<User>)
    requires upd.id == u.id
    ensures r.None? <==> !checkPw(upd.password, u.hashedPassword)
    ensures r.Some? ==> r.value.id == u.id
    ensures r.Some? && upd.newUsername.None? ==> r.value.username == u.username
    ensures r.Some? && upd.newUsername.Some? ==> r.value.username == upd.newUsername.value
    ensures r.Some? && upd.newPassword.None? ==> r.value.hashedPassword == u.hashedPassword
    ensures r.Some? && upd.newPassword.Some? ==> r.value.hashedPassword == hashPw(upd.newPassword.value)
  {
    if !checkPw(upd.password, u.hashedPassword) then None
    else
      Some(User(u.id, upd.newUsername.GetOr(u.username),
                match upd.newPassword
                case None => u.hashedPassword
                case Some(p) => hashPw(p)))
  }

  /** A valid update, once its current password is accepted, turns a valid user into a valid user. */
  lemma ApplyUpdateKeepsValid(u: User, upd: UserUpdate, checkPw: (string, Hash) -> bool, hashPw: string -> Hash)
    requires upd.id == u.id && UserValid(u) && UserUpdateValid(upd) && checkPw(upd.password, u.hashedPassword)
    ensures ApplyUpdate(u, upd, checkPw, hashPw).Some? && UserValid(ApplyUpdate(u, upd, checkPw, hashPw).value)
  {
  }

  /** The users table, indexed by username. */
  type UserStore = map<string, User>

  /**
   * The table's constraints: each username is the key of its own row (so unique and
   * non-null), and the primary key `id` is unique. The `VARCHAR` column has no length,
   * and a table model skips the field validation, so stored usernames may be of any length.
   */
  ghost predicate StoreValid(users: UserStore) {
    && (forall name :: name in users ==> users[name].username == name)
    && (forall a, b :: a in users && b in users && users[a].id == users[b].id ==> a == b)
  }

  /** `select(User).where(User.username == username)` followed by `scalar_one_or_none()`. */
  function FindByUsername(users: UserStore, username: string): Option<User> {
    if username in users then Some(users[username]) else None
  }

  /** The lookup finds exactly the stored user with that username, and none when there is none. */
  lemma FindByUsernameExact(users: UserStore, username: string)
    requires StoreValid(users)
    ensures forall u :: FindByUsername(users, username) == Some(u) <==> u in users.Values && u.username == username
  {
    forall u | u in users.Values && u.username == username
      ensures FindByUsername(users, username) == Some(u)
    {
      var name :| name in users && users[name] == u;
    }
  }
}
