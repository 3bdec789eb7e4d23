/**
 * The REST handlers' decisions: which status code each request gets and
 * how the tables change. The two tables are sequences of rows; the users
 * table enforces its constraints as the database does: NOT NULL columns
 * first, then the role CHECK, then the UNIQUE email. A field missing from
 * the request body is `None` and is stored as NULL.
 *
 * Password hashing and comparison are parameters: `hash` stands for
 * producing a password hash, `matches` for checking a password against one.
 */
module Server {
  import opened Options
  import opened Seqs

  const StatusOk: int := 200
  const StatusCreated: int := 201
  const StatusBadRequest: int := 400
  const StatusUnauthorized: int := 401
  const StatusNotFound: int := 404
  const StatusConflict: int := 409
  const StatusServerError: int := 500

  const MinPasswordLength: int := 6
  const ValidRoles: set<string> := {"admin", "teacher", "student"}

  const LoginFieldsRequired: string := "Email and password are required"
  const InvalidCredentials: string := "Invalid email or password"
  const AllFieldsRequired: string := "All fields are required"
  const PasswordTooShort: string := "Password must be at least 6 characters long"
  const InvalidRole: string := "Invalid role"
  const EmailExists: string := "Email already exists"
  const CreateUserFailed: string := "Failed to create user"
  const UserNotFound: string := "User not found"
  const UpdateUserFailed: string := "Failed to update user"
  const WordlistNotFound: string := "Wordlist not found"
  const UpdateWordlistFailed: string := "Failed to update wordlist"

  datatype UserRow = UserRow(id: int, email: string, name: string, role: string, passwordHash: string)

  datatype WordlistRow = WordlistRow(
    id: int,
    name: string,
    description: Option<string>,
    words: seq<string>,
    assignedStudents: seq<int>,
    createdBy: int,
    createdAt: string)

  /** The two tables, plus the users table's AUTOINCREMENT counter. */
  datatype Db = Db(users: seq<UserRow>, lastUserId: int, wordlists: seq<WordlistRow>)

  datatype Reply =
    | Failure(status: int, message: string)
    | Success(status: int, id: Option<int>)

  /** A request field that JavaScript treats as true: present and not empty. */
  predicate Given(f: Option<string>) {
    f.Some? && f.value != ""
  }

  /** Some row already uses the email. */
  predicate EmailTaken(users: seq<UserRow>, email: string) {
    exists j :: 0 <= j < |users| && users[j].email == email
  }

  /** The constraints the users table declares, kept by every handler. */
  predicate Valid(db: Db) {
    && (forall i, j :: 0 <= i < j < |db.users| ==> db.users[i].id != db.users[j].id)
    && (forall i, j :: 0 <= i < j < |db.users| ==> db.users[i].email != db.users[j].email)
    && (forall i :: 0 <= i < |db.users| ==> db.users[i].id <= db.lastUserId && db.users[i].role in ValidRoles)
    && (forall i, j :: 0 <= i < j < |db.wordlists| ==> db.wordlists[i].id != db.wordlists[j].id)
  }

  function UserWithId(id: int): UserRow -> bool {
    (u: UserRow) => u.id == id
  }

  function UserWithEmail(email: string): UserRow -> bool {
    (u: UserRow) => u.email == email
  }

  function ListWithId(id: int): WordlistRow -> bool {
    (l: WordlistRow) => l.id == id
  }

  datatype Violation = NotNullFailed | CheckFailed | UniqueFailed

  datatype Insertion = Inserted(db: Db, id: int) | Rejected(violation: Violation)

  /** `INSERT INTO users`: the row gets the next AUTOINCREMENT id. */
  function InsertUser(db: Db, email: Option<string>, name: Option<string>, role: Option<string>, passwordHash: string): (r: Insertion)
    ensures r.Rejected? ==>
      (r.violation == NotNullFailed <==> email.None? || name.None? || role.None?)
    ensures r.Rejected? && r.violation == CheckFailed <==>
      email.Some? && name.Some? && role.Some? && role.value !in ValidRoles
    ensures r.Rejected? && r.violation == UniqueFailed <==>
      email.Some? && name.Some? && role.Some? && role.value in ValidRoles && EmailTaken(db.users, email.value)
    ensures r.Inserted? <==>
      email.Some? && name.Some? && role.Some? && role.value in ValidRoles && !EmailTaken(db.users, email.value)
    ensures r.Inserted? ==>
      && email.Some? && name.Some? && role.Some?
      && r.id == db.lastUserId + 1
      && r.db == db.(users := db.users + [UserRow(r.id, email.value, name.value, role.value, passwordHash)], lastUserId := r.id)
    ensures r.Inserted? && Valid(db) ==> Valid(r.db)
  {
    if email.None? || name.None? || role.None? then Rejected(NotNullFailed)
    else if role.value !in ValidRoles then Rejected(CheckFailed)
    else if EmailTaken(db.users, email.value) then Rejected(UniqueFailed)
    else
      var id := db.lastUserId + 1;
      Inserted(db.(users := db.users + [UserRow(id, email.value, name.value, role.value, passwordHash)], lastUserId := id), id)
  }

  /**
   * `POST /api/auth/login`: 400 without email or password; one and the
   * same 401 for an unknown email and for a wrong password; otherwise 200
   * with the user's id.
   */
  function Login(db: Db, email: Option<string>, password: Option<string>, matches: (string, string) -> bool): (r: Reply)
    ensures !Given(email) || !Given(password) ==> r == Failure(StatusBadRequest, LoginFieldsRequired)
    ensures Given(email) && Given(password) && !EmailTaken(db.users, email.value) ==>
      r == Failure(StatusUnauthorized, InvalidCredentials)
    ensures Given(email) && Given(password) ==> forall i :: IsFirst(db.users, i, UserWithEmail(email.value)) ==>
      r == if matches(password.value, db.users[i].passwordHash)
           then Success(StatusOk, Some(db.users[i].id))
           else Failure(StatusUnauthorized, InvalidCredentials)
  {
    if !Given(email) || !Given(password) then Failure(StatusBadRequest, LoginFieldsRequired)
    else match FirstIndex(db.users, UserWithEmail(email.value))
      case None => Failure(StatusUnauthorized, InvalidCredentials)
      case Some(i) =>
        if !matches(password.value, db.users[i].passwordHash) then Failure(StatusUnauthorized, InvalidCredentials)
        else Success(StatusOk, Some(db.users[i].id))
  }

  /**
   * `POST /api/auth/register`: 400 for a missing field, checked first;
   * then 400 for a short password; then 400 for an unknown role; then 409
   * for a taken email; otherwise 201 with the new id. Only success changes
   * the database.
   */
  function Register(db: Db, email: Option<string>, name: Option<string>, password: Option<string>,
                    role: Option<string>, hash: string -> string): (r: (Db, Reply))
    ensures r.1.status in {StatusCreated, StatusBadRequest, StatusConflict}
    ensures r.1.status != StatusCreated ==> r.0 == db
    ensures !(Given(email) && Given(name) && Given(password) && Given(role)) ==>
      r.1 == Failure(StatusBadRequest, AllFieldsRequired)
    ensures Given(email) && Given(name) && Given(password) && Given(role) && |password.value| < MinPasswordLength ==>
      r.1 == Failure(StatusBadRequest, PasswordTooShort)
    ensures Given(email) && Given(name) && Given(password) && Given(role) && |password.value| >= MinPasswordLength ==>
      && (role.value !in ValidRoles ==> r.1 == Failure(StatusBadRequest, InvalidRole))
      && (role.value in ValidRoles && EmailTaken(db.users, email.value) ==> r.1 == Failure(StatusConflict, EmailExists))
      && (role.value in ValidRoles && !EmailTaken(db.users, email.value) ==> r.1.Success?)
    ensures r.1.Success? ==>
      && r.1.id == Some(db.lastUserId + 1)
      && r.0.users == db.users + [UserRow(db.lastUserId + 1, email.value, name.value, role.value, hash(password.value))]
      && r.0.lastUserId == db.lastUserId + 1
      && r.0.wordlists == db.wordlists
    ensures Valid(db) ==> Valid(r.0)
  {
    if !Given(email) || !Given(name) || !Given(password) || !Given(role) then
      (db, Failure(StatusBadRequest, AllFieldsRequired))
    else if |password.value| < MinPasswordLength then
      (db, Failure(StatusBadRequest, PasswordTooShort))
    else if role.value !in ValidRoles then
      (db, Failure(StatusBadRequest, InvalidRole))
    else match InsertUser(db, email, name, role, hash(password.value))
      case Inserted(after, id) => (after, Success(StatusCreated, Some(id)))
      case Rejected(_) => (db, Failure(StatusConflict, EmailExists))
  }

  /**
   * A user who has just registered can log in with the same email and
   * password, and gets the id the registration reported.
   */
  lemma RegisterThenLogin(db: Db, email: Option<string>, name: Option<string>, password: Option<string>,
                          role: Option<string>, hash: string -> string, matches: (string, string) -> bool)
    requires forall p :: matches(p, hash(p))
    requires Register(db, email, name, password, role, hash).1.Success?
    ensures var r := Register(db, email, name, password, role, hash);
      Login(r.0, email, password, matches) == Success(StatusOk, r.1.id)
  {
    var r := Register(db, email, name, password, role, hash);
    var n := |db.users|;
    assert r.0.users[n].email == email.value;
    assert IsFirst(r.0.users, n, UserWithEmail(email.value));
  }

  /**
   * `POST /api/users`: only the password is validated (400 when missing
   * or short); a taken email gives 409 and any other refused insert, such
   * as an unknown role, gives 500. Success is 200 with the new id.
   */
  function CreateUser(db: Db, email: Option<string>, name: Option<string>, role: Option<string>,
                      password: Option<string>, hash: string -> string): (r: (Db, Reply))
    ensures r.1.status == StatusBadRequest <==> !Given(password) || |password.value| < MinPasswordLength
    ensures r.1.status == StatusBadRequest ==> r.1 == Failure(StatusBadRequest, PasswordTooShort)
    ensures Given(password) && |password.value| >= MinPasswordLength ==>
      && (r.1.status == StatusConflict <==>
            email.Some? && name.Some? && role.Some? && role.value in ValidRoles && EmailTaken(db.users, email.value))
      && (role.Some? && role.value !in ValidRoles ==> r.1 == Failure(StatusServerError, CreateUserFailed))
      && (email.None? || name.None? || role.None? ==> r.1 == Failure(StatusServerError, CreateUserFailed))
    ensures r.1.Success? <==>
      && Given(password) && |password.value| >= MinPasswordLength
      && email.Some? && name.Some? && role.Some? && role.value in ValidRoles
      && !EmailTaken(db.users, email.value)
    ensures r.1.status != StatusOk ==> r.0 == db
    ensures r.1.Success? ==>
      && r.1.status == StatusOk && r.1.id == Some(db.lastUserId + 1)
      && r.0.users == db.users + [UserRow(db.lastUserId + 1, email.value, name.value, role.value, hash(password.value))]
      && r.0.lastUserId == db.lastUserId + 1
      && r.0.wordlists == db.wordlists
    ensures Valid(db) ==> Valid(r.0)
  {
    if !Given(password) || |password.value| < MinPasswordLength then
      (db, Failure(StatusBadRequest, PasswordTooShort))
    else match InsertUser(db, email, name, role, hash(password.value))
      case Inserted(after, id) => (after, Success(StatusOk, Some(id)))
      case Rejected(UniqueFailed) => (db, Failure(StatusConflict, EmailExists))
      case Rejected(_) => (db, Failure(StatusServerError, CreateUserFailed))
  }

  /** Some row other than the one at `i` uses the email. */
  predicate EmailTakenByOther(users: seq<UserRow>, i: int, email: string) {
    exists j :: 0 <= j < |users| && j != i && users[j].email == email
  }

  /**
   * `PUT /api/users/:id`: 404 exactly when no row has the id; otherwise
   * the row is overwritten (500 when a field is missing, the role is
   * unknown or the email belongs to another row).
   */
  function UpdateUser(db: Db, id: int, email: Option<string>, name: Option<string>, role: Option<string>): (r: (Db, Reply))
    ensures r.1.status == StatusNotFound <==> forall j :: 0 <= j < |db.users| ==> db.users[j].id != id
    ensures r.1.status in {StatusOk, StatusNotFound, StatusServerError}
    ensures r.1.status != StatusOk ==> r.0 == db
    ensures forall i :: IsFirst(db.users, i, UserWithId(id)) ==>
      (r.1.status == StatusOk <==>
        email.Some? && name.Some? && role.Some? && role.value in ValidRoles && !EmailTakenByOther(db.users, i, email.value))
    ensures forall i :: IsFirst(db.users, i, UserWithId(id)) && r.1.status == StatusOk ==>
      r.0 == db.(users := db.users[i := db.users[i].(email := email.value, name := name.value, role := role.value)])
    ensures Valid(db) ==> Valid(r.0)
  {
    match FirstIndex(db.users, UserWithId(id))
    case None => (db, Failure(StatusNotFound, UserNotFound))
    case Some(i) =>
      if email.None? || name.None? || role.None? || role.value !in ValidRoles
         || EmailTakenByOther(db.users, i, email.value) then
        (db, Failure(StatusServerError, UpdateUserFailed))
      else
        var row := db.users[i].(email := email.value, name := name.value, role := role.value);
        (db.(users := db.users[i := row]), Success(StatusOk, None))
  }

  /** `DELETE /api/users/:id`: 404 exactly when no row has the id; otherwise that row is removed. */
  function DeleteUser(db: Db, id: int): (r: (Db, Reply))
    ensures r.1.status == StatusNotFound <==> forall j :: 0 <= j < |db.users| ==> db.users[j].id != id
    ensures r.1.status in {StatusOk, StatusNotFound}
    ensures r.1.status == StatusNotFound ==> r.0 == db
    ensures forall i :: IsFirst(db.users, i, UserWithId(id)) ==>
      r.0 == db.(users := db.users[..i] + db.users[i + 1..])
    ensures Valid(db) ==> Valid(r.0)
  {
    match FirstIndex(db.users, UserWithId(id))
    case None => (db, Failure(StatusNotFound, UserNotFound))
    case Some(i) => (db.(users := RemoveAt(db.users, i)), Success(StatusOk, None))
  }

  /**
   * `PUT /api/wordlists/:id`: 404 exactly when no row has the id; otherwise
   * name, description, words and students are overwritten (500 when name,
   * words or students are missing, as those columns are NOT NULL).
   */
  function UpdateWordlist(db: Db, id: int, name: Option<string>, description: Option<string>,
                          words: Option<seq<string>>, assignedStudents: Option<seq<int>>): (r: (Db, Reply))
    ensures r.1.status == StatusNotFound <==> forall j :: 0 <= j < |db.wordlists| ==> db.wordlists[j].id != id
    ensures r.1.status in {StatusOk, StatusNotFound, StatusServerError}
    ensures r.1.status != StatusOk ==> r.0 == db
    ensures r.1.status == StatusServerError <==>
      (exists j :: 0 <= j < |db.wordlists| && db.wordlists[j].id == id) &&
      (name.None? || words.None? || assignedStudents.None?)
    ensures forall i :: IsFirst(db.wordlists, i, ListWithId(id)) && r.1.status == StatusOk ==>
      r.0 == db.(wordlists := db.wordlists[i := db.wordlists[i].(name := name.value, description := description,
                                           words := words.value, assignedStudents := assignedStudents.value)])
    ensures Valid(db) ==> Valid(r.0)
  {
    match FirstIndex(db.wordlists, ListWithId(id))
    case None => (db, Failure(StatusNotFound, WordlistNotFound))
    case Some(i) =>
      if name.None? || words.None? || assignedStudents.None? then
        (db, Failure(StatusServerError, UpdateWordlistFailed))
      else
        var row := db.wordlists[i].(name := name.value, description := description,
                                    words := words.value, assignedStudents := assignedStudents.value);
        (db.(wordlists := db.wordlists[i := row]), Success(StatusOk, None))
  }

  /** `DELETE /api/wordlists/:id`: 404 exactly when no row has the id; otherwise that row is removed. */
  function DeleteWordlist(db: Db, id: int): (r: (Db, Reply))
    ensures r.1.status == StatusNotFound <==> forall j :: 0 <= j < |db.wordlists| ==> db.wordlists[j].id != id
    ensures r.1.status in {StatusOk, StatusNotFound}
    ensures r.1.status == StatusNotFound ==> r.0 == db
    ensures forall i :: IsFirst(db.wordlists, i, ListWithId(id)) ==>
      r.0 == db.(wordlists := db.wordlists[..i] + db.wordlists[i + 1..])
    ensures Valid(db) ==> Valid(r.0)
  {
    match FirstIndex(db.wordlists, ListWithId(id))
    case None => (db, Failure(StatusNotFound, WordlistNotFound))
    case Some(i) => (db.(wordlists := RemoveAt(db.wordlists, i)), Success(StatusOk, None))
  }
}
