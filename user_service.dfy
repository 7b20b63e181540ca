/**
 * The user service (`impl` in package `userservice`): validation of a new
 * user's request, the create-user decision sequence over the user table,
 * and the user lookup that starts a login.
 */
module UserService {
  import opened Wrappers
  import opened UserDb

  datatype CreateUserRequest = CreateUserRequest(
    username: string,
    password: string,
    passwordRepeat: string,
    firstName: string,
    lastName: string,
    birthday: string,
    timezone: string,
    address: string,
    state: string,
    zip: string,
    ssn: string)

  datatype LoginRequest = LoginRequest(username: string, password: string)

  /** Every field's type is `string`, so the reported type name is always "string". */
  const MissingFieldError := "missing value for input field: string"
  const UsernameError := "username must contain 2-15 alphanumeric characters or underscores"
  const PasswordMismatchError := "passwords do not match"

  /** The request's fields in declaration order, as `reflect` visits them after the embedded marker. */
  function Fields(r: CreateUserRequest): (fs: seq<string>)
    ensures |fs| == 11
  {
    [r.username, r.password, r.passwordRepeat, r.firstName, r.lastName, r.birthday,
     r.timezone, r.address, r.state, r.zip, r.ssn]
  }

  /** A character of the class `[a-zA-Z0-9_]`. */
  predicate WordChar(c: char) {
    ('a' <= c <= 'z') || ('A' <= c <= 'Z') || ('0' <= c <= '9') || c == '_'
  }

  /**
   * The unanchored regular expression `[a-zA-Z0-9_]{2,15}` matches `s`: some
   * substring of 2 to 15 characters consists of word characters only.
   */
  ghost predicate RegexMatches(s: string) {
    exists i, j :: 0 <= i && i + 2 <= j <= i + 15 && WordRun(s, i, j)
  }

  /** `s[i..j]` consists of word characters only. */
  ghost predicate WordRun(s: string, i: int, j: int) {
    0 <= i <= j <= |s| && forall k :: i <= k < j ==> WordChar(s[k])
  }

  /** Two consecutive word characters somewhere in `s`. */
  predicate HasWordPair(s: string) {
    exists i :: 0 <= i < |s| - 1 && WordChar(s[i]) && WordChar(s[i + 1])
  }

  /**
   * The username check therefore passes exactly when the username holds two
   * consecutive word characters, whatever else it holds and however long it is.
   */
  lemma UsernameCheckMeaning(s: string)
    ensures RegexMatches(s) <==> HasWordPair(s)
  {
    if RegexMatches(s) {
      var i, j :| 0 <= i && i + 2 <= j <= i + 15 && WordRun(s, i, j);
      assert WordChar(s[i]) && WordChar(s[i + 1]);
    }
    if HasWordPair(s) {
      var i :| 0 <= i < |s| - 1 && WordChar(s[i]) && WordChar(s[i + 1]);
      assert WordRun(s, i, i + 2);
    }
  }

  /** A 20-character username passes, and so does one with a character outside the class. */
  lemma UsernameCheckIsUnanchored()
    ensures HasWordPair("abcdefghijklmnopqrst") && HasWordPair("ab-cd!") && !HasWordPair("a-b")
  {
    assert WordChar("abcdefghijklmnopqrst"[0]) && WordChar("abcdefghijklmnopqrst"[1]);
    assert WordChar("ab-cd!"[0]) && WordChar("ab-cd!"[1]);
  }

  /**
   * The error `validateNewUser` reports: an empty field first, then the
   * username pattern, then the repeated password.
   */
  function ValidationError(r: CreateUserRequest): (err: Option<string>) {
    if "" in Fields(r) then Some(MissingFieldError)
    else if !HasWordPair(r.username) then Some(UsernameError)
    else if r.password != r.passwordRepeat then Some(PasswordMismatchError)
    else None
  }

  /** A request is accepted exactly when every field is filled, the pattern matches and the passwords agree. */
  lemma ValidationAccepts(r: CreateUserRequest)
    ensures ValidationError(r).None? <==>
              (forall i :: 0 <= i < 11 ==> Fields(r)[i] != "") && RegexMatches(r.username) && r.password == r.passwordRepeat
  {
    UsernameCheckMeaning(r.username);
  }

  /** `validateNewUser`: a loop over the fields, returning at the first empty one. */
  method ValidateNewUser(r: CreateUserRequest) returns (err: Option<string>)
    ensures err == ValidationError(r)
  {
    var fields := Fields(r);
    for i := 0 to |fields|
      invariant "" !in fields[..i]
    {
      if fields[i] == "" {
        assert fields[i] in fields;
        return Some(MissingFieldError);
      }
      assert fields[..i + 1] == fields[..i] + [fields[i]];
    }
    assert fields[..|fields|] == fields;
    if !HasWordPair(r.username) {
      return Some(UsernameError);
    }
    if r.password != r.passwordRepeat {
      return Some(PasswordMismatchError);
    }
    return None;
  }

  /** An empty field is reported first, whatever else is wrong with the request. */
  lemma MissingFieldFirst(r: CreateUserRequest, i: int)
    requires 0 <= i < 11 && Fields(r)[i] == ""
    ensures ValidationError(r) == Some(MissingFieldError)
  {
    assert Fields(r)[i] in Fields(r);
  }

  /** With every field filled and a well-formed username, the only error left is a password mismatch. */
  lemma PasswordCheckLast(r: CreateUserRequest)
    requires forall i :: 0 <= i < 11 ==> Fields(r)[i] != ""
    requires HasWordPair(r.username)
    ensures ValidationError(r) == if r.password == r.passwordRepeat then None else Some(PasswordMismatchError)
  {
    assert "" !in Fields(r);
  }

  /** How `CreateUser` ends: success, an error, or still drawing account ids. */
  datatype Outcome = Done | Failed(msg: string) | StillRetrying

  /** The stored user built from the request, the hash and the generated id. */
  function NewUser(r: CreateUserRequest, passhash: seq<bv8>, accountID: string): (u: User) {
    User(accountID, r.username, passhash, r.firstName, r.lastName, r.birthday,
         r.timezone, r.address, r.state, r.zip, r.ssn)
  }

  /**
   * The error `CreateUser` returns before it draws an account id, in the
   * order it checks: the request, the username lookup, an existing user,
   * the password hash.
   */
  function Refusal(r: CreateUserRequest, users: seq<User>, fault: Option<string>,
                   hash: Result<seq<bv8>, string>): (err: Option<string>)
  {
    if ValidationError(r).Some? then ValidationError(r)
    else if fault.Some? then fault
    else if FindUser(users, r.username).Some? then Some("user " + r.username + " already exists")
    else if hash.Err? then Some(hash.error)
    else None
  }

  class Service {
    var db: UserDB

    ghost predicate Valid()
      reads this, db
    {
      db.Valid()
    }

    /** `Init`, once the key is parsed and the database is open. */
    constructor (db: UserDB)
      requires db.Valid()
      ensures this.db == db && Valid()
    {
      this.db := db;
    }

    /**
     * `CreateUser`. The bcrypt result is given as `hash` and the random draws
     * of `generateAccountID` as `draws`. Validation comes before any store
     * access; an existing username is refused; on success exactly one user is
     * added, built from the request with the id `generateAccountID` settles
     * on: the decimal form of the first draw no user holds.
     */
    method CreateUser(r: CreateUserRequest, hash: Result<seq<bv8>, string>, draws: seq<int>) returns (o: Outcome)
      requires Valid()
      requires forall i :: 0 <= i < |draws| ==> 0 <= draws[i] < DrawBound
      modifies db
      ensures Valid() && db.fault == old(db.fault)
      ensures Refusal(r, old(db.users), old(db.fault), hash).Some? ==>
                o == Failed(Refusal(r, old(db.users), old(db.fault), hash).value) && db.users == old(db.users)
      ensures Refusal(r, old(db.users), old(db.fault), hash).None? ==> o == Done || o == StillRetrying
      ensures o == StillRetrying ==> db.users == old(db.users)
      ensures o == StillRetrying ==>
                forall i :: 0 <= i < |draws| ==> IdTaken(old(db.users), Decimal(draws[i] + DrawOffset))
      ensures o == Done ==>
                hash.Ok?
                && exists i :: 0 <= i < |draws|
                     && !IdTaken(old(db.users), Decimal(draws[i] + DrawOffset))
                     && (forall j :: 0 <= j < i ==> IdTaken(old(db.users), Decimal(draws[j] + DrawOffset)))
                     && db.users == old(db.users) + [NewUser(r, hash.value, Decimal(draws[i] + DrawOffset))]
    {
      var err := ValidateNewUser(r);
      if err.Some? {
        return Failed(err.value);
      }
      var user := db.GetUser(r.username);
      if user.Err? {
        return Failed(user.error);
      }
      if user.value.Some? {
        return Failed("user " + r.username + " already exists");
      }
      if hash.Err? {
        return Failed(hash.error);
      }
      var accountID := db.GenerateAccountID(draws);
      if accountID.None? {
        return StillRetrying;
      }
      var u := NewUser(r, hash.value, accountID.value);
      assert !Conflicts(db.users, u);
      var addErr := db.AddUser(u);
      match addErr {
        case Some(e) => return Failed(e);
        case None => return Done;
      }
    }

    /**
     * The lookup that starts `Login`: the stored user, whose password hash the
     * caller then compares. A failing query and an unknown name are errors.
     */
    method Login(r: LoginRequest) returns (res: Result<User, string>)
      ensures db.fault.Some? ==> res == Err("error logging in: " + db.fault.value)
      ensures db.fault.None? && FindUser(db.users, r.username).None? ==>
                res == Err("user " + r.username + " doesn't exist")
      ensures db.fault.None? && FindUser(db.users, r.username).Some? ==>
                res == Ok(FindUser(db.users, r.username).value)
    {
      var user := db.GetUser(r.username);
      if user.Err? {
        return Err("error logging in: " + user.error);
      }
      if user.value.None? {
        return Err("user " + r.username + " doesn't exist");
      }
      return Ok(user.value.value);
    }
  }
}
