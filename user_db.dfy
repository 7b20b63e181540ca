/**
 * The user table of the user service (`userDB` in package `userservice`),
 * held in memory: its rows in insertion order, and a fault that, when
 * present, makes every statement fail with that error. The table's
 * constraints are those of the `User` record: `AccountID` is the primary
 * key and `Username` is unique.
 */
module UserDb {
  import opened Wrappers

  datatype User = User(
    accountID: string,
    username: string,
    passhash: seq<bv8>,
    firstname: string,
    lastname: string,
    birthday: string,
    timezone: string,
    address: string,
    state: string,
    zip: string,
    ssn: string)

  /** The error the store reports when an insert violates the key or the unique constraint. */
  const DuplicateKeyError := "duplicate key value violates unique constraint"

  /** A uniform draw below 9e9, shifted up by 1e9: candidates lie in [1e9, 1e10). */
  const DrawBound := 9_000_000_000
  const DrawOffset := 1_000_000_000

  /** `WHERE username = ? ... First`: the stored user with that name, if any. */
  function FindUser(users: seq<User>, username: string): (r: Option<User>)
    ensures r.Some? ==> r.value in users && r.value.username == username
    ensures r.None? ==> forall i :: 0 <= i < |users| ==> users[i].username != username
  {
    if users == [] then None
    else if users[0].username == username then Some(users[0])
    else FindUser(users[1..], username)
  }

  /** Some stored user has this account id. */
  predicate IdTaken(users: seq<User>, accountID: string) {
    exists i :: 0 <= i < |users| && users[i].accountID == accountID
  }

  /** Inserting `u` would break the primary key or the unique username. */
  predicate Conflicts(users: seq<User>, u: User) {
    exists i :: 0 <= i < |users| && (users[i].accountID == u.accountID || users[i].username == u.username)
  }

  /** The decimal digit of `d`. */
  function Digit(d: nat): (c: char)
    requires d < 10
    ensures '0' <= c <= '9' && c as int - '0' as int == d
  {
    ('0' as int + d) as char
  }

  /** `fmt.Sprint` of a non-negative integer: its decimal digits, without leading zeros. */
  function Decimal(n: nat): (s: string)
    ensures |s| >= 1
    ensures forall i :: 0 <= i < |s| ==> '0' <= s[i] <= '9'
    ensures n > 0 ==> s[0] != '0'
  {
    if n < 10 then [Digit(n)] else Decimal(n / 10) + [Digit(n % 10)]
  }

  /** Reads a string of decimal digits back as a number. */
  function DecimalValue(s: string): (n: nat)
    requires forall i :: 0 <= i < |s| ==> '0' <= s[i] <= '9'
  {
    if s == [] then 0 else 10 * DecimalValue(s[..|s| - 1]) + (s[|s| - 1] as int - '0' as int)
  }

  function Pow10(k: nat): (p: nat)
    ensures p >= 1
  {
    if k == 0 then 1 else 10 * Pow10(k - 1)
  }

  /** The digits of `Decimal(n)` read back as `n`. */
  lemma {:induction false} DecimalRoundTrip(n: nat)
    ensures DecimalValue(Decimal(n)) == n
  {
    if n >= 10 {
      DecimalRoundTrip(n / 10);
      var s := Decimal(n);
      assert s[..|s| - 1] == Decimal(n / 10);
      assert s[|s| - 1] as int - '0' as int == n % 10;
      assert DecimalValue(s) == 10 * (n / 10) + n % 10;
    }
  }

  /** A number with `k` digits prints as `k` characters. */
  lemma {:induction false} DecimalLength(n: nat, k: nat)
    requires k >= 1 && Pow10(k - 1) <= n < Pow10(k)
    ensures |Decimal(n)| == k
  {
    if n >= 10 {
      assert k >= 2;
      DecimalLength(n / 10, k - 1);
    }
  }

  /** Every candidate id is exactly ten decimal digits. */
  lemma CandidateIsTenDigits(draw: int)
    requires 0 <= draw < DrawBound
    ensures |Decimal(draw + DrawOffset)| == 10
  {
    assert Pow10(9) == DrawOffset && Pow10(10) == DrawOffset + DrawBound;
    DecimalLength(draw + DrawOffset, 10);
  }

  class UserDB {
    var users: seq<User>
    var fault: Option<string>

    /** The primary key and the unique username hold. */
    ghost predicate Valid()
      reads this
    {
      forall i, j :: 0 <= i < j < |users| ==>
        users[i].accountID != users[j].accountID && users[i].username != users[j].username
    }

    constructor (users: seq<User>, fault: Option<string>)
      requires forall i, j :: 0 <= i < j < |users| ==>
                 users[i].accountID != users[j].accountID && users[i].username != users[j].username
      ensures Valid() && this.users == users && this.fault == fault
    {
      this.users := users;
      this.fault := fault;
    }

    /** `addUser`: inserts `u`, or returns the store's error and inserts nothing. */
    method AddUser(u: User) returns (err: Option<string>)
      requires Valid()
      modifies this
      ensures Valid() && fault == old(fault)
      ensures old(fault).Some? ==> err == old(fault) && users == old(users)
      ensures old(fault).None? && Conflicts(old(users), u) ==> err == Some(DuplicateKeyError) && users == old(users)
      ensures old(fault).None? && !Conflicts(old(users), u) ==> err.None? && users == old(users) + [u]
    {
      if fault.Some? {
        return fault;
      }
      if Conflicts(users, u) {
        return Some(DuplicateKeyError);
      }
      users := users + [u];
      err := None;
    }

    /** `getUser`: `Ok(None)` for record-not-found, `Err` for any other error. */
    method GetUser(username: string) returns (r: Result<Option<User>, string>)
      ensures fault.Some? ==> r == Err(fault.value)
      ensures fault.None? ==> r == Ok(FindUser(users, username))
    {
      if fault.Some? {
        return Err(fault.value);
      }
      r := Ok(FindUser(users, username));
    }

    /**
     * `generateAccountID`, with the random numbers it draws given as `draws`.
     * Each round prints a candidate and looks it up by account id; only
     * record-not-found ends the loop, while a found record or a failing query
     * retries. `None`: every draw was spent and the source would still be
     * looping.
     */
    method GenerateAccountID(draws: seq<int>) returns (r: Option<string>)
      requires forall i :: 0 <= i < |draws| ==> 0 <= draws[i] < DrawBound
      ensures r.Some? ==> |r.value| == 10
      ensures r.Some? ==>
                exists i :: 0 <= i < |draws| && r.value == Decimal(draws[i] + DrawOffset)
                  && fault.None? && !IdTaken(users, r.value)
                  && forall j :: 0 <= j < i ==> IdTaken(users, Decimal(draws[j] + DrawOffset))
      ensures r.None? ==>
                fault.Some? || forall i :: 0 <= i < |draws| ==> IdTaken(users, Decimal(draws[i] + DrawOffset))
    {
      var i := 0;
      while i < |draws|
        invariant 0 <= i <= |draws|
        invariant fault.Some? || forall j :: 0 <= j < i ==> IdTaken(users, Decimal(draws[j] + DrawOffset))
      {
        var accountID := Decimal(draws[i] + DrawOffset);
        if fault.None? && !IdTaken(users, accountID) {
          CandidateIsTenDigits(draws[i]);
          return Some(accountID);
        }
        i := i + 1;
      }
      return None;
    }
  }
}
