/**
 * The sign-up and log-in handlers of `attachAuthHandlers`. The browser's local storage is a
 * `LocalStore` object with one field per key the handlers use: `users` (the parsed account
 * list; a missing key reads as the empty list), `loggedInEmail` and `currentUser`.
 */
module Accounts {
  import opened Optional
  import opened JsStrings

  /** One registered account, password kept in plain text as the site does. */
  datatype User = User(name: string, email: string, pass: string)

  /** The `currentUser` record written at log-in. */
  datatype Session = Session(email: string, name: string)

  /** The message the sign-up form shows. */
  datatype SignupOutcome = EmailAlreadyRegistered | AccountCreated

  predicate EmailsUnique(users: seq<User>) {
    forall i, j :: 0 <= i < j < |users| ==> users[i].email != users[j].email
  }

  predicate Registered(users: seq<User>, email: string) {
    exists i :: 0 <= i < |users| && users[i].email == email
  }

  /** `users.find(u => u.email === email)`: the first account with that exact e-mail address. */
  function FindByEmail(users: seq<User>, email: string): (r: Option<User>)
    ensures r.None? <==> !Registered(users, email)
    ensures r.Some? ==> r.value in users && r.value.email == email
    ensures r.Some? ==> r.value == users[FirstIndex(users, email)]
  {
    if users == [] then None
    else if users[0].email == email then Some(users[0])
    else
      var r := FindByEmail(users[1..], email);
      assert Registered(users, email) <==> Registered(users[1..], email) by {
        if Registered(users, email) {
          var i :| 0 <= i < |users| && users[i].email == email;
          assert users[1..][i - 1].email == email;
        }
        if Registered(users[1..], email) {
          var i :| 0 <= i < |users| - 1 && users[1..][i].email == email;
          assert users[i + 1].email == email;
        }
      }
      r
  }

  /** The position of the first account registered under `email`. */
  function FirstIndex(users: seq<User>, email: string): (k: nat)
    requires Registered(users, email)
    ensures k < |users| && users[k].email == email
    ensures forall j :: 0 <= j < k ==> users[j].email != email
  {
    if users[0].email == email then 0
    else
      assert Registered(users[1..], email) by {
        var i :| 0 <= i < |users| && users[i].email == email;
        assert users[1..][i - 1].email == email;
      }
      1 + FirstIndex(users[1..], email)
  }

  /** Appending an account under a new address keeps the addresses pairwise distinct. */
  lemma AppendKeepsUnique(users: seq<User>, u: User)
    requires EmailsUnique(users)
    requires !Registered(users, u.email)
    ensures EmailsUnique(users + [u])
  {
    var r := users + [u];
    forall i, j | 0 <= i < j < |r| ensures r[i].email != r[j].email {
      if j == |users| {
        assert r[i] == users[i];
      }
    }
  }

  class LocalStore {
    var users: seq<User>
    var loggedInEmail: Option<string>
    var currentUser: Option<Session>

    /** A browser profile that has never stored anything. */
    constructor ()
      ensures users == [] && loggedInEmail == None && currentUser == None
    {
      users := [];
      loggedInEmail := None;
      currentUser := None;
    }

    /** The sign-up handler: refuses an address that is already registered and leaves the list
        as it was; otherwise appends `{name, email, pass}` at the end. */
    method Signup(name: string, email: string, pass: string) returns (outcome: SignupOutcome)
      modifies this`users
      ensures outcome == EmailAlreadyRegistered <==> Registered(old(users), email)
      ensures outcome == EmailAlreadyRegistered ==> users == old(users)
      ensures outcome == AccountCreated ==> users == old(users) + [User(name, email, pass)]
      ensures EmailsUnique(old(users)) ==> EmailsUnique(users)
    {
      if FindByEmail(users, email).Some? {
        outcome := EmailAlreadyRegistered;
        return;
      }
      if EmailsUnique(users) {
        AppendKeepsUnique(users, User(name, email, pass));
      }
      users := users + [User(name, email, pass)];
      outcome := AccountCreated;
    }

    /** The log-in handler: accepts any address and any password, with no look-up in `users`,
        and records the address and a display name, the part of the address before its first
        `@` (`email.split('@')[0]`). */
    method Login(email: string, pass: string)
      modifies this`loggedInEmail, this`currentUser
      ensures loggedInEmail == Some(email)
      ensures currentUser == Some(Session(email, BeforeFirst(email, '@')))
    {
      loggedInEmail := Some(email);
      currentUser := Some(Session(email, BeforeFirst(email, '@')));
    }
  }

  /** The display name is the address's local part: what stands before the `@`, which it
      never contains, so that the address is that name followed by the `@` and the rest. */
  lemma DisplayNameIsLocalPart(email: string)
    requires '@' in email
    ensures var name := BeforeFirst(email, '@');
      email == name + ['@'] + email[|name| + 1..] && '@' !in name
  {
    var name := BeforeFirst(email, '@');
    assert email == email[..|name|] + [email[|name|]] + email[|name| + 1..];
  }
}
