/**
 * The user registry and session (services/authService.ts) over the browser's
 * key-value store. The store is a map from keys to stored values; a stored
 * JSON text is represented by the value it decodes to. The password hash is a
 * deterministic function the service is built with.
 */
module AuthService {
  import opened Types
  import Text

  datatype Result<T> = Success(value: T) | Failure(error: string)

  /** What a key of the store holds, already decoded. */
  datatype StoredValue =
    | UsersValue(users: seq<User>)
    | SessionValue(user: User)
    | TeamValue(team: seq<TeamMember>)
    | OtherValue(text: string)

  const UsersKey := "nexus_users"
  const SessionKey := "nexus_session"
  const TeamKey := "nexus_team"

  lemma KeysDistinct()
    ensures UsersKey != SessionKey && UsersKey != TeamKey && SessionKey != TeamKey
  {
    assert UsersKey[6] != SessionKey[6] && UsersKey[6] != TeamKey[6] && SessionKey[6] != TeamKey[6];
  }

  const DuplicateEmail := "Account with this email already exists."
  const InvalidCredentials := "Invalid email or password."

  /** The user list stored under the users key, or the empty list when there is none. */
  function StoredUsers(store: map<string, StoredValue>): seq<User>
  {
    if UsersKey in store && store[UsersKey].UsersValue? then store[UsersKey].users else []
  }

  /** The team stored under the team key, or the empty list when there is none. */
  function StoredTeam(store: map<string, StoredValue>): seq<TeamMember>
  {
    if TeamKey in store && store[TeamKey].TeamValue? then store[TeamKey].team else []
  }

  /** Emails equal up to ASCII case. */
  predicate SameEmail(a: string, b: string)
  {
    Text.Lower(a) == Text.Lower(b)
  }

  /** `users.find(u => u.email.toLowerCase() === email.toLowerCase())`. */
  function FindUser(users: seq<User>, email: string): (r: Option<User>)
    ensures r.Some? ==> r.value in users && SameEmail(r.value.email, email)
    ensures r.Some? ==>
      exists i :: 0 <= i < |users| && users[i] == r.value && forall j :: 0 <= j < i ==> !SameEmail(users[j].email, email)
    ensures r.None? <==> forall u :: u in users ==> !SameEmail(u.email, email)
  {
    if |users| == 0 then None
    else if SameEmail(users[0].email, email) then Some(users[0])
    else
      var r := FindUser(users[1..], email);
      assert r.Some? ==>
        exists i :: 0 <= i < |users| && users[i] == r.value && forall j :: 0 <= j < i ==> !SameEmail(users[j].email, email) by {
        if r.Some? {
          var i :| 0 <= i < |users[1..]| && users[1..][i] == r.value
            && forall j :: 0 <= j < i ==> !SameEmail(users[1..][j].email, email);
          assert users[i + 1] == r.value;
          assert forall j :: 0 <= j < i + 1 ==> !SameEmail(users[j].email, email) by {
            forall j | 0 <= j < i + 1 ensures !SameEmail(users[j].email, email) {
              if j > 0 { assert users[j] == users[1..][j - 1]; }
            }
          }
        }
      }
      r
  }

  /** No two stored users share an email up to case. */
  ghost predicate UniqueEmails(users: seq<User>)
  {
    forall i, j :: 0 <= i < j < |users| ==> !SameEmail(users[i].email, users[j].email)
  }

  /** A stored hash that is missing or "" cannot match (`!user.passwordHash`). */
  predicate HasHash(u: User)
  {
    u.passwordHash.Some? && u.passwordHash.value != ""
  }

  /** The user as the session stores it: a copy without the password hash. */
  function SessionCopy(u: User): (s: User)
    ensures s.passwordHash.None?
    ensures s.(passwordHash := u.passwordHash) == u
  {
    u.(passwordHash := None)
  }

  /** Whether a login with these credentials succeeds against the stored users. */
  predicate Accepts(users: seq<User>, hash: string -> string, email: string, password: string)
  {
    var found := FindUser(users, email);
    found.Some? && HasHash(found.value) && hash(password) == found.value.passwordHash.value
  }

  /** The user record `register` builds. */
  function NewUser(id: string, name: string, email: string, role: string, passwordHash: string): (u: User)
    ensures u.id == id && u.name == name && u.email == email && u.role == role
    ensures u.avatar == Some(AvatarFor(name)) && u.passwordHash == Some(passwordHash)
  {
    User(id, name, email, role, Some(AvatarFor(name)), Some(passwordHash))
  }

  /** The team member `register` adds for a new user: same id, name, role and avatar, skill "General". */
  function MemberFor(u: User): (m: TeamMember)
    requires u.avatar.Some?
    ensures m.id == u.id && m.name == u.name && m.role == u.role && m.avatar == u.avatar.value
    ensures m.skills == ["General"]
  {
    TeamMember(u.id, u.name, u.role, ["General"], u.avatar.value)
  }

  /** Adding a user whose email is new keeps the emails unique. */
  lemma {:induction false} AppendKeepsUnique(users: seq<User>, u: User)
    requires UniqueEmails(users)
    requires FindUser(users, u.email).None?
    ensures UniqueEmails(users + [u])
  {
    var r := users + [u];
    forall i, j | 0 <= i < j < |r|
      ensures !SameEmail(r[i].email, r[j].email)
    {
      if j == |users| {
        assert r[i] in users;
      }
    }
  }

  /** Once the new user is the only one with its email, logging in with its password finds it and succeeds. */
  lemma {:induction false} FindAppended(users: seq<User>, u: User)
    requires FindUser(users, u.email).None?
    ensures FindUser(users + [u], u.email) == Some(u)
  {
    if |users| > 0 {
      assert (users + [u])[1..] == users[1..] + [u];
      assert users[0] in users;
      FindAppended(users[1..], u);
    } else {
      assert SameEmail(u.email, u.email);
    }
  }

  /** The store after registration writes a user: the user appended under the users key, its member under the team key. */
  function WithUser(store: map<string, StoredValue>, u: User): map<string, StoredValue>
    requires u.avatar.Some?
  {
    store[UsersKey := UsersValue(StoredUsers(store) + [u])][TeamKey := TeamValue(StoredTeam(store) + [MemberFor(u)])]
  }

  /** The authentication service over a store, built with the password hash function. */
  class Auth {
    var store: map<string, StoredValue>
    const hash: string -> string

    constructor (initial: map<string, StoredValue>, hashPassword: string -> string)
      ensures store == initial && hash == hashPassword
    {
      store := initial;
      hash := hashPassword;
    }

    /** `getCurrentUser`: the stored session, if any. */
    function CurrentUser(): (r: Option<User>)
      reads this
      ensures r.Some? <==> SessionKey in store && store[SessionKey].SessionValue?
    {
      if SessionKey in store && store[SessionKey].SessionValue? then Some(store[SessionKey].user) else None
    }

    /**
     * `login`: the same failure for an unknown email, a missing hash and a wrong
     * password; on success the session holds the user without the hash, and
     * nothing else in the store changes.
     */
    method Login(email: string, password: string) returns (r: Result<User>)
      modifies this
      ensures r.Success? <==> Accepts(StoredUsers(old(store)), hash, email, password)
      ensures r.Failure? ==> r.error == InvalidCredentials && store == old(store)
      ensures r.Success? ==>
        && r.value == SessionCopy(FindUser(StoredUsers(old(store)), email).value)
        && store == old(store)[SessionKey := SessionValue(r.value)]
        && CurrentUser() == Some(r.value)
      ensures StoredUsers(store) == StoredUsers(old(store)) && StoredTeam(store) == StoredTeam(old(store))
    {
      var users := StoredUsers(store);
      var user := FindUser(users, email);
      if user.None? || !HasHash(user.value) {
        return Failure(InvalidCredentials);
      }
      var inputHash := hash(password);
      if inputHash != user.value.passwordHash.value {
        return Failure(InvalidCredentials);
      }
      KeysDistinct();
      var sessionUser := SessionCopy(user.value);
      store := store[SessionKey := SessionValue(sessionUser)];
      return Success(sessionUser);
    }

    /**
     * `register`: refused, with nothing written, when the email is taken up to
     * case. Otherwise exactly one user is appended to the stored users and one
     * member to the stored team, and the user is logged in with the same
     * credentials, which succeeds when the hash is not "". No other key of
     * the store changes.
     */
    method Register(name: string, email: string, password: string, role: string, newId: string) returns (r: Result<User>)
      modifies this
      ensures FindUser(StoredUsers(old(store)), email).Some? ==>
        r == Failure(DuplicateEmail) && store == old(store)
      ensures FindUser(StoredUsers(old(store)), email).None? ==>
        var u := NewUser(newId, name, email, role, hash(password));
        && StoredUsers(store) == StoredUsers(old(store)) + [u]
        && StoredTeam(store) == StoredTeam(old(store)) + [MemberFor(u)]
        && (hash(password) != "" ==>
              && r == Success(SessionCopy(u)) && CurrentUser() == Some(SessionCopy(u))
              && store == WithUser(old(store), u)[SessionKey := SessionValue(SessionCopy(u))])
        && (hash(password) == "" ==> r == Failure(InvalidCredentials) && store == WithUser(old(store), u))
      ensures UniqueEmails(StoredUsers(old(store))) ==> UniqueEmails(StoredUsers(store))
    {
      KeysDistinct();
      if FindUser(StoredUsers(store), email).Some? {
        return Failure(DuplicateEmail);
      }
      var newUser := NewUser(newId, name, email, role, hash(password));
      FindAppended(StoredUsers(store), newUser);
      if UniqueEmails(StoredUsers(store)) {
        AppendKeepsUnique(StoredUsers(store), newUser);
      }
      AppendUser(newUser);
      r := Login(email, password);
    }

    /** Saves the user after the stored users and its member after the stored team; no other key changes. */
    method AppendUser(u: User)
      requires u.avatar.Some?
      modifies this
      ensures store == WithUser(old(store), u)
      ensures StoredUsers(store) == StoredUsers(old(store)) + [u]
      ensures StoredTeam(store) == StoredTeam(old(store)) + [MemberFor(u)]
    {
      KeysDistinct();
      store := WithUser(store, u);
    }

    /** `logout`: the session key goes; every other key keeps its value. */
    method Logout()
      modifies this
      ensures store == old(store) - {SessionKey}
      ensures CurrentUser() == None
      ensures forall k :: k != SessionKey ==> (k in store <==> k in old(store))
      ensures StoredUsers(store) == StoredUsers(old(store)) && StoredTeam(store) == StoredTeam(old(store))
    {
      store := store - {SessionKey};
    }
  }

  /** Login fails for every email no stored user has, whatever the password. */
  lemma UnknownEmailRejected(users: seq<User>, hash: string -> string, email: string, password: string)
    requires forall u :: u in users ==> !SameEmail(u.email, email)
    ensures !Accepts(users, hash, email, password)
  {
  }

  /** Login with the registered password succeeds exactly when the stored hash is the hash of that password. */
  lemma {:induction false} AcceptsIff(users: seq<User>, hash: string -> string, email: string, password: string)
    requires UniqueEmails(users)
    ensures Accepts(users, hash, email, password) <==>
      exists i :: 0 <= i < |users| && SameEmail(users[i].email, email) && HasHash(users[i])
                  && users[i].passwordHash.value == hash(password)
  {
    var found := FindUser(users, email);
    if found.Some? {
      var k :| 0 <= k < |users| && users[k] == found.value;
      assert SameEmail(users[k].email, email);
    }
  }
}
