/**
 * The user accounts of the server: registration with a unique username, login, the profile
 * update and the password change, and the password-free view of a user that every answer uses.
 *
 * The store is keyed by username, which registration keeps unique and nothing afterwards
 * changes. The user schema's own validation, run when a user is saved, and the password check
 * (`comparePassword`, against the hash the schema stores) are not visible here: they are the
 * store's `accepts` and `matches` functions, fixed when the store is made.
 */
module AuthRoutes {
  import opened Wrappers

  datatype User = User(
    id: string,
    username: string,
    password: string,
    name: Option<string>,
    surname: Option<string>,
    gender: Option<string>,
    weight: Option<real>,
    height: Option<real>,
    age: Option<int>)

  /** A user as the routes send it back: every field but the password. */
  datatype PublicUser = PublicUser(
    id: string,
    username: string,
    name: Option<string>,
    surname: Option<string>,
    gender: Option<string>,
    weight: Option<real>,
    height: Option<real>,
    age: Option<int>)

  /** The body of `POST /register`. */
  datatype Registration = Registration(
    username: string,
    password: string,
    name: Option<string>,
    surname: Option<string>,
    gender: Option<string>,
    weight: Option<real>,
    height: Option<real>,
    age: Option<int>)

  /** The body of `PUT /profile`. */
  datatype ProfileBody = ProfileBody(
    name: Option<string>,
    surname: Option<string>,
    gender: Option<string>,
    weight: Option<real>,
    height: Option<real>,
    age: Option<int>)

  datatype AuthError =
    | UsernameExists
    | InvalidCredentials
    | UserNotFound
    | MissingPasswords
    | WrongOldPassword
    | ServerError

  /** The status code each failure answers with. */
  function Status(e: AuthError): (code: int)
    ensures code == 400 <==> e == UsernameExists || e == MissingPasswords
    ensures code == 401 <==> e == InvalidCredentials || e == WrongOldPassword
    ensures code == 404 <==> e == UserNotFound
    ensures code == 500 <==> e == ServerError
  {
    match e
    case UsernameExists => 400
    case InvalidCredentials => 401
    case UserNotFound => 404
    case MissingPasswords => 400
    case WrongOldPassword => 401
    case ServerError => 500
  }

  /**
   * The message each failure answers with; the two 401s of login share one. (Each route words
   * its server error differently; one text stands for them here.)
   */
  function Message(e: AuthError): (m: string)
    ensures e == InvalidCredentials ==> m == "Invalid credentials"
    ensures e == UsernameExists ==> m == "Username already exists"
    ensures e == UserNotFound ==> m == "User not found"
    ensures e == MissingPasswords ==> m == "Please provide old and new password"
    ensures e == WrongOldPassword ==> m == "Old password is incorrect"
    ensures e == ServerError <==> m == "Server error"
  {
    match e
    case UsernameExists => "Username already exists"
    case InvalidCredentials => "Invalid credentials"
    case UserNotFound => "User not found"
    case MissingPasswords => "Please provide old and new password"
    case WrongOldPassword => "Old password is incorrect"
    case ServerError => "Server error"
  }

  /** JavaScript truthiness of an optional string: present and not empty. */
  predicate TruthyText(o: Option<string>) {
    o.Some? && o.value != []
  }

  /** JavaScript truthiness of an optional number: present and not 0. */
  predicate TruthyReal(o: Option<real>) {
    o.Some? && o.value != 0.0
  }

  predicate TruthyInt(o: Option<int>) {
    o.Some? && o.value != 0
  }

  /** The password-free view sent in every answer. */
  function Public(u: User): (r: PublicUser)
    ensures r.id == u.id && r.username == u.username
  {
    PublicUser(u.id, u.username, u.name, u.surname, u.gender, u.weight, u.height, u.age)
  }

  /** The view does not depend on the password at all. */
  lemma PublicIgnoresPassword(u: User, p: string)
    ensures Public(u.(password := p)) == Public(u)
  {
  }

  /** Every user is stored under its own username. */
  predicate KeyedByName(users: map<string, User>) {
    forall k :: k in users ==> users[k].username == k
  }

  /** `new User({ ... })` from a registration body. */
  function NewUser(id: string, b: Registration): (u: User)
    ensures u.username == b.username && u.password == b.password && u.id == id
  {
    User(id, b.username, b.password, b.name, b.surname, b.gender, b.weight, b.height, b.age)
  }

  /**
   * `POST /register`: a taken username is refused with nothing stored; a user the schema
   * refuses on save is a server error with nothing stored; otherwise the user is stored under
   * its username and answered without its password.
   */
  function Registered(users: map<string, User>, accepts: User -> bool, id: string, b: Registration)
    : (r: (Result<PublicUser, AuthError>, map<string, User>))
    ensures b.username in users ==> r == (Failure(UsernameExists), users)
    ensures r.0.Failure? ==> r.1 == users
    ensures r.0.Success? <==> b.username !in users && accepts(NewUser(id, b))
    ensures r.0.Success? ==>
      r.1 == users[b.username := NewUser(id, b)] && r.0.value == Public(NewUser(id, b))
  {
    if b.username in users then (Failure(UsernameExists), users)
    else
      var u := NewUser(id, b);
      if !accepts(u) then (Failure(ServerError), users)
      else (Success(Public(u)), users[b.username := u])
  }

  /**
   * `POST /login`: `User.findOne({ username })`, then the password check; an unknown username and
   * a wrong password are the same failure. A body with no username makes the filter
   * `{ username: undefined }`, which Mongoose sends as `{}`: it finds whichever user the
   * collection returns first. `first` names that user; the collection's order is not modelled.
   */
  function Login(users: map<string, User>, matches: (string, string) -> bool,
                 username: Option<string>, password: string, first: string)
    : (r: Result<PublicUser, AuthError>)
    ensures username.Some? ==>
      (r.Success? <==> username.value in users && matches(users[username.value].password, password))
    ensures username.Some? && r.Success? ==> r.value == Public(users[username.value])
    ensures username.None? ==> (r.Success? <==> first in users && matches(users[first].password, password))
    ensures username.None? && r.Success? ==> r.value == Public(users[first])
    ensures r.Failure? ==> r.error == InvalidCredentials
  {
    var key := if username.Some? then username.value else first;
    if key !in users then Failure(InvalidCredentials)
    else if !matches(users[key].password, password) then Failure(InvalidCredentials)
    else Success(Public(users[key]))
  }

  /**
   * Without a username, a password that matches some stored user's logs in as that user, and no
   * password logs in when the store is empty.
   */
  lemma LoginWithoutUsername(users: map<string, User>, matches: (string, string) -> bool,
                             password: string, first: string)
    requires first in users && matches(users[first].password, password)
    ensures Login(users, matches, None, password, first) == Success(Public(users[first]))
    ensures Login(map[], matches, None, password, first) == Failure(InvalidCredentials)
  {
  }

  /**
   * The profile fields of `PUT /profile`, each overwritten only by a truthy value of the body:
   * an empty string and 0 leave the field as it was.
   */
  function Merged(u: User, b: ProfileBody): (r: User)
    ensures r.id == u.id && r.username == u.username && r.password == u.password
    ensures r.name == (if TruthyText(b.name) then b.name else u.name)
    ensures r.surname == (if TruthyText(b.surname) then b.surname else u.surname)
    ensures r.gender == (if TruthyText(b.gender) then b.gender else u.gender)
    ensures r.weight == (if TruthyReal(b.weight) then b.weight else u.weight)
    ensures r.height == (if TruthyReal(b.height) then b.height else u.height)
    ensures r.age == (if TruthyInt(b.age) then b.age else u.age)
  {
    u.(name := if TruthyText(b.name) then b.name else u.name,
       surname := if TruthyText(b.surname) then b.surname else u.surname,
       gender := if TruthyText(b.gender) then b.gender else u.gender,
       weight := if TruthyReal(b.weight) then b.weight else u.weight,
       height := if TruthyReal(b.height) then b.height else u.height,
       age := if TruthyInt(b.age) then b.age else u.age)
  }

  /** Sending the same profile twice changes nothing the second time. */
  lemma MergedIdempotent(u: User, b: ProfileBody)
    ensures Merged(Merged(u, b), b) == Merged(u, b)
  {
  }

  /** A body whose every field is missing, empty or 0 leaves the user exactly as it was. */
  lemma FalsyProfileChangesNothing(u: User, b: ProfileBody)
    requires !TruthyText(b.name) && !TruthyText(b.surname) && !TruthyText(b.gender)
    requires !TruthyReal(b.weight) && !TruthyReal(b.height) && !TruthyInt(b.age)
    ensures Merged(u, b) == u
  {
  }

  /**
   * `PUT /profile` by the user stored under `caller`: 404 when it is gone, a server error with
   * nothing stored when the schema refuses the merged user, else the merged user is stored.
   */
  function ProfileUpdated(users: map<string, User>, accepts: User -> bool, caller: string, b: ProfileBody)
    : (r: (Result<PublicUser, AuthError>, map<string, User>))
    ensures caller !in users ==> r == (Failure(UserNotFound), users)
    ensures r.0.Failure? ==> r.1 == users
    ensures r.0.Success? <==> caller in users && accepts(Merged(users[caller], b))
    ensures r.0.Success? ==>
      r.1 == users[caller := Merged(users[caller], b)] && r.0.value == Public(Merged(users[caller], b))
  {
    if caller !in users then (Failure(UserNotFound), users)
    else
      var u := Merged(users[caller], b);
      if !accepts(u) then (Failure(ServerError), users)
      else (Success(Public(u)), users[caller := u])
  }

  /** The answer of a successful password change. */
  const PasswordChanged: string := "Password changed successfully"

  /**
   * `POST /change-password` by the user stored under `caller`: both passwords are demanded
   * before anything is looked up; then 404 for a missing user, 401 for a wrong old password,
   * a server error when the schema refuses the save, and otherwise the new password replaces
   * the old one. Every failure stores nothing.
   */
  function PasswordUpdated(
    users: map<string, User>, accepts: User -> bool, matches: (string, string) -> bool,
    caller: string, oldPassword: Option<string>, newPassword: Option<string>)
    : (r: (Result<string, AuthError>, map<string, User>))
    ensures !TruthyText(oldPassword) || !TruthyText(newPassword) ==> r == (Failure(MissingPasswords), users)
    ensures r.0.Failure? ==> r.1 == users
    ensures (TruthyText(oldPassword) && TruthyText(newPassword) && caller in users
             && !matches(users[caller].password, oldPassword.value)) ==> r.0 == Failure(WrongOldPassword)
    ensures r.0.Success? <==>
      TruthyText(oldPassword) && TruthyText(newPassword) && caller in users
      && matches(users[caller].password, oldPassword.value)
      && accepts(users[caller].(password := newPassword.value))
    ensures r.0.Success? ==>
      r.0.value == PasswordChanged && r.1 == users[caller := users[caller].(password := newPassword.value)]
  {
    if !TruthyText(oldPassword) || !TruthyText(newPassword) then (Failure(MissingPasswords), users)
    else if caller !in users then (Failure(UserNotFound), users)
    else if !matches(users[caller].password, oldPassword.value) then (Failure(WrongOldPassword), users)
    else
      var u := users[caller].(password := newPassword.value);
      if !accepts(u) then (Failure(ServerError), users)
      else (Success(PasswordChanged), users[caller := u])
  }

  /** Legacy `GET /`: every user, with the password selected out. */
  function Listed(users: map<string, User>): (r: set<PublicUser>)
    ensures forall k :: k in users ==> Public(users[k]) in r
    ensures forall p :: p in r ==> exists k :: k in users && p == Public(users[k])
  {
    set k | k in users :: Public(users[k])
  }

  /** A user who has just registered can log in with the password given, and sees the same view. */
  lemma RegisterThenLogin(users: map<string, User>, accepts: User -> bool, matches: (string, string) -> bool,
                          id: string, b: Registration)
    requires Registered(users, accepts, id, b).0.Success?
    requires matches(b.password, b.password)
    ensures Login(Registered(users, accepts, id, b).1, matches, Some(b.username), b.password, b.username)
      == Registered(users, accepts, id, b).0
  {
  }

  /**
   * After a password change, the new password logs in and any password the new one does not
   * match is refused.
   */
  lemma ChangeThenLogin(
    users: map<string, User>, accepts: User -> bool, matches: (string, string) -> bool,
    caller: string, oldPassword: Option<string>, newPassword: Option<string>, other: string)
    requires PasswordUpdated(users, accepts, matches, caller, oldPassword, newPassword).0.Success?
    requires matches(newPassword.value, newPassword.value) && !matches(newPassword.value, other)
    ensures Login(PasswordUpdated(users, accepts, matches, caller, oldPassword, newPassword).1, matches,
      Some(caller), newPassword.value, caller).Success?
    ensures Login(PasswordUpdated(users, accepts, matches, caller, oldPassword, newPassword).1, matches,
      Some(caller), other, caller) == Failure(InvalidCredentials)
  {
  }

  /** A profile update never changes who can log in with which password. */
  lemma ProfileKeepsCredentials(users: map<string, User>, accepts: User -> bool, matches: (string, string) -> bool,
                                caller: string, b: ProfileBody, username: Option<string>, password: string,
                                first: string)
    ensures Login(ProfileUpdated(users, accepts, caller, b).1, matches, username, password, first).Success?
      == Login(users, matches, username, password, first).Success?
  {
    var after := ProfileUpdated(users, accepts, caller, b).1;
    var key := if username.Some? then username.value else first;
    if key in users && key == caller && after != users {
      assert after[key].password == users[key].password;
    }
  }

  /** Saving a user under its own username keeps every user stored under its own username. */
  lemma SaveKeepsKeys(users: map<string, User>, u: User)
    requires KeyedByName(users)
    ensures KeyedByName(users[u.username := u])
  {
  }

  /** Every operation keeps each user stored under its own username. */
  lemma OperationsKeepKeys(
    users: map<string, User>, accepts: User -> bool, matches: (string, string) -> bool,
    id: string, reg: Registration, caller: string, b: ProfileBody,
    oldPassword: Option<string>, newPassword: Option<string>)
    requires KeyedByName(users)
    ensures KeyedByName(Registered(users, accepts, id, reg).1)
    ensures KeyedByName(ProfileUpdated(users, accepts, caller, b).1)
    ensures KeyedByName(PasswordUpdated(users, accepts, matches, caller, oldPassword, newPassword).1)
  {
  }

  /** The accounts, with the schema's save-time validation and the password check. */
  class UserStore {
    var users: map<string, User>
    const accepts: User -> bool
    const matches: (string, string) -> bool

    ghost predicate Valid()
      reads this
    {
      KeyedByName(users)
    }

    constructor(accepts: User -> bool, matches: (string, string) -> bool)
      ensures users == map[] && this.accepts == accepts && this.matches == matches && Valid()
    {
      users := map[];
      this.accepts := accepts;
      this.matches := matches;
    }

    method Register(id: string, b: Registration) returns (r: Result<PublicUser, AuthError>)
      requires Valid()
      modifies this
      ensures (r, users) == Registered(old(users), accepts, id, b) && Valid()
    {
      if b.username in users {
        return Failure(UsernameExists);
      }
      var user := User(id, b.username, b.password, b.name, b.surname, b.gender, b.weight, b.height, b.age);
      if !accepts(user) {
        return Failure(ServerError);
      }
      users := users[b.username := user];
      r := Success(PublicUser(user.id, user.username, user.name, user.surname, user.gender,
        user.weight, user.height, user.age));
    }

    /**
     * With a username, the answer is `Login`'s. Without one, it is `Login`'s for some stored user,
     * the one the collection returns first; with no user stored it is the 401.
     */
    method SignIn(username: Option<string>, password: string) returns (r: Result<PublicUser, AuthError>)
      ensures username.Some? ==> r == Login(users, matches, username, password, username.value)
      ensures username.None? && users == map[] ==> r == Failure(InvalidCredentials)
      ensures username.None? && users != map[] ==>
        exists first :: first in users && r == Login(users, matches, username, password, first)
    {
      var key: string;
      if username.Some? {
        key := username.value;
      } else if users == map[] {
        return Failure(InvalidCredentials);
      } else {
        key :| key in users;
      }
      if key !in users {
        return Failure(InvalidCredentials);
      }
      var user := users[key];
      if !matches(user.password, password) {
        r := Failure(InvalidCredentials);
      } else {
        r := Success(Public(user));
      }
      assert r == Login(users, matches, username, password, key);
    }

    /** The fields are assigned one at a time, each only when the body's value is truthy. */
    method UpdateProfile(caller: string, b: ProfileBody) returns (r: Result<PublicUser, AuthError>)
      requires Valid()
      modifies this
      ensures (r, users) == ProfileUpdated(old(users), accepts, caller, b) && Valid()
    {
      if caller !in users {
        return Failure(UserNotFound);
      }
      var user := users[caller];
      ghost var merged := Merged(user, b);
      if TruthyText(b.name) { user := user.(name := b.name); }
      assert user.name == merged.name;
      if TruthyText(b.surname) { user := user.(surname := b.surname); }
      assert user.surname == merged.surname;
      if TruthyText(b.gender) { user := user.(gender := b.gender); }
      assert user.gender == merged.gender;
      if TruthyReal(b.weight) { user := user.(weight := b.weight); }
      assert user.weight == merged.weight;
      if TruthyReal(b.height) { user := user.(height := b.height); }
      assert user.height == merged.height;
      if TruthyInt(b.age) { user := user.(age := b.age); }
      assert user == merged;
      if !accepts(user) {
        return Failure(ServerError);
      }
      assert user.username == caller;
      SaveKeepsKeys(users, user);
      users := users[caller := user];
      r := Success(Public(user));
    }

    method ChangePassword(caller: string, oldPassword: Option<string>, newPassword: Option<string>)
      returns (r: Result<string, AuthError>)
      requires Valid()
      modifies this
      ensures (r, users) == PasswordUpdated(old(users), accepts, matches, caller, oldPassword, newPassword)
      ensures Valid()
    {
      if !TruthyText(oldPassword) || !TruthyText(newPassword) {
        return Failure(MissingPasswords);
      }
      if caller !in users {
        return Failure(UserNotFound);
      }
      var user := users[caller];
      if !matches(user.password, oldPassword.value) {
        return Failure(WrongOldPassword);
      }
      user := user.(password := newPassword.value);
      if !accepts(user) {
        return Failure(ServerError);
      }
      assert user.username == caller;
      SaveKeepsKeys(users, user);
      users := users[caller := user];
      r := Success(PasswordChanged);
    }
  }
}
