/** The `/signup`, `/login` and `/logout` handlers of app.py. */
module Accounts {
  import opened Wrappers
  import opened Passwords
  import opened Tables
  import opened AppState

  /** Position of each check in the signup chain; the earliest failing one is reported. */
  function Rank(e: SignupError): nat
  {
    match e
    case EmailExists => 0
    case NameTooShort => 1
    case EmailInvalid => 2
    case PasswordTooShort => 3
    case PasswordMismatch => 4
  }

  /** Whether the form fails the check that reports `e`. */
  predicate Violates(e: SignupError, registered: bool, name: string, email: string, password1: string, password2: string)
  {
    match e
    case EmailExists => registered
    case NameTooShort => |name| < 3
    case EmailInvalid => |email| < 5
    case PasswordTooShort => |password1| < 8
    case PasswordMismatch => password1 != password2
  }

  /**
    The signup validation chain: `None` when the form passes every check,
    otherwise the failing check that comes first in the chain.
  */
  function ValidateSignup(registered: bool, name: string, email: string, password1: string, password2: string)
    : (r: Option<SignupError>)
    ensures r.None? <==> forall e :: !Violates(e, registered, name, email, password1, password2)
    ensures r.Some? ==> Violates(r.value, registered, name, email, password1, password2)
    ensures r.Some? ==> forall e :: Rank(e) < Rank(r.value) ==> !Violates(e, registered, name, email, password1, password2)
  {
    if registered then
      assert Violates(EmailExists, registered, name, email, password1, password2);
      Some(EmailExists)
    else if |name| < 3 then
      assert Violates(NameTooShort, registered, name, email, password1, password2);
      Some(NameTooShort)
    else if |email| < 5 then
      assert Violates(EmailInvalid, registered, name, email, password1, password2);
      Some(EmailInvalid)
    else if |password1| < 8 then
      assert Violates(PasswordTooShort, registered, name, email, password1, password2);
      Some(PasswordTooShort)
    else if password1 != password2 then
      assert Violates(PasswordMismatch, registered, name, email, password1, password2);
      Some(PasswordMismatch)
    else None
  }

  /** Everything the signup handler demands of a form before it creates the account. */
  ghost predicate Acceptable(db: Db, name: string, email: string, password1: string, password2: string)
  {
    && !Registered(db, email)
    && |name| >= 3
    && |email| >= 5
    && |password1| >= 8
    && password1 == password2
  }

  /** POST `/signup`. `salt` is the randomness the password hasher draws. */
  function Signup(st: State, name: string, email: string, password1: string, password2: string, salt: Salt)
    : (r: Transition)
    requires Valid(st)
    ensures st.session.Some? ==> r == Transition(st, RedirectIndex)
    ensures r.outcome == RedirectIndex <==> st.session.Some?
    ensures st.session.None? ==>
      (r.outcome == AccountCreated <==> Acceptable(st.db, name, email, password1, password2))
    ensures st.session.None? && !Acceptable(st.db, name, email, password1, password2) ==>
      r.outcome.SignupRejected?
    ensures r.outcome.SignupRejected? ==>
      && r.state == st
      && Violates(r.outcome.reason, Registered(st.db, email), name, email, password1, password2)
      && forall e :: Rank(e) < Rank(r.outcome.reason) ==> !Violates(e, Registered(st.db, email), name, email, password1, password2)
    ensures r.outcome == AccountCreated ==>
      && r.state.session == st.session
      && AddsOneUser(st.db, r.state.db, User(name, email, Hash(salt, password1)))
    ensures Successor(st.db, r.state.db)
    ensures r.outcome in {RedirectIndex, AccountCreated} || r.outcome.SignupRejected?
    ensures Valid(r.state)
  {
    if st.session.Some? then Transition(st, RedirectIndex)
    else
      var registered := FindByEmail(st.db, email).Some?;
      match ValidateSignup(registered, name, email, password1, password2)
      case Some(e) => Transition(st, SignupRejected(e))
      case None =>
        var db' := InsertUser(st.db, User(name, email, Hash(salt, password1)));
        Transition(State(db', st.session), AccountCreated)
  }

  /** POST `/login`. */
  function Login(st: State, email: string, password: string): (r: Transition)
    requires Valid(st)
    ensures r.state.db == st.db
    ensures st.session.Some? ==> r == Transition(st, RedirectIndex)
    ensures r.outcome == RedirectIndex <==> st.session.Some?
    ensures r.outcome != LoggedIn ==> r.state == st
    ensures st.session.None? ==>
      (r.outcome == LoginRejected(NotRegistered) <==> !Registered(st.db, email))
    ensures st.session.None? ==>
      forall id :: id in st.db.users && st.db.users[id].email == email ==>
        && (r.outcome == LoginRejected(WrongPassword) <==> !Check(st.db.users[id].password, password))
        && (r.outcome == LoggedIn <==> Check(st.db.users[id].password, password))
    ensures r.outcome == LoggedIn ==>
      && r.state.session.Some?
      && r.state.session.value in st.db.users
      && st.db.users[r.state.session.value].email == email
      && Check(st.db.users[r.state.session.value].password, password)
    ensures r.outcome in {RedirectIndex, LoggedIn} || r.outcome.LoginRejected?
    ensures Valid(r.state)
  {
    if st.session.Some? then Transition(st, RedirectIndex)
    else
      match FindByEmail(st.db, email)
      case None => Transition(st, LoginRejected(NotRegistered))
      case Some(id) =>
        if !Check(st.db.users[id].password, password) then Transition(st, LoginRejected(WrongPassword))
        else Transition(State(st.db, Some(id)), LoggedIn)
  }

  /** GET `/logout`, behind `login_required`. */
  function Logout(st: State): (r: Transition)
    requires Valid(st)
    ensures r.state.db == st.db
    ensures r.state.session.None?
    ensures st.session.None? <==> r.outcome == LoginRequired
    ensures r.outcome in {LoginRequired, LoggedOut}
    ensures Valid(r.state)
  {
    if st.session.None? then Transition(st, LoginRequired)
    else Transition(State(st.db, None), LoggedOut)
  }
}
