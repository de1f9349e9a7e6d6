/**
  The application as a whole: a request is dispatched to its handler, and a
  sequence of requests from one browser is run from a starting state. The
  lemmas here relate several requests.
*/
module App {
  import opened Wrappers
  import opened Passwords
  import opened Tables
  import opened AppState
  import Accounts
  import Dashboard

  datatype Request =
    | SignupPost(name: string, email: string, password1: string, password2: string, salt: Salt)
    | LoginPost(email: string, password: string)
    | LogoutGet
    | DashboardPost(form: Dashboard.ContactForm)

  /** One request against the state it finds. */
  function Step(st: State, req: Request): (r: Transition)
    requires Valid(st)
    ensures Valid(r.state)
    ensures Successor(st.db, r.state.db)
    ensures forall c :: c in st.db.contacts && st.session != Some(st.db.contacts[c].owner) ==>
      c in r.state.db.contacts && r.state.db.contacts[c] == st.db.contacts[c]
  {
    match req
    case SignupPost(name, email, p1, p2, salt) => Accounts.Signup(st, name, email, p1, p2, salt)
    case LoginPost(email, password) => Accounts.Login(st, email, password)
    case LogoutGet => Accounts.Logout(st)
    case DashboardPost(form) => Dashboard.Post(st, form)
  }

  /** The state after running `reqs` in order from `st`. */
  function Run(st: State, reqs: seq<Request>): (r: State)
    requires Valid(st)
    ensures Valid(r)
    ensures EmailsUnique(r.db.users)
    ensures r.db.allocator == st.db.allocator
    decreases |reqs|
  {
    if |reqs| == 0 then st
    else Step(Run(st, reqs[..|reqs| - 1]), reqs[|reqs| - 1]).state
  }

  /**
    A contact's owner is fixed at creation: with a key sequence, a contact key
    present at the start and at the end of any run has the same owner at both
    ends, even though the contact may have been edited in between.
    `KeyReuseChangesOwner` shows that this needs the sequence.
  */
  lemma {:induction false} OwnerFixed(st: State, reqs: seq<Request>, c: ContactId)
    requires Valid(st) && c in st.db.contacts && st.db.allocator == Sequence
    ensures c in Run(st, reqs).db.contacts ==>
      Run(st, reqs).db.contacts[c].owner == st.db.contacts[c].owner
    decreases |reqs|
  {
    OwnerKeptOrGone(st, reqs, c);
  }

  /**
    With a key sequence, each contact present at the start of a run either
    survives it with its owner or is gone, its key below every key still to be
    handed out.
  */
  lemma {:induction false} OwnerKeptOrGone(st: State, reqs: seq<Request>, c: ContactId)
    requires Valid(st) && c in st.db.contacts && st.db.allocator == Sequence
    ensures var end := Run(st, reqs).db;
      || (c in end.contacts && end.contacts[c].owner == st.db.contacts[c].owner)
      || (c !in end.contacts && c < end.nextContact)
    decreases |reqs|
  {
    if |reqs| > 0 {
      var prefix := reqs[..|reqs| - 1];
      OwnerKeptOrGone(st, prefix, c);
      var mid := Run(st, prefix);
      var end := Step(mid, reqs[|reqs| - 1]).state;
      assert Run(st, reqs) == end;
      if c !in mid.db.contacts {
        assert c !in end.db.contacts;
      }
    }
  }

  /** No request of `reqs` is made while user `a` is logged in. */
  ghost predicate NeverAs(st: State, reqs: seq<Request>, a: UserId)
    requires Valid(st)
    decreases |reqs|
  {
    || |reqs| == 0
    || (NeverAs(st, reqs[..|reqs| - 1], a) && Run(st, reqs[..|reqs| - 1]).session != Some(a))
  }

  /**
    Contacts of a user are out of reach of every other session: if no request of
    the run is made while their owner is logged in, each contact present at the
    start is still there, unchanged, at the end.
  */
  lemma {:induction false} ForeignRunLeavesContact(st: State, reqs: seq<Request>, c: ContactId)
    requires Valid(st) && c in st.db.contacts
    requires NeverAs(st, reqs, st.db.contacts[c].owner)
    ensures c in Run(st, reqs).db.contacts && Run(st, reqs).db.contacts[c] == st.db.contacts[c]
    decreases |reqs|
  {
    if |reqs| > 0 {
      var prefix := reqs[..|reqs| - 1];
      ForeignRunLeavesContact(st, prefix, c);
      var mid := Run(st, prefix);
      assert Run(st, reqs) == Step(mid, reqs[|reqs| - 1]).state;
    }
  }

  /**
    Signing up with an acceptable form and then logging in with the same email and
    password succeeds, and the session becomes the newly created user.
  */
  lemma SignupThenLogin(st: State, name: string, email: string, password: string, salt: Salt)
    requires Valid(st) && st.session.None?
    requires Accounts.Acceptable(st.db, name, email, password, password)
    ensures var signup := Accounts.Signup(st, name, email, password, password, salt);
      && signup.outcome == AccountCreated
      && var login := Accounts.Login(signup.state, email, password);
      && login.outcome == LoggedIn
      && login.state.session.Some?
      && login.state.session.value !in st.db.users
      && login.state.db.users[login.state.session.value] == User(name, email, Hash(salt, password))
  {
  }

  /**
    Registering the same email twice: once the first signup has succeeded, a
    second one with that email is rejected as a duplicate, whatever else the
    form holds, and changes nothing.
  */
  lemma SecondSignupRejected(st: State, name: string, email: string, p1: string, p2: string, salt: Salt,
                             name': string, q1: string, q2: string, salt': Salt)
    requires Valid(st) && st.session.None?
    requires Accounts.Signup(st, name, email, p1, p2, salt).outcome == AccountCreated
    ensures var s1 := Accounts.Signup(st, name, email, p1, p2, salt).state;
      Accounts.Signup(s1, name', email, q1, q2, salt') == Transition(s1, SignupRejected(EmailExists))
  {
  }

  /**
    Logging in to a registered account with any password other than the one it
    was created with is rejected as a wrong password, never as an unknown email,
    and changes nothing.
  */
  lemma SignupThenWrongPassword(st: State, name: string, email: string, password: string, salt: Salt,
                                other: string)
    requires Valid(st) && st.session.None?
    requires Accounts.Acceptable(st.db, name, email, password, password)
    requires other != password
    ensures var s1 := Accounts.Signup(st, name, email, password, password, salt).state;
      Accounts.Login(s1, email, other) == Transition(s1, LoginRejected(WrongPassword))
  {
    var s1 := Accounts.Signup(st, name, email, password, password, salt).state;
    var id :| id in s1.db.users.Keys - st.db.users.Keys;
    assert s1.db.users[id] == User(name, email, Hash(salt, password));
    CheckRejectsOthers(salt, password, other);
  }

  /** Logging out twice: the second request finds no session and changes nothing. */
  lemma LogoutTwice(st: State)
    requires Valid(st)
    ensures var once := Accounts.Logout(st).state;
      Accounts.Logout(once) == Transition(once, LoginRequired)
  {
  }

  /* The states of the scenario below, written out. */
  const Alice: User := User("Alice", "alice@x.com", Hash(1, "password1"))
  const Bob: User := User("Bob", "bob@x.com", Hash(2, "password2"))
  const BobCard: Contact := Contact("Bob", "bob@x.com", "5551234", 1)
  const AliceOnly: Db := Db(map[1 := Alice], map[], 2, 1, LargestPlusOne)
  const AliceCard: Db := Db(map[1 := Alice], map[1 := BobCard], 2, 2, LargestPlusOne)
  const Both: Db := Db(map[1 := Alice, 2 := Bob], map[1 := BobCard], 3, 2, LargestPlusOne)

  lemma AliceSignsUp()
    ensures Accounts.Signup(Initial(LargestPlusOne), "Alice", "alice@x.com", "password1", "password1", 1)
      == Transition(State(AliceOnly, None), AccountCreated)
  {
  }

  lemma AliceLogsIn()
    ensures Accounts.Login(State(AliceOnly, None), "alice@x.com", "password1")
      == Transition(State(AliceOnly, Some(1)), LoggedIn)
  {
  }

  lemma AliceSavesBob()
    ensures Dashboard.Post(State(AliceOnly, Some(1)), Dashboard.ContactForm("new", 0, "Bob", "bob@x.com", "5551234"))
      == Transition(State(AliceCard, Some(1)), DashboardDone)
  {
  }

  lemma BobSignsUp()
    ensures Accounts.Signup(State(AliceCard, None), "Bob", "bob@x.com", "password2", "password2", 2)
      == Transition(State(Both, None), AccountCreated)
  {
  }

  lemma BobLogsIn()
    ensures Accounts.Login(State(Both, None), "bob@x.com", "password2")
      == Transition(State(Both, Some(2)), LoggedIn)
  {
  }

  /**
    Without a key sequence the owner of a key can change: Alice deletes her only
    contact, logs out, Bob logs in and saves a new contact, which gets the freed
    key 1. Key 1 is present at both ends of the run with different owners.
  */
  lemma KeyReuseChangesOwner()
    ensures var start := State(Both, Some(1));
      var reqs := [DashboardPost(Dashboard.ContactForm("delete", 1, "", "", "")), LogoutGet,
                   LoginPost("bob@x.com", "password2"),
                   DashboardPost(Dashboard.ContactForm("new", 0, "Carol", "carol@x.com", "5550000"))];
      var end := Run(start, reqs);
      && 1 in start.db.contacts && 1 in end.db.contacts
      && end.db.contacts[1].owner != start.db.contacts[1].owner
  {
    var start := State(Both, Some(1));
    var reqs := [DashboardPost(Dashboard.ContactForm("delete", 1, "", "", "")), LogoutGet,
                 LoginPost("bob@x.com", "password2"),
                 DashboardPost(Dashboard.ContactForm("new", 0, "Carol", "carol@x.com", "5550000"))];
    var bare := Db(map[1 := Alice, 2 := Bob], map[], 3, 2, LargestPlusOne);
    assert reqs[..0] == [] && reqs[..1][..0] == [];
    assert reqs[..1] == [reqs[0]] && reqs[..2][..1] == reqs[..1];
    assert reqs[..3][..2] == reqs[..2] && reqs[..4][..3] == reqs[..3] && reqs[..4] == reqs;
    assert Run(start, reqs[..1]) == State(bare, Some(1));
    assert Run(start, reqs[..2]) == State(bare, None);
    assert bare.users[2].email == "bob@x.com";
    assert Run(start, reqs[..3]) == State(bare, Some(2));
    assert Run(start, reqs).db.contacts[1] == Contact("Carol", "carol@x.com", "5550000", 2);
  }

  /**
    Alice signs up, logs in and saves a contact "Bob"; she logs out, Bob signs up,
    logs in and posts a delete of that contact's key: the handler completes as
    usual and the contact is still there, owned by Alice.
  */
  lemma ForeignDeleteScenario()
    ensures var s1 := Accounts.Signup(Initial(LargestPlusOne), "Alice", "alice@x.com", "password1", "password1", 1).state;
      var s2 := Accounts.Login(s1, "alice@x.com", "password1").state;
      var s3 := Dashboard.Post(s2, Dashboard.ContactForm("new", 0, "Bob", "bob@x.com", "5551234")).state;
      var s4 := Accounts.Logout(s3).state;
      var s5 := Accounts.Signup(s4, "Bob", "bob@x.com", "password2", "password2", 2).state;
      var s6 := Accounts.Login(s5, "bob@x.com", "password2").state;
      var t7 := Dashboard.Post(s6, Dashboard.ContactForm("delete", 1, "", "", ""));
      && s6.session == Some(2)
      && t7.outcome == DashboardDone
      && t7.state.db.contacts == map[1 := Contact("Bob", "bob@x.com", "5551234", 1)]
  {
    AliceSignsUp();
    AliceLogsIn();
    AliceSavesBob();
    BobSignsUp();
    BobLogsIn();
    assert Dashboard.Post(State(Both, Some(2)), Dashboard.ContactForm("delete", 1, "", "", "")).state.db == Both;
  }
}
