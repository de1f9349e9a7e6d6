/**
  What a request sees and changes: the database and the session of the browser
  making it (flask_login's `current_user`, reduced to the logged-in user's key),
  and the outcome each handler reports. Outcomes stand for the flashed message
  category and redirect target; their wording is presentation and is not kept.
*/
module AppState {
  import opened Wrappers
  import opened Tables

  /** The signup checks, each named by the failure it reports. */
  datatype SignupError = EmailExists | NameTooShort | EmailInvalid | PasswordTooShort | PasswordMismatch

  datatype LoginError = NotRegistered | WrongPassword

  datatype Outcome =
    | RedirectIndex                       // signup or login while already logged in
    | SignupRejected(reason: SignupError)
    | AccountCreated                      // redirect to the login page
    | LoginRejected(why: LoginError)
    | LoggedIn
    | LoginRequired                       // a `login_required` route without a session
    | LoggedOut
    | DashboardDone                       // every dashboard POST that completes redirects back
    | ServerError                         // the handler raised: nothing was committed

  datatype State = State(db: Db, session: Option<UserId>)

  /** The state after a request, and what the handler reported. */
  datatype Transition = Transition(state: State, outcome: Outcome)

  /** Between requests the database is consistent and a session names an existing user. */
  ghost predicate Valid(st: State)
  {
    && Consistent(st.db)
    && (st.session.Some? ==> st.session.value in st.db.users)
  }

  /** A new deployment: empty tables, nobody logged in. */
  function Initial(allocator: Allocator): State
  {
    State(Empty(allocator), None)
  }
}
