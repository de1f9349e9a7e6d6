/**
  POST `/dashboard` of app.py: the `new`, `edit` and `delete` contact actions,
  behind `login_required`. Edit and delete act only on a contact the caller
  owns and otherwise complete exactly as if they had acted.
*/
module Dashboard {
  import opened Tables
  import opened AppState

  /** The posted form. `id` is the already-parsed `int(...)` of the id field. */
  datatype ContactForm = ContactForm(action: string, id: int, name: string, email: string, mobile: string)

  /** Action `new`: a contact owned by the caller, with the fields exactly as posted. */
  function CreateContact(db: Db, caller: UserId, name: string, email: string, mobile: string): (r: Db)
    requires Consistent(db) && caller in db.users
    ensures AddsOneContact(db, r, Contact(name, email, mobile, caller))
    ensures Successor(db, r)
    ensures Consistent(r)
  {
    InsertContact(db, Contact(name, email, mobile, caller))
  }

  /** Action `edit` on a contact that exists. */
  function EditContact(db: Db, caller: UserId, id: ContactId, name: string, email: string, mobile: string): (r: Db)
    requires Consistent(db) && id in db.contacts
    ensures db.contacts[id].owner != caller ==> r == db
    ensures db.contacts[id].owner == caller ==>
      && r.users == db.users
      && r.contacts.Keys == db.contacts.Keys
      && r.contacts[id] == Contact(name, email, mobile, caller)
      && (forall c :: c in db.contacts && c != id ==> r.contacts[c] == db.contacts[c])
    ensures r.contacts.Keys == db.contacts.Keys
    ensures forall c :: c in r.contacts ==> r.contacts[c].owner == db.contacts[c].owner
    ensures forall c :: c in db.contacts && db.contacts[c].owner != caller ==> r.contacts[c] == db.contacts[c]
    ensures Successor(db, r)
    ensures Consistent(r)
  {
    var prior := db.contacts[id];
    if prior.owner == caller then
      db.(contacts := db.contacts[id := prior.(name := name, email := email, mobile := mobile)])
    else db
  }

  /** Action `delete` on a contact that exists. */
  function DeleteContact(db: Db, caller: UserId, id: ContactId): (r: Db)
    requires Consistent(db) && id in db.contacts
    ensures db.contacts[id].owner != caller ==> r == db
    ensures db.contacts[id].owner == caller ==>
      && r.users == db.users
      && r.contacts.Keys == db.contacts.Keys - {id}
    ensures forall c :: c in r.contacts ==> c in db.contacts && r.contacts[c] == db.contacts[c]
    ensures forall c :: c in db.contacts && db.contacts[c].owner != caller ==> c in r.contacts
    ensures Successor(db, r)
    ensures Consistent(r)
  {
    if db.contacts[id].owner == caller then db.(contacts := db.contacts - {id})
    else db
  }

  /** The edit and delete actions look the contact up by key; an unknown key makes the handler raise. */
  predicate UnknownContact(db: Db, form: ContactForm)
  {
    form.id < 0 || form.id !in db.contacts
  }

  /** POST `/dashboard`. */
  function Post(st: State, form: ContactForm): (r: Transition)
    requires Valid(st)
    ensures st.session.None? ==> r == Transition(st, LoginRequired)
    ensures r.state.session == st.session
    ensures r.state.db.users == st.db.users
    ensures r.outcome == ServerError <==>
      st.session.Some? && form.action in {"edit", "delete"} && UnknownContact(st.db, form)
    ensures r.outcome == ServerError ==> r.state == st
    ensures st.session.Some? ==> r.outcome in {DashboardDone, ServerError}
    ensures form.action !in {"new", "edit", "delete"} ==> r.state == st
    ensures st.session.Some? && form.action == "new" ==>
      AddsOneContact(st.db, r.state.db, Contact(form.name, form.email, form.mobile, st.session.value))
    ensures st.session.Some? ==>
      forall c :: c in st.db.contacts && st.db.contacts[c].owner != st.session.value ==>
        c in r.state.db.contacts && r.state.db.contacts[c] == st.db.contacts[c]
    ensures Successor(st.db, r.state.db)
    ensures Valid(r.state)
  {
    if st.session.None? then Transition(st, LoginRequired)
    else
      var caller := st.session.value;
      if form.action == "new" then
        Transition(st.(db := CreateContact(st.db, caller, form.name, form.email, form.mobile)), DashboardDone)
      else if form.action == "edit" then
        if UnknownContact(st.db, form) then Transition(st, ServerError)
        else Transition(st.(db := EditContact(st.db, caller, form.id, form.name, form.email, form.mobile)), DashboardDone)
      else if form.action == "delete" then
        if UnknownContact(st.db, form) then Transition(st, ServerError)
        else Transition(st.(db := DeleteContact(st.db, caller, form.id)), DashboardDone)
      else Transition(st, DashboardDone)
  }
}
