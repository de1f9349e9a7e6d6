/**
  The two database tables of the contact manager (app.py `Users` and `Contacts`),
  as immutable maps keyed by primary key, together with a bound above every key
  handed out so far for each table and the way the database picks new keys.
*/
module Tables {
  import opened Wrappers
  import Passwords

  type UserId = nat
  type ContactId = nat

  /** A row of `users`; the password column holds a digest, never the plaintext. */
  datatype User = User(name: string, email: string, password: Passwords.Digest)

  /** A row of `contacts`; `owner` is the `user_id` foreign key. */
  datatype Contact = Contact(name: string, email: string, mobile: string, owner: UserId)

  /**
    How the database picks the key of a new row. The tables declare an integer
    primary key without AUTOINCREMENT. On the default SQLite database a new row
    gets one more than the largest key in use, so the key of a deleted last row
    comes back. A database with a key sequence never hands a key out twice.
  */
  datatype Allocator = Sequence | LargestPlusOne

  /**
    The tables. `nextUser` and `nextContact` lie above every key handed out so
    far; under `Sequence` they are the next keys the sequences will hand out.
  */
  datatype Db = Db(
    users: map<UserId, User>,
    contacts: map<ContactId, Contact>,
    nextUser: UserId,
    nextContact: ContactId,
    allocator: Allocator)

  /** A freshly created database: no rows, keys start at 1. */
  function Empty(allocator: Allocator): Db
  {
    Db(map[], map[], 1, 1, allocator)
  }

  /** The largest key of `m` below `bound`, scanning down from `bound - 1`. */
  function LargestKeyBelow<V>(m: map<nat, V>, bound: nat): (r: Option<nat>)
    ensures r.Some? ==> r.value < bound && r.value in m
    ensures r.Some? ==> forall k :: r.value < k < bound ==> k !in m
    ensures r.None? ==> forall k :: k < bound ==> k !in m
    decreases bound
  {
    if bound == 0 then None
    else if bound - 1 in m then Some(bound - 1)
    else LargestKeyBelow(m, bound - 1)
  }

  /**
    The key the database gives a new row of a table whose keys all lie below
    `bound`: under `Sequence` the sequence's next value, under `LargestPlusOne`
    one more than the largest key in use, or 1 for an empty table.
  */
  function NewKey<V>(m: map<nat, V>, bound: nat, allocator: Allocator): (r: nat)
    requires forall k :: k in m ==> k < bound
    ensures r !in m
    ensures forall k :: k in m ==> k < r
    ensures allocator == Sequence ==> r == bound
    ensures allocator == LargestPlusOne ==> r == 1 || r - 1 in m
    ensures r <= bound + 1
  {
    match allocator
    case Sequence => bound
    case LargestPlusOne =>
      match LargestKeyBelow(m, bound)
      case None => 1
      case Some(k) => k + 1
  }

  function Max(a: nat, b: nat): nat
  {
    if a < b then b else a
  }

  /** The unique constraint on `users.email`. */
  ghost predicate EmailsUnique(users: map<UserId, User>)
  {
    forall a, b :: a in users && b in users && a != b ==> users[a].email != users[b].email
  }

  /**
    What the database keeps true between requests: every key lies below the
    next key to be allocated, every contact's `user_id` names an existing user,
    and no two users share an email.
  */
  ghost predicate Consistent(db: Db)
  {
    && (forall id :: id in db.users ==> id < db.nextUser)
    && (forall c :: c in db.contacts ==> c < db.nextContact)
    && (forall c :: c in db.contacts ==> db.contacts[c].owner in db.users)
    && EmailsUnique(db.users)
  }

  ghost predicate Registered(db: Db, email: string)
  {
    exists id :: id in db.users && db.users[id].email == email
  }

  /**
    `filter_by(email=...).first()` over the user keys `from .. bound-1`, scanned in
    key order: the least key in range whose row has this email.
  */
  function FirstWithEmail(users: map<UserId, User>, email: string, from: nat, bound: nat): (r: Option<UserId>)
    ensures r.Some? ==> from <= r.value < bound && r.value in users && users[r.value].email == email
    ensures r.Some? ==> forall id :: from <= id < r.value && id in users ==> users[id].email != email
    ensures r.None? ==> forall id :: from <= id < bound && id in users ==> users[id].email != email
    decreases bound - from
  {
    if from >= bound then None
    else if from in users && users[from].email == email then Some(from)
    else FirstWithEmail(users, email, from + 1, bound)
  }

  /** The user registered under `email`, if any. */
  function FindByEmail(db: Db, email: string): (r: Option<UserId>)
    ensures r.Some? ==> r.value in db.users && db.users[r.value].email == email
    ensures Consistent(db) ==> (r.None? <==> !Registered(db, email))
    ensures Consistent(db) ==> forall id :: id in db.users && db.users[id].email == email ==> r == Some(id)
  {
    FirstWithEmail(db.users, email, 0, db.nextUser)
  }

  /** `db'` is `db` with one more user row `u`, under a key `db` did not use, and nothing else changed. */
  ghost predicate AddsOneUser(db: Db, db': Db, u: User)
  {
    && db'.contacts == db.contacts
    && db.users.Keys <= db'.users.Keys
    && |db'.users.Keys - db.users.Keys| == 1
    && (forall id :: id in db.users ==> db'.users[id] == db.users[id])
    && (forall id :: id in db'.users && id !in db.users ==> db'.users[id] == u)
  }

  /** `db'` is `db` with one more contact row `c`, under a key `db` did not use, and nothing else changed. */
  ghost predicate AddsOneContact(db: Db, db': Db, c: Contact)
  {
    && db'.users == db.users
    && db.contacts.Keys <= db'.contacts.Keys
    && |db'.contacts.Keys - db.contacts.Keys| == 1
    && (forall k :: k in db.contacts ==> db'.contacts[k] == db.contacts[k])
    && (forall k :: k in db'.contacts && k !in db.contacts ==> db'.contacts[k] == c)
  }

  /**
    How one request may change the database: the allocator stays, user rows are
    never altered or removed, a contact present before and after keeps its owner,
    and under `Sequence` a new contact key lies above every key handed out before.
  */
  ghost predicate Successor(db: Db, db': Db)
  {
    && db'.allocator == db.allocator
    && db.nextUser <= db'.nextUser
    && db.nextContact <= db'.nextContact
    && (forall id :: id in db.users ==> id in db'.users && db'.users[id] == db.users[id])
    && (db.allocator == Sequence ==>
          forall c :: c in db'.contacts && c !in db.contacts ==> db.nextContact <= c)
    && (forall c :: c in db'.contacts && c in db.contacts ==> db'.contacts[c].owner == db.contacts[c].owner)
  }

  /** Inserting a user (`db.session.add` + `commit`) under the key the database picks. */
  function InsertUser(db: Db, u: User): (r: Db)
    requires Consistent(db)
    ensures AddsOneUser(db, r, u)
    ensures Successor(db, r)
    ensures !Registered(db, u.email) ==> Consistent(r)
  {
    var id := NewKey(db.users, db.nextUser, db.allocator);
    var r := db.(users := db.users[id := u], nextUser := Max(db.nextUser, id + 1));
    UserInserted(db, u, id, r);
    r
  }

  lemma UserInserted(db: Db, u: User, id: UserId, r: Db)
    requires Consistent(db) && id !in db.users
    requires r == db.(users := db.users[id := u], nextUser := Max(db.nextUser, id + 1))
    ensures AddsOneUser(db, r, u)
    ensures Successor(db, r)
    ensures !Registered(db, u.email) ==> Consistent(r)
  {
  }

  /** Inserting a contact under the key the database picks. */
  function InsertContact(db: Db, c: Contact): (r: Db)
    requires Consistent(db)
    ensures AddsOneContact(db, r, c)
    ensures Successor(db, r)
    ensures c.owner in db.users ==> Consistent(r)
  {
    var k := NewKey(db.contacts, db.nextContact, db.allocator);
    var r := db.(contacts := db.contacts[k := c], nextContact := Max(db.nextContact, k + 1));
    ContactInserted(db, c, k, r);
    r
  }

  lemma ContactInserted(db: Db, c: Contact, k: ContactId, r: Db)
    requires Consistent(db) && k !in db.contacts
    requires db.allocator == Sequence ==> k == db.nextContact
    requires r == db.(contacts := db.contacts[k := c], nextContact := Max(db.nextContact, k + 1))
    ensures AddsOneContact(db, r, c)
    ensures Successor(db, r)
    ensures c.owner in db.users ==> Consistent(r)
  {
  }
}
