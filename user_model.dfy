/**
 * The user document of models/user.js and the collection of users, keyed by
 * the e-mail address the schema stores in lower case and indexes as unique.
 */
module UserModel {
  import opened Wrappers
  import opened Text

  datatype User = User(id: string, name: string, email: string, passwordHash: string)

  /** One user as the schema admits it: a name of at least 2 characters, a lower-case e-mail, a hash. */
  predicate UserValid(u: User) {
    |u.name| >= 2 && IsLower(u.email) && u.passwordHash != []
  }

  /**
   * The collection: each user filed under its own e-mail (so no two users
   * share one), every user valid, and no two users sharing an id.
   */
  predicate RegistryValid(users: map<string, User>) {
    && (forall e :: e in users ==> users[e].email == e && UserValid(users[e]))
    && (forall e1, e2 :: e1 in users && e2 in users && e1 != e2 ==> users[e1].id != users[e2].id)
  }

  /** `User.findOne({ email: e.toLowerCase() })`. */
  function FindByEmail(users: map<string, User>, email: string): (r: Option<User>)
    requires RegistryValid(users)
    ensures r.Some? <==> Lower(email) in users
    ensures r.Some? ==> r.value.email == Lower(email) && r.value == users[Lower(email)]
  {
    var key := Lower(email);
    if key in users then Some(users[key]) else None
  }

  /** Two addresses that differ only in letter case find the same user. */
  lemma FindByEmailIgnoresCase(users: map<string, User>, a: string, b: string)
    requires RegistryValid(users) && Lower(a) == Lower(b)
    ensures FindByEmail(users, a) == FindByEmail(users, b)
  {
  }

  /** An id nobody has: the precondition the driver's fresh ObjectId meets. */
  predicate FreshId(users: map<string, User>, id: string) {
    forall e :: e in users ==> users[e].id != id
  }
}
