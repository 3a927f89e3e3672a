/** The uniqueness rules the users table declares (app/models.py) and
    create_user checks (app/api/users.py). */
module Users {
  import opened Models

  predicate UsernameTaken(users: map<int, User>, username: string) {
    exists id | id in users :: users[id].username == username
  }

  predicate EmailTaken(users: map<int, User>, email: string) {
    exists id | id in users :: users[id].email == email
  }

  /** The unique constraint on `username`. */
  predicate UniqueUsernames(users: map<int, User>) {
    forall a, b | a in users && b in users && users[a].username == users[b].username :: a == b
  }

  /** The unique constraint on `email`. */
  predicate UniqueEmails(users: map<int, User>) {
    forall a, b | a in users && b in users && users[a].email == users[b].email :: a == b
  }

  /** A user whose username and email are both untaken keeps both columns unique. */
  lemma {:induction false} UserInsertKeepsUnique(users: map<int, User>, u: User)
    requires UniqueUsernames(users) && UniqueEmails(users)
    requires u.userId !in users
    requires !UsernameTaken(users, u.username) && !EmailTaken(users, u.email)
    ensures UniqueUsernames(users[u.userId := u]) && UniqueEmails(users[u.userId := u])
  {
  }
}
