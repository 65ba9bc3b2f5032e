/**
 Account registration, kept only as far as the donation endpoints need a user
 collection to look claimers and owners up in: an email address may be
 registered once.
 */
module Auth {
  import opened Schemas
  import opened Ids
  import opened Store

  datatype RegisterRequest = RegisterRequest(
    name: string,
    email: string,
    password: string,
    role: Role,
    address: Option<string>)

  /** Some stored account already uses this email address. */
  predicate EmailTaken(users: map<ObjectId, User>, email: string) {
    exists k :: k in users && users[k].email == email
  }

  /**
   Registers an account under the store-assigned `newId`. `hash` is the password
   digest function. On success the new account is active, carries the digest
   of the password, and nothing else in the store changes.
   */
  function Register(db: Db, req: RegisterRequest, hash: string -> string, newId: ObjectId, now: int)
    : (r: Result<(Db, ObjectId)>)
    requires newId !in db.users
    ensures r.Err? <==> EmailTaken(db.users, req.email)
    ensures r.Err? ==> r.error == DuplicateEmail
    ensures r.Ok? ==>
      var (db', id) := r.value;
      && id == newId
      && db'.donations == db.donations
      && db'.users.Keys == db.users.Keys + {newId}
      && (forall k :: k in db.users ==> db'.users[k] == db.users[k])
      && db'.users[newId].name == req.name
      && db'.users[newId].email == req.email
      && db'.users[newId].passwordHash == hash(req.password)
      && db'.users[newId].role == req.role
      && db'.users[newId].address == req.address
      && db'.users[newId].isActive
      && db'.users[newId].createdAt == now
      && db'.users[newId].updatedAt == now
  {
    if EmailTaken(db.users, req.email) then
      Err(DuplicateEmail)
    else
      var u := User(req.name, req.email, hash(req.password), req.role, req.address, true, now, now);
      Ok((db.(users := db.users[newId := u]), newId))
  }

  /** Registration keeps email addresses unique and every donation's references valid. */
  lemma RegisterPreservesWellFormed(db: Db, req: RegisterRequest, hash: string -> string, newId: ObjectId, now: int)
    requires newId !in db.users
    requires WellFormed(db)
    requires Register(db, req, hash, newId, now).Ok?
    ensures WellFormed(Register(db, req, hash, newId, now).value.0)
  {
  }
}
