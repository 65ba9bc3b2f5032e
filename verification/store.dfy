/**
 The document store as a value: one map per collection, keyed by ObjectId, and the
 error kinds the endpoints report. Also the store-wide invariant every endpoint
 keeps.
 */
module Store {
  import opened Schemas
  import opened Ids

  datatype Db = Db(users: map<ObjectId, User>, donations: map<ObjectId, Donation>)

  /** A donation as an endpoint returns it: the record together with its id. */
  datatype Doc = Doc(id: ObjectId, donation: Donation)

  /** The failures an endpoint reports to its caller. */
  datatype Error =
    | MalformedIdentifier   // an id string that is not an ObjectId spelling
    | DuplicateEmail        // registration with an email already on file
    | InvalidReference      // a donation posted for a user that is not a restaurant
    | NotFound              // no donation under the id
    | InvalidState          // a claim on a donation that is not available
    | InvalidClaimer        // a claim by a user that is not an NGO or a society

  datatype Result<+T> = Ok(value: T) | Err(error: Error)

  /** The HTTP status each failure is answered with. */
  function HttpStatus(e: Error): int {
    if e == NotFound then 404 else 400
  }

  /** The `detail` message each failure is answered with. */
  function Detail(e: Error): string {
    match e
    case MalformedIdentifier => "Invalid ID"
    case DuplicateEmail => "Email already registered"
    case InvalidReference => "Invalid restaurant user"
    case NotFound => "Donation not found"
    case InvalidState => "Donation not available"
    case InvalidClaimer => "Invalid claimer"
  }

  /** The id string names a stored user whose role is `restaurant`. */
  predicate RefersToRestaurant(users: map<ObjectId, User>, s: string) {
    var k := ParseId(s);
    k.Some? && k.value in users && users[k.value].role == Restaurant
  }

  /** The id string names a stored user whose role is `ngo` or `society`. */
  predicate RefersToClaimer(users: map<ObjectId, User>, s: string) {
    var k := ParseId(s);
    k.Some? && k.value in users && (users[k.value].role == Ngo || users[k.value].role == Society)
  }

  /** No two accounts share an email address. */
  ghost predicate UniqueEmails(users: map<ObjectId, User>) {
    forall a, b :: a in users && b in users && users[a].email == users[b].email ==> a == b
  }

  /**
   What a stored donation may be: claim fields consistent with the status, the
   owner a restaurant, and the claimer (when there is one) an NGO or a society.
   */
  ghost predicate ValidDonation(users: map<ObjectId, User>, d: Donation) {
    && ClaimFieldsConsistent(d)
    && RefersToRestaurant(users, d.restaurantId)
    && (d.claimedById.Some? ==> RefersToClaimer(users, d.claimedById.value))
  }

  ghost predicate WellFormed(db: Db) {
    && UniqueEmails(db.users)
    && forall k :: k in db.donations ==> ValidDonation(db.users, db.donations[k])
  }

  /** `after` has the same keys as `before` and differs from it at most under `id`. */
  ghost predicate OthersUnchanged(before: map<ObjectId, Donation>, after: map<ObjectId, Donation>, id: ObjectId) {
    && after.Keys == before.Keys
    && forall k :: k in before && k != id ==> after[k] == before[k]
  }

  /**
   The fields the lifecycle owns are the same in both records: status, the claim
   fields, the owner and the creation time.
   */
  ghost predicate SameLifecycle(d: Donation, d': Donation) {
    && d'.status == d.status
    && d'.claimedBy == d.claimedBy
    && d'.claimedById == d.claimedById
    && d'.restaurantId == d.restaurantId
    && d'.restaurantName == d.restaurantName
    && d'.createdAt == d.createdAt
  }

  /** The four fields a PATCH may edit are the same in both records. */
  ghost predicate SameContent(d: Donation, d': Donation) {
    && d'.foodItem == d.foodItem
    && d'.quantity == d.quantity
    && d'.pickupAddress == d.pickupAddress
    && d'.expiryTime == d.expiryTime
  }
}
