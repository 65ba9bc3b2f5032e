/**
 The donation endpoints that change the store: post, partial update, delete,
 claim and deliver. Each is a function from the store (and the request) to a
 new store and the record it answers with, or to the error it reports. An
 endpoint that fails leaves the store as it was.
 */
module Donations {
  import opened Schemas
  import opened Ids
  import opened Store

  datatype CreateRequest = CreateRequest(
    foodItem: string,
    quantity: string,
    pickupAddress: string,
    expiryTime: int,
    restaurantId: string,
    restaurantName: string)

  /** A PATCH body: each of the four editable fields may be left out. */
  datatype Patch = Patch(
    foodItem: Option<string>,
    quantity: Option<string>,
    pickupAddress: Option<string>,
    expiryTime: Option<int>)

  datatype ClaimRequest = ClaimRequest(userId: string, userName: string, role: ClaimRole)

  /** No field is supplied. */
  predicate IsEmptyPatch(p: Patch) {
    p.foodItem.None? && p.quantity.None? && p.pickupAddress.None? && p.expiryTime.None?
  }

  /** `d'` carries each supplied field of `p` and keeps each field `p` leaves out. */
  ghost predicate Patched(d: Donation, p: Patch, d': Donation) {
    && (p.foodItem.Some? ==> d'.foodItem == p.foodItem.value)
    && (p.foodItem.None? ==> d'.foodItem == d.foodItem)
    && (p.quantity.Some? ==> d'.quantity == p.quantity.value)
    && (p.quantity.None? ==> d'.quantity == d.quantity)
    && (p.pickupAddress.Some? ==> d'.pickupAddress == p.pickupAddress.value)
    && (p.pickupAddress.None? ==> d'.pickupAddress == d.pickupAddress)
    && (p.expiryTime.Some? ==> d'.expiryTime == p.expiryTime.value)
    && (p.expiryTime.None? ==> d'.expiryTime == d.expiryTime)
  }

  /** The record a successful post stores: the request's fields, `available`, unclaimed. */
  ghost predicate Posted(req: CreateRequest, d: Donation, now: int) {
    && d.foodItem == req.foodItem
    && d.quantity == req.quantity
    && d.pickupAddress == req.pickupAddress
    && d.expiryTime == req.expiryTime
    && d.restaurantId == req.restaurantId
    && d.restaurantName == req.restaurantName
    && d.status == Available
    && d.claimedBy.None?
    && d.claimedById.None?
    && d.createdAt == now
    && d.updatedAt == now
  }

  /** The stored donation under `id`, if any, as a reply. */
  function Lookup(db: Db, id: ObjectId): (r: Option<Doc>)
    ensures r.Some? <==> id in db.donations
    ensures r.Some? ==> r.value.id == id && r.value.donation == db.donations[id]
  {
    if id in db.donations then Some(Doc(id, db.donations[id])) else None
  }

  /**
   Posts a donation under the store-assigned `newId`. The owner id must name a
   stored restaurant; the posted record is available and unclaimed, and no other
   record changes.
   */
  function CreateDonation(db: Db, req: CreateRequest, newId: ObjectId, now: int): (r: Result<(Db, Doc)>)
    requires newId !in db.donations
    ensures ParseId(req.restaurantId).None? ==> r == Err(MalformedIdentifier)
    ensures ParseId(req.restaurantId).Some? && !RefersToRestaurant(db.users, req.restaurantId) ==>
              r == Err(InvalidReference)
    ensures r.Ok? <==> RefersToRestaurant(db.users, req.restaurantId)
    ensures r.Ok? ==>
      var (db', doc) := r.value;
      && doc.id == newId
      && Posted(req, doc.donation, now)
      && db'.users == db.users
      && db'.donations == db.donations[newId := doc.donation]
  {
    match ParseId(req.restaurantId)
    case None => Err(MalformedIdentifier)
    case Some(owner) =>
      if owner !in db.users || db.users[owner].role != Restaurant then
        Err(InvalidReference)
      else
        var d := NewDonation(req.foodItem, req.quantity, req.pickupAddress, req.expiryTime,
                             req.restaurantId, req.restaurantName, now);
        Ok((db.(donations := db.donations[newId := d]), Doc(newId, d)))
  }

  /**
   Applies a PATCH. An empty patch answers the stored record as it is, or
   nothing when the id is unknown, and does not touch the store or the update
   time. A non-empty patch on an unknown id is NotFound; otherwise the supplied
   fields are written, the update time is refreshed, and the lifecycle fields
   and every other record stay as they were.
   */
  function UpdateDonation(db: Db, donationId: string, patch: Patch, now: int): (r: Result<(Db, Option<Doc>)>)
    ensures ParseId(donationId).None? ==> r == Err(MalformedIdentifier)
    ensures r == Err(NotFound) <==>
              ParseId(donationId).Some? && !IsEmptyPatch(patch) && ParseId(donationId).value !in db.donations
    ensures r.Ok? <==> ParseId(donationId).Some? && (IsEmptyPatch(patch) || ParseId(donationId).value in db.donations)
    ensures ParseId(donationId).Some? && IsEmptyPatch(patch) ==>
              r.Ok? && r.value.0 == db && r.value.1 == Lookup(db, ParseId(donationId).value)
    ensures ParseId(donationId).Some? && !IsEmptyPatch(patch) && r.Ok? ==>
      var id := ParseId(donationId).value;
      var db' := r.value.0;
      && db'.users == db.users
      && OthersUnchanged(db.donations, db'.donations, id)
      && r.value.1 == Some(Doc(id, db'.donations[id]))
      && Patched(db.donations[id], patch, db'.donations[id])
      && SameLifecycle(db.donations[id], db'.donations[id])
      && db'.donations[id].updatedAt == now
  {
    match ParseId(donationId)
    case None => Err(MalformedIdentifier)
    case Some(id) =>
      if IsEmptyPatch(patch) then
        Ok((db, Lookup(db, id)))
      else if id !in db.donations then
        Err(NotFound)
      else
        var d := db.donations[id];
        var d' := d.(
          foodItem := if patch.foodItem.Some? then patch.foodItem.value else d.foodItem,
          quantity := if patch.quantity.Some? then patch.quantity.value else d.quantity,
          pickupAddress := if patch.pickupAddress.Some? then patch.pickupAddress.value else d.pickupAddress,
          expiryTime := if patch.expiryTime.Some? then patch.expiryTime.value else d.expiryTime,
          updatedAt := now);
        Ok((db.(donations := db.donations[id := d']), Some(Doc(id, d'))))
  }

  /** Deletes a donation for good; every other record stays as it was. */
  function DeleteDonation(db: Db, donationId: string): (r: Result<Db>)
    ensures ParseId(donationId).None? ==> r == Err(MalformedIdentifier)
    ensures r == Err(NotFound) <==> ParseId(donationId).Some? && ParseId(donationId).value !in db.donations
    ensures r.Ok? <==> ParseId(donationId).Some? && ParseId(donationId).value in db.donations
    ensures r.Ok? ==>
      && ParseId(donationId).Some?
      && var id := ParseId(donationId).value;
      && id in db.donations
      && r.value.users == db.users
      && r.value.donations.Keys == db.donations.Keys - {id}
      && (forall k :: k in r.value.donations ==> r.value.donations[k] == db.donations[k])
  {
    match ParseId(donationId)
    case None => Err(MalformedIdentifier)
    case Some(id) =>
      if id !in db.donations then Err(NotFound)
      else Ok(db.(donations := db.donations - {id}))
  }

  /**
   The record after a claim: claimed, labelled with the REQUEST's role and name,
   pointing at the requesting id string, and with the update time refreshed;
   every other field is as before.
   */
  ghost predicate ClaimedBy(d: Donation, req: ClaimRequest, now: int, d': Donation) {
    && d'.status == Claimed
    && d'.claimedBy == Some(ClaimLabel(req.role, req.userName))
    && d'.claimedById == Some(req.userId)
    && d'.updatedAt == now
    && SameContent(d, d')
    && d'.restaurantId == d.restaurantId
    && d'.restaurantName == d.restaurantName
    && d'.createdAt == d.createdAt
  }

  /**
   Claims a donation for an NGO or a society. The checks run in this order:
   the claimer id is read and must name a stored NGO or society user, then the
   donation id is read and must name a stored donation, which must be available.
   */
  function ClaimDonation(db: Db, donationId: string, req: ClaimRequest, now: int): (r: Result<(Db, Doc)>)
    ensures ParseId(req.userId).None? ==> r == Err(MalformedIdentifier)
    ensures ParseId(req.userId).Some? && !RefersToClaimer(db.users, req.userId) ==> r == Err(InvalidClaimer)
    ensures RefersToClaimer(db.users, req.userId) && ParseId(donationId).None? ==> r == Err(MalformedIdentifier)
    ensures RefersToClaimer(db.users, req.userId) && ParseId(donationId).Some? ==>
      var id := ParseId(donationId).value;
      && (id !in db.donations ==> r == Err(NotFound))
      && (id in db.donations && db.donations[id].status != Available ==> r == Err(InvalidState))
    ensures r.Ok? <==>
      && RefersToClaimer(db.users, req.userId)
      && ParseId(donationId).Some?
      && ParseId(donationId).value in db.donations
      && db.donations[ParseId(donationId).value].status == Available
    ensures r.Ok? && ParseId(donationId).Some? ==>
      var id := ParseId(donationId).value;
      var (db', doc) := r.value;
      && db'.users == db.users
      && OthersUnchanged(db.donations, db'.donations, id)
      && doc == Doc(id, db'.donations[id])
      && ClaimedBy(db.donations[id], req, now, db'.donations[id])
  {
    match ParseId(req.userId)
    case None => Err(MalformedIdentifier)
    case Some(uid) =>
      if uid !in db.users || !(db.users[uid].role == Ngo || db.users[uid].role == Society) then
        Err(InvalidClaimer)
      else
        match ParseId(donationId)
        case None => Err(MalformedIdentifier)
        case Some(id) =>
          if id !in db.donations then Err(NotFound)
          else if db.donations[id].status != Available then Err(InvalidState)
          else
            var d' := db.donations[id].(
              status := Claimed,
              claimedBy := Some(ClaimLabel(req.role, req.userName)),
              claimedById := Some(req.userId),
              updatedAt := now);
            Ok((db.(donations := db.donations[id := d']), Doc(id, d')))
  }

  /**
   Marks a donation delivered, whatever its status was. Only the status and the
   update time change; in particular the claim fields are kept.
   */
  function MarkDelivered(db: Db, donationId: string, now: int): (r: Result<(Db, Doc)>)
    ensures ParseId(donationId).None? ==> r == Err(MalformedIdentifier)
    ensures r == Err(NotFound) <==> ParseId(donationId).Some? && ParseId(donationId).value !in db.donations
    ensures r.Ok? <==> ParseId(donationId).Some? && ParseId(donationId).value in db.donations
    ensures r.Ok? && ParseId(donationId).Some? ==>
      var id := ParseId(donationId).value;
      var (db', doc) := r.value;
      && db'.users == db.users
      && OthersUnchanged(db.donations, db'.donations, id)
      && var d, d' := db.donations[id], db'.donations[id];
      && doc == Doc(id, d')
      && d'.status == Delivered
      && d'.claimedBy == d.claimedBy
      && d'.claimedById == d.claimedById
      && SameContent(d, d')
      && d'.restaurantId == d.restaurantId
      && d'.restaurantName == d.restaurantName
      && d'.createdAt == d.createdAt
      && d'.updatedAt == now
  {
    match ParseId(donationId)
    case None => Err(MalformedIdentifier)
    case Some(id) =>
      if id !in db.donations then Err(NotFound)
      else
        var d' := db.donations[id].(status := Delivered, updatedAt := now);
        Ok((db.(donations := db.donations[id := d']), Doc(id, d')))
  }
}
