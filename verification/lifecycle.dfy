/**
 Properties of the donation lifecycle across calls: every endpoint keeps the
 store well formed, so any sequence of requests does; a donation is claimed at
 most once; deletion is final; delivering and patching are repeatable.
 */
module Lifecycle {
  import opened Schemas
  import opened Ids
  import opened Store
  import opened Auth
  import opened Donations

  lemma CreatePreservesWellFormed(db: Db, req: CreateRequest, newId: ObjectId, now: int)
    requires newId !in db.donations
    requires WellFormed(db)
    requires CreateDonation(db, req, newId, now).Ok?
    ensures WellFormed(CreateDonation(db, req, newId, now).value.0)
  {
  }

  lemma UpdatePreservesWellFormed(db: Db, donationId: string, patch: Patch, now: int)
    requires WellFormed(db)
    requires UpdateDonation(db, donationId, patch, now).Ok?
    ensures WellFormed(UpdateDonation(db, donationId, patch, now).value.0)
  {
  }

  lemma DeletePreservesWellFormed(db: Db, donationId: string)
    requires WellFormed(db)
    requires DeleteDonation(db, donationId).Ok?
    ensures WellFormed(DeleteDonation(db, donationId).value)
  {
  }

  lemma ClaimPreservesWellFormed(db: Db, donationId: string, req: ClaimRequest, now: int)
    requires WellFormed(db)
    requires ClaimDonation(db, donationId, req, now).Ok?
    ensures WellFormed(ClaimDonation(db, donationId, req, now).value.0)
  {
  }

  lemma DeliverPreservesWellFormed(db: Db, donationId: string, now: int)
    requires WellFormed(db)
    requires MarkDelivered(db, donationId, now).Ok?
    ensures WellFormed(MarkDelivered(db, donationId, now).value.0)
  {
  }

  /** One request to the service. Ids the store assigns travel with the request. */
  datatype Op =
    | RegisterOp(register: RegisterRequest, userId: ObjectId, now: int)
    | CreateOp(create: CreateRequest, donationId: ObjectId, now: int)
    | UpdateOp(target: string, patch: Patch, now: int)
    | DeleteOp(target: string)
    | ClaimOp(target: string, claim: ClaimRequest, now: int)
    | DeliverOp(target: string, now: int)

  /**
   The store after one request. A request that fails, or that would reuse an id
   the store already holds, leaves the store as it was.
   */
  function Step(db: Db, hash: string -> string, op: Op): (db': Db)
    ensures db'.users.Keys >= db.users.Keys
    ensures forall k :: k in db.users ==> db'.users[k] == db.users[k]
  {
    match op
    case RegisterOp(req, userId, now) =>
      if userId in db.users then db
      else
        var r := Register(db, req, hash, userId, now);
        if r.Ok? then r.value.0 else db
    case CreateOp(req, donationId, now) =>
      if donationId in db.donations then db
      else
        var r := CreateDonation(db, req, donationId, now);
        if r.Ok? then r.value.0 else db
    case UpdateOp(target, patch, now) =>
      var r := UpdateDonation(db, target, patch, now);
      if r.Ok? then r.value.0 else db
    case DeleteOp(target) =>
      var r := DeleteDonation(db, target);
      if r.Ok? then r.value else db
    case ClaimOp(target, req, now) =>
      var r := ClaimDonation(db, target, req, now);
      if r.Ok? then r.value.0 else db
    case DeliverOp(target, now) =>
      var r := MarkDelivered(db, target, now);
      if r.Ok? then r.value.0 else db
  }

  /** The store after a sequence of requests, applied in order. */
  function Run(db: Db, hash: string -> string, ops: seq<Op>): Db
    decreases |ops|
  {
    if |ops| == 0 then db else Run(Step(db, hash, ops[0]), hash, ops[1..])
  }

  lemma StepPreservesWellFormed(db: Db, hash: string -> string, op: Op)
    requires WellFormed(db)
    ensures WellFormed(Step(db, hash, op))
  {
    match op
    case RegisterOp(req, userId, now) =>
      if userId !in db.users && Register(db, req, hash, userId, now).Ok? {
        RegisterPreservesWellFormed(db, req, hash, userId, now);
      }
    case CreateOp(req, donationId, now) =>
      if donationId !in db.donations && CreateDonation(db, req, donationId, now).Ok? {
        CreatePreservesWellFormed(db, req, donationId, now);
      }
    case UpdateOp(target, patch, now) =>
      if UpdateDonation(db, target, patch, now).Ok? {
        UpdatePreservesWellFormed(db, target, patch, now);
      }
    case DeleteOp(target) =>
      if DeleteDonation(db, target).Ok? {
        DeletePreservesWellFormed(db, target);
      }
    case ClaimOp(target, req, now) =>
      if ClaimDonation(db, target, req, now).Ok? {
        ClaimPreservesWellFormed(db, target, req, now);
      }
    case DeliverOp(target, now) =>
      if MarkDelivered(db, target, now).Ok? {
        DeliverPreservesWellFormed(db, target, now);
      }
  }

  /**
   Whatever requests arrive, emails stay unique, every donation's claim fields
   agree with its status, its owner is a restaurant and its claimer an NGO or
   society.
   */
  lemma {:induction false} RunPreservesWellFormed(db: Db, hash: string -> string, ops: seq<Op>)
    requires WellFormed(db)
    ensures WellFormed(Run(db, hash, ops))
    decreases |ops|
  {
    if |ops| > 0 {
      StepPreservesWellFormed(db, hash, ops[0]);
      RunPreservesWellFormed(Step(db, hash, ops[0]), hash, ops[1..]);
    }
  }

  /**
   Once a claim succeeds, every later claim on the same donation fails; a
   claimer that is itself valid is told the donation is not available.
   */
  lemma SecondClaimFails(db: Db, donationId: string, first: ClaimRequest, second: ClaimRequest, t1: int, t2: int)
    requires ClaimDonation(db, donationId, first, t1).Ok?
    ensures var db' := ClaimDonation(db, donationId, first, t1).value.0;
      && ClaimDonation(db', donationId, second, t2).Err?
      && (RefersToClaimer(db.users, second.userId) ==>
            ClaimDonation(db', donationId, second, t2) == Err(InvalidState))
  {
  }

  /**
   The claim label spells the role the request names, even when the stored
   account has the other claiming role.
   */
  lemma LabelFollowsRequestRole(db: Db, donationId: string, req: ClaimRequest, now: int)
    requires ClaimDonation(db, donationId, req, now).Ok?
    ensures ClaimDonation(db, donationId, req, now).value.1.donation.claimedBy ==
              Some(LabelTitle(req.role) + ": " + req.userName)
  {
    ClaimLabelSpelling(req.role, req.userName);
  }

  /** After a delete, the id answers NotFound everywhere, and an empty PATCH answers nothing. */
  lemma DeletedStaysGone(db: Db, donationId: string, patch: Patch, claim: ClaimRequest, now: int)
    requires DeleteDonation(db, donationId).Ok?
    ensures var db' := DeleteDonation(db, donationId).value;
      && DeleteDonation(db', donationId) == Err(NotFound)
      && MarkDelivered(db', donationId, now) == Err(NotFound)
      && (!IsEmptyPatch(patch) ==> UpdateDonation(db', donationId, patch, now) == Err(NotFound))
      && (IsEmptyPatch(patch) ==> UpdateDonation(db', donationId, patch, now) == Ok((db', None)))
      && (RefersToClaimer(db'.users, claim.userId) ==> ClaimDonation(db', donationId, claim, now) == Err(NotFound))
  {
  }

  /** Delivering again only moves the update time: the same as delivering once, later. */
  lemma DeliverIdempotent(db: Db, donationId: string, t1: int, t2: int)
    requires MarkDelivered(db, donationId, t1).Ok?
    ensures var db' := MarkDelivered(db, donationId, t1).value.0;
      MarkDelivered(db', donationId, t2) == MarkDelivered(db, donationId, t2)
  {
    var id := ParseId(donationId).value;
    var db' := MarkDelivered(db, donationId, t1).value.0;
    var twice := MarkDelivered(db', donationId, t2).value.0;
    var once := MarkDelivered(db, donationId, t2).value.0;
    assert twice.donations[id] == once.donations[id];
    assert twice.donations == once.donations;
  }

  /** Applying the same PATCH again only moves the update time. */
  lemma PatchIdempotent(db: Db, donationId: string, patch: Patch, t1: int, t2: int)
    requires UpdateDonation(db, donationId, patch, t1).Ok?
    ensures var db' := UpdateDonation(db, donationId, patch, t1).value.0;
      UpdateDonation(db', donationId, patch, t2) == UpdateDonation(db, donationId, patch, t2)
  {
    if !IsEmptyPatch(patch) {
      var id := ParseId(donationId).value;
      var db' := UpdateDonation(db, donationId, patch, t1).value.0;
      var twice := UpdateDonation(db', donationId, patch, t2).value.0;
      var once := UpdateDonation(db, donationId, patch, t2).value.0;
      assert twice.donations[id] == once.donations[id];
      assert twice.donations == once.donations;
    }
  }

  /**
   A claimed donation that is then delivered keeps its claimer; an available
   one that is delivered stays unclaimed.
   */
  lemma DeliverKeepsClaimState(db: Db, donationId: string, now: int)
    requires WellFormed(db)
    requires MarkDelivered(db, donationId, now).Ok?
    ensures var id := ParseId(donationId).value;
      var d := db.donations[id];
      var d' := MarkDelivered(db, donationId, now).value.1.donation;
      && (d.status == Claimed ==> d'.claimedBy.Some? && d'.claimedById == d.claimedById)
      && (d.status == Available ==> d'.claimedBy.None? && d'.claimedById.None?)
  {
  }
}
