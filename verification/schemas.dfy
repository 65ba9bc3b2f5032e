/**
 The record shapes of the `user` and `donation` collections, and the closed
 enumerations their `role` and `status` fields range over.
 */
module Schemas {
  import opened Text

  datatype Option<+T> = None | Some(value: T)

  /** The four account roles; only restaurants own donations. */
  datatype Role = Restaurant | Ngo | Society | Admin

  /** A donation's lifecycle state. */
  datatype Status = Available | Claimed | Delivered

  /** The roles a claim request may name: only NGOs and societies claim. */
  type ClaimRole = r: Role | r == Ngo || r == Society witness Ngo

  /**
   A registered account. `address` is optional and `isActive` is set on
   registration; timestamps are integers.
   */
  datatype User = User(
    name: string,
    email: string,
    passwordHash: string,
    role: Role,
    address: Option<string>,
    isActive: bool,
    createdAt: int,
    updatedAt: int)

  /**
   A posted donation. `quantity` is free text ("10 meals", "5kg"), never a number.
   `restaurantId` and `claimedById` keep the id strings exactly as the request
   spelled them; `restaurantName` is a copy taken when the donation is posted.
   */
  datatype Donation = Donation(
    foodItem: string,
    quantity: string,
    pickupAddress: string,
    expiryTime: int,
    restaurantId: string,
    restaurantName: string,
    status: Status,
    claimedBy: Option<string>,
    claimedById: Option<string>,
    createdAt: int,
    updatedAt: int)

  const DefaultStatus: Status := Available

  /** The role's wire spelling. */
  function RoleName(r: Role): string {
    match r
    case Restaurant => "restaurant"
    case Ngo => "ngo"
    case Society => "society"
    case Admin => "admin"
  }

  /** Reads a role literal; anything outside the enumeration is refused. */
  function ParseRole(s: string): (r: Option<Role>)
    ensures r.Some? ==> RoleName(r.value) == s
    ensures forall role: Role :: s == RoleName(role) ==> r == Some(role)
  {
    if s == "restaurant" then Some(Restaurant)
    else if s == "ngo" then Some(Ngo)
    else if s == "society" then Some(Society)
    else if s == "admin" then Some(Admin)
    else None
  }

  /** The status's wire spelling. */
  function StatusName(s: Status): string {
    match s
    case Available => "available"
    case Claimed => "claimed"
    case Delivered => "delivered"
  }

  /** Reads a status literal; anything outside the enumeration is refused. */
  function ParseStatus(s: string): (r: Option<Status>)
    ensures r.Some? ==> StatusName(r.value) == s
    ensures forall st: Status :: s == StatusName(st) ==> r == Some(st)
  {
    if s == "available" then Some(Available)
    else if s == "claimed" then Some(Claimed)
    else if s == "delivered" then Some(Delivered)
    else None
  }

  /**
   The claim fields agree with the status: an available donation has neither,
   a claimed one has both, and the two are always set or unset together. A
   delivered donation may be in either claim state.
   */
  predicate ClaimFieldsConsistent(d: Donation) {
    && (d.status == Available ==> d.claimedBy.None? && d.claimedById.None?)
    && (d.status == Claimed ==> d.claimedBy.Some? && d.claimedById.Some?)
    && (d.claimedBy.None? <==> d.claimedById.None?)
  }

  /**
   A new donation record with the schema's defaults: `available`, no claimer,
   both timestamps at `now`.
   */
  function NewDonation(
    foodItem: string, quantity: string, pickupAddress: string, expiryTime: int,
    restaurantId: string, restaurantName: string, now: int): (d: Donation)
    ensures d.status == DefaultStatus
    ensures d.claimedBy == None && d.claimedById == None
    ensures ClaimFieldsConsistent(d)
  {
    Donation(foodItem, quantity, pickupAddress, expiryTime, restaurantId, restaurantName,
             DefaultStatus, None, None, now, now)
  }

  /** The label a claim writes into `claimed_by`: the capitalised role, a colon, the name. */
  function ClaimLabel(role: ClaimRole, userName: string): string {
    Capitalize(RoleName(role)) + ": " + userName
  }

  /** The title a claim label starts with, spelled out. */
  function LabelTitle(role: ClaimRole): string {
    if role == Ngo then "Ngo" else "Society"
  }

  /** The claim label reads "Ngo: <name>" or "Society: <name>". */
  lemma ClaimLabelSpelling(role: ClaimRole, userName: string)
    ensures ClaimLabel(role, userName) == LabelTitle(role) + ": " + userName
  {
    if role == Ngo {
      assert LowerStr("go") == "go";
      assert Capitalize("ngo") == "Ngo";
    } else {
      assert LowerStr("ociety") == "ociety";
      assert Capitalize("society") == "Society";
    }
  }

  /** A claim label determines both the role and the name it was built from. */
  lemma ClaimLabelInjective(r1: ClaimRole, n1: string, r2: ClaimRole, n2: string)
    requires ClaimLabel(r1, n1) == ClaimLabel(r2, n2)
    ensures r1 == r2 && n1 == n2
  {
    ClaimLabelSpelling(r1, n1);
    ClaimLabelSpelling(r2, n2);
    var l := ClaimLabel(r1, n1);
    assert r1 == r2 by {
      assert (l[3] == ':') == (r1 == Ngo);
      assert (l[3] == ':') == (r2 == Ngo);
    }
    var k := |LabelTitle(r1)| + 2;
    assert l[k..] == n1;
    assert l[k..] == n2;
  }
}
