# ResqFood donation lifecycle, in Dafny

ResqFood is a food-donation backend. Restaurants post surplus food as donations.
NGOs and societies claim donations and mark them delivered. This project models
the donation endpoints of `main.py` over an in-memory store, and proves what they
promise:

- `POST /donations`: post a donation.
- `GET /donations`: list with filter and search.
- `PATCH /donations/{id}`: partial update.
- `DELETE /donations/{id}`: hard delete.
- `POST /donations/{id}/claim`: claim a donation.
- `POST /donations/{id}/deliver`: mark a donation delivered.

Registration is also modelled, because the endpoints look users up. Its only rule
here is that an email address is registered once.

The store is a value, `Db(users, donations)`: two maps from ObjectId to record.
Each endpoint is a pure function from the store and the request to either a new
store plus the reply, or an `Error`. A failed request leaves the store unchanged.
Timestamps are integers, and the current time `now` is a parameter.

Modules, one per concern:

- `Text` (text.dfy): ASCII case mapping, Python's `str.capitalize`, and the
  case-insensitive substring test used for `search`.
- `Schemas` (schemas.dfy): the `User` and `Donation` records, the `role` and
  `status` enumerations, the record defaults, and the claim label.
- `Ids` (ids.dfy): `oid()`. An id string is accepted when it is 24 hex digits in
  either case. Its key is the lower-case spelling, which is how the store prints it.
- `Store` (store.dfy): the store, the error kinds, and the store-wide invariant
  `WellFormed`.
- `Auth` (auth.dfy): `register`.
- `Donations` (donations.dfy): create, update, delete, claim and deliver.
- `Query` (query.dfy): the filter builder and the listing, sorted newest first.
- `Lifecycle` (lifecycle.dfy): properties across calls. Every request keeps the
  store well formed. A donation is claimed at most once. Delete is final.
  Deliver and PATCH can be repeated with the same result.

Behaviour of the code that the model keeps as written:

- A PATCH with no fields never touches the store or `updated_at`. When the id is
  unknown it answers null, not 404.
- `claimed_by` is built from the role named in the request ("Ngo: …" or
  "Society: …"). The eligibility check uses the stored role. A stored `society`
  account that claims as `ngo` is therefore labelled "Ngo: …".
- `claimed_by_id` and `restaurant_id` keep the request's id string exactly as
  sent. It is not converted to canonical form.
- Deliver has no status guard. It works from `available`, `claimed` and
  `delivered`, and it keeps the claim fields.
- `exclude_claimed` replaces any given `status` with `available`.
  `restaurant_id=""` and `search=""` add no condition, as Python truthiness gives.
- The claim checks run in this order:
  1. The claimer id is parsed (MalformedIdentifier).
  2. The claimer must be a stored NGO or society user (InvalidClaimer).
  3. The donation id is parsed (MalformedIdentifier).
  4. The donation must be stored (NotFound).
  5. Its status must be `available` (InvalidState).

  A malformed donation id with an invalid claimer therefore reports InvalidClaimer.

## Model

| member | source | states |
|---|---|---|
| Schemas.ParseRole | schemas.py:16 | a role literal is read back to the one role spelled that way, and nothing outside restaurant/ngo/society/admin is accepted |
| Schemas.ParseStatus | schemas.py:31 | a status literal is read back to the one status spelled that way, and nothing outside available/claimed/delivered is accepted |
| Schemas.NewDonation | schemas.py:31-33 | a new donation defaults to status `available` with both claim fields null, which satisfies the claim-field invariant |
| Schemas.ClaimLabelSpelling | main.py:255 | the claim label is "Ngo: <name>" or "Society: <name>": the request role, capitalised, then the user name |
| Schemas.ClaimLabelInjective | main.py:255 | a claim label determines the role and the name it was built from |
| Ids.ParseId | main.py:25-29 | an id string is accepted exactly when it is 24 hex digits; the key it names is its lower-case spelling; anything else is a malformed identifier |
| Ids.ParsePrinted | main.py:36-38 | an id printed by the store reads back to the same key |
| Ids.SameKeyIffSameUpToCase | main.py:25-29 | two id spellings name the same record exactly when they agree up to letter case |
| Text.Search | main.py:207-212 | the executable scan answers true exactly when the pattern occurs in the text, ignoring ASCII case |
| Text.ContainsIgnoresPatternCase | main.py:209-211 | the `i` option: the case of the search text does not affect the match |
| Text.ContainsIgnoresTextCase | main.py:209-211 | the `i` option: the case of the donation's field does not affect the match |
| Text.EmptyPatternOccurs | main.py:207 | an empty search text would match every field, so skipping it when empty changes no answer |
| Auth.Register | main.py:129-149 | registration fails with DuplicateEmail exactly when the email is already on file; otherwise it adds exactly one active account with the request's fields and the password's digest, and changes nothing else |
| Auth.RegisterPreservesWellFormed | main.py:132-134 | registration keeps email addresses unique and keeps every donation's owner and claimer references valid |
| Donations.CreateDonation | main.py:167-190 | a malformed owner id is refused first; the post then succeeds exactly when the owner is a stored restaurant; on success exactly one record is added, carrying the request's fields, `available`, both claim fields null, and no other record changes |
| Donations.UpdateDonation | main.py:218-227 | an empty patch answers the stored record, or null for an unknown id, and leaves the store alone; a non-empty patch on an unknown id is NotFound; otherwise only the supplied fields are written and `updated_at` is refreshed, while status, claim fields, owner and `created_at` stay, as do all other records |
| Donations.DeleteDonation | main.py:230-235 | delete fails with NotFound exactly when the id names no donation; otherwise it removes exactly that record and leaves every other record and the users untouched |
| Donations.ClaimDonation | main.py:238-260 | the failures come in order: malformed claimer id, invalid claimer, malformed donation id, NotFound, InvalidState; the claim succeeds exactly when the claimer is a stored NGO or society and the donation exists and is available; it then sets `claimed`, the request-role label and the request's user id, refreshes `updated_at` and changes nothing else |
| Donations.MarkDelivered | main.py:263-273 | deliver fails with NotFound exactly when the id names no donation; otherwise it sets `delivered` from any status, keeps the claim fields and every other field except `updated_at`, and leaves other records alone |
| Query.BuildFilter | main.py:200-212 | the status condition is the given status, or `available` whenever claimed donations are excluded; owner and search conditions are present exactly when given non-empty |
| Query.FilterMeaning | main.py:200-212 | a donation passes the composed filter exactly when it meets every given condition, with the search an OR over food item, restaurant name and pickup address |
| Query.NoParametersMatchAll | main.py:200 | a listing without parameters admits every donation |
| Query.ExcludeClaimedOverridesStatus | main.py:201-206 | with `exclude_claimed`, the given status is irrelevant and only available donations pass |
| Query.InsertNewestFirst | main.py:214 | inserting a reply into a newest-first sequence keeps it newest first and adds exactly that reply |
| Query.ListDonations | main.py:193-215 | the listing holds exactly the stored donations the filter admits, each once, ordered by `created_at` from newest to oldest |
| Query.ListedExactly | main.py:214-215 | a reply is listed exactly when it is a stored donation, under its own id, that passes the filter |
| Query.ListedOnce | main.py:214-215 | no donation id appears twice in a listing |
| Lifecycle.CreatePreservesWellFormed | main.py:170-186 | posting keeps the store invariant: the new record is unclaimed and owned by a restaurant |
| Lifecycle.UpdatePreservesWellFormed | main.py:220-224 | patching keeps the store invariant, because it never touches status, claim fields or owner |
| Lifecycle.DeletePreservesWellFormed | main.py:232 | deleting keeps the store invariant |
| Lifecycle.ClaimPreservesWellFormed | main.py:241-259 | claiming keeps the store invariant: a claimed record has both claim fields, and its claimer is an NGO or society |
| Lifecycle.DeliverPreservesWellFormed | main.py:265-272 | delivering keeps the store invariant; a delivered record may be claimed or unclaimed |
| Lifecycle.StepPreservesWellFormed | main.py:129-273 | any single request, whether it succeeds or fails, keeps the store invariant |
| Lifecycle.RunPreservesWellFormed | main.py:129-273 | after any sequence of requests, emails are unique, every donation's claim fields agree with its status, its owner is a restaurant and its claimer an NGO or society |
| Lifecycle.SecondClaimFails | main.py:248-249 | after a successful claim, every later claim on the same donation fails, with InvalidState when the claimer is valid |
| Lifecycle.LabelFollowsRequestRole | main.py:241-255 | the label written by a claim spells the request's role, not the stored account's role |
| Lifecycle.DeletedStaysGone | main.py:221-235 | after a delete, the id answers NotFound to delete, deliver, claim and non-empty PATCH, and null to an empty PATCH |
| Lifecycle.DeliverIdempotent | main.py:263-273 | delivering twice leaves the same store as delivering once at the later time |
| Lifecycle.PatchIdempotent | main.py:218-227 | applying the same PATCH twice leaves the same store as applying it once at the later time |
| Lifecycle.DeliverKeepsClaimState | main.py:269-272 | delivering a claimed donation keeps its claimer; delivering an available one leaves it unclaimed |

## Left out

- HTTP wiring is not modelled: FastAPI routing, CORS middleware, the `uvicorn`
  entry point, and the `/` and `/test` endpoints.
- Login and `hash_password` are left out. The SHA-256 digest is a parameter
  `hash` of `Register`.
- `admin_overview` is left out. It only counts records.
- The `database` module is not part of this model. The MongoDB collections
  become two maps. `find`, `insert_one`, `update_one` and `delete_one` become map
  operations.
- Store-assigned ids come from the caller as `newId`, with a precondition that the
  id is not already in use. The driver generates unique ObjectIds.
- `serialize_doc` is not modelled. Replies are `Doc(id, record)`, and timestamps
  stay integers instead of ISO strings.
- `Register` returns the new id, not the echoed account document.
- CreateDonation: the source reads the clock twice, for `created_at` and for
  `updated_at`. The model uses one `now` for both.
- Text.Search: the search text is treated as a literal substring, compared
  ignoring ASCII case. The source passes it to `$regex` without escaping, so regex
  metacharacters and Unicode case folding are not modelled.
- Ids.ParseId: bson also accepts a 24-character string that contains whitespace
  between hex pairs. The model refuses it.
- Request validation by pydantic is given by the types: `EmailStr` syntax, the
  `Literal` enumerations and `datetime` parsing. Email normalisation is not
  modelled, so emails are compared as exact strings.
- The read-then-write race in claim cannot be expressed: the model is sequential.
  Each endpoint's re-read after its write is assumed to see that write.
- The `DeliverRequest` body (`delivered`) is ignored, as in the source.
- Query.ListDonations: the order of donations with equal `created_at` is not
  specified. The source leaves it to the store.
- `status ∈ {available, claimed, delivered}` and the four roles hold by the
  datatypes. `quantity` is free text: the model does no arithmetic on it and
  never compares it.
