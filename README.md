# we_neighbour backend: a Dafny model of the request handlers

This project models the server of the we_neighbour apartment-management
application: an Express/Mongoose backend for residents, managers and service
providers. What is modelled is the decision and state-update logic of its
handlers: who may do what, which record is created or changed, and which HTTP
status and message come back. Mongoose collections are in-memory maps held by
classes. bcrypt and jsonwebtoken are abstract functions, and the clock is a
parameter.

The project is organised by source file:

- `database.dfy` covers `server/config/database.js`. The connection cache is a
  class that is filled on a miss and never evicted, and the central connection
  is made once.
- `auth_middleware.dfy` covers `authenticate`, `isResident` and `isManager`.
  Token verification is a parameter `verify: string -> Option<Claims>`.
- `auth_controller.dfy` and `auth_routes.dfy` cover the two login handlers.
- `visitor_controller.dfy`, `notification_controller.dfy`,
  `resource_controller.dfy`, `safety_alerts_controller.dfy`,
  `complaint_controller.dfy` and `maintenance_controller.dfy` cover the record
  collections. Each collection is a class over `map<Id, Record>`.
- `manager_controller.dfy`, `serviceprovider_controller.dfy`,
  `resident_controller.dfy`, `apartment_controller.dfy`, `manager_routes.dfy`,
  `resident_routes.dfy` and `service_provider_routes.dfy` cover registration
  and the apartment listing.
- `common.dfy`, `models.dfy` and `listing.dfy` hold the shared pieces:
  - presence of request fields, and the password-digest abstraction;
  - the identity schemas and the stores that hold them;
  - the newest-first order of the listings.

Conventions used throughout:

- A string field is `Option<string>`. `Present(f)` means JavaScript
  truthiness, which is also what Mongoose's `required` accepts for a String path.
- A failed save-time schema check is modelled as the 500 answer of the
  handler's `catch`.
- Every user store is keyed by e-mail, which each identity schema declares
  unique.
- A listing sorted by `createdAt` descending is stated as a property of the
  result: distinct ids, exactly the selected records, non-increasing stamps. It
  is not computed by a sorting routine.

Facts about the code that the model makes explicit:

- `checkVisitor` has no prior-status guard. A confirmed pass can be rejected
  and a rejected one confirmed. `VisitorController.TerminalStatusIsOverwritten`
  proves this.
- Both login handlers search only the collections of the default connection.
  A manager stored by `registerManager` in a tenant database is not found by
  either login handler.
- `registerServiceProvider` writes to the central database, which neither
  login handler reads.
- `registerManager` binds its store to the tenant connection, while the inline
  `/register` routes write to the default connection.

## Model

| member | source | states |
|---|---|---|
| Common.MatchesExactly | server/controllers/authController.js:39-42 | a password matches the digest made from it; another password matches it exactly when the two agree on the first 72 characters, so for passwords of at most 72 characters only the same password matches |
| Common.TruncatedPasswordsMatch | server/controllers/authController.js:39 | two passwords sharing their first 72 characters match each other's digests, whatever follows |
| Listing.ListingExists | server/controllers/notificationController.js:25 | every finite set of stamped records can be listed once each, newest first |
| Listing.NewestFirstListing | server/controllers/safetyAlertsController.js:27-29 | the listing holds exactly the selected ids, each once, with non-increasing createdAt, one per selected record |
| Database.ConnectionCache.constructor | server/config/database.js:4-10 | the cache starts empty, and the central connection is created once, scoped to "central_db" |
| Database.ConnectionCache.ConnectDB | server/config/database.js:12-32 | a hit returns the cached handle and opens nothing; a miss opens one connection scoped to that exact name and caches it under that name only; a failed open changes nothing and is re-thrown; existing entries are never removed or replaced |
| Database.ConnectTwice | server/config/database.js:15-27 | after a successful first call, a second call with the same name returns the same handle and opens no further connection |
| Database.CachedValueAsWritten | server/config/database.js:15 | the cache read on the `{}` literal is undefined exactly for names that are neither cached nor inherited from Object.prototype |
| Database.PrototypeNameSkipsOpen | server/config/database.js:15-27 | on an empty cache, the name "toString" is treated as a hit: nothing is opened and an inherited member comes back instead of a connection |
| Database.AsWrittenAgreesOffPrototype | server/config/database.js:15 | for names outside Object.prototype, the as-written test opens exactly when the name is not cached |
| Models.ResidentById | server/controllers/visitorController.js:22-26 | `findById` gives nothing exactly when no resident has the id, and otherwise that resident |
| Models.Directory.NewId | server/models/Resident.js:3-9 | every new document gets an id no stored document has |
| AuthMiddleware.AuthorizationHeader | server/middleware/authMiddleware.js:5 | a non-empty lower-case `authorization` header wins over `Authorization` |
| AuthMiddleware.BearerToken | server/middleware/authMiddleware.js:8-13 | a token is found exactly when the header is "Bearer " followed by it |
| AuthMiddleware.BearerRoundTrip | server/middleware/authMiddleware.js:13 | stripping the prefix from "Bearer " + t gives back t |
| AuthMiddleware.Authenticate | server/middleware/authMiddleware.js:3-30 | next is called exactly for a non-empty Bearer token that verifies, with its payload as user; no header, a non-Bearer header or an empty token gives 401 "No token, authorization failed"; a failed verification gives 401 "Token is not valid" |
| AuthMiddleware.IsResident | server/middleware/authMiddleware.js:32-37 | passes exactly the users whose role is "resident", and otherwise answers 403 |
| AuthMiddleware.IsManager | server/middleware/authMiddleware.js:39-44 | passes exactly the users whose role is "manager", and otherwise answers 403 |
| AuthMiddleware.GatesAreCaseSensitive | server/middleware/authMiddleware.js:33-41 | "Manager", "Resident" and a missing role are refused |
| AuthMiddleware.BearerHeaderAuthenticates | server/middleware/authMiddleware.js:5-25 | `authorization: Bearer t` with a verifying t passes, whatever the other headers hold |
| AuthController.Login | server/controllers/authController.js:8-64 | lookup order is Resident, Manager, ServiceProvider; the role follows the collection; a token `{id, role}` valid for 1h is issued exactly for a matching password; an unknown e-mail and a wrong password both give the same 400; a missing password gives 500; the summary is the matched document's id, name, email, role and phone (or ""), with the resident's apartmentCode (or "") and "" for managers and providers |
| AuthController.WrongPasswordLooksLikeUnknownEmail | server/controllers/authController.js:22-42 | a wrong password gets exactly the answer an unknown e-mail gets |
| AuthController.LoginTokenPassesRoleGate | server/controllers/authController.js:29-46 | a resident's or manager's token, once verified, passes `authenticate` and its own role gate; a service provider's passes neither gate |
| AuthRoutes.InlineLogin | server/routes/authRoutes.js:9-48 | same lookup order; an unknown e-mail and a wrong password both give the same 400; a missing password gives 500; the token's role is the stored `user.role`; the user summary is exactly the matched document's id, name, email and role |
| AuthRoutes.InlineTokensFailRoleGates | server/routes/authRoutes.js:31 | a resident, or a manager with the default role, gets a token that neither gate passes |
| AuthRoutes.InlineManagerRefusedControllerManagerPasses | server/routes/authRoutes.js:31-32 | for one concrete manager, the inline route's token is refused by isManager while the controller's token passes it |
| VisitorController.AfterCheck | server/controllers/visitorController.js:94-95 | "confirm" gives Confirmed, otherwise Rejected; only that pass's status changes |
| VisitorController.CheckIsIdempotent | server/controllers/visitorController.js:94-95 | repeating a check changes nothing more |
| VisitorController.TerminalStatusIsOverwritten | server/controllers/visitorController.js:89-95 | a confirmed pass can be rejected, and a rejected one confirmed |
| VisitorController.VisitorPasses.GenerateQRCodeData | server/controllers/visitorController.js:7-70 | a falsy count or a non-array of names gives 400 with nothing stored; a missing fixed resident gives 404; a document missing a schema-required path (PassSavable: resident name, apartment code, phone, or an empty visitor name) gives 500 with nothing stored; otherwise one Pending pass for the fixed resident copies name, apartment code and phone; the QR payload agrees with the stored pass on residentName, apartmentCode, numOfVisitors, visitorNames and phone, and each carries its own clock reading; a failed QR write gives 500, with the pass already stored |
| VisitorController.VisitorPasses.CheckVisitor | server/controllers/visitorController.js:72-100 | a missing id or an action other than "confirm"/"reject" gives 400; an unknown id gives 404; otherwise the store becomes AfterCheck and the message is "Visitor <action>ed successfully" |
| NotificationController.ManagementBoard.ListNewestFirst | server/controllers/notificationController.js:23-31 | every management notification once, newest first |
| NotificationController.ManagementBoard.Create | server/controllers/notificationController.js:6-20 | a new notification with createdBy = requester is stored under a fresh id and 201 follows; a missing title or message fails at save with 500 |
| NotificationController.ManagementBoard.Remove | server/controllers/notificationController.js:34-43 | the id is removed, present or not, and 200 follows |
| NotificationController.Hidden | server/controllers/notificationController.js:128-131 | the user joins the hide-list at most once and no other field changes |
| NotificationController.HideIsIdempotent | server/controllers/notificationController.js:128-131 | hiding twice is hiding once |
| NotificationController.Edited | server/controllers/notificationController.js:153-154 | an absent or empty title or message keeps the old one; creator, stamp and hide-list are untouched |
| NotificationController.VisibleIds | server/controllers/notificationController.js:72-74 | exactly the notifications whose hide-list lacks the caller |
| NotificationController.HiddenLeavesListing | server/controllers/notificationController.js:72-131 | after hiding, the notification leaves that user's listing only, and every other user's listing is unchanged |
| NotificationController.CommunityBoard.VisibleNewestFirst | server/controllers/notificationController.js:66-85 | the notifications the caller has not hidden, each once, newest first |
| NotificationController.CommunityBoard.Create | server/controllers/notificationController.js:47-62 | a new notification with createdBy = requester and an empty hide-list, 201; a missing title or message gives 500 |
| NotificationController.CommunityBoard.RemoveByManager | server/controllers/notificationController.js:88-97 | the id is removed, present or not, and 200 follows |
| NotificationController.CommunityBoard.DeleteByCreator | server/controllers/notificationController.js:100-117 | a missing notification gives 500; a non-creator gets 403 and the record stays; the creator removes just that record |
| NotificationController.CommunityBoard.HideForUser | server/controllers/notificationController.js:121-138 | a missing notification gives 500; otherwise only that notification changes, to Hidden, with the same success message |
| NotificationController.CommunityBoard.Edit | server/controllers/notificationController.js:141-162 | a missing notification gives 500; a non-creator gets 403 and nothing changes; the creator's edit stores and returns Edited |
| ResourceController.ActiveIds | server/controllers/resourceController.js:34 | exactly the requests whose status is Active |
| ResourceController.SoftDeleted | server/controllers/resourceController.js:51-54 | the request stays and only its status becomes Deleted; every other request is unchanged |
| ResourceController.SoftDeleteLeavesListing | server/controllers/resourceController.js:34-53 | a soft-deleted request leaves the Active listing, and no other request does |
| ResourceController.SoftDeleteIsIdempotent | server/controllers/resourceController.js:53 | deleting a deleted request leaves it deleted |
| ResourceController.ResourceRequests.ActiveNewestFirst | server/controllers/resourceController.js:32-43 | the Active requests, each once, newest first |
| ResourceController.ResourceRequests.Create | server/controllers/resourceController.js:6-29 | an unknown requester gives 500 with nothing stored; a document missing a schema-required path (RequestSavable) gives 500 with nothing stored; otherwise an Active request with resident = requester, with name and apartment code copied, 201 |
| ResourceController.ResourceRequests.Delete | server/controllers/resourceController.js:46-61 | an unknown id gives 500 with no change; otherwise the store becomes SoftDeleted, whoever asks |
| SafetyAlertsController.SafetyAlerts.ListNewestFirst | server/controllers/safetyAlertsController.js:25-35 | every alert once, newest first |
| SafetyAlertsController.SafetyAlerts.Create | server/controllers/safetyAlertsController.js:4-22 | a missing title or description gives 400 with nothing stored; otherwise an alert with createdBy = requester, 201 |
| SafetyAlertsController.SafetyAlerts.Delete | server/controllers/safetyAlertsController.js:38-55 | a missing id gives 400; an unknown id gives 404 with no change; otherwise exactly that alert is removed |
| ComplaintController.Complaints.ListNewestFirst | server/controllers/complaintController.js:28-36 | every complaint once, newest first |
| ComplaintController.Complaints.Create | server/controllers/complaintController.js:5-25 | an unknown requester gives 500 with nothing stored; a document missing a schema-required path (ComplaintSavable: title, description, the requester's apartment code) gives 500 with nothing stored; otherwise a complaint with resident = requester and the requester's apartment code, 201 |
| MaintenanceController.MaintenanceRequests.Create | server/controllers/maintenanceController.js:6-28 | an unknown requester gives 500 with nothing stored; a document missing a schema-required path (MaintenanceSavable: title, description, the requester's name and apartment code) gives 500 with nothing stored; otherwise a Pending request with no ratings, with resident = requester and residentName and apartmentcode copied, 201 |
| ManagerController.RegisterManager | server/controllers/managerController.js:5-59 | a missing field of the seven gives 400 before any database access; a failed connection gives 500; an e-mail the tenant already has gives 400; a cached tenant connection is reused with no new open; an uncached one is opened once and added, every other cached connection staying; otherwise only that tenant's store gains the manager, with the hash and role "Manager"; other tenants are untouched |
| ServiceProviderController.RegisterServiceProvider | server/controllers/serviceproviderController.js:8-35 | a missing name, email or password gives 400; a duplicate in the central store gives 400; a missing serviceType or phone gives 500; otherwise the central store gains the provider with the hash, 201 |
| ResidentController.RegisterResident | server/controllers/residentController.js:4-20 | a missing name, email or password gives 400; a repeated e-mail is refused by the unique index with 500; otherwise the resident is stored with the hash and the other fields as given |
| ApartmentController.Names | server/controllers/apartmentController.js:13 | one name per record, in order, each that record's apartmentName |
| ApartmentController.GetAllApartments | server/controllers/apartmentController.js:4-20 | 200 with one name per stored apartment in query order, an empty list for an empty registry; an error gives 500 with its message |
| ApartmentController.NamesOfConcatenation | server/controllers/apartmentController.js:13 | names of concatenated record lists are the concatenated names |
| ApartmentController.RegistryNamesAreDistinct | server/models/Apartment.js:4 | the answer to a query of the central registry is a 200 whose names have no repeats, because of the unique index on apartmentName |
| ManagerRoutes.Register | server/routes/managerRoutes.js:6-24 | only name, email and password are checked (400); a missing nic, phone, address or apartmentName, or a duplicate e-mail, fails at save with 500; otherwise the manager is stored with the hash and the default role |
| ResidentRoutes.RegisteredResident | server/routes/residentRoutes.js:16 | the saved document has the hash, the phone as given, and no nic, complex name or apartment code |
| ResidentRoutes.Register | server/routes/residentRoutes.js:8-26 | a missing name, email or password gives 400; a duplicate e-mail fails at the unique index with 500; otherwise the resident is stored, 201 |
| ResidentRoutes.RegisteredResidentLogsIn | server/routes/residentRoutes.js:15-19 | a resident registered here logs in through `login` with the same password and passes isResident; the inline login's token for them passes no gate |
| ServiceProviderRoutes.Register | server/routes/serviceProviderRoutes.js:6-26 | a missing name, email or password gives 400; a missing serviceType or phone, or a duplicate e-mail, fails at save with 500; otherwise the provider is stored with the hash, 201 |

## Left out

- Mongoose, MongoDB and `populate` are left out. A collection is an in-memory map, and `populate` only decorates the listing answers.
- A malformed ObjectId in a request makes Mongoose throw a CastError. The model takes ids as numbers, so that 500 path is not modelled.
- bcrypt's salt and cost are left out. A digest is an opaque stand-in of its own type, never a plaintext string. The model reads it only through `Matches`.
- Common.MatchesExactly / AuthController.Login: bcrypt's 72-byte limit is modelled as 72 characters. For a password with non-ASCII characters, the point where bcrypt cuts it off differs from the model's.
- JWT signing and expiry are left out. A token is kept as the claims it signs plus its lifetime, and `verify` is an abstract parameter.
- QR rendering and the SVG file write are left out. Only a boolean remains: whether that step, which follows the save, succeeded.
- Console logging is left out.
- Firebase is left out.
- Route wiring and server startup are left out.
- The duplicate-open race between the `await` and the cache write in `connectDB` is left out. Every handler is one sequential step.
- `managerController.js:2` takes the whole module object as `connectDB`. The model uses the intended `connectDB` function.
- Several models export a schema where a model is wanted: ManagementNotifications, CommunityNotification, Complaint and Visitor. The model treats each as its collection.
- Visitor.js has no `status` path. The model keeps the status the controller writes.
- The community listing calls `res.json` twice. The model gives the single listing result.
- `registerManager` calls `db.model('Manager', schema)` with a fresh schema on each request. Mongoose refuses to recompile a model name on the same connection. The model treats every request as binding the tenant's one Manager collection.
- The Resident schema declares only name, email, password and phone. In strict mode Mongoose would drop nic, apartmentComplexName and apartmentCode. Strict mode would leave `resident.apartmentCode` always undefined, so the QR, resource, complaint and maintenance creates would always answer 500 for a resident registered through the routes, and login's apartmentCode would always be "". The model keeps the three fields as a pass-through, as the controllers that read them back expect.
- ServiceProviderController.RegisterServiceProvider and ApartmentController.GetAllApartments: `serviceproviderController.js:3,6` and `apartmentController.js:2,7` pass the compiled models that ServiceProvider.js and Apartment.js export to `centralDB.model(name, ...)`, which expects a schema. Mongoose's `Connection#model` then appears to throw, which would make the first module fail to load and `getAllApartments` always answer 500. The model assumes the intended binding of a ServiceProvider and an Apartment collection to the central connection.
- VisitorController.VisitorPasses.GenerateQRCodeData: the payload's `createdAt` is an ISO string and the pass's a Date. The model keeps both as clock readings and says nothing about how they compare.
- The "User role not recognized" branch of `login` cannot be reached. Every document found comes from one of the three collections, so the model has no such outcome.
- AuthController.Login / AuthRoutes.InlineLogin: a login body with no e-mail is not modelled; both take the e-mail as a string. In the code, `findOne({ email: undefined })` matches like `findOne({})` and returns an arbitrary document. Both handlers then take some resident, or some manager or provider when there are no residents, and compare the given password against that account's digest. Without an e-mail, the right password for that account logs in as it.
- The community-create response spells its key `messsage`. The model records only the status and the text.
- `numOfVisitors` is modelled as an optional integer, falsy exactly at 0. Other JavaScript values such as strings and NaN are not modelled.
- The listings' response bodies (the populated documents) are left out. The model states the selection and the order as ghost functions over the ids.

## Findings

| source | as written | input that shows it | evidently intended | confidence | as-written member | corrected member |
|---|---|---|---|---|---|---|
| server/config/database.js:15 | `!dbConnections[dbName]` on the `{}` literal reads inherited Object.prototype members as cache hits | `connectDB("toString")` on an empty cache returns `Object.prototype.toString` and opens nothing | open a connection exactly when no own entry exists | not executed | Database.PrototypeNameSkipsOpen | Database.ConnectionCache.ConnectDB |
| server/routes/authRoutes.js:31 | the token's role is the stored `user.role`: residents have none, and managers carry the default "Manager" | a manager stored with role "Manager" logs in with the right password; `isManager` then answers 403 | sign the role derived from the collection, as `login` does, so the token passes its role gate | not executed | AuthRoutes.InlineManagerRefusedControllerManagerPasses | AuthController.LoginTokenPassesRoleGate |
