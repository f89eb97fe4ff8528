# Support-ticket backend: a Dafny model

This project models the domain logic of a small support-ticket service's
backend. It covers three parts:

- **The ticket document.** The field constraints of the ticket schema are
  modelled as a validation of a draft document: the trim setters, `required`,
  `minlength`, the enums and the defaults. The model also covers the
  `isOverdue` rule.
- **The ticket request handlers.** These are create, list (newest first),
  read, partial update, delete and per-owner statistics. All of them are
  scoped to the requesting owner.
- **The account request handlers.** These are register, login, profile read
  and update, the user directory, user deletion, and account deactivation and
  activation.

Every handler is a pure function. It takes a store, which is a sequence of
records plus the id the next record receives, and returns a response
(status code, message, body), and for writing handlers the new store. Users
and tickets are immutable datatypes. A store validity predicate serves as the
invariant, and every writing handler is proved to preserve it.

Things the model turns into parameters:

- The current time is an integer number of milliseconds.
- Password hashing is a function parameter `hash`. A password is accepted
  when its hash equals the stored one.
- A signed token is represented by the claims it carries.

Modules:

- `Common`: identifiers, `Option`, `Result` and removal from a sequence.
- `Text`: JavaScript's `trim` and `.length` (UTF-16 units). The whitespace
  set is the WhiteSpace and LineTerminator code points of the ECMAScript
  language specification.
- `TicketSchema`: the ticket record, its validation and the overdue rule.
- `NewestFirst`: the owner filter and the `createdAt` descending order.
- `TicketService`: the ticket request handlers.
- `AuthService`: the account request handlers.
- `TicketLemmas` and `AuthLemmas`: properties relating several handlers.

Behaviour of the code that the model keeps as it is:

- A create or update that the schema refuses answers 500 from the catch
  block (ticketController.js:33-37 and 113-118).
- The middle status is stored as `inProgress` (Ticket.js:30).
- `createTicket` has no duplicate-subject check, so two tickets of one owner
  may share a subject.
- The create response carries only a message (ticketController.js:29-32).

## Model

| member | source | states |
|---|---|---|
| Text.Trim | backend/controllers/ticketController.js:22-23 | the trimmed text starts and ends with a non-whitespace character and is no longer than the input |
| Text.TrimIsInfix | backend/models/Ticket.js:8 | the trimmed text is a contiguous part of the input, and everything cut off on either side is whitespace |
| Text.TrimFixesTrimmed | backend/models/Ticket.js:14 | trimming leaves a text unchanged exactly when it already has no leading or trailing whitespace |
| Text.TrimIdempotent | backend/models/Ticket.js:8 | trimming twice gives the same text as trimming once |
| Text.TrimEmptyIffBlank | backend/controllers/ticketController.js:15 | a text trims to the empty string exactly when every character is whitespace |
| Text.Utf16Length | backend/models/Ticket.js:9 | the length that `minlength` compares is between the number of characters and twice that number |
| Text.Utf16LengthOfBmp | backend/models/Ticket.js:15 | for text without characters beyond U+FFFF, the length `minlength` compares is the number of characters |
| TicketSchema.ParseCategory | backend/models/Ticket.js:17-21 | a category the enum validator accepts is spelled exactly as the stored category |
| TicketSchema.ParsePriority | backend/models/Ticket.js:22-27 | a priority the enum validator accepts is spelled exactly as the stored priority |
| TicketSchema.ParseStatus | backend/models/Ticket.js:28-32 | a status the enum validator accepts is spelled exactly as the stored status |
| TicketSchema.EnumNamesRoundTrip | backend/models/Ticket.js:17-32 | each enum value's stored spelling parses back to it, and a spelling is accepted exactly when it is one of the three listed |
| TicketSchema.CheckText | backend/models/Ticket.js:5-16 | a text field passes exactly when present and non-empty after trimming with at least the minimum length, and then the stored value is the trimmed text |
| TicketSchema.CheckCategory | backend/models/Ticket.js:17-21 | the category passes exactly when present and one of the three names; there is no default |
| TicketSchema.CheckPriority | backend/models/Ticket.js:22-27 | an absent priority becomes Medium; a present one passes exactly when it is one of the three names |
| TicketSchema.CheckStatus | backend/models/Ticket.js:28-32 | an absent status becomes Open; a present one passes exactly when it is one of the three names |
| TicketSchema.ErrorsExact | backend/models/Ticket.js:3-37 | the reported fields are exactly those whose validator (required, minlength, enum) refuses the document, and none are reported exactly when the document passes every validator |
| TicketSchema.Validate | backend/models/Ticket.js:3-40 | a document is accepted exactly when every field's validator passes; a refused one reports exactly the failing fields; an accepted one is a valid ticket with the trimmed texts, the given or default enum values and the document's owner |
| TicketSchema.ValidTicketRoundTrip | backend/models/Ticket.js:5-37 | validation accepts a stored ticket unchanged exactly when it meets the schema's constraints |
| TicketSchema.IsOverdue | backend/models/Ticket.js:42-47 | the fractional-hours rule holds exactly when the ticket is Open and strictly more than 86 400 000 ms have passed since its creation |
| NewestFirst.OwnedBy | backend/controllers/ticketController.js:46 | the owner filter keeps exactly the owner's tickets, each as often as it is stored |
| NewestFirst.Insert | backend/controllers/ticketController.js:46 | inserting into a newest-first list keeps it newest first and adds exactly the one ticket |
| NewestFirst.Sort | backend/controllers/ticketController.js:46 | the `createdAt` descending sort is ordered newest first and is a permutation of its input |
| TicketService.FindOwned | backend/controllers/ticketController.js:66 | the lookup by ticket id and owner finds the first ticket with both, and finds nothing exactly when no ticket has both |
| TicketService.OnlyMatch | backend/controllers/ticketController.js:66 | in a valid store at most one ticket matches an id and owner |
| TicketService.CreateValidation | backend/controllers/ticketController.js:21-27 | the schema accepts the create document exactly when both trimmed texts are long enough and both enum values are legal, and then builds an Open ticket of the requester with the trimmed texts |
| TicketService.AcceptableRequestPasses | backend/controllers/ticketController.js:9-19 | a request the schema would accept always passes the controller's presence and blank-subject checks |
| TicketService.CreateValidated | backend/controllers/ticketController.js:21-37 | after the request checks, 201 exactly when both trimmed texts are long enough and both enum values legal, appending one ticket built from the request; otherwise 500 with the store unchanged |
| TicketService.CreateTicket | backend/controllers/ticketController.js:4-39 | 400 exactly for a missing or empty field or a blank subject; 201 exactly when the schema accepts, appending one ticket built from the request; otherwise 500; only 201 changes the store, and validity is kept |
| TicketService.GetUserTickets | backend/controllers/ticketController.js:42-58 | the list holds exactly the requester's tickets, each as often as stored, newest first |
| TicketService.GetTicketById | backend/controllers/ticketController.js:61-84 | 404 exactly when the requester owns no ticket with that id; otherwise a ticket with that id and owner |
| TicketService.PatchValidation | backend/controllers/ticketController.js:101-107 | the patched document validates exactly when every supplied field is acceptable, in any order of status values, and then only the supplied fields change |
| TicketService.PatchFields | backend/controllers/ticketController.js:101-105 | an accepted update keeps id, owner and creation time, replaces each supplied field and keeps each absent one |
| TicketService.UpdateTicket | backend/controllers/ticketController.js:87-119 | 404 exactly when the requester owns no ticket with that id; only 200 changes the store; no other ticket changes |
| TicketService.UpdateAt | backend/controllers/ticketController.js:101-118 | after the lookup of a valid ticket, 500 exactly when some supplied field is unacceptable (a text too short once trimmed, an enum value outside its list); a 200 stores in place a ticket that differs from the old one in exactly the supplied fields, and no other ticket changes |
| TicketService.UpdateRejectsExactlyBadPatches | backend/controllers/ticketController.js:107-118 | on a valid store an owned update fails with 500 exactly when some supplied field is unacceptable |
| TicketService.UpdateChangesOnlySuppliedFields | backend/controllers/ticketController.js:93-112 | on a valid store a successful update changes only the supplied fields of the owned ticket, returns it, and keeps the store valid |
| TicketService.RemoveDropsOnlyItsId | backend/controllers/ticketController.js:127 | removing one ticket of a valid store removes exactly the tickets with its id |
| TicketService.RemoveKeepsValid | backend/controllers/ticketController.js:127 | removing one ticket keeps a valid store valid |
| TicketService.DeleteTicket | backend/controllers/ticketController.js:122-144 | 404 exactly when the requester owns no ticket with that id, with the store unchanged; otherwise exactly one matching ticket is removed and the rest keep their order |
| TicketService.DeleteInValidStore | backend/controllers/ticketController.js:127-133 | on a valid store a delete keeps exactly the tickets that do not match and keeps the store valid |
| TicketService.CountStatus | backend/controllers/ticketController.js:151-153 | the count is the number of positions holding a ticket of the owner stored with exactly that status spelling, and never exceeds the number of the owner's tickets |
| TicketService.CountStatusPartition | backend/models/Ticket.js:28-32 | counting the three legal status spellings partitions the owner's tickets |
| TicketService.CountIllegalSpelling | backend/controllers/ticketController.js:152 | counting the spelling "In Progress" always finds nothing |
| TicketService.TicketStatsAsWritten | backend/controllers/ticketController.js:147-170 | `open` and `resolved` are the numbers of the requester's Open and Resolved tickets, the middle count is always 0, the total is the sum of the three, and it misses exactly the inProgress tickets |
| TicketService.TicketStats | backend/controllers/ticketController.js:147-170 | each count is the number of the requester's tickets with that status, and the total is their sum and equals the number of the requester's tickets |
| TicketLemmas.ForeignTicketLooksMissing | backend/controllers/ticketController.js:61-144 | reading, updating or deleting another owner's ticket gives the same 404 as a missing one and changes nothing |
| TicketLemmas.DeleteTwiceNotFound | backend/controllers/ticketController.js:127-133 | on a valid store a second delete of the same ticket answers 404 |
| TicketLemmas.EmptyPatchChangesNothing | backend/controllers/ticketController.js:101-107 | on a valid store an update that supplies no field leaves the store unchanged |
| TicketLemmas.FindOwnedPrefix | backend/controllers/ticketController.js:93 | the ticket an owned lookup finds depends only on the tickets up to it |
| TicketLemmas.UpdateIdempotent | backend/controllers/ticketController.js:101-107 | on a valid store repeating an accepted update changes nothing more |
| TicketLemmas.StatsTotalIsListLength | backend/controllers/ticketController.js:46-161 | the corrected statistics total equals the length of the requester's ticket list |
| TicketLemmas.StatsAsWrittenUndercount | backend/controllers/ticketController.js:152-161 | the statistics as written fall short of the list length by the number of inProgress tickets, and agree with it exactly when there are none |
| TicketLemmas.StatsAsWrittenCounterexample | backend/controllers/ticketController.js:152 | a store holding a single valid inProgress ticket lists it, yet the statistics as written report total 0 where the corrected ones report 1 |
| TicketLemmas.CreatedTicketIsVisible | backend/controllers/ticketController.js:21-27 | after a successful create the new ticket is in the requester's list and can be read back by its new id |
| TicketLemmas.SubjectLengthBoundary | backend/models/Ticket.js:5-10 | with the other fields acceptable and a trimmed subject without characters beyond U+FFFF, 2 characters are refused with 500 and 3 are created (two characters beyond U+FFFF have length 4 and pass) |
| TicketLemmas.OverdueBoundary | backend/models/Ticket.js:42-47 | an Open ticket exactly 24 hours old is not overdue; one millisecond later it is |
| TicketLemmas.OverdueMonotone | backend/models/Ticket.js:42-47 | an overdue ticket stays overdue as time passes, and a ticket that is not Open is never overdue |
| AuthService.FindByEmail | backend/controllers/authController.js:21 | the lookup by email finds the first user with that email, and nothing exactly when there is none |
| AuthService.FindById | backend/controllers/authController.js:106 | the lookup by id finds the first user with that id, and nothing exactly when there is none |
| AuthService.Register | backend/controllers/authController.js:11-54 | 400 exactly for a missing or empty field; 409 exactly for a taken email; otherwise one user is appended with role user, active, the password only as its hash, and a token claiming that user's id and role; validity is kept |
| AuthService.Authenticate | backend/controllers/authController.js:59-79 | 400 exactly for a missing field; an unknown email and a wrong password give the same 401; on a valid store the credentials pass exactly when some user accepts them |
| AuthService.LoginAsWritten | backend/controllers/authController.js:81-95 | a successful login answers with an accepting user's session and a token claiming only its id, with no role |
| AuthService.Login | backend/controllers/authController.js:34 | a successful login answers with an accepting user's session and a token claiming its id and role, as registration signs it |
| AuthService.GetProfile | backend/controllers/authController.js:104-123 | 404 exactly when the requester does not exist; otherwise that user's record without the password hash |
| AuthService.UpdateProfile | backend/controllers/authController.js:125-157 | 404 exactly when the requester does not exist, with the store unchanged; otherwise only the requester's record changes, and only its truthy name, contact and supplied addresses |
| AuthService.GetAllUsers | backend/controllers/authController.js:159-173 | the directory lists every user in order without password hashes, and its count is their number |
| AuthService.DeleteUser | backend/controllers/authController.js:175-198 | 404 exactly when no user has the id, with the store unchanged; otherwise exactly one user with that id is removed and the rest keep their order |
| AuthService.SetActive | backend/controllers/authController.js:202-212 | 404 exactly when the requester does not exist, with the store unchanged; otherwise only the requester's active flag changes, to the value given |
| AuthService.Deactivate | backend/controllers/authController.js:200-225 | on a valid store the requester's account ends up inactive, and a 200 carries only the message |
| AuthService.Activate | backend/controllers/authController.js:227-253 | on a valid store the requester's account ends up active, and a 200 carries the requester's stored record, already active, without the hash |
| AuthLemmas.RegisterTwiceConflicts | backend/controllers/authController.js:21-26 | once an email is registered, registering it again with any name and password answers 409 |
| AuthLemmas.RegisteredIsOnlyHolder | backend/controllers/authController.js:21-32 | on a valid store the newly registered user is the only one holding its email |
| AuthLemmas.RegisterThenLogin | backend/controllers/authController.js:28-95 | logging in right after registering succeeds; the corrected login returns the registration's session body and token, the login as written a token without role that differs from it |
| AuthLemmas.FailedLoginIsUniform | backend/controllers/authController.js:67-79 | every refused login with both fields given is the same 401, and on a valid store a login is refused exactly when no user accepts the credentials |
| AuthLemmas.LoginIgnoresActivation | backend/controllers/authController.js:67-81 | activating or deactivating an account changes no login response |
| AuthLemmas.SetActiveIdempotent | backend/controllers/authController.js:202-239 | setting the active flag twice to the same value answers and stores the same as setting it once |
| AuthLemmas.UpdateProfileIdempotent | backend/controllers/authController.js:129-137 | applying the same profile update twice stores the same as applying it once |
| AuthLemmas.DeleteUserTwiceNotFound | backend/controllers/authController.js:179-185 | on a valid store a second delete of the same user answers 404 |
| AuthLemmas.UpdateProfileKeepsValid | backend/controllers/authController.js:129-137 | a profile update never empties a name and never touches an id or an email, so the store stays valid |
| AuthLemmas.SetActiveKeepsValid | backend/controllers/authController.js:229-233 | changing the active flag keeps the store valid |
| AuthLemmas.DeleteUserKeepsValid | backend/controllers/authController.js:179 | deleting a user keeps the store valid |

## Left out

- Request parsing: a field is either absent or a string. JSON `null`, numbers and other non-string values are not modelled. In the code their outcome depends on the handler: a falsy value is refused with 400 by the truthiness checks (ticketController.js:9, authController.js:61) or dropped by the spreads (authController.js:132-134), while a truthy non-string subject reaches `.trim()` and ends in a 500.
- Identifier casting: ids are naturals, so the 500 for a malformed ObjectId is not modelled.
- Store and network failures: the catch-block 500s for these are not modelled. The 500 for a schema-refused create or update is modelled.
- Console logging, `updatedAt` timestamps and the error message texts that Mongoose generates. A refused document reports the set of failing fields instead.
- JWT signing, its secret and its expiry. A token is represented by its claims.
- Password hashing and `comparePassword`: `hash` is a parameter, and a password matches when its hash equals the stored hash.
- The User model file is not part of this model, so the user record's own field validators and defaults are not modelled. The model assumes these defaults for a new user: role `user`, active, no contact and no addresses.
- AuthService.Register: never answers the 500 that the User schema's own validators could raise, because those validators are not part of this model.
- AuthService.UpdateProfile: `runValidators` on the User schema is not modelled for the same reason. An update of a present user always answers 200.
- Routing and authentication middleware: the ticket routes are never mounted and the profile and admin routes are commented out. The handlers are modelled as functions regardless. The requester id is a parameter.
- The frontend: the React pages, the HTTP client and the client-side overdue check.
- Unicode: no normalisation. Whitespace is the ECMAScript set listed in `Text.IsWhitespace`.
- Time: the overdue rule uses exact real arithmetic on integer milliseconds. `Date` and floating-point rounding are not modelled.

## Findings

| source | as written | input that shows it | evidently intended | confidence | as-written member | corrected member |
|---|---|---|---|---|---|---|
| backend/controllers/ticketController.js:152 | the middle statistic counts status "In Progress", a spelling the status enum (backend/models/Ticket.js:30) never admits | a requester with one valid ticket whose status is inProgress: the list has 1 ticket, the statistics report inProgress 0 and total 0 | count status "inProgress", so that the total equals the number of the requester's tickets | high; not executed | TicketService.TicketStatsAsWritten, TicketLemmas.StatsAsWrittenCounterexample | TicketService.TicketStats |
| backend/controllers/authController.js:81 | login signs the token with the user id only, while registration (line 34) signs id and role | register any new user, then log in with the same email and password: the registration token claims the id and role user, the login token claims only the id | sign the login token with the user's id and role, as registration does | medium; not executed | AuthService.LoginAsWritten, AuthLemmas.RegisterThenLogin | AuthService.Login |
