/**
  The ticket request handlers. Each takes the store and the authenticated
  requester's id and returns a response (status code, message, body) and,
  for the handlers that write, the new store. Every lookup is filtered on
  both the ticket id and the owner, so a ticket of another user answers
  exactly like a missing one.
 */
module TicketService {
  import opened Common
  import opened Text
  import opened TicketSchema
  import opened NewestFirst

  /** The ticket collection in insertion (natural) order, and the id the next
      created ticket receives. */
  datatype TicketStore = TicketStore(tickets: seq<Ticket>, nextId: Id)

  /** Every stored ticket passed validation, ids are distinct and all below
      `nextId`. */
  predicate StoreValid(s: TicketStore) {
    && (forall i :: 0 <= i < |s.tickets| ==> ValidTicket(s.tickets[i]) && s.tickets[i].id < s.nextId)
    && (forall i, j :: 0 <= i < j < |s.tickets| ==> s.tickets[i].id != s.tickets[j].id)
  }

  /** The body of a create request. */
  datatype NewTicket = NewTicket(
    subject: Option<string>,
    description: Option<string>,
    category: Option<string>,
    priority: Option<string>)

  /** The body of an update request; `None` is a field left `undefined`. */
  datatype TicketPatch = TicketPatch(
    subject: Option<string>,
    description: Option<string>,
    category: Option<string>,
    priority: Option<string>,
    status: Option<string>)

  datatype Stats = Stats(open: nat, inProgress: nat, resolved: nat, total: nat)

  datatype Body =
    | NoBody
    | OneTicket(ticket: Ticket)
    | TicketList(tickets: seq<Ticket>)
    | Counts(stats: Stats)
    | Invalid(fields: set<Field>)

  datatype Response = Response(code: nat, message: string, body: Body)

  datatype Step = Step(response: Response, store: TicketStore)

  const MissingFieldsMessage := "Please provide all required fields (subject, description, category, priority)"
  const BlankSubjectMessage := "Subject cannot be empty"
  const CreatedMessage := "Ticket created successfully"
  const ListedMessage := "Tickets retrieved successfully"
  const FoundMessage := "Ticket retrieved successfully"
  const NotFoundMessage := "Ticket not found"
  const UpdatedMessage := "Ticket updated successfully"
  const DeletedMessage := "Ticket deleted successfully"
  const StatsMessage := "Statistics retrieved successfully"
  /** The head of the validation error's message; the per-field detail the
      document store appends is represented by the `Invalid` body. */
  const ValidationFailedMessage := "Ticket validation failed"

  /** The filter `{ _id: id, userId }`. */
  predicate Matches(t: Ticket, id: Id, owner: Id) {
    t.id == id && t.owner == owner
  }

  /** `findOne({ _id: id, userId })`: the position of the first ticket with
      that id and that owner, if any. */
  function FindOwned(ts: seq<Ticket>, id: Id, owner: Id): (r: Option<nat>)
    ensures r.Some? ==> r.value < |ts| && Matches(ts[r.value], id, owner)
    ensures r.Some? ==> forall k :: 0 <= k < r.value ==> !Matches(ts[k], id, owner)
    ensures r.None? <==> forall k :: 0 <= k < |ts| ==> !Matches(ts[k], id, owner)
  {
    if ts == [] then None
    else if Matches(ts[0], id, owner) then Some(0)
    else
      match FindOwned(ts[1..], id, owner)
      case None => None
      case Some(i) => Some(i + 1)
  }

  /** In a valid store at most one ticket matches, so the first match is the only one. */
  lemma OnlyMatch(s: TicketStore, id: Id, owner: Id, i: nat, k: nat)
    requires StoreValid(s)
    requires i < |s.tickets| && k < |s.tickets|
    requires Matches(s.tickets[i], id, owner) && Matches(s.tickets[k], id, owner)
    ensures i == k
  {
  }

  /** The 201 outcome: the created ticket has the fresh id, the requester as
      owner, the trimmed texts, the requested category and priority, the
      default status `Open`, and passes the schema. */
  predicate CreatedFrom(t: Ticket, id: Id, requester: Id, req: NewTicket, now: int) {
    && req.subject.Some? && req.description.Some? && req.category.Some? && req.priority.Some?
    && t.id == id && t.owner == requester && t.createdAt == now
    && t.subject == Trim(req.subject.value)
    && t.description == Trim(req.description.value)
    && CategoryName(t.category) == req.category.value
    && PriorityName(t.priority) == req.priority.value
    && t.status == Open
    && ValidTicket(t)
  }

  /** The document `createTicket` hands to the schema. */
  function CreateDraft(requester: Id, req: NewTicket): Draft
    requires req.subject.Some? && req.description.Some?
  {
    Draft(Some(Trim(req.subject.value)), Some(Trim(req.description.value)),
          req.category, req.priority, None, Some(requester))
  }

  /** The schema accepts the create document exactly when both texts are
      long enough after trimming and both enum values are legal, and then
      builds the ticket `CreatedFrom` describes. */
  lemma CreateValidation(requester: Id, req: NewTicket, id: Id, now: int)
    requires Present(req.subject) && Present(req.description) && Present(req.category) && Present(req.priority)
    ensures var r := Validate(CreateDraft(requester, req), id, now);
      && (r.Success? <==>
          && Utf16Length(Trim(req.subject.value)) >= SubjectMinLength
          && Utf16Length(Trim(req.description.value)) >= DescriptionMinLength
          && LegalCategory(req.category.value) && LegalPriority(req.priority.value))
      && (r.Success? ==> CreatedFrom(r.value, id, requester, req, now))
  {
    TrimIdempotent(req.subject.value);
    TrimIdempotent(req.description.value);
    var r := Validate(CreateDraft(requester, req), id, now);
    if r.Success? {
      EnumNamesRoundTrip(r.value.category, r.value.priority, r.value.status, "");
    }
  }

  /** Appending a valid ticket that carries the next id keeps the store valid. */
  lemma AppendKeepsValid(s: TicketStore, t: Ticket)
    requires StoreValid(s) && ValidTicket(t) && t.id == s.nextId
    ensures StoreValid(TicketStore(s.tickets + [t], s.nextId + 1))
  {
  }

  /** A request whose texts are long enough after trimming and whose enum
      values are legal passes the controller's own presence and blank-subject
      checks. */
  lemma AcceptableRequestPasses(req: NewTicket)
    ensures
      && req.subject.Some? && Utf16Length(Trim(req.subject.value)) >= SubjectMinLength
      && req.description.Some? && Utf16Length(Trim(req.description.value)) >= DescriptionMinLength
      && req.category.Some? && LegalCategory(req.category.value)
      && req.priority.Some? && LegalPriority(req.priority.value)
      ==> Present(req.subject) && Present(req.description) && Present(req.category) && Present(req.priority)
          && !IsBlank(req.subject.value)
  {
    TrimEmptyIffBlank("");
    if req.subject.Some? {
      TrimEmptyIffBlank(req.subject.value);
    }
  }

  /** `createTicket` (POST /tickets). A request missing a field, or one whose
      subject is blank, is refused with 400; a request the schema refuses
      fails with 500; either way the store is unchanged. Otherwise exactly
      one ticket is appended. */
  function CreateTicket(s: TicketStore, requester: Id, req: NewTicket, now: int): (r: Step)
    ensures r.response.code in {201, 400, 500}
    ensures r.response.code == 400 <==>
      || !Present(req.subject) || !Present(req.description)
      || !Present(req.category) || !Present(req.priority)
      || IsBlank(req.subject.value)
    ensures r.response.code == 201 <==>
      && req.subject.Some? && Utf16Length(Trim(req.subject.value)) >= SubjectMinLength
      && req.description.Some? && Utf16Length(Trim(req.description.value)) >= DescriptionMinLength
      && req.category.Some? && LegalCategory(req.category.value)
      && req.priority.Some? && LegalPriority(req.priority.value)
    ensures r.response.code != 201 ==> r.store == s
    ensures r.response.code == 201 ==>
      && r.store.nextId == s.nextId + 1
      && |r.store.tickets| == |s.tickets| + 1
      && r.store.tickets[..|s.tickets|] == s.tickets
      && CreatedFrom(r.store.tickets[|s.tickets|], s.nextId, requester, req, now)
    ensures StoreValid(s) ==> StoreValid(r.store)
  {
    AcceptableRequestPasses(req);
    if !Present(req.subject) || !Present(req.description) || !Present(req.category) || !Present(req.priority) then
      Step(Response(400, MissingFieldsMessage, NoBody), s)
    else
      TrimEmptyIffBlank(req.subject.value);
      if Trim(req.subject.value) == "" then
        Step(Response(400, BlankSubjectMessage, NoBody), s)
      else
        CreateValidated(s, requester, req, now)
  }

  /** The part of `createTicket` after the request checks: the schema either
      refuses the document (500, nothing stored) or the ticket it builds is
      appended under the next id. */
  function CreateValidated(s: TicketStore, requester: Id, req: NewTicket, now: int): (r: Step)
    requires Present(req.subject) && Present(req.description) && Present(req.category) && Present(req.priority)
    ensures r.response.code in {201, 500}
    ensures r.response.code == 201 <==>
      && Utf16Length(Trim(req.subject.value)) >= SubjectMinLength
      && Utf16Length(Trim(req.description.value)) >= DescriptionMinLength
      && LegalCategory(req.category.value) && LegalPriority(req.priority.value)
    ensures r.response.code != 201 ==> r.store == s
    ensures r.response.code == 201 ==>
      && r.store.nextId == s.nextId + 1
      && |r.store.tickets| == |s.tickets| + 1
      && r.store.tickets[..|s.tickets|] == s.tickets
      && CreatedFrom(r.store.tickets[|s.tickets|], s.nextId, requester, req, now)
    ensures StoreValid(s) ==> StoreValid(r.store)
  {
    CreateValidation(requester, req, s.nextId, now);
    match Validate(CreateDraft(requester, req), s.nextId, now)
    case Failure(errors) => Step(Response(500, ValidationFailedMessage, Invalid(errors)), s)
    case Success(t) =>
      var tickets := s.tickets + [t];
      assert tickets[..|s.tickets|] == s.tickets;
      if StoreValid(s) then
        AppendKeepsValid(s, t);
        Step(Response(201, CreatedMessage, NoBody), TicketStore(tickets, s.nextId + 1))
      else
        Step(Response(201, CreatedMessage, NoBody), TicketStore(tickets, s.nextId + 1))
  }

  /** `getUserTickets` (GET /tickets): exactly the requester's tickets, each
      as often as it is stored, newest first. */
  function GetUserTickets(s: TicketStore, requester: Id): (r: Response)
    ensures r.code == 200 && r.body.TicketList?
    ensures SortedNewestFirst(r.body.tickets)
    ensures forall t :: t in r.body.tickets <==> t in s.tickets && t.owner == requester
    ensures forall t :: multiset(r.body.tickets)[t] == if t.owner == requester then multiset(s.tickets)[t] else 0
  {
    var tickets := Sort(OwnedBy(s.tickets, requester));
    assert forall t :: t in tickets <==> t in multiset(OwnedBy(s.tickets, requester));
    Response(200, ListedMessage, TicketList(tickets))
  }

  /** `getTicketById` (GET /tickets/:id). */
  function GetTicketById(s: TicketStore, requester: Id, id: Id): (r: Response)
    ensures r.code in {200, 404}
    ensures r.code == 404 <==> forall k :: 0 <= k < |s.tickets| ==> !Matches(s.tickets[k], id, requester)
    ensures r.code == 404 ==> r == Response(404, NotFoundMessage, NoBody)
    ensures r.code == 200 ==> r.body.OneTicket? && r.body.ticket in s.tickets && Matches(r.body.ticket, id, requester)
  {
    match FindOwned(s.tickets, id, requester)
    case None => Response(404, NotFoundMessage, NoBody)
    case Some(i) => Response(200, FoundMessage, OneTicket(s.tickets[i]))
  }

  /** The assignments of `updateTicket` on the loaded document: a supplied
      subject or description is trimmed, every other supplied field is
      assigned as given, and absent fields keep their value. */
  function ApplyPatch(d: Draft, p: TicketPatch): Draft {
    Draft(
      if p.subject.Some? then Some(Trim(p.subject.value)) else d.subject,
      if p.description.Some? then Some(Trim(p.description.value)) else d.description,
      if p.category.Some? then p.category else d.category,
      if p.priority.Some? then p.priority else d.priority,
      if p.status.Some? then p.status else d.status,
      d.owner)
  }

  /** Every supplied field passes its validator. Status values may follow one
      another in any order: only enum membership is checked. */
  predicate PatchAcceptable(p: TicketPatch) {
    && (p.subject.Some? ==> Utf16Length(Trim(p.subject.value)) >= SubjectMinLength)
    && (p.description.Some? ==> Utf16Length(Trim(p.description.value)) >= DescriptionMinLength)
    && (p.category.Some? ==> LegalCategory(p.category.value))
    && (p.priority.Some? ==> LegalPriority(p.priority.value))
    && (p.status.Some? ==> LegalStatus(p.status.value))
  }

  /** `after` is `before` with exactly the supplied fields replaced. */
  predicate PatchedFrom(before: Ticket, after: Ticket, p: TicketPatch) {
    && after.id == before.id && after.owner == before.owner && after.createdAt == before.createdAt
    && after.subject == (if p.subject.Some? then Trim(p.subject.value) else before.subject)
    && after.description == (if p.description.Some? then Trim(p.description.value) else before.description)
    && CategoryName(after.category) == p.category.GetOr(CategoryName(before.category))
    && PriorityName(after.priority) == p.priority.GetOr(PriorityName(before.priority))
    && StatusName(after.status) == p.status.GetOr(StatusName(before.status))
  }

  /** A supplied text, trimmed by the controller, passes the schema's text
      validators exactly when it is long enough, and is stored as it is. */
  lemma SuppliedText(text: string, minLength: nat)
    requires minLength > 0
    ensures CheckText(Some(Trim(text)), minLength)
      == if Utf16Length(Trim(text)) >= minLength then Some(Trim(text)) else None
  {
    TrimIdempotent(text);
  }

  /** A stored text that passed validation passes it again unchanged. */
  lemma KeptText(stored: string, minLength: nat)
    requires minLength > 0 && IsTrimmed(stored) && Utf16Length(stored) >= minLength
    ensures CheckText(Some(stored), minLength) == Some(stored)
  {
    TrimFixesTrimmed(stored);
  }

  /** Each validator of the patched document passes exactly when the
      corresponding supplied field, if any, is acceptable. */
  lemma PatchedFieldChecks(before: Ticket, p: TicketPatch)
    requires ValidTicket(before)
    ensures var d := ApplyPatch(ToDraft(before), p);
      && (CheckText(d.subject, SubjectMinLength).Some? <==>
            (p.subject.Some? ==> Utf16Length(Trim(p.subject.value)) >= SubjectMinLength))
      && (CheckText(d.description, DescriptionMinLength).Some? <==>
            (p.description.Some? ==> Utf16Length(Trim(p.description.value)) >= DescriptionMinLength))
      && (CheckCategory(d.category).Some? <==> (p.category.Some? ==> LegalCategory(p.category.value)))
      && (CheckPriority(d.priority).Some? <==> (p.priority.Some? ==> LegalPriority(p.priority.value)))
      && (CheckStatus(d.status).Some? <==> (p.status.Some? ==> LegalStatus(p.status.value)))
      && d.owner.Some?
  {
    if p.subject.Some? {
      SuppliedText(p.subject.value, SubjectMinLength);
    } else {
      KeptText(before.subject, SubjectMinLength);
    }
    if p.description.Some? {
      SuppliedText(p.description.value, DescriptionMinLength);
    } else {
      KeptText(before.description, DescriptionMinLength);
    }
    EnumNamesRoundTrip(before.category, before.priority, before.status, "");
  }

  /** After a successful save of a patched ticket, a text field holds the
      trimmed supplied value, or its old value when none was supplied. */
  lemma PatchedTexts(before: Ticket, p: TicketPatch, after: Ticket)
    requires ValidTicket(before)
    requires Validate(ApplyPatch(ToDraft(before), p), before.id, before.createdAt) == Success(after)
    ensures after.subject == (if p.subject.Some? then Trim(p.subject.value) else before.subject)
    ensures after.description == (if p.description.Some? then Trim(p.description.value) else before.description)
  {
    if p.subject.Some? {
      TrimIdempotent(p.subject.value);
    } else {
      TrimFixesTrimmed(before.subject);
    }
    if p.description.Some? {
      TrimIdempotent(p.description.value);
    } else {
      TrimFixesTrimmed(before.description);
    }
  }

  /** After a successful save of a patched ticket, an enum field holds the
      supplied value, or its old value when none was supplied; the identity,
      owner and creation time are kept. */
  lemma PatchedEnums(before: Ticket, p: TicketPatch, after: Ticket)
    requires Validate(ApplyPatch(ToDraft(before), p), before.id, before.createdAt) == Success(after)
    ensures after.id == before.id && after.owner == before.owner && after.createdAt == before.createdAt
    ensures CategoryName(after.category) == p.category.GetOr(CategoryName(before.category))
    ensures PriorityName(after.priority) == p.priority.GetOr(PriorityName(before.priority))
    ensures StatusName(after.status) == p.status.GetOr(StatusName(before.status))
  {
  }

  /** A successful save of a patched valid ticket changes only the supplied
      fields. */
  lemma PatchFields(before: Ticket, p: TicketPatch, after: Ticket)
    requires ValidTicket(before)
    requires Validate(ApplyPatch(ToDraft(before), p), before.id, before.createdAt) == Success(after)
    ensures PatchedFrom(before, after, p)
  {
    PatchedTexts(before, p, after);
    PatchedEnums(before, p, after);
  }

  /** Saving a patched valid ticket succeeds exactly when every supplied
      field is acceptable, and then changes only the supplied fields. */
  lemma PatchValidation(before: Ticket, p: TicketPatch)
    requires ValidTicket(before)
    ensures var r := Validate(ApplyPatch(ToDraft(before), p), before.id, before.createdAt);
      && (r.Success? <==> PatchAcceptable(p))
      && (r.Success? ==> PatchedFrom(before, r.value, p))
  {
    var d := ApplyPatch(ToDraft(before), p);
    PatchedFieldChecks(before, p);
    assert Passes(d) <==> PatchAcceptable(p);
    var r := Validate(d, before.id, before.createdAt);
    if r.Success? {
      PatchFields(before, p, r.value);
    }
  }

  /** `updateTicket` (PUT /tickets/:id). 404 when the requester owns no
      ticket with that id; 500 with the store unchanged when the patched
      document fails validation; otherwise 200, and no ticket but the matched
      one changes. */
  function UpdateTicket(s: TicketStore, requester: Id, id: Id, p: TicketPatch): (r: Step)
    ensures r.response.code in {200, 404, 500}
    ensures r.response.code == 404 <==> forall k :: 0 <= k < |s.tickets| ==> !Matches(s.tickets[k], id, requester)
    ensures r.response.code == 404 ==> r.response == Response(404, NotFoundMessage, NoBody)
    ensures r.response.code != 200 ==> r.store == s
    ensures r.store.nextId == s.nextId && |r.store.tickets| == |s.tickets|
    ensures forall k :: 0 <= k < |s.tickets| && !Matches(s.tickets[k], id, requester) ==>
      r.store.tickets[k] == s.tickets[k]
  {
    match FindOwned(s.tickets, id, requester)
    case None => Step(Response(404, NotFoundMessage, NoBody), s)
    case Some(i) => UpdateAt(s, requester, id, p, i)
  }

  /** The part of `updateTicket` after the lookup found position `i`: the
      patched document is saved in place when it validates. */
  function UpdateAt(s: TicketStore, requester: Id, id: Id, p: TicketPatch, i: nat): (r: Step)
    requires i < |s.tickets| && Matches(s.tickets[i], id, requester)
    ensures r.response.code in {200, 500}
    ensures r.response.code != 200 ==> r.store == s
    ensures r.store.nextId == s.nextId && |r.store.tickets| == |s.tickets|
    ensures forall k :: 0 <= k < |s.tickets| && k != i ==> r.store.tickets[k] == s.tickets[k]
    ensures r.response.code == 500 <==>
      Validate(ApplyPatch(ToDraft(s.tickets[i]), p), s.tickets[i].id, s.tickets[i].createdAt).Failure?
    ensures r.response.code == 200 ==>
      && r.response.body.OneTicket?
      && r.store == s.(tickets := s.tickets[i := r.response.body.ticket])
      && Validate(ApplyPatch(ToDraft(s.tickets[i]), p), s.tickets[i].id, s.tickets[i].createdAt)
           == Success(r.response.body.ticket)
    ensures ValidTicket(s.tickets[i]) ==> (r.response.code == 500 <==> !PatchAcceptable(p))
    ensures ValidTicket(s.tickets[i]) && r.response.code == 200 ==>
      PatchedFrom(s.tickets[i], r.response.body.ticket, p)
  {
    var before := s.tickets[i];
    assert ValidTicket(before) ==>
      var v := Validate(ApplyPatch(ToDraft(before), p), before.id, before.createdAt);
      && (v.Success? <==> PatchAcceptable(p))
      && (v.Success? ==> PatchedFrom(before, v.value, p))
    by {
      if ValidTicket(before) {
        PatchValidation(before, p);
      }
    }
    match Validate(ApplyPatch(ToDraft(before), p), before.id, before.createdAt)
    case Failure(errors) => Step(Response(500, ValidationFailedMessage, Invalid(errors)), s)
    case Success(after) =>
      Step(Response(200, UpdatedMessage, OneTicket(after)), s.(tickets := s.tickets[i := after]))
  }

  /** Replacing a ticket by a valid one with the same id keeps the store valid. */
  lemma ReplaceKeepsValid(s: TicketStore, i: nat, t: Ticket)
    requires StoreValid(s) && i < |s.tickets|
    requires ValidTicket(t) && t.id == s.tickets[i].id
    ensures StoreValid(s.(tickets := s.tickets[i := t]))
  {
  }

  /** On a valid store, an update fails validation (500) exactly when the
      requester owns the ticket and some supplied field is unacceptable. */
  lemma UpdateRejectsExactlyBadPatches(s: TicketStore, requester: Id, id: Id, p: TicketPatch)
    requires StoreValid(s)
    ensures var r := UpdateTicket(s, requester, id, p);
      r.response.code == 500 <==> r.response.code != 404 && !PatchAcceptable(p)
  {
    match FindOwned(s.tickets, id, requester)
    case None =>
    case Some(i) =>
      PatchValidation(s.tickets[i], p);
  }

  /** On a valid store, a successful update changes only the supplied fields
      of the matched ticket, returns it, and leaves the store valid. */
  lemma UpdateChangesOnlySuppliedFields(s: TicketStore, requester: Id, id: Id, p: TicketPatch)
    requires StoreValid(s)
    ensures var r := UpdateTicket(s, requester, id, p);
      && (r.response.code == 200 ==>
            forall k :: 0 <= k < |s.tickets| && Matches(s.tickets[k], id, requester) ==>
              && PatchedFrom(s.tickets[k], r.store.tickets[k], p)
              && r.response.body == OneTicket(r.store.tickets[k]))
      && StoreValid(r.store)
  {
    match FindOwned(s.tickets, id, requester)
    case None =>
    case Some(i) =>
      var r := UpdateAt(s, requester, id, p, i);
      if r.response.code == 200 {
        var after := r.response.body.ticket;
        PatchFields(s.tickets[i], p, after);
        ReplaceKeepsValid(s, i, after);
        forall k | 0 <= k < |s.tickets| && Matches(s.tickets[k], id, requester)
          ensures k == i
        {
          OnlyMatch(s, id, requester, i, k);
        }
      }
  }

  /** In a valid store, removing the ticket at `i` removes exactly the
      tickets with its id. */
  lemma RemoveDropsOnlyItsId(s: TicketStore, i: nat)
    requires StoreValid(s) && i < |s.tickets|
    ensures forall t :: t in RemoveAt(s.tickets, i) <==> t in s.tickets && t.id != s.tickets[i].id
  {
    var rest := RemoveAt(s.tickets, i);
    forall t | t in s.tickets && t.id != s.tickets[i].id
      ensures t in rest
    {
      var k :| 0 <= k < |s.tickets| && s.tickets[k] == t;
      assert rest[if k < i then k else k - 1] == t;
    }
    forall k | 0 <= k < |rest|
      ensures rest[k] in s.tickets && rest[k].id != s.tickets[i].id
    {
      assert rest[k] == s.tickets[if k < i then k else k + 1];
    }
  }

  /** Removing one ticket keeps a valid store valid. */
  lemma RemoveKeepsValid(s: TicketStore, i: nat)
    requires StoreValid(s) && i < |s.tickets|
    ensures StoreValid(s.(tickets := RemoveAt(s.tickets, i)))
  {
    var rest := RemoveAt(s.tickets, i);
    forall k | 0 <= k < |rest|
      ensures rest[k] == s.tickets[if k < i then k else k + 1]
    {
    }
    forall a, b | 0 <= a < b < |rest|
      ensures rest[a].id != rest[b].id
    {
      assert rest[a] == s.tickets[if a < i then a else a + 1];
      assert rest[b] == s.tickets[if b < i then b else b + 1];
    }
  }

  /** `deleteTicket` (DELETE /tickets/:id): 404 with the store unchanged when
      the requester owns no ticket with that id; otherwise the matched ticket
      is removed and the others stay, in order. */
  function DeleteTicket(s: TicketStore, requester: Id, id: Id): (r: Step)
    ensures r.response.code in {200, 404}
    ensures r.response.code == 404 <==> forall k :: 0 <= k < |s.tickets| ==> !Matches(s.tickets[k], id, requester)
    ensures r.response.code == 404 ==> r.response == Response(404, NotFoundMessage, NoBody) && r.store == s
    ensures r.store.nextId == s.nextId
    ensures r.response.code == 200 ==>
      exists i :: 0 <= i < |s.tickets| && Matches(s.tickets[i], id, requester)
        && r.store.tickets == RemoveAt(s.tickets, i)
  {
    match FindOwned(s.tickets, id, requester)
    case None => Step(Response(404, NotFoundMessage, NoBody), s)
    case Some(i) => Step(Response(200, DeletedMessage, NoBody), s.(tickets := RemoveAt(s.tickets, i)))
  }

  /** On a valid store a delete keeps exactly the tickets that do not match,
      and the store stays valid. */
  lemma DeleteInValidStore(s: TicketStore, requester: Id, id: Id)
    requires StoreValid(s)
    ensures var r := DeleteTicket(s, requester, id);
      && (forall t :: t in r.store.tickets <==> t in s.tickets && !Matches(t, id, requester))
      && StoreValid(r.store)
  {
    match FindOwned(s.tickets, id, requester)
    case None =>
    case Some(i) =>
      RemoveDropsOnlyItsId(s, i);
      RemoveKeepsValid(s, i);
      forall t | t in s.tickets && t.id == id
        ensures Matches(t, id, requester)
      {
        var k :| 0 <= k < |s.tickets| && s.tickets[k] == t;
        assert k == i;
      }
  }

  /** The positions in `ts` of the owner's tickets stored with the status
      spelled `name`: the documents `{ userId: owner, status: name }` matches. */
  function StatusPositions(ts: seq<Ticket>, owner: Id, name: string): set<nat> {
    set k: nat | k < |ts| && ts[k].owner == owner && StatusName(ts[k].status) == name
  }

  /** Every position of `a` moved one place up. */
  function ShiftUp(a: set<nat>): set<nat> {
    set k | k in a :: k + 1
  }

  lemma {:induction false} ShiftUpSize(a: set<nat>)
    ensures |ShiftUp(a)| == |a|
  {
    if a != {} {
      var x :| x in a;
      ShiftUpSize(a - {x});
      forall k | k in ShiftUp(a)
        ensures k in ShiftUp(a - {x}) + {x + 1}
      {
        var j :| j in a && k == j + 1;
        if j != x {
          assert j in a - {x};
        }
      }
      assert ShiftUp(a) == ShiftUp(a - {x}) + {x + 1};
    }
  }

  /** The matching positions of a non-empty sequence: its first position, if
      it matches, and those of the rest moved one place up. */
  lemma StatusPositionsStep(ts: seq<Ticket>, owner: Id, name: string)
    requires ts != []
    ensures |StatusPositions(ts, owner, name)|
      == (if ts[0].owner == owner && StatusName(ts[0].status) == name then 1 else 0)
         + |StatusPositions(ts[1..], owner, name)|
  {
    var rest := StatusPositions(ts[1..], owner, name);
    var head: set<nat> := if ts[0].owner == owner && StatusName(ts[0].status) == name then {0} else {};
    forall k | k in StatusPositions(ts, owner, name) && k > 0
      ensures k in ShiftUp(rest)
    {
      assert k - 1 in rest;
    }
    assert StatusPositions(ts, owner, name) == head + ShiftUp(rest);
    ShiftUpSize(rest);
  }

  /** `countDocuments({ userId: owner, status: name })`: how many of the
      owner's tickets are stored with the status spelled `name`. */
  function CountStatus(ts: seq<Ticket>, owner: Id, name: string): (n: nat)
    ensures n == |StatusPositions(ts, owner, name)|
    ensures n <= |OwnedBy(ts, owner)|
  {
    if ts == [] then
      assert StatusPositions(ts, owner, name) == {};
      0
    else
      StatusPositionsStep(ts, owner, name);
      (if ts[0].owner == owner && StatusName(ts[0].status) == name then 1 else 0)
        + CountStatus(ts[1..], owner, name)
  }

  /** The owner filter of a non-empty sequence: its first ticket, if owned,
      and the filter of the rest. */
  lemma OwnedByStep(ts: seq<Ticket>, owner: Id)
    requires ts != []
    ensures |OwnedBy(ts, owner)| == (if ts[0].owner == owner then 1 else 0) + |OwnedBy(ts[1..], owner)|
  {
  }

  /** Counting the three legal spellings partitions the owner's tickets. */
  lemma {:induction false} CountStatusPartition(ts: seq<Ticket>, owner: Id)
    ensures CountStatus(ts, owner, "Open") + CountStatus(ts, owner, "inProgress")
      + CountStatus(ts, owner, "Resolved") == |OwnedBy(ts, owner)|
  {
    if ts != [] {
      CountStatusPartition(ts[1..], owner);
      OwnedByStep(ts, owner);
      var mine := ts[0].owner == owner;
      match ts[0].status
      case Open =>
        assert CountStatus(ts, owner, "Open") == (if mine then 1 else 0) + CountStatus(ts[1..], owner, "Open");
      case InProgress =>
        assert CountStatus(ts, owner, "inProgress") == (if mine then 1 else 0) + CountStatus(ts[1..], owner, "inProgress");
      case Resolved =>
        assert CountStatus(ts, owner, "Resolved") == (if mine then 1 else 0) + CountStatus(ts[1..], owner, "Resolved");
    }
  }

  /** No stored ticket is spelled `"In Progress"`, so counting it finds none. */
  lemma {:induction false} CountIllegalSpelling(ts: seq<Ticket>, owner: Id)
    ensures CountStatus(ts, owner, "In Progress") == 0
  {
    if ts != [] {
      assert StatusName(ts[0].status) != "In Progress";
      CountIllegalSpelling(ts[1..], owner);
    }
  }

  function StatsResponse(open: nat, inProgress: nat, resolved: nat): Response {
    Response(200, StatsMessage, Counts(Stats(open, inProgress, resolved, open + inProgress + resolved)))
  }

  /** `getTicketStats` as written: the middle count queries the spelling
      `"In Progress"`, which the status enum never admits, so it is always 0
      and the total misses every `inProgress` ticket. */
  function TicketStatsAsWritten(s: TicketStore, requester: Id): (r: Response)
    ensures r.code == 200 && r.body.Counts?
    ensures r.body.stats.total == r.body.stats.open + r.body.stats.inProgress + r.body.stats.resolved
    ensures r.body.stats.open == |StatusPositions(s.tickets, requester, "Open")|
    ensures r.body.stats.inProgress == 0
    ensures r.body.stats.resolved == |StatusPositions(s.tickets, requester, "Resolved")|
    ensures r.body.stats.total + CountStatus(s.tickets, requester, "inProgress") == |OwnedBy(s.tickets, requester)|
  {
    CountIllegalSpelling(s.tickets, requester);
    CountStatusPartition(s.tickets, requester);
    StatsResponse(
      CountStatus(s.tickets, requester, "Open"),
      CountStatus(s.tickets, requester, "In Progress"),
      CountStatus(s.tickets, requester, "Resolved"))
  }

  /** `getTicketStats` with the stored spelling `inProgress`: the three counts
      partition the requester's tickets, so the total is their number. */
  function TicketStats(s: TicketStore, requester: Id): (r: Response)
    ensures r.code == 200 && r.body.Counts?
    ensures r.body.stats.total == r.body.stats.open + r.body.stats.inProgress + r.body.stats.resolved
    ensures r.body.stats.open == |StatusPositions(s.tickets, requester, "Open")|
    ensures r.body.stats.inProgress == |StatusPositions(s.tickets, requester, "inProgress")|
    ensures r.body.stats.resolved == |StatusPositions(s.tickets, requester, "Resolved")|
    ensures r.body.stats.total == |OwnedBy(s.tickets, requester)|
  {
    CountStatusPartition(s.tickets, requester);
    StatsResponse(
      CountStatus(s.tickets, requester, "Open"),
      CountStatus(s.tickets, requester, "inProgress"),
      CountStatus(s.tickets, requester, "Resolved"))
  }
}
