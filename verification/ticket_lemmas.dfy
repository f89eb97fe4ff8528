/**
  Properties that relate several ticket handlers: owner scoping, what a
  second delete or update sees, the statistics against the list, and the
  boundaries of the schema and of the overdue rule.
 */
module TicketLemmas {
  import opened Common
  import opened Text
  import opened TicketSchema
  import opened NewestFirst
  import opened TicketService

  /** A ticket owned by someone else is indistinguishable from a missing
      one: reading, updating and deleting it all answer the same 404 and
      change nothing. */
  lemma ForeignTicketLooksMissing(s: TicketStore, requester: Id, id: Id, p: TicketPatch)
    requires forall k :: 0 <= k < |s.tickets| && s.tickets[k].id == id ==> s.tickets[k].owner != requester
    ensures GetTicketById(s, requester, id) == Response(404, NotFoundMessage, NoBody)
    ensures UpdateTicket(s, requester, id, p) == Step(Response(404, NotFoundMessage, NoBody), s)
    ensures DeleteTicket(s, requester, id) == Step(Response(404, NotFoundMessage, NoBody), s)
  {
  }

  /** Deleting the same ticket twice: the second request finds nothing. */
  lemma DeleteTwiceNotFound(s: TicketStore, requester: Id, id: Id)
    requires StoreValid(s)
    ensures DeleteTicket(DeleteTicket(s, requester, id).store, requester, id).response.code == 404
  {
    DeleteInValidStore(s, requester, id);
  }

  /** Two tickets with the same enum spellings have the same enum values. */
  lemma SameNamesSameEnums(a: Ticket, b: Ticket)
    requires CategoryName(a.category) == CategoryName(b.category)
    requires PriorityName(a.priority) == PriorityName(b.priority)
    requires StatusName(a.status) == StatusName(b.status)
    ensures a.category == b.category && a.priority == b.priority && a.status == b.status
  {
    EnumNamesRoundTrip(a.category, a.priority, a.status, "");
    EnumNamesRoundTrip(b.category, b.priority, b.status, "");
  }

  /** On a valid store, a patch that supplies no field leaves the store as
      it was, whatever the response. */
  lemma EmptyPatchChangesNothing(s: TicketStore, requester: Id, id: Id)
    requires StoreValid(s)
    ensures UpdateTicket(s, requester, id, TicketPatch(None, None, None, None, None)).store == s
  {
    var p := TicketPatch(None, None, None, None, None);
    match FindOwned(s.tickets, id, requester)
    case None =>
    case Some(i) =>
      var t := s.tickets[i];
      assert ApplyPatch(ToDraft(t), p) == ToDraft(t);
      ValidTicketRoundTrip(t);
      assert UpdateTicket(s, requester, id, p) == UpdateAt(s, requester, id, p, i);
      assert s.tickets[i := t] == s.tickets;
  }

  /** The first owned match is decided by the tickets up to it. */
  lemma FindOwnedPrefix(a: seq<Ticket>, b: seq<Ticket>, id: Id, owner: Id, i: nat)
    requires FindOwned(a, id, owner) == Some(i)
    requires i < |b| && Matches(b[i], id, owner)
    requires forall k :: 0 <= k < i ==> b[k] == a[k]
    ensures FindOwned(b, id, owner) == Some(i)
  {
    assert FindOwned(b, id, owner).Some?;
  }

  /** Re-applying a patch to its own outcome builds the same document as the
      first application did. */
  lemma PatchStable(before: Ticket, after: Ticket, p: TicketPatch)
    requires PatchedFrom(before, after, p)
    ensures ApplyPatch(ToDraft(after), p) == ApplyPatch(ToDraft(before), p)
  {
  }

  /** Writing back the element already stored changes nothing. */
  lemma RewriteSame(ts: seq<Ticket>, i: nat, t: Ticket)
    requires i < |ts| && ts[i] == t
    ensures ts[i := t] == ts
  {
  }

  /** The outcome of an accepted patch validates to itself under the same
      patch. */
  lemma ReapplyPatch(before: Ticket, p: TicketPatch, after: Ticket)
    requires ValidTicket(before)
    requires Validate(ApplyPatch(ToDraft(before), p), before.id, before.createdAt) == Success(after)
    ensures Validate(ApplyPatch(ToDraft(after), p), after.id, after.createdAt) == Success(after)
  {
    PatchFields(before, p, after);
    PatchStable(before, after, p);
  }

  /** Applying the same accepted patch a second time changes nothing more. */
  lemma UpdateIdempotent(s: TicketStore, requester: Id, id: Id, p: TicketPatch)
    requires StoreValid(s)
    ensures var first := UpdateTicket(s, requester, id, p);
      first.response.code == 200 ==> UpdateTicket(first.store, requester, id, p).store == first.store
  {
    match FindOwned(s.tickets, id, requester)
    case None =>
    case Some(i) =>
      var first := UpdateAt(s, requester, id, p, i);
      if first.response.code == 200 {
        var after := first.response.body.ticket;
        var mid := first.store;
        ReapplyPatch(s.tickets[i], p, after);
        FindOwnedPrefix(s.tickets, mid.tickets, id, requester, i);
        assert UpdateTicket(mid, requester, id, p) == UpdateAt(mid, requester, id, p, i);
        assert mid.tickets[i] == after;
        RewriteSame(mid.tickets, i, after);
      }
  }

  /** The corrected statistics total is the length of the ticket list the
      same requester sees. */
  lemma StatsTotalIsListLength(s: TicketStore, requester: Id)
    ensures TicketStats(s, requester).body.stats.total == |GetUserTickets(s, requester).body.tickets|
  {
    var list := GetUserTickets(s, requester).body.tickets;
    var owned := OwnedBy(s.tickets, requester);
    assert multiset(list) == multiset(owned);
    assert |list| == |multiset(list)| == |multiset(owned)| == |owned|;
  }

  /** The statistics as written fall short of the list by exactly the
      number of `inProgress` tickets, so they agree only when there are none. */
  lemma StatsAsWrittenUndercount(s: TicketStore, requester: Id)
    ensures TicketStatsAsWritten(s, requester).body.stats.total + CountStatus(s.tickets, requester, "inProgress")
      == |GetUserTickets(s, requester).body.tickets|
    ensures TicketStatsAsWritten(s, requester).body.stats.total == |GetUserTickets(s, requester).body.tickets|
      <==> CountStatus(s.tickets, requester, "inProgress") == 0
  {
    StatsTotalIsListLength(s, requester);
  }

  /** A store that shows the undercount: a single valid `inProgress` ticket
      is listed, but the statistics as written report a total of 0 while the
      corrected ones report 1. */
  lemma StatsAsWrittenCounterexample(t: Ticket)
    requires ValidTicket(t) && t.status == InProgress
    ensures var s := TicketStore([t], t.id + 1);
      && StoreValid(s)
      && GetUserTickets(s, t.owner).body.tickets == [t]
      && TicketStatsAsWritten(s, t.owner).body.stats.total == 0
      && TicketStats(s, t.owner).body.stats.total == 1
  {
    var s := TicketStore([t], t.id + 1);
    assert OwnedBy(s.tickets, t.owner) == [t];
    var list := GetUserTickets(s, t.owner).body.tickets;
    assert multiset(list) == multiset{t};
    assert |list| == 1 && list[0] in multiset(list);
    assert CountStatus(s.tickets, t.owner, "inProgress") == 1;
  }

  /** A ticket just created is the requester's, is listed, and can be read
      back by its new id. */
  lemma CreatedTicketIsVisible(s: TicketStore, requester: Id, req: NewTicket, now: int)
    requires StoreValid(s)
    ensures var r := CreateTicket(s, requester, req, now);
      r.response.code == 201 ==>
        var t := r.store.tickets[|s.tickets|];
        && t in GetUserTickets(r.store, requester).body.tickets
        && GetTicketById(r.store, requester, s.nextId).body == OneTicket(t)
  {
    var r := CreateTicket(s, requester, req, now);
    if r.response.code == 201 {
      var t := r.store.tickets[|s.tickets|];
      var g := GetTicketById(r.store, requester, s.nextId);
      assert Matches(t, s.nextId, requester);
      assert g.code == 200;
      var i := FindOwned(r.store.tickets, s.nextId, requester).value;
      OnlyMatch(r.store, s.nextId, requester, i, |s.tickets|);
    }
  }

  /** The subject minimum at its boundary: with the other fields acceptable,
      a trimmed two-character subject fails validation (500) and a trimmed
      three-character one is created. */
  lemma SubjectLengthBoundary(s: TicketStore, requester: Id, req: NewTicket, now: int)
    requires Present(req.subject) && IsTrimmed(req.subject.value)
    requires forall i :: 0 <= i < |req.subject.value| ==> req.subject.value[i] as int < 0x1_0000
    requires Present(req.description) && Utf16Length(Trim(req.description.value)) >= DescriptionMinLength
    requires Present(req.category) && LegalCategory(req.category.value)
    requires Present(req.priority) && LegalPriority(req.priority.value)
    ensures |req.subject.value| == 2 ==> CreateTicket(s, requester, req, now).response.code == 500
    ensures |req.subject.value| == 3 ==> CreateTicket(s, requester, req, now).response.code == 201
  {
    var subject := req.subject.value;
    TrimFixesTrimmed(subject);
    Utf16LengthOfBmp(subject);
    assert !IsBlank(subject) by {
      assert !IsWhitespace(subject[0]);
    }
  }

  /** The overdue boundary: an open ticket exactly 24 hours old is not
      overdue, one millisecond later it is. */
  lemma OverdueBoundary(t: Ticket)
    requires t.status == Open
    ensures !IsOverdue(t, t.createdAt + OverdueAfterMs)
    ensures IsOverdue(t, t.createdAt + OverdueAfterMs + 1)
  {
  }

  /** Once overdue, a ticket stays overdue as time passes while its status
      is unchanged; a ticket that is not open never is. */
  lemma OverdueMonotone(t: Ticket, now: int, later: int)
    requires now <= later
    ensures IsOverdue(t, now) ==> IsOverdue(t, later)
    ensures t.status != Open ==> !IsOverdue(t, later)
  {
  }
}
