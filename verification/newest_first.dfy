/**
  The owner filter and the `createdAt` descending order that the ticket list
  is returned in, as an insertion sort on sequences.
 */
module NewestFirst {
  import opened Common
  import opened TicketSchema

  /** The tickets of `ts` owned by `owner`, in store order. */
  function OwnedBy(ts: seq<Ticket>, owner: Id): (r: seq<Ticket>)
    ensures |r| <= |ts|
    ensures forall t :: t in r <==> t in ts && t.owner == owner
    ensures forall t :: multiset(r)[t] == if t.owner == owner then multiset(ts)[t] else 0
  {
    if ts == [] then []
    else
      assert ts == [ts[0]] + ts[1..];
      (if ts[0].owner == owner then [ts[0]] else []) + OwnedBy(ts[1..], owner)
  }

  /** Every ticket is at least as new as the ones after it; ties in any order. */
  predicate SortedNewestFirst(ts: seq<Ticket>) {
    forall i, j :: 0 <= i < j < |ts| ==> ts[i].createdAt >= ts[j].createdAt
  }

  /** Places `t` before the first ticket that is not newer than it. */
  function Insert(t: Ticket, ts: seq<Ticket>): (r: seq<Ticket>)
    requires SortedNewestFirst(ts)
    ensures SortedNewestFirst(r)
    ensures forall k :: 0 <= k < |r| ==> r[k] == t || r[k] in ts
    ensures multiset(r) == multiset(ts) + multiset{t}
  {
    if ts == [] || t.createdAt >= ts[0].createdAt then
      assert forall k :: 0 <= k < |ts| ==> t.createdAt >= ts[k].createdAt;
      SortedCons(t, ts);
      [t] + ts
    else
      var rest := Insert(t, ts[1..]);
      assert ts == [ts[0]] + ts[1..];
      assert forall k :: 0 <= k < |rest| ==> ts[0].createdAt >= rest[k].createdAt;
      SortedCons(ts[0], rest);
      [ts[0]] + rest
  }

  /** A ticket at least as new as every ticket of a newest-first list can go
      in front of it. */
  lemma SortedCons(t: Ticket, ts: seq<Ticket>)
    requires SortedNewestFirst(ts)
    requires forall k :: 0 <= k < |ts| ==> t.createdAt >= ts[k].createdAt
    ensures SortedNewestFirst([t] + ts)
  {
    var r := [t] + ts;
    forall i, j | 0 <= i < j < |r|
      ensures r[i].createdAt >= r[j].createdAt
    {
      assert r[j] == ts[j - 1];
    }
  }

  /** The same tickets, newest first. */
  function Sort(ts: seq<Ticket>): (r: seq<Ticket>)
    ensures SortedNewestFirst(r)
    ensures multiset(r) == multiset(ts)
  {
    if ts == [] then []
    else
      assert ts == [ts[0]] + ts[1..];
      Insert(ts[0], Sort(ts[1..]))
  }
}
