/**
 * The two messaging tables as an in-memory store. Each write the client
 * issues is a method; whether the store's own rules (row-level security,
 * unique keys, the network) refuse it is an input, since those rules are not
 * part of the client.
 */
module Storage {
  import opened Wrappers
  import opened Tables

  /** The `update({ status })` of a request: every row with the id and the receiver gets the new status. */
  function SetStatusWhere(requests: seq<ContactRequest>, id: nat, receiver: UserId, status: Status): (r: seq<ContactRequest>)
    ensures |r| == |requests|
    ensures forall i :: 0 <= i < |r| ==>
      r[i] == if requests[i].id == id && requests[i].receiverId == receiver then requests[i].(status := status) else requests[i]
  {
    seq(|requests|, i requires 0 <= i < |requests| =>
      if requests[i].id == id && requests[i].receiverId == receiver then requests[i].(status := status) else requests[i])
  }

  /**
   * The update does not look at the current status: a request that was
   * already accepted can be turned into a rejected one, and back.
   */
  lemma ResolveIgnoresStatus(requests: seq<ContactRequest>, i: nat, status: Status)
    requires i < |requests|
    ensures SetStatusWhere(requests, requests[i].id, requests[i].receiverId, status)[i].status == status
  {
  }

  /** Only the addressee can resolve a request: the same call made by anyone else changes nothing. */
  lemma ResolveByOtherChangesNothing(requests: seq<ContactRequest>, id: nat, caller: UserId, status: Status)
    requires forall q :: q in requests && q.id == id ==> q.receiverId != caller
    ensures SetStatusWhere(requests, id, caller, status) == requests
  {
    var r := SetStatusWhere(requests, id, caller, status);
    forall i | 0 <= i < |requests| ensures r[i] == requests[i] {
      assert requests[i] in requests;
    }
  }

  class Store {
    var requests: seq<ContactRequest>
    var messages: seq<Message>
    var nextId: nat

    /** Row ids are distinct and below `nextId`, the next one the store hands out. */
    predicate Valid()
      reads this
    {
      (forall i :: 0 <= i < |requests| ==> requests[i].id < nextId) &&
      (forall i, j :: 0 <= i < j < |requests| ==> requests[i].id != requests[j].id) &&
      (forall i :: 0 <= i < |messages| ==> messages[i].id < nextId) &&
      UniqueIds(messages)
    }

    constructor ()
      ensures Valid() && requests == [] && messages == []
    {
      requests, messages, nextId := [], [], 0;
    }

    /**
     * `insert` into `contact_requests`. The row gets a fresh id, the
     * default status `pending` and `now` as both timestamps; a refusal
     * leaves the table as it was and is returned.
     */
    method InsertRequest(sender: UserId, receiver: UserId, message: Option<string>, now: int, refusal: Option<DbError>)
      returns (error: Option<DbError>)
      requires Valid()
      modifies this
      ensures Valid() && messages == old(messages) && error == refusal
      ensures refusal.Some? ==> requests == old(requests) && nextId == old(nextId)
      ensures refusal.None? ==>
        requests == old(requests) + [ContactRequest(old(nextId), sender, receiver, Pending, message, now, now)]
    {
      error := refusal;
      if refusal.None? {
        requests := requests + [ContactRequest(nextId, sender, receiver, Pending, message, now, now)];
        nextId := nextId + 1;
      }
    }

    /** `update({ status }).eq("id", id).eq("receiver_id", receiver)` on `contact_requests`. */
    method UpdateRequestStatus(id: nat, receiver: UserId, status: Status, refusal: Option<DbError>)
      returns (error: Option<DbError>)
      requires Valid()
      modifies this
      ensures Valid() && messages == old(messages) && nextId == old(nextId) && error == refusal
      ensures requests == if refusal.Some? then old(requests) else SetStatusWhere(old(requests), id, receiver, status)
    {
      error := refusal;
      if refusal.None? {
        requests := SetStatusWhere(requests, id, receiver, status);
      }
    }

    /** `insert` into `messages`: a fresh id, unread, sent at `now`. */
    method InsertMessage(sender: UserId, receiver: UserId, subject: Option<string>, content: string, now: int, refusal: Option<DbError>)
      returns (error: Option<DbError>)
      requires Valid()
      modifies this
      ensures Valid() && requests == old(requests) && error == refusal
      ensures refusal.Some? ==> messages == old(messages) && nextId == old(nextId)
      ensures refusal.None? ==>
        messages == old(messages) + [Message(old(nextId), sender, receiver, subject, content, false, now)]
    {
      error := refusal;
      if refusal.None? {
        messages := messages + [Message(nextId, sender, receiver, subject, content, false, now)];
        nextId := nextId + 1;
      }
    }

    /** `update({ read: true })` on the messages selected by `hit`. */
    method MarkRead(hit: Message -> bool, refusal: Option<DbError>) returns (error: Option<DbError>)
      requires Valid()
      modifies this
      ensures Valid() && requests == old(requests) && nextId == old(nextId) && error == refusal
      ensures messages == if refusal.Some? then old(messages) else SetReadWhere(old(messages), hit)
    {
      error := refusal;
      if refusal.None? {
        messages := SetReadWhere(messages, hit);
      }
    }
  }

  /** `.eq("id", id).eq("receiver_id", receiver)`: one message, and only if `receiver` received it. */
  function ByIdFor(id: nat, receiver: UserId): Message -> bool {
    (m: Message) => m.id == id && m.receiverId == receiver
  }

  /** `.in("id", ids)`. */
  function ByIds(ids: set<nat>): Message -> bool {
    (m: Message) => m.id in ids
  }

  /** `.eq("receiver_id", receiver).eq("sender_id", sender)`. */
  function FromTo(sender: UserId, receiver: UserId): Message -> bool {
    (m: Message) => m.senderId == sender && m.receiverId == receiver
  }
}
