/**
 * The messages page (src/pages/Messages.tsx): the signed-in user's messages
 * with the profiles of both parties, the contact requests they received,
 * accepting or rejecting one, and marking a message as read on opening it.
 */
module MessagesPage {
  import opened Wrappers
  import opened Tables
  import opened Storage

  /** Everyone who sent or received one of `messages`: the `Set` filled by `forEach`. */
  method CollectUserIds(messages: seq<Message>) returns (ids: set<UserId>)
    ensures forall u :: u in ids <==> exists m :: m in messages && (m.senderId == u || m.receiverId == u)
  {
    ids := {};
    var i := 0;
    while i < |messages|
      invariant 0 <= i <= |messages|
      invariant forall u :: u in ids <==> exists m :: m in messages[..i] && (m.senderId == u || m.receiverId == u)
    {
      assert messages[..i + 1] == messages[..i] + [messages[i]];
      ids := ids + {messages[i].senderId, messages[i].receiverId};
      i := i + 1;
    }
    assert messages[..i] == messages;
  }

  /** `new Map(rows.map(p => [p.user_id, p]))`: one entry per user id, a later row replacing an earlier one. */
  function ProfileIndex(rows: seq<ProfileSummary>): (index: map<UserId, ProfileSummary>)
    ensures forall u :: u in index <==> exists p :: p in rows && p.userId == u
    ensures forall u :: u in index ==> index[u] in rows && index[u].userId == u
  {
    if rows == [] then map[]
    else
      var init, last := rows[..|rows| - 1], rows[|rows| - 1];
      assert rows == init + [last];
      ProfileIndex(init)[last.userId := last]
  }

  /** A row whose user id no later row repeats is the one the index keeps. */
  lemma {:induction false} LastRowWins(rows: seq<ProfileSummary>, i: nat)
    requires i < |rows| && forall j :: i < j < |rows| ==> rows[j].userId != rows[i].userId
    ensures ProfileIndex(rows)[rows[i].userId] == rows[i]
  {
    var init := rows[..|rows| - 1];
    if i < |rows| - 1 {
      LastRowWins(init, i);
    }
  }

  /** `profilesMap.get(id) || null`. */
  function Lookup(index: map<UserId, ProfileSummary>, u: UserId): Option<ProfileSummary> {
    if u in index then Some(index[u]) else None
  }

  /**
   * What a joined profile may be: none when the profile query failed;
   * otherwise a visible profile of that very user, and none exactly when
   * the user has no visible profile.
   */
  predicate ProfileOf(p: Option<ProfileSummary>, u: UserId, profiles: seq<ProfileSummary>, profilesFailed: bool) {
    if profilesFailed then p.None?
    else
      (p.Some? ==> p.value in profiles && p.value.userId == u) &&
      (p.None? <==> forall q :: q in profiles ==> q.userId != u)
  }

  /** The index over the rows fetched for `ids`, or the empty map when that query failed. */
  function FetchedIndex(profiles: seq<ProfileSummary>, ids: set<UserId>, profilesFailed: bool): (index: map<UserId, ProfileSummary>)
    ensures forall u :: u in ids ==> ProfileOf(Lookup(index, u), u, profiles, profilesFailed)
  {
    if profilesFailed then map[] else ProfileIndex(ProfilesOf(profiles, ids))
  }

  datatype InboxEntry = InboxEntry(message: Message, senderProfile: Option<ProfileSummary>, receiverProfile: Option<ProfileSummary>)

  /** Each message of `inbox` joined with the profiles of its sender and receiver. */
  method JoinInbox(inbox: seq<Message>, profiles: seq<ProfileSummary>, profilesFailed: bool)
    returns (entries: seq<InboxEntry>)
    ensures |entries| == |inbox|
    ensures forall i :: 0 <= i < |entries| ==>
      entries[i].message == inbox[i] &&
      ProfileOf(entries[i].senderProfile, inbox[i].senderId, profiles, profilesFailed) &&
      ProfileOf(entries[i].receiverProfile, inbox[i].receiverId, profiles, profilesFailed)
  {
    var ids := CollectUserIds(inbox);
    var index := FetchedIndex(profiles, ids, profilesFailed);
    entries := seq(|inbox|, i requires 0 <= i < |inbox| =>
      InboxEntry(inbox[i], Lookup(index, inbox[i].senderId), Lookup(index, inbox[i].receiverId)));
    forall i | 0 <= i < |inbox|
      ensures inbox[i].senderId in ids && inbox[i].receiverId in ids
    {
      assert inbox[i] in inbox;
    }
  }

  datatype RequestEntry = RequestEntry(request: ContactRequest, senderProfile: Option<ProfileSummary>)

  /** Each request of `received` joined with the profile of its sender. */
  method JoinRequests(received: seq<ContactRequest>, profiles: seq<ProfileSummary>, profilesFailed: bool)
    returns (entries: seq<RequestEntry>)
    ensures |entries| == |received|
    ensures forall i :: 0 <= i < |entries| ==>
      entries[i].request == received[i] &&
      ProfileOf(entries[i].senderProfile, received[i].senderId, profiles, profilesFailed)
  {
    var senderIds := set i | 0 <= i < |received| :: received[i].senderId;
    var index := FetchedIndex(profiles, senderIds, profilesFailed);
    entries := seq(|received|, i requires 0 <= i < |received| =>
      RequestEntry(received[i], Lookup(index, received[i].senderId)));
  }

  /** A message shows as read in the list once the entry carries the flag. */
  function MarkEntryRead(entries: seq<InboxEntry>, id: nat): (r: seq<InboxEntry>)
    ensures |r| == |entries|
    ensures forall i :: 0 <= i < |r| ==>
      r[i] == if entries[i].message.id == id then entries[i].(message := entries[i].message.(read := true)) else entries[i]
  {
    seq(|entries|, i requires 0 <= i < |entries| =>
      if entries[i].message.id == id then entries[i].(message := entries[i].message.(read := true)) else entries[i])
  }

  /** Marking the same message twice is marking it once. */
  lemma MarkEntryReadIdempotent(entries: seq<InboxEntry>, id: nat)
    ensures MarkEntryRead(MarkEntryRead(entries, id), id) == MarkEntryRead(entries, id)
  {
    var once := MarkEntryRead(entries, id);
    var twice := MarkEntryRead(once, id);
    forall i | 0 <= i < |entries| ensures twice[i] == once[i] {
    }
  }

  /** The store refuses to mark a message read for anyone but its receiver. */
  lemma OnlyReceiverMarksRead(messages: seq<Message>, id: nat, user: UserId)
    requires forall m :: m in messages && m.id == id ==> m.receiverId != user
    ensures SetReadWhere(messages, ByIdFor(id, user)) == messages
  {
    var r := SetReadWhere(messages, ByIdFor(id, user));
    forall i | 0 <= i < |messages| ensures r[i] == messages[i] {
      assert messages[i] in messages;
    }
  }

  /** The positions of the pending requests. */
  function PendingPositions(requests: seq<RequestEntry>): set<int> {
    set i | 0 <= i < |requests| && requests[i].request.status == Pending
  }

  /** The number on the requests tab: `filter(req => req.status === 'pending').length`. */
  function PendingCount(requests: seq<RequestEntry>): (n: nat)
    ensures n == |PendingPositions(requests)|
    ensures n <= |requests|
    ensures n == 0 <==> forall q :: q in requests ==> q.request.status != Pending
  {
    var pending := (q: RequestEntry) => q.request.status == Pending;
    var sel := Where(requests, pending);
    WhereCount(requests, pending);
    assert Positions(requests, pending) == PendingPositions(requests);
    assert sel != [] ==> sel[0] in sel;
    |sel|
  }

  /** Accepting or rejecting a request leaves no pending row with that id for that receiver. */
  lemma ResolvedIsNotPending(requests: seq<ContactRequest>, id: nat, user: UserId, action: Status)
    requires action != Pending
    ensures forall q :: q in SetStatusWhere(requests, id, user, action) && q.id == id && q.receiverId == user ==>
      q.status == action
  {
    var r := SetStatusWhere(requests, id, user, action);
    forall q | q in r && q.id == id && q.receiverId == user ensures q.status == action {
      var i :| 0 <= i < |r| && r[i] == q;
    }
  }

  class Page {
    var messages: seq<InboxEntry>
    var requests: seq<RequestEntry>
    var loading: bool
    var selected: Option<InboxEntry>

    constructor ()
      ensures messages == [] && requests == [] && loading && selected.None?
    {
      messages, requests, loading, selected := [], [], true, None;
    }

    /** Whether the requests tab shows a badge. */
    function ShowsBadge(): (b: bool)
      reads this
      ensures b <==> exists q :: q in requests && q.request.status == Pending
    {
      PendingCount(requests) > 0
    }

    /**
     * `fetchMessages`: every message the user sent or received, newest
     * first, each with the visible profiles of its sender and receiver. A
     * failed message query leaves the list as it was; either way loading
     * ends.
     */
    method FetchMessages(user: Option<UserId>, store: Store, profiles: seq<ProfileSummary>,
                         failure: Option<DbError>, profilesFailed: bool)
      modifies this
      ensures user.None? ==> messages == old(messages) && loading == old(loading)
      ensures requests == old(requests) && selected == old(selected)
      ensures user.Some? ==> !loading
      ensures user.Some? && failure.Some? ==> messages == old(messages)
      ensures user.Some? && failure.None? ==>
        var inbox := Inbox(store.messages, user.value);
        |messages| == |inbox| &&
        forall i :: 0 <= i < |messages| ==>
          messages[i].message == inbox[i] &&
          ProfileOf(messages[i].senderProfile, inbox[i].senderId, profiles, profilesFailed) &&
          ProfileOf(messages[i].receiverProfile, inbox[i].receiverId, profiles, profilesFailed)
    {
      if user.None? {
        return;
      }
      if failure.None? {
        messages := JoinInbox(Inbox(store.messages, user.value), profiles, profilesFailed);
      }
      loading := false;
    }

    /**
     * `fetchContactRequests`: the requests the user received, newest first,
     * each with the sender's visible profile. A failed query changes nothing.
     */
    method FetchContactRequests(user: Option<UserId>, store: Store, profiles: seq<ProfileSummary>,
                                failure: Option<DbError>, profilesFailed: bool)
      modifies this
      ensures messages == old(messages) && loading == old(loading) && selected == old(selected)
      ensures user.None? || failure.Some? ==> requests == old(requests)
      ensures user.Some? && failure.None? ==>
        var received := RequestsReceivedBy(store.requests, user.value);
        |requests| == |received| &&
        forall i :: 0 <= i < |requests| ==>
          requests[i].request == received[i] &&
          ProfileOf(requests[i].senderProfile, received[i].senderId, profiles, profilesFailed)
    {
      if user.None? || failure.Some? {
        return;
      }
      requests := JoinRequests(RequestsReceivedBy(store.requests, user.value), profiles, profilesFailed);
    }

    /**
     * `handleContactRequest`: the store sets the status of the request with
     * that id addressed to the user; on success the list is fetched again,
     * on a refusal nothing else changes.
     */
    method HandleContactRequest(user: UserId, store: Store, requestId: nat, action: Status,
                                refusal: Option<DbError>, profiles: seq<ProfileSummary>,
                                refetchFailure: Option<DbError>, profilesFailed: bool)
      returns (ok: bool)
      requires store.Valid() && action != Pending
      modifies this, store
      ensures store.Valid() && store.messages == old(store.messages) && ok == refusal.None?
      ensures store.requests == if ok then SetStatusWhere(old(store.requests), requestId, user, action) else old(store.requests)
      ensures messages == old(messages) && loading == old(loading) && selected == old(selected)
      ensures !ok || refetchFailure.Some? ==> requests == old(requests)
      ensures ok && refetchFailure.None? ==>
        var received := RequestsReceivedBy(store.requests, user);
        |requests| == |received| &&
        forall i :: 0 <= i < |requests| ==>
          requests[i].request == received[i] &&
          ProfileOf(requests[i].senderProfile, received[i].senderId, profiles, profilesFailed)
    {
      var error := store.UpdateRequestStatus(requestId, user, action, refusal);
      ok := error.None?;
      if ok {
        FetchContactRequests(Some(user), store, profiles, refetchFailure, profilesFailed);
      }
    }

    /**
     * `markAsRead`: the store marks the message read only if the user
     * received it; on success the local entry with that id is marked read.
     */
    method MarkAsRead(user: Option<UserId>, store: Store, messageId: nat, refusal: Option<DbError>)
      requires store.Valid()
      modifies this, store
      ensures store.Valid() && store.requests == old(store.requests)
      ensures requests == old(requests) && loading == old(loading) && selected == old(selected)
      ensures user.None? || refusal.Some? ==> store.messages == old(store.messages) && messages == old(messages)
      ensures user.Some? && refusal.None? ==>
        store.messages == SetReadWhere(old(store.messages), ByIdFor(messageId, user.value)) &&
        messages == MarkEntryRead(old(messages), messageId)
    {
      if user.None? {
        return;
      }
      var error := store.MarkRead(ByIdFor(messageId, user.value), refusal);
      if error.None? {
        messages := MarkEntryRead(messages, messageId);
      }
    }

    /** `openMessage`: selects the entry and marks it read when it is unread and addressed to the user. */
    method OpenMessage(user: Option<UserId>, store: Store, entry: InboxEntry, refusal: Option<DbError>)
      requires store.Valid()
      modifies this, store
      ensures store.Valid() && store.requests == old(store.requests)
      ensures selected == Some(entry) && requests == old(requests) && loading == old(loading)
      ensures entry.message.read || user != Some(entry.message.receiverId) ==>
        store.messages == old(store.messages) && messages == old(messages)
      ensures !entry.message.read && user == Some(entry.message.receiverId) && refusal.Some? ==>
        store.messages == old(store.messages) && messages == old(messages)
      ensures !entry.message.read && user == Some(entry.message.receiverId) && refusal.None? ==>
        store.messages == SetReadWhere(old(store.messages), ByIdFor(entry.message.id, user.value)) &&
        messages == MarkEntryRead(old(messages), entry.message.id)
    {
      selected := Some(entry);
      if !entry.message.read && user == Some(entry.message.receiverId) {
        MarkAsRead(user, store, entry.message.id, refusal);
      }
    }
  }
}
