/**
 * The contacts list (src/components/messaging/ContactsList.tsx): the other
 * parties of the user's accepted requests, each with the newest message of
 * the conversation and the number of unread messages from them, sorted in
 * place so that the most recent conversation comes first.
 */
module Contacts {
  import opened Wrappers
  import opened Tables
  import opened Storage

  datatype Contact = Contact(profile: ProfileSummary, lastMessage: Option<Message>, unreadCount: nat)

  /**
   * The comparator given to `sort`: negative when `a` goes first, that is
   * when `a` has a last message and `b` has none or an older one.
   */
  function Compare(a: Contact, b: Contact): (c: int)
    ensures c < 0 <==> a.lastMessage.Some? && (b.lastMessage.None? || a.lastMessage.value.createdAt > b.lastMessage.value.createdAt)
    ensures c == 0 <==> ((a.lastMessage.None? && b.lastMessage.None?) ||
      (a.lastMessage.Some? && b.lastMessage.Some? && a.lastMessage.value.createdAt == b.lastMessage.value.createdAt))
  {
    if a.lastMessage.None? && b.lastMessage.None? then 0
    else if a.lastMessage.None? then 1
    else if b.lastMessage.None? then -1
    else b.lastMessage.value.createdAt - a.lastMessage.value.createdAt
  }

  /** The comparator is consistent: swapping its arguments flips its sign. */
  lemma CompareAntisymmetric(a: Contact, b: Contact)
    ensures Compare(a, b) < 0 <==> Compare(b, a) > 0
    ensures Compare(a, b) == 0 <==> Compare(b, a) == 0
  {
  }

  /** "Goes no later than" is transitive, so `sort` has a well-defined result order. */
  lemma CompareTransitive(a: Contact, b: Contact, c: Contact)
    requires Compare(a, b) <= 0 && Compare(b, c) <= 0
    ensures Compare(a, c) <= 0
  {
  }

  predicate SortedContacts(s: seq<Contact>) {
    forall i, j :: 0 <= i < j < |s| ==> Compare(s[i], s[j]) <= 0
  }

  /**
   * What the order means: a contact with a last message comes before every
   * contact without one, and among those with one the newer comes first.
   */
  lemma SortedMeansNewestFirst(s: seq<Contact>, i: nat, j: nat)
    requires SortedContacts(s) && i < j < |s|
    ensures s[j].lastMessage.Some? ==> s[i].lastMessage.Some?
    ensures s[i].lastMessage.Some? && s[j].lastMessage.Some? ==>
      s[i].lastMessage.value.createdAt >= s[j].lastMessage.value.createdAt
  {
    assert Compare(s[i], s[j]) <= 0;
  }

  /**
   * The state of moving element `j` down through `s[..i + 1]`: apart from
   * position `j` the prefix is in order, `s[j]` goes before everything after
   * it, and its two neighbours are in order with each other.
   */
  predicate SiftInvariant(s: seq<Contact>, j: nat, i: nat)
    requires j <= i < |s|
  {
    (forall k, l :: 0 <= k < l <= i && k != j && l != j ==> Compare(s[k], s[l]) <= 0) &&
    (forall l :: j < l <= i ==> Compare(s[j], s[l]) <= 0) &&
    (0 < j < i ==> Compare(s[j - 1], s[j + 1]) <= 0)
  }

  lemma SiftStart(s: seq<Contact>, i: nat)
    requires i < |s| && SortedContacts(s[..i])
    ensures SiftInvariant(s, i, i)
  {
    forall k, l | 0 <= k < l <= i && k != i && l != i ensures Compare(s[k], s[l]) <= 0 {
      assert s[k] == s[..i][k] && s[l] == s[..i][l];
    }
  }

  /** Swapping an out-of-order element with its left neighbour keeps the invariant, one place further left. */
  lemma SiftStep(s: seq<Contact>, j: nat, i: nat)
    requires 0 < j <= i < |s| && SiftInvariant(s, j, i) && Compare(s[j - 1], s[j]) > 0
    ensures SiftInvariant(s[j - 1 := s[j]][j := s[j - 1]], j - 1, i)
  {
    CompareAntisymmetric(s[j - 1], s[j]);
  }

  /** Once the element is in order with its left neighbour, the whole prefix is sorted. */
  lemma SiftDone(s: seq<Contact>, j: nat, i: nat)
    requires j <= i < |s| && SiftInvariant(s, j, i) && (j == 0 || Compare(s[j - 1], s[j]) <= 0)
    ensures SortedContacts(s[..i + 1])
  {
    forall k | 0 <= k < j
      ensures Compare(s[k], s[j]) <= 0
    {
      if k < j - 1 {
        CompareTransitive(s[k], s[j - 1], s[j]);
      }
    }
    var t := s[..i + 1];
    forall k, l | 0 <= k < l < |t| ensures Compare(t[k], t[l]) <= 0 {
      assert t[k] == s[k] && t[l] == s[l];
    }
  }

  /** One swap of `a[j]` with its left neighbour. */
  method SwapDown(a: array<Contact>, j: nat, ghost i: nat)
    requires 0 < j <= i < a.Length && SiftInvariant(a[..], j, i) && Compare(a[j - 1], a[j]) > 0
    modifies a
    ensures SiftInvariant(a[..], j - 1, i)
    ensures multiset(a[..]) == multiset(old(a[..]))
  {
    SiftStep(a[..], j, i);
    a[j - 1], a[j] := a[j], a[j - 1];
    assert a[..] == old(a[..])[j - 1 := old(a[j])][j := old(a[j - 1])];
  }

  /** Moves `a[i]` down into the sorted prefix `a[..i]`, one swap at a time. */
  method InsertIntoPrefix(a: array<Contact>, i: nat)
    requires i < a.Length && SortedContacts(a[..i])
    modifies a
    ensures SortedContacts(a[..i + 1])
    ensures multiset(a[..]) == multiset(old(a[..]))
  {
    SiftStart(a[..], i);
    var j := i;
    while j > 0 && Compare(a[j - 1], a[j]) > 0
      invariant 0 <= j <= i
      invariant multiset(a[..]) == multiset(old(a[..]))
      invariant SiftInvariant(a[..], j, i)
    {
      SwapDown(a, j, i);
      j := j - 1;
    }
    SiftDone(a[..], j, i);
  }

  /** `contactsWithMessages.sort(compare)`: an insertion sort in place. */
  method SortContacts(a: array<Contact>)
    modifies a
    ensures SortedContacts(a[..])
    ensures multiset(a[..]) == multiset(old(a[..]))
  {
    var i := 0;
    while i < a.Length
      invariant 0 <= i <= a.Length
      invariant SortedContacts(a[..i])
      invariant multiset(a[..]) == multiset(old(a[..]))
    {
      ghost var before := a[..];
      InsertIntoPrefix(a, i);
      assert a[..] == a[..i + 1] + a[i + 1..];
      assert before == before[..i + 1] + before[i + 1..];
      i := i + 1;
    }
    assert a[..] == a[..a.Length];
  }

  /** `u` is the other party of one of the user's accepted requests. */
  predicate IsContactOf(requests: seq<ContactRequest>, user: UserId, u: UserId) {
    exists q :: q in requests && q.status == Accepted && (q.senderId == user || q.receiverId == user) &&
      OtherParty(q, user) == u
  }

  /** The contact ids: the other party of each accepted request. */
  function ContactIds(requests: seq<ContactRequest>, user: UserId): (ids: set<UserId>)
    ensures forall u :: u in ids <==> IsContactOf(requests, user, u)
  {
    var accepted := AcceptedInvolving(requests, user);
    set q | q in accepted :: OtherParty(q, user)
  }

  /** The entry built for one profile: the conversation's newest message and the unread count from that user. */
  function ContactFor(messages: seq<Message>, user: UserId, p: ProfileSummary): (c: Contact)
    ensures c.profile == p
    ensures c.lastMessage.None? <==> forall m :: m in messages ==> !InConversation(m, user, p.userId)
    ensures c.lastMessage.Some? ==> c.lastMessage.value in messages && InConversation(c.lastMessage.value, user, p.userId)
    ensures c.lastMessage.Some? ==>
      forall m :: m in messages && InConversation(m, user, p.userId) ==> m.createdAt <= c.lastMessage.value.createdAt
    ensures c.unreadCount == |UnreadPositions(messages, p.userId, user)|
    ensures c.unreadCount == 0 <==> forall m :: m in messages ==> !UnreadFrom(m, p.userId, user)
  {
    Contact(p, LastMessageBetween(messages, user, p.userId), UnreadCount(messages, p.userId, user))
  }

  /** One entry per fetched profile, in the order the profiles came back. */
  function BuildContacts(messages: seq<Message>, user: UserId, rows: seq<ProfileSummary>): (r: seq<Contact>)
    ensures |r| == |rows|
    ensures forall i :: 0 <= i < |r| ==> r[i] == ContactFor(messages, user, rows[i])
  {
    seq(|rows|, i requires 0 <= i < |rows| => ContactFor(messages, user, rows[i]))
  }

  /** The built entries, sorted in place in an array. */
  method SortedCopy(built: seq<Contact>) returns (r: seq<Contact>)
    ensures SortedContacts(r) && multiset(r) == multiset(built)
  {
    var arr := new Contact[|built|](i requires 0 <= i < |built| => built[i]);
    assert arr[..] == built;
    SortContacts(arr);
    r := arr[..];
  }

  /**
   * The list shown for `user`: sorted, and a permutation of the entries
   * built from the visible profile rows of the contacts, so that each row
   * has exactly one entry, computed from the messages.
   */
  predicate ListsContacts(contacts: seq<Contact>, requests: seq<ContactRequest>, messages: seq<Message>,
                          user: UserId, profiles: seq<ProfileSummary>)
  {
    SortedContacts(contacts) &&
    multiset(contacts) == multiset(BuildContacts(messages, user, ProfilesOf(profiles, ContactIds(requests, user)))) &&
    (forall c :: c in contacts ==>
      c.profile in profiles && IsContactOf(requests, user, c.profile.userId) &&
      c == ContactFor(messages, user, c.profile)) &&
    (forall p :: p in profiles && IsContactOf(requests, user, p.userId) ==>
      exists c :: c in contacts && c.profile == p)
  }

  /** Every entry of a permutation of the built entries is a contact's, computed from the messages. */
  lemma PermutationSound(contacts: seq<Contact>, built: seq<Contact>, rows: seq<ProfileSummary>,
                         requests: seq<ContactRequest>, messages: seq<Message>, user: UserId, profiles: seq<ProfileSummary>)
    requires rows == ProfilesOf(profiles, ContactIds(requests, user))
    requires built == BuildContacts(messages, user, rows)
    requires multiset(contacts) == multiset(built)
    ensures forall c :: c in contacts ==>
      c.profile in profiles && IsContactOf(requests, user, c.profile.userId) &&
      c == ContactFor(messages, user, c.profile)
  {
    forall c | c in contacts
      ensures c in built
    {
      assert c in multiset(contacts);
    }
  }

  /** Every fetched profile has its entry in a permutation of the entries built from the rows. */
  lemma PermutationComplete(contacts: seq<Contact>, built: seq<Contact>, rows: seq<ProfileSummary>)
    requires |built| == |rows| && forall i :: 0 <= i < |rows| ==> built[i].profile == rows[i]
    requires multiset(contacts) == multiset(built)
    ensures forall p :: p in rows ==> exists c :: c in contacts && c.profile == p
  {
    forall p | p in rows
      ensures exists c :: c in contacts && c.profile == p
    {
      var k :| 0 <= k < |rows| && rows[k] == p;
      assert built[k] in multiset(built);
      assert built[k] in contacts;
    }
  }

  /**
   * The list after a fetch for `user`: kept when a query failed, empty
   * without contacts, and otherwise the user's contacts.
   */
  predicate Fetched(before: seq<Contact>, after: seq<Contact>, requests: seq<ContactRequest>, messages: seq<Message>,
                    user: UserId, profiles: seq<ProfileSummary>, requestsFailure: Option<DbError>, profilesFailure: Option<DbError>)
  {
    if requestsFailure.Some? then after == before
    else if ContactIds(requests, user) == {} then after == []
    else if profilesFailure.Some? then after == before
    else ListsContacts(after, requests, messages, user, profiles)
  }

  class ContactsView {
    var contacts: seq<Contact>
    var loading: bool
    var subscribed: bool

    constructor ()
      ensures contacts == [] && loading && !subscribed
    {
      contacts, loading, subscribed := [], true, false;
    }

    /**
     * `fetchContacts`. With no accepted request the list is empty. Otherwise
     * it holds one contact per visible profile row of a contact id and
     * nothing else, each with its conversation's newest message and its
     * unread count, in the comparator's order. A failed query keeps the old
     * list.
     */
    method FetchContacts(user: Option<UserId>, store: Store, profiles: seq<ProfileSummary>,
                         requestsFailure: Option<DbError>, profilesFailure: Option<DbError>)
      modifies this
      ensures subscribed == old(subscribed)
      ensures user.None? ==> contacts == old(contacts) && loading == old(loading)
      ensures user.Some? ==> !loading
      ensures user.Some? ==>
        Fetched(old(contacts), contacts, store.requests, store.messages, user.value, profiles, requestsFailure, profilesFailure)
    {
      if user.None? {
        return;
      }
      if requestsFailure.Some? {
        loading := false;
        return;
      }
      var ids := ContactIds(store.requests, user.value);
      if ids == {} {
        contacts := [];
        loading := false;
        return;
      }
      if profilesFailure.Some? {
        loading := false;
        return;
      }
      var rows := ProfilesOf(profiles, ids);
      var built := BuildContacts(store.messages, user.value, rows);
      contacts := SortedCopy(built);
      PermutationSound(contacts, built, rows, store.requests, store.messages, user.value, profiles);
      PermutationComplete(contacts, built, rows);
      loading := false;
    }

    /** Mounting with a user fetches the list and subscribes to new messages; without one nothing happens. */
    method Mount(user: Option<UserId>, store: Store, profiles: seq<ProfileSummary>,
                 requestsFailure: Option<DbError>, profilesFailure: Option<DbError>)
      modifies this
      ensures subscribed == (old(subscribed) || user.Some?)
      ensures user.None? ==> contacts == old(contacts) && loading == old(loading)
      ensures user.Some? ==> !loading
      ensures user.Some? ==>
        Fetched(old(contacts), contacts, store.requests, store.messages, user.value, profiles, requestsFailure, profilesFailure)
    {
      if user.Some? {
        FetchContacts(user, store, profiles, requestsFailure, profilesFailure);
        subscribed := true;
      }
    }

    /** Any inserted message, whoever it concerns, triggers a full refetch while subscribed. */
    method OnMessageInsert(user: Option<UserId>, store: Store, profiles: seq<ProfileSummary>,
                           requestsFailure: Option<DbError>, profilesFailure: Option<DbError>)
      modifies this
      ensures subscribed == old(subscribed)
      ensures !subscribed || user.None? ==> contacts == old(contacts) && loading == old(loading)
      ensures subscribed && user.Some? ==> !loading
      ensures subscribed && user.Some? ==>
        Fetched(old(contacts), contacts, store.requests, store.messages, user.value, profiles, requestsFailure, profilesFailure)
    {
      if subscribed {
        FetchContacts(user, store, profiles, requestsFailure, profilesFailure);
      }
    }

    /** Unmounting removes the channel. */
    method Unmount()
      modifies this
      ensures !subscribed && contacts == old(contacts) && loading == old(loading)
    {
      subscribed := false;
    }
  }
}
