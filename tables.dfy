/**
 * The rows of the `contact_requests`, `messages` and `profiles` tables as
 * the messaging components read them, and the filters and orderings their
 * queries ask the store for.
 */
module Tables {
  import opened Wrappers

  type UserId = string

  /** The values the client writes to and reads from `contact_requests.status`. */
  datatype Status = Pending | Accepted | Rejected

  /** A row of `contact_requests`; the store assigns `id` and the timestamps. */
  datatype ContactRequest = ContactRequest(
    id: nat,
    senderId: UserId,
    receiverId: UserId,
    status: Status,
    message: Option<string>,
    createdAt: int,
    updatedAt: int)

  /** A row of `messages`. */
  datatype Message = Message(
    id: nat,
    senderId: UserId,
    receiverId: UserId,
    subject: Option<string>,
    content: string,
    read: bool,
    createdAt: int)

  /** The columns of `profiles` the messaging pages select. */
  datatype ProfileSummary = ProfileSummary(userId: UserId, fullName: Option<string>, email: Option<string>)

  /** An error returned by the store: a PostgreSQL error code and a message. */
  datatype DbError = DbError(code: string, message: string)

  /** `m` was sent or received by `user` (`sender_id.eq.u,receiver_id.eq.u`). */
  predicate Involves(m: Message, user: UserId) {
    m.senderId == user || m.receiverId == user
  }

  /** `m` belongs to the conversation between `a` and `b`, in either direction. */
  predicate InConversation(m: Message, a: UserId, b: UserId) {
    (m.senderId == a && m.receiverId == b) || (m.senderId == b && m.receiverId == a)
  }

  /** The rows of `s` that satisfy `keep`, in their order. */
  function Where<T(!new)>(s: seq<T>, keep: T -> bool): (r: seq<T>)
    ensures |r| <= |s|
    ensures forall x :: x in r <==> x in s && keep(x)
    ensures forall x :: keep(x) ==> multiset(r)[x] == multiset(s)[x]
    ensures forall x :: !keep(x) ==> multiset(r)[x] == 0
  {
    if s == [] then []
    else
      assert s == [s[0]] + s[1..];
      if keep(s[0]) then [s[0]] + Where(s[1..], keep) else Where(s[1..], keep)
  }

  /** The keys never decrease along `s`. */
  predicate Ascending<T>(s: seq<T>, key: T -> int) {
    forall i, j :: 0 <= i < j < |s| ==> key(s[i]) <= key(s[j])
  }

  /** `x` placed before the first row of the sorted `s` with a larger key. */
  function InsertSorted<T(!new)>(x: T, s: seq<T>, key: T -> int): (r: seq<T>)
    requires Ascending(s, key)
    ensures Ascending(r, key)
    ensures multiset(r) == multiset(s) + multiset{x}
  {
    if s == [] then [x]
    else if key(x) <= key(s[0]) then [x] + s
    else
      var tail := s[1..];
      assert s == [s[0]] + tail;
      assert forall y :: y in tail ==> key(s[0]) <= key(y);
      var rest := InsertSorted(x, tail, key);
      LowerBoundKept(rest, tail, x, key, key(s[0]));
      [s[0]] + rest
  }

  /** A lower bound on the keys of `tail` and of `x` bounds the keys of any permutation of `tail + [x]`. */
  lemma LowerBoundKept<T>(rest: seq<T>, tail: seq<T>, x: T, key: T -> int, bound: int)
    requires multiset(rest) == multiset(tail) + multiset{x}
    requires forall y :: y in tail ==> bound <= key(y)
    requires bound <= key(x)
    ensures forall k :: 0 <= k < |rest| ==> bound <= key(rest[k])
  {
    forall k | 0 <= k < |rest| ensures bound <= key(rest[k]) {
      assert rest[k] in multiset(rest);
      if rest[k] != x {
        assert rest[k] in multiset(tail);
      }
    }
  }

  /** Two sequences with the same multiset have the same length and the same members. */
  lemma SameElements<T>(a: seq<T>, b: seq<T>)
    requires multiset(a) == multiset(b)
    ensures |a| == |b|
    ensures forall x :: x in a <==> x in b
  {
    assert |a| == |multiset(a)| && |b| == |multiset(b)|;
    forall x ensures x in a <==> x in b {
      assert x in a <==> x in multiset(a);
      assert x in b <==> x in multiset(b);
    }
  }

  /**
   * `order(key, { ascending: true })`: a permutation of `s` with keys that
   * never decrease; rows with equal keys keep their table order.
   */
  function SortBy<T(!new)>(s: seq<T>, key: T -> int): (r: seq<T>)
    ensures Ascending(r, key)
    ensures multiset(r) == multiset(s)
    ensures |r| == |s| && forall x :: x in r <==> x in s
  {
    if s == [] then []
    else
      assert s == [s[0]] + s[1..];
      var r := InsertSorted(s[0], SortBy(s[1..], key), key);
      SameElements(r, s);
      r
  }

  function CreatedAt(m: Message): int { m.createdAt }
  function NegCreatedAt(m: Message): int { -m.createdAt }
  function RequestNegCreatedAt(r: ContactRequest): int { -r.createdAt }

  /** The user's inbox: every message sent or received by `user`, newest first. */
  function Inbox(messages: seq<Message>, user: UserId): (r: seq<Message>)
    ensures forall m :: m in r <==> m in messages && Involves(m, user)
    ensures forall m :: multiset(r)[m] == if Involves(m, user) then multiset(messages)[m] else 0
    ensures forall i, j :: 0 <= i < j < |r| ==> r[i].createdAt >= r[j].createdAt
  {
    var sel := Where(messages, (m: Message) => Involves(m, user));
    var r := SortBy(sel, NegCreatedAt);
    assert forall i, j :: 0 <= i < j < |r| ==> NegCreatedAt(r[i]) <= NegCreatedAt(r[j]);
    r
  }

  /** The conversation between `a` and `b`, oldest first. */
  function Conversation(messages: seq<Message>, a: UserId, b: UserId): (r: seq<Message>)
    ensures forall m :: m in r <==> m in messages && InConversation(m, a, b)
    ensures forall m :: multiset(r)[m] == if InConversation(m, a, b) then multiset(messages)[m] else 0
    ensures forall i, j :: 0 <= i < j < |r| ==> r[i].createdAt <= r[j].createdAt
  {
    var sel := Where(messages, (m: Message) => InConversation(m, a, b));
    var r := SortBy(sel, CreatedAt);
    assert forall i, j :: 0 <= i < j < |r| ==> CreatedAt(r[i]) <= CreatedAt(r[j]);
    r
  }

  /** The requests addressed to `user`, newest first. */
  function RequestsReceivedBy(requests: seq<ContactRequest>, user: UserId): (r: seq<ContactRequest>)
    ensures forall q :: q in r <==> q in requests && q.receiverId == user
    ensures forall q :: multiset(r)[q] == if q.receiverId == user then multiset(requests)[q] else 0
    ensures forall i, j :: 0 <= i < j < |r| ==> r[i].createdAt >= r[j].createdAt
  {
    var sel := Where(requests, (q: ContactRequest) => q.receiverId == user);
    var r := SortBy(sel, RequestNegCreatedAt);
    assert forall i, j :: 0 <= i < j < |r| ==> RequestNegCreatedAt(r[i]) <= RequestNegCreatedAt(r[j]);
    r
  }

  /** The accepted requests `user` sent or received. */
  function AcceptedInvolving(requests: seq<ContactRequest>, user: UserId): (r: seq<ContactRequest>)
    ensures forall q :: q in r <==> q in requests && q.status == Accepted && (q.senderId == user || q.receiverId == user)
  {
    Where(requests, (q: ContactRequest) => q.status == Accepted && (q.senderId == user || q.receiverId == user))
  }

  /** `.in("user_id", ids)` on the profiles the reader can see. */
  function ProfilesOf(profiles: seq<ProfileSummary>, ids: set<UserId>): (r: seq<ProfileSummary>)
    ensures forall p :: p in r <==> p in profiles && p.userId in ids
    ensures forall p :: multiset(r)[p] == if p.userId in ids then multiset(profiles)[p] else 0
  {
    Where(profiles, (p: ProfileSummary) => p.userId in ids)
  }

  /** The other party of a request `user` takes part in. */
  function OtherParty(q: ContactRequest, user: UserId): (other: UserId)
    ensures q.senderId == user ==> other == q.receiverId
    ensures q.senderId != user ==> other == q.senderId
  {
    if q.senderId == user then q.receiverId else q.senderId
  }

  /** The newest message between `a` and `b` (`order desc, limit 1`), if any. */
  function LastMessageBetween(messages: seq<Message>, a: UserId, b: UserId): (last: Option<Message>)
    ensures last.None? <==> forall m :: m in messages ==> !InConversation(m, a, b)
    ensures last.Some? ==>
      last.value in messages && InConversation(last.value, a, b) &&
      forall m :: m in messages && InConversation(m, a, b) ==> m.createdAt <= last.value.createdAt
  {
    var sel := Where(messages, (m: Message) => InConversation(m, a, b));
    var newest := SortBy(sel, NegCreatedAt);
    if newest == [] then None
    else
      assert forall m :: m in newest ==> m.createdAt <= newest[0].createdAt by {
        forall m | m in newest ensures m.createdAt <= newest[0].createdAt {
          var k :| 0 <= k < |newest| && newest[k] == m;
          if k > 0 { assert NegCreatedAt(newest[0]) <= NegCreatedAt(newest[k]); }
        }
      }
      Some(newest[0])
  }

  /** Filtering a concatenation filters each part. */
  lemma {:induction false} WhereConcat<T(!new)>(a: seq<T>, b: seq<T>, keep: T -> bool)
    ensures Where(a + b, keep) == Where(a, keep) + Where(b, keep)
    decreases |a|
  {
    if a == [] {
      assert a + b == b;
    } else {
      assert (a + b)[0] == a[0] && (a + b)[1..] == a[1..] + b;
      WhereConcat(a[1..], b, keep);
    }
  }

  /** The positions of `s` whose row satisfies `keep`. */
  function Positions<T>(s: seq<T>, keep: T -> bool): set<int> {
    set i | 0 <= i < |s| && keep(s[i])
  }

  /** The filtered rows are as many as the positions whose row satisfies `keep`. */
  lemma {:induction false} WhereCount<T(!new)>(s: seq<T>, keep: T -> bool)
    ensures |Where(s, keep)| == |Positions(s, keep)|
    decreases |s|
  {
    if s != [] {
      var init, x := s[..|s| - 1], s[|s| - 1];
      assert s == init + [x];
      WhereConcat(init, [x], keep);
      assert [x][1..] == [];
      WhereCount(init, keep);
      PositionsSnoc(s, init, keep, Positions(init, keep), Positions(s, keep));
    }
  }

  lemma PositionsSnoc<T>(s: seq<T>, init: seq<T>, keep: T -> bool, before: set<int>, after: set<int>)
    requires |s| >= 1 && init == s[..|s| - 1]
    requires before == Positions(init, keep)
    requires after == Positions(s, keep)
    ensures |after| == |before| + if keep(s[|s| - 1]) then 1 else 0
  {
    var last := |s| - 1;
    var extra: set<int> := if keep(s[last]) then {last} else {};
    assert after == before + extra by {
      forall i | i in after ensures i in before + extra {
        if i < last { assert init[i] == s[i]; }
      }
      forall i | i in before ensures i in after {
        assert init[i] == s[i];
      }
    }
    assert last !in before;
  }

  /** `m` is an unread message from `sender` to `receiver`. */
  predicate UnreadFrom(m: Message, sender: UserId, receiver: UserId) {
    m.senderId == sender && m.receiverId == receiver && !m.read
  }

  /** The positions of the unread messages from `sender` to `receiver`. */
  function UnreadPositions(messages: seq<Message>, sender: UserId, receiver: UserId): set<int> {
    set i | 0 <= i < |messages| && UnreadFrom(messages[i], sender, receiver)
  }

  /** `count` of the unread messages from `sender` to `receiver`: the rows that are such a message. */
  function UnreadCount(messages: seq<Message>, sender: UserId, receiver: UserId): (n: nat)
    ensures n == |UnreadPositions(messages, sender, receiver)|
    ensures n <= |messages|
    ensures n == 0 <==> forall m :: m in messages ==> !UnreadFrom(m, sender, receiver)
  {
    var keep := (m: Message) => UnreadFrom(m, sender, receiver);
    var sel := Where(messages, keep);
    WhereCount(messages, keep);
    SamePositions(messages, keep, sender, receiver);
    assert sel != [] ==> sel[0] in sel;
    |sel|
  }

  lemma SamePositions(messages: seq<Message>, keep: Message -> bool, sender: UserId, receiver: UserId)
    requires forall m :: keep(m) == UnreadFrom(m, sender, receiver)
    ensures Positions(messages, keep) == UnreadPositions(messages, sender, receiver)
  {
  }

  /** `update({ read: true })` on the rows selected by `hit`; the others are left as they are. */
  function SetReadWhere(messages: seq<Message>, hit: Message -> bool): (r: seq<Message>)
    ensures |r| == |messages|
    ensures forall i :: 0 <= i < |r| ==> r[i] == if hit(messages[i]) then messages[i].(read := true) else messages[i]
  {
    seq(|messages|, i requires 0 <= i < |messages| => if hit(messages[i]) then messages[i].(read := true) else messages[i])
  }

  /** A selection that does not look at the read flag selects the same rows after the update: doing it twice is doing it once. */
  lemma SetReadWhereIdempotent(messages: seq<Message>, hit: Message -> bool)
    requires forall m: Message :: hit(m.(read := true)) == hit(m)
    ensures SetReadWhere(SetReadWhere(messages, hit), hit) == SetReadWhere(messages, hit)
  {
    var once := SetReadWhere(messages, hit);
    var twice := SetReadWhere(once, hit);
    forall i | 0 <= i < |messages| ensures twice[i] == once[i] {
      if hit(messages[i]) { assert hit(once[i]); }
    }
  }

  /** No two rows share an id. */
  predicate UniqueIds(s: seq<Message>) {
    forall i, j :: 0 <= i < j < |s| ==> s[i].id != s[j].id
  }

  /** Some row of `s` has the id `id` (`prev.find(msg => msg.id === id)`). */
  predicate HasId(s: seq<Message>, id: nat) {
    exists i :: 0 <= i < |s| && s[i].id == id
  }

  /** `prev.find(msg => msg.id === m.id) ? prev : [...prev, m]`. */
  function AppendIfNew(s: seq<Message>, m: Message): (r: seq<Message>)
    ensures HasId(s, m.id) ==> r == s
    ensures !HasId(s, m.id) ==> r == s + [m]
    ensures UniqueIds(s) ==> UniqueIds(r)
    ensures HasId(r, m.id)
  {
    if HasId(s, m.id) then s
    else
      assert (s + [m])[|s|] == m;
      s + [m]
  }

  /** `prev.map(msg => msg.id === m.id ? m : msg)`. */
  function ReplaceById(s: seq<Message>, m: Message): (r: seq<Message>)
    ensures |r| == |s|
    ensures forall i :: 0 <= i < |s| ==> r[i] == if s[i].id == m.id then m else s[i]
  {
    seq(|s|, i requires 0 <= i < |s| => if s[i].id == m.id then m else s[i])
  }

  /** Replacing by id keeps every id where it was, so unique ids stay unique, and an unknown id changes nothing. */
  lemma ReplaceByIdKeepsIds(s: seq<Message>, m: Message)
    ensures forall i :: 0 <= i < |s| ==> ReplaceById(s, m)[i].id == s[i].id
    ensures UniqueIds(s) ==> UniqueIds(ReplaceById(s, m))
    ensures !HasId(s, m.id) ==> ReplaceById(s, m) == s
  {
    var r := ReplaceById(s, m);
    if !HasId(s, m.id) {
      assert forall i :: 0 <= i < |s| ==> r[i] == s[i];
    }
  }
}
