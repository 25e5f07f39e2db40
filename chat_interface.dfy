/**
 * The chat with one contact (src/components/messaging/ChatInterface.tsx):
 * a local copy of the conversation kept up to date by realtime events, the
 * read-marking done when it is fetched, and sending a sanitised message.
 */
module Chat {
  import opened Wrappers
  import opened JsString
  import opened Tables
  import opened Storage
  import opened Sanitizer

  /** The longest message content the chat sends. */
  const MaxContentLength: nat := 2000

  /** The subject every chat message carries. */
  const ChatSubject := "Chat message"

  /** Every message of `s` belongs to the conversation between `a` and `b`. */
  predicate AllInConversation(s: seq<Message>, a: UserId, b: UserId) {
    forall m :: m in s ==> InConversation(m, a, b)
  }

  /** The content the chat sends for what was typed: `sanitizeText(newMessage.trim(), 2000)`. */
  function ChatContent(typed: string): string {
    SanitizeText(Trim(typed), MaxContentLength)
  }

  /** The sent content is at most 2000 characters, holds no tag, and starts the tag-free text. */
  lemma ChatContentClean(typed: string)
    ensures |ChatContent(typed)| <= MaxContentLength
    ensures NoTagRemnant(ChatContent(typed))
    ensures ChatContent(typed) <= Trim(StripTags(Trim(typed)))
  {
  }

  /** A tag and nothing else. */
  lemma StripLoneTag(s: string, t: string)
    requires '>' !in t && s == "<" + t + ">"
    ensures StripTags(s) == ""
  {
    assert s[1..] == t + ">";
    IndexOfUnique(s[1..], '>', |t|);
    assert s[|t| + 2..] == [];
  }

  /**
   * Input that is only a tag, such as `<br>`, passes the send guard (its
   * trim is not empty) and yet is sent as an empty message.
   */
  lemma LoneTagSentEmpty(s: string, t: string)
    requires '>' !in t && s == "<" + t + ">"
    ensures Trim(s) != "" && ChatContent(s) == ""
  {
    TrimOfTrimmed(s);
    StripLoneTag(s, t);
  }

  /** What a message shows: its content with markup characters escaped, which decodes back to the content. */
  function DisplayContent(m: Message): (shown: string)
    ensures Unescape(shown) == m.content
    ensures forall k :: 0 <= k < |shown| ==> shown[k] != '<' && shown[k] != '>'
  {
    UnescapeSanitizeUserInput(m.content);
    EscapeEachNoAngles(m.content);
    SanitizeUserInput(m.content)
  }

  /** No escaped text holds an angle bracket. */
  lemma {:induction false} EscapeEachNoAngles(s: string)
    ensures forall k :: 0 <= k < |EscapeEach(s)| ==> EscapeEach(s)[k] != '<' && EscapeEach(s)[k] != '>'
  {
    if s != [] {
      EscapeEachNoAngles(s[1..]);
      var head, tail := EscapeChar(s[0]), EscapeEach(s[1..]);
      assert EscapeEach(s) == head + tail;
      forall k | 0 <= k < |head + tail| ensures (head + tail)[k] != '<' && (head + tail)[k] != '>' {
        if k >= |head| { assert (head + tail)[k] == tail[k - |head|]; }
      }
    }
  }

  /** The read marker under one's own messages: two ticks once read, one before; none under the contact's. */
  function ReadMarker(m: Message, user: UserId): (marker: Option<string>)
    ensures marker.Some? <==> m.senderId == user
    ensures marker.Some? ==> (marker.value == "✓✓" <==> m.read)
  {
    if m.senderId != user then None else if m.read then Some("✓✓") else Some("✓")
  }

  /** The ids of the messages addressed to `user` that are still unread. */
  function UnreadIds(conversation: seq<Message>, user: UserId): (ids: set<nat>)
    ensures forall id :: id in ids <==> exists m :: m in conversation && m.receiverId == user && !m.read && m.id == id
  {
    set m | m in conversation && m.receiverId == user && !m.read :: m.id
  }

  /** A row of the store picked by `hit` reads as read after `SetReadWhere`. */
  lemma MarkedRowIsRead(messages: seq<Message>, hit: Message -> bool, m: Message)
    requires m in messages && hit(m)
    ensures m.(read := true) in SetReadWhere(messages, hit)
  {
    var i :| 0 <= i < |messages| && messages[i] == m;
    assert SetReadWhere(messages, hit)[i] == m.(read := true);
  }

  /** The messages table after the fetch's bulk update: untouched when nothing was unread. */
  function ReadAfterFetch(messages: seq<Message>, user: UserId, contact: UserId): seq<Message> {
    var unread := UnreadIds(Conversation(messages, user, contact), user);
    if unread == {} then messages else SetReadWhere(messages, ByIds(unread))
  }

  /** Each unread message of the conversation addressed to `user` is read in the store after the bulk update. */
  lemma UnreadMarkedInStore(messages: seq<Message>, user: UserId, contact: UserId)
    ensures forall m :: m in Conversation(messages, user, contact) && m.receiverId == user && !m.read ==>
      m.(read := true) in ReadAfterFetch(messages, user, contact)
  {
    var conversation := Conversation(messages, user, contact);
    var unread := UnreadIds(conversation, user);
    forall m | m in conversation && m.receiverId == user && !m.read
      ensures m.(read := true) in ReadAfterFetch(messages, user, contact)
    {
      assert m.id in unread;
      MarkedRowIsRead(messages, ByIds(unread), m);
    }
  }

  /** The conversation as fetched, followed by the bulk update of its unread messages. */
  method FetchConversation(store: Store, user: UserId, contact: UserId, markRefusal: Option<DbError>)
    returns (conversation: seq<Message>)
    requires store.Valid()
    modifies store
    ensures store.Valid() && store.requests == old(store.requests)
    ensures conversation == Conversation(old(store.messages), user, contact)
    ensures store.messages == if markRefusal.Some? then old(store.messages) else ReadAfterFetch(old(store.messages), user, contact)
  {
    conversation := Conversation(store.messages, user, contact);
    var unread := UnreadIds(conversation, user);
    if unread != {} {
      var _ := store.MarkRead(ByIds(unread), markRefusal);
    }
  }

  class ChatView {
    const user: UserId
    const contact: UserId
    var messages: seq<Message>
    var newMessage: string
    var loading: bool
    var sending: bool
    var subscribed: bool

    constructor (user: UserId, contact: UserId)
      ensures this.user == user && this.contact == contact
      ensures messages == [] && newMessage == "" && loading && !sending && !subscribed
    {
      this.user, this.contact := user, contact;
      messages, newMessage, loading, sending, subscribed := [], "", true, false, false;
    }

    /** The send button is enabled. */
    function CanSend(): (b: bool)
      reads this
      ensures b <==> !sending && exists k :: 0 <= k < |newMessage| && !IsSpace(newMessage[k])
    {
      !sending && Trim(newMessage) != ""
    }

    /**
     * The INSERT handler: a message of this conversation whose id is not
     * yet in the list is appended; anything else leaves the list as it was.
     */
    method OnInsert(m: Message)
      modifies this
      ensures newMessage == old(newMessage) && loading == old(loading) && sending == old(sending) && subscribed == old(subscribed)
      ensures !InConversation(m, user, contact) || HasId(old(messages), m.id) ==> messages == old(messages)
      ensures InConversation(m, user, contact) && !HasId(old(messages), m.id) ==> messages == old(messages) + [m]
      ensures UniqueIds(old(messages)) ==> UniqueIds(messages)
      ensures AllInConversation(old(messages), user, contact) ==> AllInConversation(messages, user, contact)
    {
      if InConversation(m, user, contact) {
        messages := AppendIfNew(messages, m);
      }
    }

    /**
     * The UPDATE handler: a message of this conversation replaces the one
     * with its id, in place; length, order and ids are kept.
     */
    method OnUpdate(m: Message)
      modifies this
      ensures newMessage == old(newMessage) && loading == old(loading) && sending == old(sending) && subscribed == old(subscribed)
      ensures messages == if InConversation(m, user, contact) then ReplaceById(old(messages), m) else old(messages)
      ensures |messages| == |old(messages)|
      ensures forall i :: 0 <= i < |messages| ==> messages[i].id == old(messages)[i].id
      ensures UniqueIds(old(messages)) ==> UniqueIds(messages)
      ensures AllInConversation(old(messages), user, contact) ==> AllInConversation(messages, user, contact)
    {
      if InConversation(m, user, contact) {
        ReplaceByIdKeepsIds(messages, m);
        messages := ReplaceById(messages, m);
      }
    }

    /**
     * `fetchMessages`: the list becomes the conversation, oldest first; then
     * the store marks the user's unread messages read, if there are any.
     * The local copies keep `read == false`: `UnreadMarkedInStore` shows
     * that each of them is then stale.
     */
    method FetchMessages(store: Store, failure: Option<DbError>, markRefusal: Option<DbError>)
      requires store.Valid()
      modifies this, store
      ensures store.Valid() && store.requests == old(store.requests)
      ensures newMessage == old(newMessage) && sending == old(sending) && subscribed == old(subscribed) && !loading
      ensures failure.Some? ==> messages == old(messages) && store.messages == old(store.messages)
      ensures failure.None? ==>
        messages == Conversation(old(store.messages), user, contact) &&
        store.messages == if markRefusal.Some? then old(store.messages) else ReadAfterFetch(old(store.messages), user, contact)
    {
      if failure.Some? {
        loading := false;
        return;
      }
      ghost var before := store.messages;
      var conversation := FetchConversation(store, user, contact, markRefusal);
      ghost var after := store.messages;
      messages, loading := conversation, false;
      assert store.messages == after && messages == Conversation(before, user, contact);
    }

    /**
     * `sendMessage`: blank input sends nothing. Otherwise the sanitised text
     * is inserted as an unread message to the contact with the chat subject;
     * the input is cleared only if the store accepted it. The list itself
     * is left to the realtime events.
     */
    method SendMessage(store: Store, now: int, refusal: Option<DbError>) returns (sent: bool)
      requires store.Valid()
      modifies this, store
      ensures store.Valid() && store.requests == old(store.requests)
      ensures messages == old(messages) && loading == old(loading) && subscribed == old(subscribed)
      ensures sent <==> Trim(old(newMessage)) != "" && refusal.None?
      ensures Trim(old(newMessage)) == "" ==> store.messages == old(store.messages) && sending == old(sending) && newMessage == old(newMessage)
      ensures Trim(old(newMessage)) != "" ==> !sending
      ensures Trim(old(newMessage)) != "" && refusal.Some? ==> store.messages == old(store.messages) && newMessage == old(newMessage)
      ensures sent ==>
        store.messages == old(store.messages) +
          [Message(old(store.nextId), user, contact, Some(ChatSubject), ChatContent(old(newMessage)), false, now)] &&
        newMessage == ""
    {
      if Trim(newMessage) == "" {
        sent := false;
        return;
      }
      sent := Submit(store, ChatContent(newMessage), now, refusal);
    }

    /** The insert of the sanitised `content` of a non-blank message and the state it leaves. */
    method Submit(store: Store, content: string, now: int, refusal: Option<DbError>) returns (sent: bool)
      requires store.Valid()
      modifies this, store
      ensures store.Valid() && store.requests == old(store.requests)
      ensures messages == old(messages) && loading == old(loading) && subscribed == old(subscribed) && !sending
      ensures sent == refusal.None?
      ensures !sent ==> store.messages == old(store.messages) && newMessage == old(newMessage)
      ensures sent ==>
        store.messages == old(store.messages) +
          [Message(old(store.nextId), user, contact, Some(ChatSubject), content, false, now)] &&
        newMessage == ""
    {
      sending := true;
      var error := store.InsertMessage(user, contact, Some(ChatSubject), content, now, refusal);
      sent := error.None?;
      if sent {
        newMessage := "";
      }
      sending := false;
    }

    /** Mounting fetches the conversation and opens the channel. */
    method Mount(store: Store, failure: Option<DbError>, markRefusal: Option<DbError>)
      requires store.Valid()
      modifies this, store
      ensures store.Valid() && store.requests == old(store.requests) && subscribed && !loading
      ensures newMessage == old(newMessage) && sending == old(sending)
      ensures failure.Some? ==> messages == old(messages) && store.messages == old(store.messages)
      ensures failure.None? ==>
        messages == Conversation(old(store.messages), user, contact) &&
        store.messages == if markRefusal.Some? then old(store.messages) else ReadAfterFetch(old(store.messages), user, contact)
    {
      FetchMessages(store, failure, markRefusal);
      subscribed := true;
    }

    /** The cleanup removes the channel. */
    method Unmount()
      modifies this
      ensures !subscribed && messages == old(messages) && newMessage == old(newMessage)
      ensures loading == old(loading) && sending == old(sending)
    {
      subscribed := false;
    }
  }
}
