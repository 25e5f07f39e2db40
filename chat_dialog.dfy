/**
 * The chat dialog opened from a profile (src/components/messaging/ChatDialog.tsx):
 * it loads the conversation with one recipient when opened, marks everything
 * that recipient sent to the user as read, appends every message the channel
 * delivers, and sends the trimmed text unsanitised.
 */
module ChatDialogs {
  import opened Wrappers
  import opened JsString
  import opened Tables
  import opened Storage
  import Chat

  /** The subject of a message sent from the dialog. */
  function DialogSubject(recipientName: string): (subject: string)
    ensures |subject| == 9 + |recipientName|
    ensures subject[..9] == "Chat con " && subject[9..] == recipientName
  {
    var subject := "Chat con " + recipientName;
    assert subject[9..] == recipientName;
    subject
  }

  /** The selection of the bulk update never looks at the read flag. */
  lemma FromToIgnoresRead(sender: UserId, receiver: UserId)
    ensures forall m: Message :: FromTo(sender, receiver)(m.(read := true)) == FromTo(sender, receiver)(m)
  {
  }

  /** Marking the conversation read twice is marking it once. */
  lemma BulkReadIdempotent(messages: seq<Message>, sender: UserId, receiver: UserId)
    ensures SetReadWhere(SetReadWhere(messages, FromTo(sender, receiver)), FromTo(sender, receiver)) ==
            SetReadWhere(messages, FromTo(sender, receiver))
  {
    FromToIgnoresRead(sender, receiver);
    SetReadWhereIdempotent(messages, FromTo(sender, receiver));
  }

  /** After the bulk update nothing the recipient sent the user is unread. */
  lemma BulkReadClearsUnread(messages: seq<Message>, sender: UserId, receiver: UserId)
    ensures UnreadCount(SetReadWhere(messages, FromTo(sender, receiver)), sender, receiver) == 0
  {
    var r := SetReadWhere(messages, FromTo(sender, receiver));
    forall m | m in r ensures !UnreadFrom(m, sender, receiver) {
      var i :| 0 <= i < |r| && r[i] == m;
    }
  }

  /** Appending a message whose id is already listed, as the INSERT handler may, breaks the uniqueness of ids. */
  lemma AppendWithoutDedup(s: seq<Message>, m: Message)
    requires HasId(s, m.id)
    ensures !UniqueIds(s + [m])
  {
    var i :| 0 <= i < |s| && s[i].id == m.id;
    assert (s + [m])[i].id == (s + [m])[|s|].id;
  }

  /** Where the chat strips a lone tag to nothing, the dialog sends it as typed. */
  lemma DialogKeepsMarkup(s: string, t: string)
    requires '>' !in t && s == "<" + t + ">"
    ensures Trim(s) == s && Chat.ChatContent(s) == ""
  {
    TrimOfTrimmed(s);
    Chat.LoneTagSentEmpty(s, t);
  }

  class Dialog {
    const recipientId: UserId
    const recipientName: string
    var open: bool
    var messages: seq<Message>
    var newMessage: string
    var loading: bool
    var sending: bool
    var subscribed: bool

    constructor (recipientId: UserId, recipientName: string)
      ensures this.recipientId == recipientId && this.recipientName == recipientName
      ensures !open && messages == [] && newMessage == "" && !loading && !sending && !subscribed
    {
      this.recipientId, this.recipientName := recipientId, recipientName;
      open, messages, newMessage, loading, sending, subscribed := false, [], "", false, false, false;
    }

    /**
     * `fetchMessages`: the list becomes the conversation, oldest first, and
     * the store marks read every message from the recipient to the user,
     * whether or not the user has seen them; that update's own outcome is
     * not looked at.
     */
    method FetchMessages(user: Option<UserId>, store: Store, failure: Option<DbError>, markRefusal: Option<DbError>)
      requires store.Valid()
      modifies this, store
      ensures store.Valid() && store.requests == old(store.requests)
      ensures open == old(open) && newMessage == old(newMessage) && sending == old(sending) && subscribed == old(subscribed)
      ensures user.None? ==> messages == old(messages) && loading == old(loading) && store.messages == old(store.messages)
      ensures user.Some? ==> !loading
      ensures user.Some? && failure.Some? ==> messages == old(messages) && store.messages == old(store.messages)
      ensures user.Some? && failure.None? ==>
        messages == Conversation(old(store.messages), user.value, recipientId) &&
        store.messages == if markRefusal.Some? then old(store.messages)
                          else SetReadWhere(old(store.messages), FromTo(recipientId, user.value))
    {
      if user.None? {
        return;
      }
      loading := true;
      if failure.None? {
        messages := Conversation(store.messages, user.value, recipientId);
        var _ := store.MarkRead(FromTo(recipientId, user.value), markRefusal);
      }
      loading := false;
    }

    /**
     * Opening with a signed-in user fetches and subscribes; closing removes
     * the channel.
     */
    method SetOpen(o: bool, user: Option<UserId>, store: Store, failure: Option<DbError>, markRefusal: Option<DbError>)
      requires store.Valid()
      modifies this, store
      ensures store.Valid() && store.requests == old(store.requests) && open == o
      ensures newMessage == old(newMessage) && sending == old(sending)
      ensures subscribed == (o && user.Some?)
      ensures !(o && user.Some?) ==>
        messages == old(messages) && loading == old(loading) && store.messages == old(store.messages)
      ensures o && user.Some? ==> !loading
      ensures o && user.Some? && failure.Some? ==> messages == old(messages) && store.messages == old(store.messages)
      ensures o && user.Some? && failure.None? ==>
        messages == Conversation(old(store.messages), user.value, recipientId) &&
        store.messages == if markRefusal.Some? then old(store.messages)
                          else SetReadWhere(old(store.messages), FromTo(recipientId, user.value))
    {
      open := o;
      if o && user.Some? {
        FetchMessages(user, store, failure, markRefusal);
        subscribed := true;
      } else {
        subscribed := false;
      }
    }

    /**
     * The INSERT handler, behind the channel's conversation filter: the
     * message is appended, with no check that its id is already listed.
     */
    method OnInsert(user: UserId, m: Message)
      modifies this
      ensures open == old(open) && newMessage == old(newMessage) && subscribed == old(subscribed)
      ensures loading == old(loading) && sending == old(sending)
      ensures messages == if subscribed && InConversation(m, user, recipientId) then old(messages) + [m] else old(messages)
    {
      if subscribed && InConversation(m, user, recipientId) {
        messages := messages + [m];
      }
    }

    /**
     * `sendMessage`: without a user or with blank text nothing is sent.
     * Otherwise the trimmed text is inserted as it is, with the dialog's
     * subject; the input is cleared only if the store accepted it.
     */
    method SendMessage(user: Option<UserId>, store: Store, now: int, refusal: Option<DbError>) returns (sent: bool)
      requires store.Valid()
      modifies this, store
      ensures store.Valid() && store.requests == old(store.requests)
      ensures open == old(open) && messages == old(messages) && subscribed == old(subscribed) && loading == old(loading)
      ensures sent <==> user.Some? && Trim(old(newMessage)) != "" && refusal.None?
      ensures !sent ==> store.messages == old(store.messages) && newMessage == old(newMessage)
      ensures user.None? || Trim(old(newMessage)) == "" ==> sending == old(sending)
      ensures user.Some? && Trim(old(newMessage)) != "" ==> !sending
      ensures sent ==>
        store.messages == old(store.messages) +
          [Message(old(store.nextId), user.value, recipientId, Some(DialogSubject(recipientName)), Trim(old(newMessage)), false, now)] &&
        newMessage == ""
    {
      var text := Trim(newMessage);
      if user.None? || text == "" {
        sent := false;
        return;
      }
      sending := true;
      var error := store.InsertMessage(user.value, recipientId, Some(DialogSubject(recipientName)), text, now, refusal);
      sent := error.None?;
      if sent {
        newMessage := "";
      }
      sending := false;
    }
  }
}
