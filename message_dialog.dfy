/**
 * The "send a message" dialog on a profile (src/components/messaging/MessageDialog.tsx):
 * two guards, a subject that falls back to one naming the sender, and a
 * reset of the form once the store accepted the message.
 */
module MessageDialogs {
  import opened Wrappers
  import opened JsString
  import opened Tables
  import opened Storage

  /** The signed-in user as the dialog sees them: id, `user_metadata.full_name` and `email`. */
  datatype Sender = Sender(id: UserId, metadataFullName: Option<string>, email: Option<string>)

  /** `user.user_metadata?.full_name || user.email`, as a template literal prints it. */
  function SenderLabel(user: Sender): (shown: string)
    ensures user.metadataFullName.Some? && user.metadataFullName.value != "" ==> shown == user.metadataFullName.value
    ensures (user.metadataFullName.None? || user.metadataFullName.value == "") && user.email.Some? ==> shown == user.email.value
    ensures (user.metadataFullName.None? || user.metadataFullName.value == "") && user.email.None? ==> shown == "undefined"
  {
    if user.metadataFullName.Some? && user.metadataFullName.value != "" then user.metadataFullName.value
    else if user.email.Some? then user.email.value
    else "undefined"
  }

  /** `subject.trim() || "Mensaje de " + label`. */
  function ResolvedSubject(typed: string, user: Sender): string {
    if Trim(typed) != "" then Trim(typed) else "Mensaje de " + SenderLabel(user)
  }

  /** The stored subject is never blank: either the typed one, trimmed, or the fallback. */
  lemma SubjectNeverBlank(typed: string, user: Sender)
    ensures Trim(ResolvedSubject(typed, user)) != ""
  {
    var subject := ResolvedSubject(typed, user);
    if Trim(typed) != "" {
      TrimIdempotent(typed);
    } else {
      assert subject[0] == 'M' && !IsSpace(subject[0]);
      assert !AllSpace(subject);
    }
  }

  datatype SendOutcome = NeedsSignIn | EmptyMessage | Sent | Failed

  /** How a press of the send button ends: the two guards in order, then the store's verdict. */
  function Outcome(user: Option<Sender>, content: string, refusal: Option<DbError>): SendOutcome {
    if user.None? then NeedsSignIn
    else if Trim(content) == "" then EmptyMessage
    else if refusal.None? then Sent
    else Failed
  }

  /** The row a send inserts: the trimmed content under the resolved subject, unread. */
  function Outgoing(id: nat, user: Sender, recipientId: UserId, subject: string, content: string, now: int): Message {
    Message(id, user.id, recipientId, Some(ResolvedSubject(subject, user)), Trim(content), false, now)
  }

  /** The insert of a send that passed both guards, given the resolved subject and the trimmed text. */
  method Deliver(store: Store, user: Sender, recipientId: UserId, subjectLine: string, text: string, now: int,
                 refusal: Option<DbError>) returns (outcome: SendOutcome)
    requires store.Valid()
    modifies store
    ensures store.Valid() && store.requests == old(store.requests)
    ensures outcome == if refusal.None? then Sent else Failed
    ensures store.messages == if outcome == Sent then old(store.messages) + [Message(old(store.nextId), user.id, recipientId, Some(subjectLine), text, false, now)]
                              else old(store.messages)
  {
    var error := store.InsertMessage(user.id, recipientId, Some(subjectLine), text, now, refusal);
    outcome := if error.None? then Sent else Failed;
  }

  class Dialog {
    const recipientId: UserId
    var open: bool
    var subject: string
    var content: string
    var sending: bool

    constructor (recipientId: UserId)
      ensures this.recipientId == recipientId && !open && subject == "" && content == "" && !sending
    {
      this.recipientId := recipientId;
      open, subject, content, sending := false, "", "", false;
    }

    /** The send button is enabled. */
    function CanSend(): (b: bool)
      reads this
      ensures b <==> !sending && !AllSpace(content)
    {
      !sending && Trim(content) != ""
    }

    /**
     * `handleSendMessage`: no user, then blank content, stop before the
     * store and change nothing. Otherwise the trimmed content goes out with
     * the resolved subject; on success the form is cleared and closed, on a
     * refusal it is kept as it was.
     */
    method HandleSendMessage(user: Option<Sender>, store: Store, now: int, refusal: Option<DbError>)
      returns (outcome: SendOutcome)
      requires store.Valid()
      modifies this, store
      ensures store.Valid() && store.requests == old(store.requests)
      ensures outcome == Outcome(user, old(content), refusal)
      ensures outcome.NeedsSignIn? || outcome.EmptyMessage? ==>
        store.messages == old(store.messages) && open == old(open) && subject == old(subject) &&
        content == old(content) && sending == old(sending)
      ensures outcome.Failed? ==>
        store.messages == old(store.messages) && open == old(open) && subject == old(subject) &&
        content == old(content) && !sending
      ensures outcome.Sent? ==>
        store.messages == old(store.messages) + [Outgoing(old(store.nextId), user.value, recipientId, old(subject), old(content), now)] &&
        !open && subject == "" && content == "" && !sending
    {
      if user.None? {
        return NeedsSignIn;
      }
      if Trim(content) == "" {
        return EmptyMessage;
      }
      var line, text := ResolvedSubject(subject, user.value), Trim(content);
      ghost var sent := Message(store.nextId, user.value.id, recipientId, Some(line), text, false, now);
      assert sent == Outgoing(old(store.nextId), user.value, recipientId, old(subject), old(content), now);
      assert Outcome(user, old(content), refusal) == if refusal.None? then Sent else Failed;
      outcome := Submit(user.value, store, line, text, now, refusal);
    }

    /**
     * The part after both guards, given the resolved subject and the trimmed
     * text: `sending` around the insert, and the reset on success.
     */
    method Submit(user: Sender, store: Store, subjectLine: string, text: string, now: int, refusal: Option<DbError>)
      returns (outcome: SendOutcome)
      requires store.Valid()
      modifies this, store
      ensures store.Valid() && store.requests == old(store.requests) && !sending
      ensures outcome == if refusal.None? then Sent else Failed
      ensures outcome.Failed? ==>
        store.messages == old(store.messages) && open == old(open) && subject == old(subject) && content == old(content)
      ensures outcome.Sent? ==>
        store.messages == old(store.messages) + [Message(old(store.nextId), user.id, recipientId, Some(subjectLine), text, false, now)] &&
        !open && subject == "" && content == ""
    {
      sending := true;
      outcome := Deliver(store, user, recipientId, subjectLine, text, now, refusal);
      if outcome == Sent {
        subject, content, open := "", "", false;
      }
      sending := false;
    }
  }
}
