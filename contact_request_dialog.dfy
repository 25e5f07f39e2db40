/**
 * `ContactRequestDialog` (src/components/messaging/ContactRequestDialog.tsx):
 * sends a contact request with a default text and explains a refusal.
 */
module RequestDialog {
  import opened Wrappers
  import opened JsString
  import opened Tables
  import opened Storage

  /** What follows the name in the default text. */
  const DefaultRequestTail := ", me gustaría conectar contigo para explorar oportunidades de colaboración."

  /** The text sent when the user typed nothing: a greeting, the receiver's name, then the fixed tail. */
  function DefaultRequestMessage(receiverName: string): (m: string)
    ensures |m| == 5 + |receiverName| + |DefaultRequestTail|
    ensures m[..5] == "Hola " && m[5..5 + |receiverName|] == receiverName
    ensures m[5 + |receiverName|..] == DefaultRequestTail
  {
    var m := "Hola " + receiverName + DefaultRequestTail;
    assert m[5..5 + |receiverName|] == receiverName;
    assert m[5 + |receiverName|..] == DefaultRequestTail;
    m
  }

  /** `message || default`: only the empty string falls back to the default. */
  function RequestMessage(typed: string, receiverName: string): (m: string)
    ensures typed != "" ==> m == typed
    ensures typed == "" ==> m == DefaultRequestMessage(receiverName)
  {
    if typed != "" then typed else DefaultRequestMessage(receiverName)
  }

  /** A message of blanks is not empty, so it is sent as typed rather than replaced. */
  lemma BlankMessageSentAsTyped(typed: string, receiverName: string)
    requires typed != "" && AllSpace(typed)
    ensures RequestMessage(typed, receiverName) == typed
    ensures Trim(typed) == ""
  {
  }

  /** The code PostgreSQL reports for a unique-key violation. */
  const UniqueViolation := "23505"

  /** How a refused insert is explained to the user. */
  datatype RequestError = AlreadySent | NotPermitted | Failed(description: string)

  /** The error's classification: duplicate first, then row-level security, then the store's own message. */
  function ClassifyInsertError(e: DbError): (r: RequestError)
    ensures r == AlreadySent <==> e.code == UniqueViolation
    ensures r == NotPermitted <==> e.code != UniqueViolation && Contains(e.message, "row-level security")
    ensures r.Failed? ==> r.description == if e.message != "" then e.message else "No se pudo enviar la solicitud de contacto"
  {
    if e.code == UniqueViolation then AlreadySent
    else if Contains(e.message, "row-level security") then NotPermitted
    else Failed(if e.message != "" then e.message else "No se pudo enviar la solicitud de contacto")
  }

  /** What `supabase.auth.getUser()` gave back. */
  datatype AuthLookup = SignedIn(userId: UserId) | SignedOut | AuthFailed | Threw

  /** How one press of the send button ended. */
  datatype RequestOutcome = NeedsSignIn | Sent | Refused(error: RequestError) | Unexpected

  /** The dialog's state. */
  class Dialog {
    var open: bool
    var message: string
    var loading: bool

    constructor ()
      ensures !open && message == "" && !loading
    {
      open, message, loading := false, "", false;
    }

    /**
     * `handleSendRequest`: without a signed-in user nothing is inserted;
     * otherwise one pending request from the user to `receiverId` is
     * inserted. Only a successful insert closes the dialog and clears the
     * text; `loading` is false again at the end.
     */
    method HandleSendRequest(auth: AuthLookup, store: Store, receiverId: UserId, receiverName: string,
                             now: int, refusal: Option<DbError>) returns (outcome: RequestOutcome)
      requires store.Valid()
      modifies this, store
      ensures store.Valid() && store.messages == old(store.messages) && !loading
      ensures !auth.SignedIn? ==>
        store.requests == old(store.requests) && open == old(open) && message == old(message) &&
        outcome == (if auth.Threw? then Unexpected else NeedsSignIn)
      ensures auth.SignedIn? && refusal.None? ==>
        store.requests == old(store.requests) +
          [ContactRequest(old(store.nextId), auth.userId, receiverId, Pending,
                          Some(RequestMessage(old(message), receiverName)), now, now)] &&
        outcome == Sent && !open && message == ""
      ensures auth.SignedIn? && refusal.Some? ==>
        store.requests == old(store.requests) && open == old(open) && message == old(message) &&
        outcome == Refused(ClassifyInsertError(refusal.value))
    {
      loading := true;
      match auth {
        case Threw =>
          outcome := Unexpected;
        case SignedOut =>
          outcome := NeedsSignIn;
        case AuthFailed =>
          outcome := NeedsSignIn;
        case SignedIn(userId) =>
          var error := store.InsertRequest(userId, receiverId, Some(RequestMessage(message, receiverName)), now, refusal);
          if error.Some? {
            outcome := Refused(ClassifyInsertError(error.value));
          } else {
            outcome := Sent;
            open := false;
            message := "";
          }
      }
      loading := false;
    }
  }
}
