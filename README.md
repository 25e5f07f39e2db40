# start-ventures: the client logic of a co-founder matching app, in Dafny

start-ventures is a React + Supabase application in which Chilean university
students build a profile, send each other contact requests and, once a
request is accepted, exchange messages. This project models the parts of it
that hold decisions rather than markup:

- **String sanitisers.** `sanitizeText`, `sanitizeUserInput`, `sanitizeEmail`
  and `sanitizePhone` are in `sanitizer.dfy`. `getPartialName` is in
  `names.dfy`. The JavaScript string operations they rely on are in
  `js_string.dfy`: `trim`, `split`, `slice`, `toLowerCase` and a global
  one-character `replace`.
- **Profile and sign-up rules.**
  - `profile.dfy` holds the profile record. It also holds `isProfileComplete`,
    `updateProfile`, the skill checkboxes and the initial profile row.
  - `profile_check.dfy` holds the second completeness rule and the redirect
    decision of the `ProfileCheck` guard.
  - `auth.dfy` holds the university-email test and the ordered sign-up guards.
- **The contact-request and messaging workflow, as the client implements it.**
  - The `contact_requests` and `messages` tables are an in-memory `Store`
    class (`store.dfy`).
  - The queries the client runs against them are functions (`tables.dfy`).
  - Each screen is a class whose fields are the component's state and whose
    methods are its handlers:
    - `contact_request_dialog.dfy`: the request dialog;
    - `inbox.dfy`: the messages page;
    - `contacts_list.dfy`: the contacts list, with its in-place sort;
    - `chat_interface.dfy`: the chat view;
    - `chat_dialog.dfy`: the chat dialog;
    - `message_dialog.dfy`: the direct-message dialog.
- **The `send-feedback` edge function.** `feedback.dfy` covers validation,
  truncation, the query parameters and the status of every way the handler
  can end.

Each handler's contract states the whole new state, meaning both the store's
tables and the component's fields. Lemmas beside the handlers state what the
design promises. Some lemmas pin down gaps the code actually has:

- resolving a request does not look at its status;
- the chat dialog appends realtime inserts without removing duplicates;
- the chat view marks messages read in the store but not in its own list.

The following are parameters of the methods rather than behaviour of the model:

- whether the store refuses a write, as an `Option<DbError>`;
- the current time;
- the profiles the store lets the user see;
- whether the webhook answered `ok`.

## Model

| member | source | states |
|---|---|---|
| JsString.Trim | src/lib/sanitizer.ts:20 | `trim()`: the result is empty exactly when the input is all whitespace, and otherwise neither starts nor ends with whitespace |
| JsString.TrimIsSlice | src/lib/sanitizer.ts:20 | the trimmed text is the contiguous slice that starts right after the leading whitespace, and only whitespace follows it in the input |
| JsString.Split | src/lib/utils.ts:11 | `split(' ')`: at least one piece, and no piece holds the separator |
| JsString.SplitJoin | src/lib/utils.ts:11 | joining the pieces of a split with the separator gives the input back |
| JsString.SplitLast | src/lib/utils.ts:15 | the last piece of a split is the text after the last separator |
| JsString.ToLower | src/lib/sanitizer.ts:50 | `toLowerCase()` maps each character and leaves no capital A-Z |
| Sanitizer.StripTags | src/lib/sanitizer.ts:20 | removing `<[^>]*>` runs never lengthens the text and keeps only characters of the input. No `<` remains with a `>` after it, and a text without `<` is unchanged. The three lemmas below fix its value on every input |
| Sanitizer.StripTagsKeepsText | src/lib/sanitizer.ts:20 | text before the first `<` passes through unchanged |
| Sanitizer.StripTagsDropsTag | src/lib/sanitizer.ts:20 | a `<` closed by a later `>` is removed together with everything up to that `>` |
| Sanitizer.StripTagsKeepsOpenBracket | src/lib/sanitizer.ts:20 | a `<` with no `>` after it is kept, and so is the rest of the text |
| Sanitizer.SanitizeText | src/lib/sanitizer.ts:16-24 | an empty text gives `""`. The result has at most `maxLength` characters and is a prefix of the trimmed, tag-stripped text. It equals that text unless it was cut at `maxLength`, and it keeps no tag remnant |
| Sanitizer.SanitizeTextDefault | src/lib/sanitizer.ts:16 | without a limit the result has at most 1000 characters |
| Sanitizer.TrimmedPrefixKeepsNoTag | src/lib/sanitizer.ts:20-23 | trimming and truncating a text free of tag remnants keeps it free of them |
| Sanitizer.EscapeEach | src/lib/sanitizer.ts:33-39 | the per-character escape leaves none of `< > " ' /` and no bare markup character |
| Sanitizer.ChainIsEscapeEach | src/lib/sanitizer.ts:33-39 | the six chained global replacements, with `&` first, equal escaping each character on its own |
| Sanitizer.ReplaceChain | src/lib/sanitizer.ts:33-39 | the six global replacements in the written order. Its meaning is stated by the lemma above |
| Sanitizer.SanitizeUserInput | src/lib/sanitizer.ts:29-40 | `sanitizeUserInput` is the per-character escape of its input |
| Sanitizer.EscapedAmpersandsBeginEntities | src/lib/sanitizer.ts:33-39 | the output holds none of `< > " ' /`, and every `&` in it begins one of the six entities |
| Sanitizer.UnescapeSanitizeUserInput | src/lib/sanitizer.ts:33-39 | decoding the six entities, read left to right, gives the original input back: no information is lost |
| Sanitizer.EmailRegexShape | src/lib/sanitizer.ts:49 | `^[^\s@]+@[^\s@]+\.[^\s@]+$` matches exactly the texts made of a non-empty local part, one `@`, a non-empty name, a dot and a non-empty suffix, none of them holding whitespace or `@` |
| Sanitizer.MatchesEmailRegex | src/lib/sanitizer.ts:48-52 | the regex test, written as a split at an `@` and a later dot. The lemma above gives its meaning |
| Sanitizer.SanitizeEmail | src/lib/sanitizer.ts:45-57 | `""` gives `""`. Any other input is accepted exactly when its trimmed, lower-cased form matches the regex. An accepted result is that form itself, or its first 254 characters when it is longer, with no whitespace and no capitals |
| Sanitizer.KeepPhoneChars | src/lib/sanitizer.ts:66 | on one character the filter keeps it exactly when it is a digit, `+`, whitespace, `-`, `(` or `)`, and drops it otherwise. The result holds only those characters, in input order, and a text made only of them is unchanged |
| Sanitizer.KeepPhoneCharsConcat | src/lib/sanitizer.ts:66 | filtering a concatenation is concatenating the filtered parts. With the one-character case this fixes the filter on every text |
| Sanitizer.SanitizePhone | src/lib/sanitizer.ts:62-69 | the result is the filtered text when it has at most 20 characters, and otherwise its first 20. So every character is allowed and the result is a subsequence of the input |
| Sanitizer.SanitizePhoneIdempotent | src/lib/sanitizer.ts:62-69 | sanitising a sanitised phone number changes nothing |
| Names.GetPartialName | src/lib/utils.ts:8-18 | a missing or empty name gives `Usuario`. A trimmed name without a space is returned as is. Otherwise the result is the first word, a space, the first character of the last word and a full stop, and that character always exists |
| Names.OuterTokens | src/lib/utils.ts:11-15 | on a trimmed name the split has two or more pieces exactly when the name holds a space. The first piece then ends at the first space and the last piece is non-empty |
| Names.WhitespaceNameIsEmpty | src/lib/utils.ts:9-12 | a name made only of whitespace is not empty, so it skips the fallback and comes out as `""` |
| Names.MiddleIgnored | src/lib/utils.ts:11-17 | whatever stands between the first and the last word, extra spaces included, does not change the result |
| Profiles.UpdateProfile | src/pages/Profile.tsx:260-263 | no loaded profile gives no profile. Otherwise exactly the named key takes the new value and every other key is unchanged |
| Profiles.IsProfileCompleteMeetsRequirements | src/pages/Profile.tsx:63-102 | `isProfileComplete` holds exactly when the user type is one of the two categories and every requirement of the per-category table holds: shared keys, own skills by `is_technical`, sought skills by `seeking_technical`, category keys |
| Profiles.IsProfileComplete | src/pages/Profile.tsx:63-102 | `isProfileComplete` as written. The lemma above gives its meaning |
| Profiles.ZeroExperienceIsMissing | src/pages/Profile.tsx:94-98 | a non-university profile that declares 0 years of experience is never complete |
| Profiles.Without | src/pages/Profile.tsx:707 | `filter(s => s !== x)` removes every `x` and keeps every other element as often as before, in the same order. A list without `x` is returned unchanged |
| Profiles.WithoutConcat | src/pages/Profile.tsx:707 | filtering a concatenation is concatenating the filtered parts |
| Profiles.ClickSeekingSkill | src/pages/Profile.tsx:693-708 | a click on a disabled box changes nothing. Otherwise the list becomes the old list without the skill when it held it, or the old list with the skill appended, and only that list changes. A list of at most three stays at most three |
| Profiles.ClickOwnSkill | src/pages/Profile.tsx:797-803 | the list chosen by `is_technical` becomes the old list without the skill when it held it, or with the skill appended, and nothing else changes |
| Profiles.SeekingSkillsStayWithinLimit | src/pages/Profile.tsx:736-751 | after any sequence of clicks on the sought-skill boxes, both sought-skill lists still hold at most three skills |
| Profiles.InitialProfile | src/pages/Profile.tsx:131-138 | the new row takes the user id, name, email and avatar from the identity, or `""`, with `team_status` `buscando` and `user_type` `universitario`. The columns the insert omits are modelled as null |
| Profiles.InitialProfileIncomplete | src/pages/Profile.tsx:131-138 | a freshly created profile is not complete |
| ProfileGate.GateFieldsCharacterise | src/components/ProfileCheck.tsx:34-41 | the guard's test holds exactly when a profile exists and all seven listed keys are truthy, whatever the user type |
| ProfileGate.IsCompleteForGate | src/components/ProfileCheck.tsx:34-41 | the guard's `isComplete` as written. The lemma above gives its meaning |
| ProfileGate.IsExemptPath | src/components/ProfileCheck.tsx:21 | the guard skips its check on `/profile` and `/auth` |
| ProfileGate.Decide | src/components/ProfileCheck.tsx:16-55 | waiting exactly while auth is loading. Admitted without a check when there is no user or the path is exempt. Sent to `/profile` exactly when the lookup throws or the profile fails the test |
| ProfileGate.ProfessionalTurnedAway | src/components/ProfileCheck.tsx:34-41 | a profile complete by the profile page's rule can still fail the guard's test |
| ProfileGate.GateAdmitsIncomplete | src/components/ProfileCheck.tsx:34-41 | a profile that passes the guard's test can still be incomplete by the profile page's rule |
| ProfileGate.StudentCompleteSatisfiesGate | src/components/ProfileCheck.tsx:34-41 | a complete university profile always passes the guard |
| ProfileGate.Guard.ShowsSpinner | src/components/ProfileCheck.tsx:61-67 | the spinner shows exactly while auth is loading or the check is running |
| ProfileGate.Guard.CheckProfile | src/components/ProfileCheck.tsx:17-55 | a redirect records one navigation to `/profile` and leaves the check running. Admission ends the check, and waiting changes nothing |
| ProfileGate.RedirectKeepsSpinner | src/components/ProfileCheck.tsx:43-52 | after a redirect the spinner is still shown |
| Auth.EmailDomain | src/pages/Auth.tsx:35 | `email.split('@')[1]` is undefined exactly when there is no `@`, and otherwise is the text between the first `@` and the next one or the end |
| Auth.UniversityEmailIffListed | src/pages/Auth.tsx:14-37 | an address with one `@` is a university address exactly when its domain is listed, letter for letter |
| Auth.IsUniversityEmail | src/pages/Auth.tsx:34-37 | `isUniversityEmail` as written. The lemma above gives its meaning |
| Auth.ListedDomainsShape | src/pages/Auth.tsx:14-18 | the list holds eighteen domains, all under `.cl` |
| Auth.SubdomainRefused | src/pages/Auth.tsx:34-37 | a subdomain such as `alumnos.uc.cl` is refused |
| Auth.CapitalsRefused | src/pages/Auth.tsx:34-37 | the comparison is case-sensitive: `UC.CL` is refused |
| Auth.SecondAtIgnored | src/pages/Auth.tsx:35 | text after a second `@` plays no part in the decision |
| Auth.CheckSignUp | src/pages/Auth.tsx:29-67 | the guards in order, each outcome as an if-and-only-if: signed in, then not a university address, then passwords differ, then a password under 6 characters, otherwise proceed |
| Auth.SignUpForm.constructor | src/pages/Auth.tsx:22-26 | the form starts with empty fields and no sign-up call |
| Auth.SignUpForm.HandleSignUp | src/pages/Auth.tsx:39-110 | a failed guard changes nothing. Otherwise one sign-up call goes out with the address, the password and `full_name`. The four fields are cleared only on success, and loading ends |
| Tables.Where | src/pages/Messages.tsx:68-72 | a filter keeps exactly the rows that pass, each as often as before |
| Tables.WhereCount | src/components/messaging/ContactsList.tsx:106-111 | the length of a filtered list is the number of positions whose row passes |
| Tables.InsertSorted | src/pages/Messages.tsx:72 | inserting into an ordered list keeps it ordered and adds exactly the one row |
| Tables.SortBy | src/pages/Messages.tsx:72 | ordering by a key gives an ascending permutation of the rows |
| Tables.Inbox | src/pages/Messages.tsx:68-72 | the inbox query returns the messages the user sent or received, each as often as in the table and no other, newest first |
| Tables.Conversation | src/components/messaging/ChatInterface.tsx:121-125 | the conversation query returns the messages between the two users in either direction, each as often as in the table and no other, oldest first |
| Tables.RequestsReceivedBy | src/pages/Messages.tsx:113-117 | the requests query returns the requests addressed to the user, each as often as in the table and no other, newest first |
| Tables.AcceptedInvolving | src/components/messaging/ContactsList.tsx:67-71 | the accepted-requests query returns exactly the accepted requests the user sent or received |
| Tables.ProfilesOf | src/components/messaging/ContactsList.tsx:87-90 | `in("user_id", ids)` returns the visible profiles whose user id is in the set, each as often as in the table and no other, in table order |
| Tables.OtherParty | src/components/messaging/ContactsList.tsx:82-84 | the contact of a request is its receiver when the user sent it, and its sender otherwise |
| Tables.LastMessageBetween | src/components/messaging/ContactsList.tsx:98-103 | none exactly when the pair has no message. Otherwise it is a message of the conversation that no other message of it postdates |
| Tables.UnreadCount | src/components/messaging/ContactsList.tsx:106-111 | the count equals the number of positions of the table holding an unread message from sender to receiver. It is at most the table size, and zero exactly when there is none |
| Tables.SetReadWhere | src/components/messaging/ChatDialog.tsx:95-99 | `update({ read: true })`: the selected rows become read and the others stay as they were, with length and order kept |
| Tables.SetReadWhereIdempotent | src/components/messaging/ChatDialog.tsx:95-99 | repeating the update gives the same table, when the selection does not depend on the flag |
| Tables.AppendIfNew | src/components/messaging/ChatInterface.tsx:64-70 | a message whose id is present leaves the list unchanged, and any other is appended. Ids stay unique and the message's id is present afterwards |
| Tables.ReplaceById | src/components/messaging/ChatInterface.tsx:89-93 | the element with the same id is replaced and every other element is kept, in the same positions |
| Tables.ReplaceByIdKeepsIds | src/components/messaging/ChatInterface.tsx:89-93 | ids and their order are kept, uniqueness is kept, and an unknown id leaves the list unchanged |
| Storage.SetStatusWhere | src/pages/Messages.tsx:142-146 | the rows with that id and that receiver take the new status and all other rows are unchanged |
| Storage.ResolveIgnoresStatus | src/pages/Messages.tsx:142-146 | the update does not require the request to be pending: any request can be given any status again |
| Storage.ResolveByOtherChangesNothing | src/pages/Messages.tsx:142-146 | the same update issued by someone who is not the receiver changes nothing |
| Storage.Store.constructor | src/integrations/supabase/types.ts:17-76 | the tables start empty and consistent |
| Storage.Store.InsertRequest | src/integrations/supabase/types.ts:27-35 | a refusal changes nothing. Otherwise one row is appended with a fresh id, the default status pending and `now` as both timestamps |
| Storage.Store.UpdateRequestStatus | src/pages/Messages.tsx:142-146 | a refusal changes nothing. Otherwise the requests table becomes the filtered status update, and ids stay unique |
| Storage.Store.InsertMessage | src/integrations/supabase/types.ts:57-65 | a refusal changes nothing. Otherwise one unread message with a fresh id is appended |
| Storage.Store.MarkRead | src/components/messaging/ChatInterface.tsx:139-142 | a refusal changes nothing. Otherwise the selected messages become read |
| RequestDialog.DefaultRequestMessage | src/components/messaging/ContactRequestDialog.tsx:42 | the default text is `Hola `, the receiver's name and the fixed closing sentence, character for character |
| RequestDialog.RequestMessage | src/components/messaging/ContactRequestDialog.tsx:42 | the typed text is sent when it is not empty, and the default only when it is empty |
| RequestDialog.BlankMessageSentAsTyped | src/components/messaging/ContactRequestDialog.tsx:42 | a text of only whitespace is sent as typed, not replaced by the default |
| RequestDialog.ClassifyInsertError | src/components/messaging/ContactRequestDialog.tsx:49-67 | code `23505` means already sent. Otherwise a message containing `row-level security` means not permitted. Otherwise a generic error carrying the message or the fallback text |
| RequestDialog.Dialog.constructor | src/components/messaging/ContactRequestDialog.tsx:16-18 | the dialog starts closed, with no text and not loading |
| RequestDialog.Dialog.HandleSendRequest | src/components/messaging/ContactRequestDialog.tsx:21-86 | without a user nothing is inserted. Success inserts exactly one pending row from the user to the receiver with the chosen text, then closes the dialog and clears the text. A refusal keeps both and is classified. Loading ends in every case |
| MessagesPage.CollectUserIds | src/pages/Messages.tsx:77-81 | the loop collects exactly the ids that occur as sender or receiver |
| MessagesPage.ProfileIndex | src/pages/Messages.tsx:89 | the map has an entry for exactly the user ids of the rows, and each entry is a row with that id |
| MessagesPage.LastRowWins | src/pages/Messages.tsx:89 | when ids repeat, the later row is the one kept |
| MessagesPage.FetchedIndex | src/pages/Messages.tsx:83-89 | every looked-up id gets a visible profile with that id, or null when it has none or the profile query failed |
| MessagesPage.JoinInbox | src/pages/Messages.tsx:77-94 | each inbox message gets the profile of its sender and of its receiver, or null, in the inbox order |
| MessagesPage.JoinRequests | src/pages/Messages.tsx:122-132 | each received request gets the profile of its sender, or null, in the same order |
| MessagesPage.MarkEntryRead | src/pages/Messages.tsx:179-183 | the entry with the id gets `read = true`, and every other entry and every profile is kept |
| MessagesPage.MarkEntryReadIdempotent | src/pages/Messages.tsx:179-183 | marking the same message twice is marking it once |
| MessagesPage.OnlyReceiverMarksRead | src/pages/Messages.tsx:171-175 | the read update issued by someone who did not receive the message changes nothing |
| MessagesPage.PendingCount | src/pages/Messages.tsx:236-240 | the badge count equals the number of positions holding a pending request. It is at most the number of requests, and zero exactly when none is pending |
| MessagesPage.ResolvedIsNotPending | src/pages/Messages.tsx:140-146 | after an accept or a reject, the targeted request is no longer pending |
| MessagesPage.Page.constructor | src/pages/Messages.tsx:49-52 | the page starts loading, with empty lists and nothing selected |
| MessagesPage.Page.ShowsBadge | src/pages/Messages.tsx:236-240 | the badge shows exactly when some request is pending |
| MessagesPage.Page.FetchMessages | src/pages/Messages.tsx:63-107 | the list becomes the user's inbox, newest first, each entry with its sender's and receiver's profile. A failed query keeps the list, and loading ends |
| MessagesPage.Page.FetchContactRequests | src/pages/Messages.tsx:109-138 | the list becomes the requests addressed to the user, newest first, each with its sender's profile. A failed query changes nothing |
| MessagesPage.Page.HandleContactRequest | src/pages/Messages.tsx:140-165 | the store sets the status of the request with that id addressed to the user. On success the request list is fetched again: it becomes the requests addressed to the user, each with its sender's profile or null. A refusal or a failed refetch keeps the list, and the messages, the selection and loading never change |
| MessagesPage.Page.MarkAsRead | src/pages/Messages.tsx:167-187 | the store marks the message read only when the user received it. On success the local entry with that id is marked read, and a refusal changes nothing |
| MessagesPage.Page.OpenMessage | src/pages/Messages.tsx:189-194 | the message is selected. It is marked read in the store and in the list only when it is unread, addressed to the user and the update is not refused. Otherwise neither changes |
| Contacts.Compare | src/components/messaging/ContactsList.tsx:122-127 | the comparator puts a contact first exactly when it has a last message and the other has none or an older one, and ties exactly when both have none or both have the same time |
| Contacts.CompareAntisymmetric | src/components/messaging/ContactsList.tsx:122-127 | the comparator is antisymmetric |
| Contacts.CompareTransitive | src/components/messaging/ContactsList.tsx:122-127 | the comparator is transitive |
| Contacts.SortedMeansNewestFirst | src/components/messaging/ContactsList.tsx:121-127 | in a sorted list, contacts with a last message come before those without, and newer last messages come first |
| Contacts.SortContacts | src/components/messaging/ContactsList.tsx:122-127 | the in-place sort leaves the array ordered by the comparator and a permutation of what it held |
| Contacts.InsertIntoPrefix | src/components/messaging/ContactsList.tsx:122-127 | one pass of the in-place sort extends the sorted prefix by one element and permutes the array |
| Contacts.ContactIds | src/components/messaging/ContactsList.tsx:67-84 | the contacts are exactly the other parties of the accepted requests the user is in |
| Contacts.ContactFor | src/components/messaging/ContactsList.tsx:98-117 | a contact has the profile and the newest message of the pair, no message of the pair being newer, or none when the pair has no message. Its unread count is the number of unread messages from the contact to the user, zero exactly when there is none |
| Contacts.BuildContacts | src/components/messaging/ContactsList.tsx:95-119 | one contact per visible profile, in the profiles' order |
| Contacts.SortedCopy | src/components/messaging/ContactsList.tsx:122-127 | the sorted list is ordered and a permutation of the built one |
| Contacts.PermutationSound | src/components/messaging/ContactsList.tsx:67-127 | every listed contact belongs to an accepted request of the user and carries that contact's last message and unread count |
| Contacts.PermutationComplete | src/components/messaging/ContactsList.tsx:95-129 | every fetched profile appears in the sorted list |
| Contacts.ContactsView.constructor | src/components/messaging/ContactsList.tsx:30-31 | the list starts empty and loading, with no subscription |
| Contacts.ContactsView.FetchContacts | src/components/messaging/ContactsList.tsx:62-140 | no user changes nothing. A failed requests query keeps the list, no accepted request empties it, and a failed profiles query keeps it. Otherwise the list is sorted newest first and is a permutation of the contacts built from the visible profiles of the user's contacts. Loading ends |
| Contacts.ContactsView.Mount | src/components/messaging/ContactsList.tsx:36-60 | mounting with a user subscribes and loads the list with the same outcomes as the fetch, and loading ends. Without a user nothing changes |
| Contacts.ContactsView.OnMessageInsert | src/components/messaging/ContactsList.tsx:51-53 | while subscribed and signed in, any insert refetches the whole list with the same outcomes as the fetch. Otherwise it changes nothing |
| Contacts.ContactsView.Unmount | src/components/messaging/ContactsList.tsx:57-59 | unmounting ends the subscription and keeps the list |
| Chat.ChatContent | src/components/messaging/ChatInterface.tsx:160 | `sanitizeText(newMessage.trim(), 2000)`. The lemma below gives its properties |
| Chat.ChatContentClean | src/components/messaging/ChatInterface.tsx:160 | the sent content has at most 2000 characters, keeps no tag remnant and is a prefix of the trimmed, tag-stripped input |
| Chat.LoneTagSentEmpty | src/components/messaging/ChatInterface.tsx:157-160 | a lone tag passes the blank check but is sent as empty content |
| Chat.DisplayContent | src/components/messaging/ChatInterface.tsx:271 | the shown text holds no `<` or `>`, and unescaping it gives the stored content back |
| Chat.ReadMarker | src/components/messaging/ChatInterface.tsx:276-280 | only own messages get a marker, which is `✓✓` exactly when the message is read |
| Chat.UnreadIds | src/components/messaging/ChatInterface.tsx:133-135 | the ids picked for marking are exactly those of fetched messages addressed to the user and unread |
| Chat.UnreadMarkedInStore | src/components/messaging/ChatInterface.tsx:133-143 | every unread message of the conversation that the user received is read in the store after the fetch |
| Chat.FetchConversation | src/components/messaging/ChatInterface.tsx:121-143 | the fetch returns the conversation oldest first. Its unread messages to the user are marked read in the store, unless the update is refused |
| Chat.ChatView.constructor | src/components/messaging/ChatInterface.tsx:31-35 | the view starts loading, with no messages, no text and no subscription |
| Chat.ChatView.CanSend | src/components/messaging/ChatInterface.tsx:303 | the send button is enabled exactly when not sending and the text holds a non-whitespace character |
| Chat.ChatView.OnInsert | src/components/messaging/ChatInterface.tsx:56-73 | a message outside the conversation or with a known id changes nothing. Any other is appended. Unique ids and the conversation invariant are preserved |
| Chat.ChatView.OnUpdate | src/components/messaging/ChatInterface.tsx:82-95 | a conversation message replaces the one with its id. Length, ids, their order and both invariants are kept |
| Chat.ChatView.FetchMessages | src/components/messaging/ChatInterface.tsx:115-154 | the list becomes the conversation and the store marks its unread messages to the user read. The local flags are left as fetched. A failure changes neither, and loading ends |
| Chat.ChatView.SendMessage | src/components/messaging/ChatInterface.tsx:156-202 | blank input does nothing. Otherwise one row is inserted from user to contact with the sanitised content and subject `Chat message`. The input is cleared only on success, and sending ends |
| Chat.ChatView.Submit | src/components/messaging/ChatInterface.tsx:163-201 | the insert from user to contact with the given content and subject `Chat message`. The text is cleared only on success, the list and the other flags are kept, and sending ends |
| Chat.ChatView.Mount | src/components/messaging/ChatInterface.tsx:40-105 | mounting loads the conversation, oldest first, marks its unread messages to the user read in the store unless refused, subscribes and ends loading. A failed fetch keeps the list and the table. The typed text and the sending flag never change |
| Chat.ChatView.Unmount | src/components/messaging/ChatInterface.tsx:101-104 | unmounting ends the subscription and keeps the messages, the text and the loading and sending flags |
| ChatDialogs.DialogSubject | src/components/messaging/ChatDialog.tsx:122 | the subject is `Chat con ` followed by the recipient's name |
| ChatDialogs.BulkReadIdempotent | src/components/messaging/ChatDialog.tsx:95-99 | repeating the bulk read update gives the same end state |
| ChatDialogs.BulkReadClearsUnread | src/components/messaging/ChatDialog.tsx:95-99 | after the bulk update nothing from the recipient to the user is unread |
| ChatDialogs.AppendWithoutDedup | src/components/messaging/ChatDialog.tsx:63-66 | appending a message whose id is already present breaks id uniqueness, since the handler does not check |
| ChatDialogs.DialogKeepsMarkup | src/components/messaging/ChatDialog.tsx:118-123 | the dialog sends trimmed text unsanitised: a lone tag that the chat view would send as empty is sent as typed |
| ChatDialogs.Dialog.constructor | src/components/messaging/ChatDialog.tsx:35-39 | the dialog starts closed and empty |
| ChatDialogs.Dialog.FetchMessages | src/components/messaging/ChatDialog.tsx:80-111 | the list becomes the conversation, oldest first, and everything from the recipient to the user is marked read in the store. A failure changes neither, and loading ends |
| ChatDialogs.Dialog.SetOpen | src/components/messaging/ChatDialog.tsx:48-74 | opening with a user loads the conversation, marks everything from the recipient to the user read in the store unless refused, subscribes and ends loading. Otherwise nothing is fetched and the subscription is removed. The typed text and the sending flag never change |
| ChatDialogs.Dialog.OnInsert | src/components/messaging/ChatDialog.tsx:63-66 | while subscribed, a message of the conversation is appended with no duplicate check. The text and the loading and sending flags are kept |
| ChatDialogs.Dialog.SendMessage | src/components/messaging/ChatDialog.tsx:113-138 | without a user or with blank input nothing happens. Otherwise one row is inserted with the trimmed content and the dialog subject. The input is cleared only on success, and sending ends |
| MessageDialogs.SenderLabel | src/components/messaging/MessageDialog.tsx:58 | the metadata name when it is truthy, else the email, else `undefined` |
| MessageDialogs.ResolvedSubject | src/components/messaging/MessageDialog.tsx:58 | the trimmed subject when it is not blank, otherwise `Mensaje de ` and the sender label. The lemma below shows it is never blank |
| MessageDialogs.SubjectNeverBlank | src/components/messaging/MessageDialog.tsx:58 | the stored subject is never blank |
| MessageDialogs.Deliver | src/components/messaging/MessageDialog.tsx:55-62 | the store gets exactly one new message from the user to the recipient, with the given subject and content, unless it refuses |
| MessageDialogs.Dialog.constructor | src/components/messaging/MessageDialog.tsx:26-29 | the dialog starts closed and empty |
| MessageDialogs.Dialog.CanSend | src/components/messaging/MessageDialog.tsx:134 | the button is enabled exactly when not sending and the content is not blank |
| MessageDialogs.Dialog.HandleSendMessage | src/components/messaging/MessageDialog.tsx:33-82 | no user, or blank content, inserts nothing. Otherwise the trimmed content goes out with the trimmed subject or the default. Success clears both and closes the dialog, failure keeps them, and sending ends |
| MessageDialogs.Dialog.Submit | src/components/messaging/MessageDialog.tsx:52-81 | the insert and the state it leaves: cleared and closed on success, kept on failure, never sending |
| Feedback.SliceField | supabase/functions/send-feedback/index.ts:54 | `value?.slice(0, n)` keeps a missing field missing. A present one becomes its first `n` characters, or the whole value when it is shorter |
| Feedback.SanitizeFeedback | supabase/functions/send-feedback/index.ts:51-58 | `type` becomes its first 100 characters, `description` its first 2000, a present `email` its first 254 and `userName` its first 100, each the whole field when it is shorter. `userId` passes unchanged |
| Feedback.PresentEntriesMembers | supabase/functions/send-feedback/index.ts:62-66 | a pair becomes a parameter exactly when its key is an entry with that value defined |
| Feedback.BuildQuery | supabase/functions/send-feedback/index.ts:61-66 | the loop appends the defined entries, in order |
| Feedback.QueryOfReport | supabase/functions/send-feedback/index.ts:51-66 | the parameters are type and description, then email, user id and user name each only when defined, then the timestamp, in that order |
| Feedback.Serve | supabase/functions/send-feedback/index.ts:16-105 | OPTIONS gives an empty answer. A malformed body gives 500, a falsy `type` or `description` gives 400 before anything else is consulted, and no webhook URL gives 500. Otherwise the webhook is called with the parameters and its answer gives 200 or 500 |
| Feedback.RejectionIgnoresEnvironment | supabase/functions/send-feedback/index.ts:26-34 | a report missing a required field gets the same 400 whatever the configuration and the webhook, and no webhook is called |

## Left out

- Network I/O, the realtime channel transport and `Promise.all` are not modelled. A store call is a method on the in-memory `Store`. Each realtime event is a method call, and events are handled one at a time in the order they arrive.
- The 500 ms refetch timer after a chat message is not modelled, nor scrolling, toasts, console output or date formatting. Timestamps are integers.
- The store's row-level security policies, unique keys and network failures are not visible in the client. Whether a write is refused is an input, and so is the set of profiles a user may see.
- Only the two messaging tables live in the store. The `profiles` table is a parameter of the methods that read it.
- Profile reads and writes (`fetchProfile`, `handleSave`, `uploadAvatar`) are left out, because they move data to and from the store. Only the row they create for a new user, `InitialProfile`, is modelled.
- `sanitizeHtml` (DOMPurify) and `cn` (clsx/tailwind-merge) are left out: their behaviour lives in libraries that are not part of this model.
- `toLowerCase` is modelled for the capitals A to Z only.
- A string is a sequence of characters, not of UTF-16 code units, so `length` and `slice` count characters.
- `URLSearchParams` encoding and the webhook URL's form are not modelled. The webhook call is kept as its base URL and its list of key-value pairs.
- The feedback fields are strings or absent. A JSON body whose `type` is, say, a number (which makes `slice` throw, answering 500) is not modelled. Neither is `null` as opposed to absent.
- Feedback.Serve: a body that parses as JSON but is `null` or not an object, for which the handler answers 500, cannot be represented. A body is either malformed or a report.
- ChatDialogs.Dialog.OnInsert: the realtime filter string of the dialog is taken to deliver exactly the conversation's inserts.
- Chat.ChatView: the user and the contact are fixed for the life of the view. A change of either tears the subscription down and builds a new view.
- Contacts.ContactsView.FetchContacts: the ordering of rows that share a `created_at` is left to the store in the source. The model takes the table order.
- Profiles.ClickOwnSkill: the click is modelled as a toggle. The source's checkbox passes a `checked` flag that always equals the opposite of the current state.
- Profiles.InitialProfile: the columns the insert leaves out take whatever defaults the store gives them, which the client never sees. The model takes them as null.
- Chat.ChatView: the `!contactId` guard of the fetch, the subscription and the send is not modelled. The contact is fixed when the view is built and is taken to be a real user id.
