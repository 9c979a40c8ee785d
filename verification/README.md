# TeamChat core in Dafny

A model of the core of TeamChat, a team chat with companies, channels and
direct conversations. The backend is a Laravel application and the client is a Vue/Pinia application. The model covers:

- **the database and the models**: users, companies with admin/user membership, channels and their memberships, join requests, direct conversations with one acceptance flag per participant, messages (soft-deleted, encrypted at rest), reactions and files.
- **the REST controllers**: messages, reactions, direct conversations, companies, channels and files. Each is a pure function from the database, the caller and the request to the new database, the HTTP status and the broadcast events.
- **the broadcast events and the authorisation closures of the private topics**.
- **the services**: message encryption, file storage rules and emoji shortcodes.
- **the client side**:
  - the chat, conversation and company stores, which fold server answers and broadcast events into the lists the user sees;
  - the router's navigation guard.

Effects are parameters:

- **Fresh ids** are arguments, with a freshness precondition.
- **The clock** is an integer argument: seconds on the server, milliseconds in the client.
- **The cipher** is a pair of functions, and `Encryption.RoundTrips` says it is correct.
- **Password hashing, slug generation and the password check** are function arguments.
- **The emoji table of `EmojiService`** is an argument, a sequence of (shortcode, emoji) pairs in declaration order.

Modules follow the source:

- **Shared vocabulary**:
  - `Common`: identifiers, options, HTTP statuses and PHP string helpers;
  - `Schema`: tables and rows;
  - `Http`: outcomes.
- **Models**: `UserModel`, `DirectConversationModel`, `CompanyModel`, `ChannelModel` and `FileModel`.
- **Services**: `Encryption`, `FileService` and `EmojiService`.
- **Broadcasting**: `Topics` and `Events`.
- **Steps shared by the message endpoints**: `Messaging` and `Pagination`.
- **One module per controller**: `MessageController`, `ReactionController`, `ConversationController`, `CompanyController`, `ChannelController` and `FileController`.
- **Client**: `MessageList` (shared by both chat stores), `ChatStore`, `ConversationStore`, `CompanyStore` and `Router`.

## Model

| member | source | states |
|---|---|---|
| Encryption.ConfiguredKey | backend/app/Services/MessageEncryptionService.php:14 | the cipher key setting wins over the application key when present |
| Encryption.PrefixedKeyIsDecoded | backend/app/Services/MessageEncryptionService.php:14-18 | a key written as "base64:" plus a payload is the decoded payload |
| Encryption.UnprefixedKeyIsVerbatim | backend/app/Services/MessageEncryptionService.php:14-18 | a key without the "base64:" prefix is used as written |
| Encryption.Encrypt | backend/app/Services/MessageEncryptionService.php:26-51 | fails exactly when the primitive fails; otherwise reports the IV it used and the primitive's ciphertext |
| Encryption.Decrypt | backend/app/Services/MessageEncryptionService.php:53-75 | fails exactly when the primitive fails, otherwise yields its plaintext |
| Encryption.EncryptForStorage | backend/app/Services/MessageEncryptionService.php:77-88 | succeeds exactly when encrypt does, with content and content_iv taken from its result |
| Encryption.DecryptFromStorage | backend/app/Services/MessageEncryptionService.php:90-98 | an empty IV (null, "" or "0") marks legacy plaintext returned as is; any other IV decrypts |
| Encryption.StorageRoundTrip | backend/app/Services/MessageEncryptionService.php:77-98 | with a correct cipher and a truthy IV, what encryptForStorage stores, decryptFromStorage reads back unchanged |
| Encryption.StoredRowDeterminesPlaintext | backend/app/Services/MessageEncryptionService.php:77-98 | under a correct cipher two bodies stored as the same (content, content_iv) pair are the same body, whatever IVs were used |
| UserModel.AdminIsMember | backend/app/Models/User.php:100-112 | isAdminOf implies isMemberOf |
| UserModel.AdminIsRoleNotOwnership | backend/app/Models/User.php:105-112 | isAdminOf holds exactly for a membership with role 'admin'; owning the company does not enter |
| UserModel.AvatarUrl | backend/app/Models/User.php:90-98 | null exactly for an empty avatar path, otherwise the path under "storage/" |
| DirectConversationModel.OtherUser | backend/app/Models/DirectConversation.php:54-60 | user one gets user two; anyone else gets user one |
| DirectConversationModel.OtherUserIsOpposite | backend/app/Models/DirectConversation.php:49-60 | for a participant of a proper pair the other user is the other participant, and asking from there gives the caller back |
| DirectConversationModel.AcceptBy | backend/app/Models/DirectConversation.php:67-74 | sets the caller's own slot flag only; a non-participant changes nothing |
| DirectConversationModel.AcceptByIdempotent | backend/app/Models/DirectConversation.php:67-74 | accepting twice is accepting once |
| DirectConversationModel.BothAcceptancesAccept | backend/app/Models/DirectConversation.php:62-74 | both participants' acceptances, in either order, make isAccepted true; one acceptance does so exactly when the other flag was already set |
| DirectConversationModel.FindOrCreateBetween | backend/app/Models/DirectConversation.php:76-97 | returns the row of the ordered pair (min, max): the stored one if there is one, otherwise a new row in which only the initiator's flag is set |
| DirectConversationModel.FindOrCreateSymmetric | backend/app/Models/DirectConversation.php:76-97 | for a stored pair, (A, B) and (B, A) give the same result |
| DirectConversationModel.FindOrCreateTwice | backend/app/Models/DirectConversation.php:76-97 | a second call from either side creates nothing and returns the same row |
| DirectConversationModel.CreationFlagsInitiatorOnly | backend/app/Models/DirectConversation.php:86-94 | a newly created conversation is accepted by the initiator and pending for the receiver |
| DirectConversationModel.FindOrCreatePreservesValid | backend/app/Models/DirectConversation.php:76-97 | keeps every pair ordered and unique |
| Topics.ParseTopicName | backend/routes/channels.php:15-50 | every topic name parses back to its topic |
| Topics.TopicNameInjective | backend/routes/channels.php:15-50 | no two topics share a name |
| Topics.Authorize | backend/routes/channels.php:15-50 | user topic: only the user themself; channel topic: an existing channel's members; conversation topic: an existing conversation's two users; company topic: members, who get their roster entry |
| Topics.PendingConversationTopicOpen | backend/routes/channels.php:29-35 | a participant may subscribe to a conversation that is not yet accepted |
| Topics.UserTopicIsPersonal | backend/routes/channels.php:15-17 | a user may subscribe to a personal topic exactly when it is their own |
| Topics.WireNameInjective | frontend/src/services/websocket.ts:69-156 | no two (private or presence, topic) pairs share a wire name |
| Topics.ClientKind | frontend/src/services/websocket.ts:69-156 | the client joins company topics as presence channels and every other topic as a private channel |
| Topics.HeardByClient | frontend/src/services/websocket.ts:69-156 | a published name reaches a client subscription exactly when the topics agree and the event uses the kind the client subscribes with |
| Events.ToOthers | backend/app/Http/Controllers/Api/MessageController.php:119 | toOthers excludes the sender's socket and changes nothing else |
| Events.MessageableTopic | backend/app/Events/NewMessage.php:21-30 | channel messages go to the channel topic and direct messages to the conversation topic, carrying the same id |
| Events.NewMessage | backend/app/Events/NewMessage.php:16-51 | one topic, the name "message.new", and the plaintext passed in (never the stored ciphertext), together with the sender's name and avatar |
| Events.MessageEdited | backend/app/Events/MessageEdited.php:16-42 | the message's topic; the payload is the id, the new plaintext and the edit time |
| Events.MessageDeleted | backend/app/Events/MessageDeleted.php:20-47 | routed from what the constructor captured; the payload is only the id |
| Events.DeletedEventIndependentOfRow | backend/app/Events/MessageDeleted.php:20-35 | the event is the same whether it is built from the row before or after the soft delete |
| Events.ReactionAdded | backend/app/Events/ReactionAdded.php:18-51 | the message's topic; the reaction id, the emoji and the acting user |
| Events.ReactionRemoved | backend/app/Events/ReactionRemoved.php:17-44 | the message's topic; the requested emoji and the user |
| Events.UserTyping | backend/app/Events/UserTyping.php:16-45 | the type 'channel' routes to the channel topic and every other type to the conversation topic |
| Events.TypingFollowsMessages | backend/app/Events/UserTyping.php:22-29 | typing in a channel or conversation, named by its own type, goes where its messages go |
| Events.NewConversationRequest | backend/app/Events/NewConversationRequest.php:17-45 | only the receiver's personal topic |
| Events.ConversationAccepted | backend/app/Events/ConversationAccepted.php:17-45 | both participants' personal topics |
| Events.UserStatusChanged | backend/app/Events/UserStatusChanged.php:16-42 | one company topic per company of the user, in order, each published as a private channel |
| Events.StatusChangeUnheard | backend/app/Events/UserStatusChanged.php:20-28 | as written, no name the status event is published under matches any subscription of the client |
| Events.UserStatusChangedOnPresence | backend/app/Events/UserStatusChanged.php:20-42 | the same name, payload and company topics, published as presence channels |
| Events.MessageEventsShareTopic | backend/app/Events/NewMessage.php:21-30 | new, edited, deleted and reaction events about one message share one topic |
| Events.MessageTopicAudience | backend/routes/channels.php:20-35 | a channel message's topic reaches exactly the channel's members; a direct message's topic reaches exactly the conversation's two users |
| Events.StatusChangeTopics | backend/app/Events/UserStatusChanged.php:20-28 | for the presence event: each topic is published under the name the client joins for that company, the user may join it and is on its roster, and a user without companies reaches no topic |
| Messaging.JudgeParent | backend/app/Http/Controllers/Api/MessageController.php:87-101 | classifies a reply's parent: none, a live message of the same owner, a row that does not exist, a soft-deleted row, or a message elsewhere |
| Messaging.NewTextMessage | backend/app/Http/Controllers/Api/MessageController.php:104-114 | the created row carries the stored content and IV, the type 'text', no edit time and the parent |
| Messaging.NewMessageReadsBack | backend/app/Http/Controllers/Api/MessageController.php:104-114 | a stored message decrypts to the content that was sent |
| Messaging.AppendKeepsUniqueIds | backend/app/Http/Controllers/Api/MessageController.php:106-114 | appending a row with an unused id keeps message ids unique |
| Pagination.History | backend/app/Http/Controllers/Api/MessageController.php:43-46 | the visible messages of one owner, newest first, as a permutation of those messages |
| Pagination.CutoffOf | backend/app/Http/Controllers/Api/MessageController.php:48-56 | no cursor gives the last three days; a live cursor gives "older than its time"; a soft-deleted cursor gives no time filter at all |
| Pagination.LimitOf | backend/app/Http/Controllers/Api/MessageController.php:41 | the requested limit, or 50 |
| Pagination.Paginate | backend/app/Http/Controllers/Api/MessageController.php:58-69 | has_more exactly when more than limit rows came back; the page is the first limit rows, reversed |
| Pagination.PageIsNewestEnd | backend/app/Http/Controllers/Api/MessageController.php:58-69 | a page holds the newest rows, oldest first; every row left out is no newer than a row on the page |
| Pagination.HistoryPageContents | backend/app/Http/Controllers/Api/MessageController.php:36-69 | a page holds at most limit visible messages of the owner that pass the time filter, oldest first |
| Pagination.CursorIsStrict | backend/app/Http/Controllers/Api/MessageController.php:48-52 | with a live cursor every message on the page is strictly older than the cursor |
| Pagination.NextPageFollows | backend/app/Http/Controllers/Api/MessageController.php:48-69 | with distinct timestamps, using a history row as the cursor yields exactly the rows that follow it in the history, so paging back neither skips nor repeats |
| MessageController.ChannelMessages | backend/app/Http/Controllers/Api/MessageController.php:26-71 | 404 missing channel, 403 non-member, 422 invalid query, 500 when a row of the page fails to decrypt, otherwise 200 with the page formatted row by row |
| MessageFormat.FormatMessage | backend/app/Http/Controllers/Api/MessageController.php:231-269 | fails exactly when the row fails to decrypt; otherwise the view carries the row's id, sender and parent, its plaintext and one summary per emoji used on it |
| MessageFormat.FormatPage | backend/app/Http/Controllers/Api/MessageController.php:65 | the page is formatted exactly when every row is, with one view per row in the same order |
| MessageFormat.FormatHistory | backend/app/Http/Controllers/Api/MessageController.php:63-69 | a formatted page keeps has_more and fails exactly when a row fails |
| MessageFormat.ReadablePageFormats | backend/app/Http/Controllers/Api/MessageController.php:63-69 | a page drawn from rows that all decrypt is formatted, each view carrying its row's id and plaintext in page order |
| MessageFormat.AppendKeepsReadable | backend/app/Http/Controllers/Api/MessageController.php:104-114 | adding a row that decrypts keeps every row readable |
| MessageController.ReadableHistoryAnswered | backend/app/Http/Controllers/Api/MessageController.php:26-71 | when every stored row decrypts, a member's valid query is answered 200 with the history page, message for message, each body the plaintext of its row |
| MessageController.PostingKeepsReadable | backend/app/Http/Controllers/Api/MessageController.php:77-125 | posting under a correct cipher keeps every stored row readable, so history keeps being answered |
| MessageController.StoreChannelMessage | backend/app/Http/Controllers/Api/MessageController.php:77-125 | 404/403/422 refusals leave the database alone; 201 appends exactly the new encrypted row and broadcasts NewMessage to others |
| MessageController.PostedMessageIsInHistory | backend/app/Http/Controllers/Api/MessageController.php:77-125 | a posted message is in its channel's history and reads back as the content sent |
| MessageController.Update | backend/app/Http/Controllers/Api/MessageController.php:131-168 | 404 missing or deleted, 403 not the sender, 422 when more than 24 hours old or the content is invalid; otherwise the row is re-encrypted and edited_at is set |
| MessageController.EditKeepsIdentity | backend/app/Http/Controllers/Api/MessageController.php:131-168 | an edit keeps the row's id, sender, owner and creation time, and the new content reads back |
| MessageController.EditWindowCloses | backend/app/Http/Controllers/Api/MessageController.php:142-150 | for the sender, an edit is 422 exactly when more than a day has passed or the content is invalid |
| MessageController.Destroy | backend/app/Http/Controllers/Api/MessageController.php:174-205 | 404 missing, 403 without deletion rights; otherwise a soft delete and a MessageDeleted broadcast |
| MessageController.DirectMessagesSenderOnly | backend/app/Http/Controllers/Api/MessageController.php:179-191 | a direct message can be deleted by its sender and nobody else |
| MessageController.AdminDeletesInChannels | backend/app/Http/Controllers/Api/MessageController.php:179-191 | an admin of the channel's company may delete any message in the channel |
| MessageController.DeleteHidesMessage | backend/app/Http/Controllers/Api/MessageController.php:174-205 | after a delete, find misses the message and no history lists it; other rows are unchanged |
| MessageController.Typing | backend/app/Http/Controllers/Api/MessageController.php:211-226 | members get 200 and a UserTyping broadcast to others; nothing is stored |
| MessageController.NonMembersForbidden | backend/app/Http/Controllers/Api/MessageController.php:26-34 | a non-member of an existing channel gets 403 from history, posting and typing |
| ReactionController.AccessImpliesTopic | backend/app/Http/Controllers/Api/ReactionController.php:188-201 | whoever may react may subscribe to the message's topic; for channels the two coincide, while a pending conversation's topic is open but its reactions are not |
| ReactionController.Store | backend/app/Http/Controllers/Api/ReactionController.php:21-64 | 404 without access, 422 invalid emoji, 200 unchanged for an existing triple, otherwise 201 with the new triple and a broadcast |
| ReactionController.Destroy | backend/app/Http/Controllers/Api/ReactionController.php:69-100 | 404 without access or without the caller's own triple; otherwise only that triple goes |
| ReactionController.Toggle | backend/app/Http/Controllers/Api/ReactionController.php:139-183 | removes the triple if present, otherwise adds it, and reports which |
| ReactionController.StoreIdempotent | backend/app/Http/Controllers/Api/ReactionController.php:36-47 | adding the same reaction twice adds it once |
| ReactionController.DistinctEmojisCoexist | backend/app/Http/Controllers/Api/ReactionController.php:36-53 | one user's different emojis on one message are both kept |
| ReactionController.DestroyTouchesOnlyOwnTriple | backend/app/Http/Controllers/Api/ReactionController.php:69-100 | removing a reaction leaves every other triple, including other users', as it was |
| ReactionController.ReachIgnoresReactions | backend/app/Http/Controllers/Api/ReactionController.php:188-201 | reactions do not change who may reach a message |
| ReactionController.ToggleOffThenOn | backend/app/Http/Controllers/Api/ReactionController.php:139-183 | toggling off and then on restores the triple |
| ReactionController.ToggleOnThenOff | backend/app/Http/Controllers/Api/ReactionController.php:139-183 | toggling on and then off removes what was added |
| ReactionController.Group | backend/app/Http/Controllers/Api/ReactionController.php:118-128 | a group lists exactly the users who reacted with the emoji; has_reacted says whether the viewer did |
| ReactionController.Aggregate | backend/app/Http/Controllers/Api/ReactionController.php:115-129 | one group per emoji used on the message |
| ReactionController.IndexGroups | backend/app/Http/Controllers/Api/ReactionController.php:115-129 | every group's count is its number of distinct users, and has_reacted is the viewer's membership |
| ReactionController.Index | backend/app/Http/Controllers/Api/ReactionController.php:105-134 | 404 without access, otherwise the groups |
| ReactionController.Summary | backend/app/Http/Controllers/Api/MessageController.php:258-269 | the summary of one emoji lists exactly the users who reacted with it |
| ReactionController.Summaries | backend/app/Http/Controllers/Api/MessageController.php:258-269 | one summary per emoji used on the message, each under its own emoji |
| ReactionController.SummariesAgreeWithIndex | backend/app/Http/Controllers/Api/MessageController.php:258-269 | the message views' summaries agree with the index groups in emoji, count and users, and no summary is empty |
| ConversationController.Index | backend/app/Http/Controllers/Api/DirectConversationController.php:25-44 | 500 exactly when one of the caller's conversations has a latest message that fails to decrypt; otherwise 200 with one formatted view for each conversation in which the caller is user one or user two, and nothing else |
| ConversationController.ReadableFormats | backend/app/Http/Controllers/Api/DirectConversationController.php:331-372 | a conversation is formatted whenever every stored row decrypts |
| ConversationController.ReadableIndexAnswered | backend/app/Http/Controllers/Api/DirectConversationController.php:25-44 | when every stored row decrypts, the listing is answered 200 |
| ConversationController.IndexMatchesTopicAccess | backend/app/Http/Controllers/Api/DirectConversationController.php:25-44 | an answered listing has a view for a conversation exactly when the caller may subscribe to its topic |
| ConversationController.PreviewShape | backend/app/Http/Controllers/Api/DirectConversationController.php:350 | the preview is the text up to 100 characters; longer text is cut to 100 and gets "..." |
| ConversationController.LatestMessage | backend/app/Http/Controllers/Api/DirectConversationController.php:337-340 | the newest visible message of the conversation, or none when all are deleted |
| ConversationController.FormatConversation | backend/app/Http/Controllers/Api/DirectConversationController.php:331-372 | the other user, isAccepted, the caller's own pending flag, and a preview exactly when a latest message exists |
| ConversationController.Show | backend/app/Http/Controllers/Api/DirectConversationController.php:90-103 | 404 for non-participants; 500 when the preview cannot be decrypted |
| ConversationController.Open | backend/app/Http/Controllers/Api/DirectConversationController.php:59-83 | an existing pair is answered 200 without a write or an event, or 500 when its latest message fails to decrypt; otherwise the canonical row is created, the receiver is notified, and the answer is 201, or 500 after the write and the event when the new row cannot be formatted |
| ConversationController.Store | backend/app/Http/Controllers/Api/DirectConversationController.php:50-84 | corrected: 422 for a missing target or oneself; otherwise `Open`: an existing pair gives 200 or 500 with no write and no event, a new pair is created and announced with 201 or 500 |
| ConversationController.StoreAsWritten | backend/app/Http/Controllers/Api/DirectConversationController.php:50-84 | as written: only the target's existence is validated, then `Open`: an existing pair gives 200 or 500 with no write and no event, otherwise the pair is created and announced with 201 or 500 |
| ConversationController.ReadableStoreAnswered | backend/app/Http/Controllers/Api/DirectConversationController.php:50-84 | when every stored row decrypts, a valid request is never 500: 200 for an existing pair, 201 for a new one |
| ConversationController.SelfRequestCreatesRow | backend/app/Http/Controllers/Api/DirectConversationController.php:53-57 | as written, a request to oneself is 201 and stores a row pairing the caller with itself, accepted at once, which breaks the ordered-pair invariant |
| ConversationController.StoreCorrectsOnlySelf | backend/app/Http/Controllers/Api/DirectConversationController.php:50-84 | the corrected store differs from the one as written only for a request to oneself, which it refuses with 422 |
| ConversationController.Accept | backend/app/Http/Controllers/Api/DirectConversationController.php:109-134 | 404 non-participant, 422 already accepted, otherwise acceptBy and a ConversationAccepted broadcast, answered 200, or 500 after both when the refreshed row cannot be formatted |
| ConversationController.ReadableAcceptAnswered | backend/app/Http/Controllers/Api/DirectConversationController.php:109-134 | when every stored row decrypts, an acceptance that passes the guards is answered 200 |
| ConversationController.Reject | backend/app/Http/Controllers/Api/DirectConversationController.php:140-161 | 404 non-participant, 422 already accepted, otherwise the row is deleted |
| ConversationController.Destroy | backend/app/Http/Controllers/Api/DirectConversationController.php:167-182 | any participant deletes, accepted or not |
| ConversationController.StorePreservesValid | backend/app/Http/Controllers/Api/DirectConversationController.php:50-84 | starting a conversation keeps pairs ordered and unique |
| ConversationController.AcceptPreservesValid | backend/app/Http/Controllers/Api/DirectConversationController.php:109-134 | accepting keeps pairs ordered and unique |
| ConversationController.RemovalPreservesValid | backend/app/Http/Controllers/Api/DirectConversationController.php:140-182 | rejecting and deleting keep pairs ordered and unique |
| ConversationController.StoreTwiceCreatesOnce | backend/app/Http/Controllers/Api/DirectConversationController.php:50-84 | asking twice, from either side, creates one conversation: the second call writes and broadcasts nothing, and answers 200 when every stored row decrypts |
| ConversationController.NewRequestPendingForReceiver | backend/app/Http/Controllers/Api/DirectConversationController.php:331-372 | a new request is answered 201 and is pending for the receiver and not for the initiator |
| ConversationController.AcceptCompletesRequest | backend/app/Http/Controllers/Api/DirectConversationController.php:109-134 | the receiver's acceptance of a fresh request is answered 200 and makes it accepted; afterwards rejecting is refused with 422 and typing is open to both |
| ConversationController.AcceptanceReachesBoth | backend/app/Http/Controllers/Api/DirectConversationController.php:109-134 | the acceptance event reaches both participants' personal topics, and each may subscribe |
| ConversationController.Messages | backend/app/Http/Controllers/Api/DirectConversationController.php:188-238 | 404 non-participant, 403 until accepted, 422 invalid query, 500 when a row fails to decrypt, otherwise the formatted history page |
| ConversationController.ReadableConversationAnswered | backend/app/Http/Controllers/Api/DirectConversationController.php:188-238 | when every stored row decrypts, an accepted participant's valid query is answered with the page, each body the plaintext of its row |
| ConversationController.SendMessage | backend/app/Http/Controllers/Api/DirectConversationController.php:244-298 | 404/403/422 refusals; 201 appends the encrypted row; no event is broadcast |
| ConversationController.SentMessageIsStoredFaithfully | backend/app/Http/Controllers/Api/DirectConversationController.php:244-298 | a sent message reads back as the text sent and keeps ids unique |
| ConversationController.SendingKeepsReadable | backend/app/Http/Controllers/Api/DirectConversationController.php:244-298 | sending under a correct cipher keeps every stored row readable |
| ConversationController.Typing | backend/app/Http/Controllers/Api/DirectConversationController.php:304-326 | the same two guards; 200 otherwise, with no event and no change |
| ConversationController.AcceptanceGatesMessaging | backend/app/Http/Controllers/Api/DirectConversationController.php:188-326 | for a participant, history, sending and typing are 403 exactly while the conversation is not accepted |
| CompanyModel.AddMember | backend/app/Models/Company.php:57-67 | an existing member keeps their role; a newcomer gets the given role; nothing else changes |
| CompanyModel.RemoveMember | backend/app/Models/Company.php:69-77 | corrected: the membership goes, and so do the user's memberships of the company's channels; nothing else |
| CompanyModel.RemoveMemberAsWritten | backend/app/Models/Company.php:69-77 | as written: the company membership goes and the channel memberships stay; the call throws exactly when the company has a channel |
| CompanyModel.RemovalStrandsChannelMembership | backend/app/Models/Company.php:69-77 | as written, removing a channel member throws after the company membership is gone and leaves the user in the channel, which the corrected removal does not |
| CompanyModel.AddThenRemoveRestores | backend/app/Models/Company.php:57-77 | adding and then removing a newcomer restores the company memberships |
| CompanyModel.SlugOnCreate | backend/app/Models/Company.php:89-93 | an empty slug is derived from the name |
| CompanyModel.SlugOnUpdate | backend/app/Models/Company.php:95-99 | a changed name re-derives the slug |
| CompanyModel.SlugFollowsRenames | backend/app/Models/Company.php:85-100 | after creation and any renames the slug is derived from the current name |
| CompanyModel.WriteKeepsUniqueSlugs | backend/database/migrations/2025_12_14_203439_create_acompanies_table.php:15 | writing a row whose slug no other row holds keeps the slug index unique |
| CompanyController.Search | backend/app/Http/Controllers/Api/CompanyController.php:34-56 | 422 unless the term has 2 to 100 characters; otherwise the first 20 matches by name or slug, in table order |
| CompanyController.Store | backend/app/Http/Controllers/Api/CompanyController.php:58-89 | 422 for an invalid name or password; 500 when the derived slug is taken; otherwise the caller becomes owner and admin, and a public default channel is created with the owner in it |
| CompanyController.Update | backend/app/Http/Controllers/Api/CompanyController.php:122-147 | owner only; each field optional; a new password is hashed; 500 when the re-derived slug belongs to another company |
| CompanyController.NewSlug | backend/app/Models/Company.php:95-99 | an update without a new name keeps the slug; a new name re-derives it |
| CompanyController.StoreKeepsUniqueSlugs | backend/app/Http/Controllers/Api/CompanyController.php:58-89 | creating a company keeps slugs unique |
| CompanyController.UpdateKeepsUniqueSlugs | backend/app/Http/Controllers/Api/CompanyController.php:122-147 | updating a company keeps slugs unique |
| CompanyController.AdminIsNotOwner | backend/app/Http/Controllers/Api/CompanyController.php:126-131 | an admin who is not the owner gets 403 |
| CompanyController.Join | backend/app/Http/Controllers/Api/CompanyController.php:149-180 | 404, 422 for members or a wrong password, otherwise the caller becomes a 'user' member and joins every public channel |
| CompanyController.JoinReachesPublicChannels | backend/app/Http/Controllers/Api/CompanyController.php:165-172 | after a join the user is in every public channel and in no private channel they were not already in |
| CompanyController.Leave | backend/app/Http/Controllers/Api/CompanyController.php:182-203 | members only, never the owner; then removeMember |
| CompanyController.LeaveAsWritten | backend/app/Http/Controllers/Api/CompanyController.php:182-203 | as written, a leave that passes the guards is 500 whenever the company has a channel, with the company membership already gone and the channel memberships kept |
| CompanyController.ParseRole | backend/app/Http/Controllers/Api/CompanyController.php:248 | only 'admin' and 'user' are roles |
| CompanyController.UpdateMember | backend/app/Http/Controllers/Api/CompanyController.php:231-258 | admins only; the owner's role is fixed; a member's pivot role is set |
| CompanyController.RemoveMemberAction | backend/app/Http/Controllers/Api/CompanyController.php:260-288 | admins only; never the owner; then removeMember |
| CompanyController.Show | backend/app/Http/Controllers/Api/CompanyController.php:91-120 | members only; each channel with whether the caller is in it |
| CompanyController.Members | backend/app/Http/Controllers/Api/CompanyController.php:205-229 | members only; each member with their role and whether they own the company |
| CompanyController.OwnerKeptBySelfService | backend/app/Http/Controllers/Api/CompanyController.php:122-203 | update, join and leave keep every owner an admin member |
| CompanyController.OwnerKeptByAdmins | backend/app/Http/Controllers/Api/CompanyController.php:231-288 | admin actions cannot demote or remove an owner |
| CompanyController.OwnerKeptByStore | backend/app/Http/Controllers/Api/CompanyController.php:58-89 | a new company starts with its owner as admin |
| ChannelModel.AddChannelMember | backend/app/Http/Controllers/Api/ChannelController.php:192-225 | inserts the pair; adding an existing member changes nothing |
| ChannelModel.AddCompanyMembers | backend/app/Http/Controllers/Api/ChannelController.php:126-132 | every company member becomes a channel member; other channels are unchanged |
| ChannelModel.PendingJoinRequests | backend/app/Models/ChannelJoinRequest.php:49-68 | the channel's requests whose status is pending |
| ChannelModel.Approve | backend/app/Models/ChannelJoinRequest.php:49-59 | status approved, the reviewer and time recorded, and the requester added to the channel |
| ChannelModel.Reject | backend/app/Models/ChannelJoinRequest.php:61-68 | status rejected, the reviewer and time recorded, and no membership change |
| ChannelModel.ResolutionsAreRepeatable | backend/app/Models/ChannelJoinRequest.php:49-68 | neither resolution checks the current status, so a rejected request can still be approved, and vice versa |
| ChannelModel.ResolvingLeavesPending | backend/app/Models/ChannelJoinRequest.php:49-68 | a resolved request leaves the pending list; the other requests stay |
| ChannelController.Index | backend/app/Http/Controllers/Api/ChannelController.php:15-41 | company members only; every channel of the company, with membership and pending flags |
| ChannelController.Show | backend/app/Http/Controllers/Api/ChannelController.php:86-108 | company members only, so private channels are shown to every company member |
| ChannelController.Store | backend/app/Http/Controllers/Api/ChannelController.php:43-84 | admins only; private by default; the creator joins; a public channel also gets every company member |
| ChannelController.StoreDefaultsToPrivate | backend/app/Http/Controllers/Api/ChannelController.php:62-71 | a channel created without a privacy flag is private and holds only its creator |
| ChannelController.Update | backend/app/Http/Controllers/Api/ChannelController.php:110-143 | admins only; only a switch from private to public adds the company's members |
| ChannelController.UpdateRemovesNoOne | backend/app/Http/Controllers/Api/ChannelController.php:110-143 | an update never removes a member |
| ChannelController.Destroy | backend/app/Http/Controllers/Api/ChannelController.php:145-167 | admins only; 422 for the company's last channel |
| ChannelController.LastChannelSurvives | backend/app/Http/Controllers/Api/ChannelController.php:156-160 | a company with channels keeps at least one |
| ChannelController.Members | backend/app/Http/Controllers/Api/ChannelController.php:169-190 | channel members only; exactly the channel's members |
| ChannelController.AddMemberAction | backend/app/Http/Controllers/Api/ChannelController.php:192-225 | admins only; the target must be a company member and not yet in the channel |
| ChannelController.RemoveMemberAction | backend/app/Http/Controllers/Api/ChannelController.php:227-242 | admins only; detaching a non-member still succeeds |
| ChannelController.RequestJoin | backend/app/Http/Controllers/Api/ChannelController.php:244-285 | corrected: 404 for a missing channel, 403 for a non-member of the company, 422 for a channel member, a pending request or a message over 500 characters (private and public channels alike); otherwise exactly one pending request is stored and the answer is 201 |
| ChannelController.RequestJoinAsWritten | backend/app/Http/Controllers/Api/ChannelController.php:270-282 | as written: every refusal is as in the corrected action, and where that answers 201 the row is stored and the answer is 500 |
| ChannelController.RequestJoinFailsAfterStoring | backend/app/Http/Controllers/Api/ChannelController.php:270-282 | as written, a first request is answered 500 yet stored, so the retry is refused with 422 |
| ChannelController.RequestJoinKeepsOnePending | backend/app/Http/Controllers/Api/ChannelController.php:260-264 | at most one pending request per user and channel |
| ChannelController.JoinRequests | backend/app/Http/Controllers/Api/ChannelController.php:287-313 | admins only; exactly the pending requests |
| ChannelController.HandleJoinRequest | backend/app/Http/Controllers/Api/ChannelController.php:315-344 | admins only; 'approve' approves, 'reject' rejects, any other action is 422 |
| ChannelController.HandlingApprovesIntoChannel | backend/app/Http/Controllers/Api/ChannelController.php:315-344 | the request must belong to the channel in the route (404 otherwise, line 325); an approval adds the requester to that channel |
| FileModel.Url | backend/app/Models/File.php:53-59 | '' exactly for a falsy path, otherwise the public storage URL |
| FileModel.ThumbnailUrl | backend/app/Models/File.php:61-67 | null exactly for an empty thumbnail path |
| FileModel.HumanUnitIndex | backend/app/Models/File.php:69-79 | the unit index i of the division loop satisfies size <= 1024^(i+1), and size > 1024^i when i > 0 |
| FileModel.UnitName | backend/app/Models/File.php:71-78 | the five units B to TB; past 'TB' there is none, an undefined array key that fails the request |
| FileModel.UnitExamples | backend/app/Models/File.php:69-79 | 1024 bytes stay in 'B'; 1025 bytes are 'KB' |
| FileService.BasePath | backend/app/Services/FileService.php:130-137 | channel files under files/channels/{id}, conversation files under files/conversations/{id}, any other type under files/misc |
| FileService.BasePathsSeparate | backend/app/Services/FileService.php:130-137 | different channels or conversations never share a directory |
| FileService.PendingConversationFilesReadable | backend/app/Services/FileService.php:160-173 | a participant may read a pending conversation's files |
| FileService.MaxFileSizeFor | backend/app/Services/FileService.php:225-232 | images 10 MB, other files 50 MB |
| FileService.RulesIgnoreImageLimit | backend/app/Services/FileService.php:237-252 | the validation rules admit an image above the image limit; the only size cap is 50 MB |
| FileService.UploadedSizesHaveAUnit | backend/app/Services/FileService.php:237-252 | an upload the rules admit stops at unit index 2 or below, which has a name |
| FileService.ThumbnailPath | backend/app/Services/FileService.php:105-124 | thumbnails go to thumbnails/thumb_{name} under the base path |
| FileService.UploadRecord | backend/app/Services/FileService.php:29-92 | original size recorded exactly when compressed; non-images have no thumbnail and keep their size; an image has a thumbnail exactly when one was written |
| FileController.Caption | backend/app/Http/Controllers/Api/FileController.php:43-46 | an empty caption becomes "[Datei]"; the result is never falsy |
| FileController.ContentTypeFor | backend/app/Http/Controllers/Api/FileController.php:326-333 | images are 'image'; everything else is 'file', never 'text' |
| FileController.UploadMessage | backend/app/Http/Controllers/Api/FileController.php:49-56 | the message carries the encrypted caption and the content type of the file |
| FileController.Post | backend/app/Http/Controllers/Api/FileController.php:38-73 | 422 for an invalid upload; otherwise the caption message and the file row are created, and NewMessage is broadcast to others |
| FileController.UploadToChannel | backend/app/Http/Controllers/Api/FileController.php:28-74 | 404, 403 for non-members, otherwise the shared upload |
| FileController.UploadToConversation | backend/app/Http/Controllers/Api/FileController.php:79-127 | 404 for non-participants, 403 until accepted, otherwise the shared upload |
| FileController.UploadIsReadable | backend/app/Http/Controllers/Api/FileController.php:28-127 | the uploaded file points at its message, the uploader may access it, and the caption reads back |
| FileController.DocumentFiltersDiffer | backend/app/Http/Controllers/Api/FileController.php:154-172 | a spreadsheet or text file is a document in a channel listing but not in a conversation listing |
| FileController.ChannelFiles | backend/app/Http/Controllers/Api/FileController.php:132-194 | 404, 403, 422 for a bad type, search, page or page size; otherwise the channel's files passing the type and name filters, with the page asked for |
| FileController.ConversationFiles | backend/app/Http/Controllers/Api/FileController.php:199-250 | participants only, accepted or not; 422 for a bad type, page or page size; no name search |
| FileController.PageOf | backend/app/Http/Controllers/Api/FileController.php:145 | the page is the one asked for, or 1, and never below 1 |
| FileController.ListedFilesAreAccessible | backend/app/Http/Controllers/Api/FileController.php:132-250 | every listed file is one the caller may open |
| FileController.Show | backend/app/Http/Controllers/Api/FileController.php:255-268 | an inaccessible file is 404, like a missing one |
| FileController.Download | backend/app/Http/Controllers/Api/FileController.php:273-293 | as show, and 404 when the stored file is missing |
| FileController.Destroy | backend/app/Http/Controllers/Api/FileController.php:298-321 | the uploader or a channel's company admin removes the row; otherwise 403 |
| FileController.FileDeletionRights | backend/app/Http/Controllers/Api/FileController.php:298-321 | conversation files can be deleted only by their uploader, and channel files also by an admin of the company |
| EmojiService.ReplaceEachSplits | backend/app/Services/EmojiService.php:210-217 | the replacement loop is a left fold: a split table is two passes in sequence |
| EmojiService.ReplaceEachAbsent | backend/app/Services/EmojiService.php:210-217 | text that contains no search string is unchanged |
| EmojiService.ConvertShortcodes | backend/app/Services/EmojiService.php:210-217 | text without any shortcode comes back unchanged |
| EmojiService.EveryOccurrenceReplaced | backend/tests/Unit/Services/EmojiServiceTest.php:26-40 | every occurrence of a shortcode is replaced, not just the first |
| EmojiService.NoneLeft | backend/app/Services/EmojiService.php:210-217 | replacing a search string by a non-empty string sharing no character with it leaves no occurrence of it, for every text |
| EmojiService.NoNewOccurrence | backend/app/Services/EmojiService.php:210-217 | such a replacement creates no occurrence of a string that shares no character with the replacement |
| EmojiService.EachClearsAll | backend/app/Services/EmojiService.php:210-217 | the replacement fold leaves none of its search strings when they share no character with any replacement |
| EmojiService.NoShortcodeLeft | backend/app/Services/EmojiService.php:210-217 | for a table whose shortcodes and emojis are non-empty and share no character, no shortcode is left after conversion, whatever the text |
| EmojiService.HypothesesNeeded | backend/app/Services/EmojiService.php:210-217 | an empty replacement, or one sharing a character with the search string, can leave an occurrence behind |
| EmojiService.Put | backend/app/Services/EmojiService.php:222-231 | PHP array assignment: an existing key is updated in place, a new key is appended |
| EmojiService.PutFacts | backend/app/Services/EmojiService.php:222-231 | after an assignment the keys are the old keys plus the new one, still distinct, and the new key maps to the assigned value |
| EmojiService.LastCodeIsLastIndex | backend/app/Services/EmojiService.php:224 | the shortcode an emoji flips to is the one at the last table index that carries it |
| EmojiService.FlipKeepsLastCode | backend/app/Services/EmojiService.php:224 | array_flip keeps every emoji exactly once and maps it to its last shortcode |
| EmojiService.ConvertToShortcodes | backend/app/Services/EmojiService.php:222-231 | text without any emoji of the table comes back unchanged |
| EmojiService.LastCodeIsCode | backend/app/Services/EmojiService.php:224 | the shortcode an emoji flips to is a shortcode the table gives that emoji |
| EmojiService.NoEmojiLeft | backend/app/Services/EmojiService.php:222-231 | for such a table no emoji is left after conversion back, whatever the text |
| EmojiService.SharedEmojiComesBackAsLaterCode | backend/app/Services/EmojiService.php:222-231 | with two shortcodes for one emoji, the round trip from the first shortcode gives back the later one |
| EmojiService.Unique | backend/app/Services/EmojiService.php:238 | array_unique keeps the same values, each once |
| EmojiService.AvailableEmojis | backend/app/Services/EmojiService.php:236-239 | exactly the emojis of the table, each once |
| EmojiService.TableEntriesValid | backend/app/Services/EmojiService.php:280-287 | both sides of every table entry are valid |
| EmojiService.AsciiOutsideRanges | backend/app/Services/EmojiService.php:291-355 | no ASCII character lies in the emoji ranges |
| EmojiService.ValidityOfMixedText | backend/app/Services/EmojiService.php:277-356 | any text with one character in the ranges is valid; ASCII text is valid only as a table entry |
| MessageList.OnMessage | frontend/src/stores/chat.ts:182-188 | others' messages are appended; one's own is not |
| MessageList.OnEdited | frontend/src/stores/chat.ts:189-195 | the first message with the id takes the new content and edit time; nothing else changes |
| MessageList.Remove | frontend/src/stores/chat.ts:196-198 | every message with the id goes, and only those |
| MessageList.RemoveAbsentIsIdentity | frontend/src/stores/chat.ts:125-130 | removing an id that is not listed changes nothing, so removing twice is removing once |
| MessageList.LoadMessages | frontend/src/stores/chat.ts:71-95 | nothing while loading; the cursor is the oldest loaded message when loading more; the page is prepended or replaces the list |
| MessageList.CursorFollowsPage | frontend/src/stores/chat.ts:79-89 | after loading more, the old oldest message sits right after the new page |
| ChatStore.AddReaction | frontend/src/stores/chat.ts:220-235 | the emoji's first group counts one more and lists the user; otherwise a new group of one is appended |
| ChatStore.RemoveReaction | frontend/src/stores/chat.ts:236-248 | the emoji's first group counts one less and drops the user; a group reaching zero removes every group of the emoji |
| ChatStore.AddThenRemoveRestores | frontend/src/stores/chat.ts:220-248 | for well-formed groups and a user who had not reacted, adding and then removing restores the groups |
| ChatStore.EmptyGroupDroppedByRoundTrip | frontend/src/stores/chat.ts:236-248 | a zero-count group the server sent is dropped by an add and remove |
| ChatStore.ReactOn | frontend/src/stores/chat.ts:220-248 | only the first message with the id changes |
| ChatStore.OnReactionAdded | frontend/src/stores/chat.ts:220-235 | the event aggregates into the message's groups |
| ChatStore.OnReactionRemoved | frontend/src/stores/chat.ts:236-248 | the event is undone in the message's groups |
| ChatStore.AddedThenRemovedRestoresMessages | frontend/src/stores/chat.ts:220-248 | the events for a reaction added and then removed leave the messages as they were |
| ChatStore.ToggleReaction | frontend/src/stores/chat.ts:132-166 | no user means no change; 'added' aggregates the user in; any other answer removes them |
| ChatStore.OnTyping | frontend/src/stores/chat.ts:199-219 | one's own typing is ignored; a known typer is refreshed; a new one is appended; ids stay distinct |
| ChatStore.PruneTyping | frontend/src/stores/chat.ts:199-219 | typers older than the timeout are dropped |
| ChatStore.TypingUsernames | frontend/src/stores/chat.ts:63-68 | the names of the typers heard from within five seconds |
| ChatStore.JustTypedIsShown | frontend/src/stores/chat.ts:63-68 | someone who has just typed is shown |
| ConversationStore.Accepted | frontend/src/stores/conversation.ts:51-57 | exactly the accepted conversations |
| ConversationStore.Pending | frontend/src/stores/conversation.ts:51-57 | exactly the conversations pending the caller's acceptance |
| ConversationStore.Start | frontend/src/stores/conversation.ts:123-133 | the returned conversation goes to the front unless its id is already listed |
| ConversationStore.StartKeepsIdsDistinct | frontend/src/stores/conversation.ts:127-130 | starting never duplicates an id, and the conversation is listed afterwards |
| ConversationStore.Accept | frontend/src/stores/conversation.ts:135-146 | the first conversation with the id is accepted and no longer pending |
| ConversationStore.AcceptMovesBetweenViews | frontend/src/stores/conversation.ts:139-143 | an accepted conversation moves from the pending view to the accepted view |
| ConversationStore.OnAccepted | frontend/src/stores/conversation.ts:196-201 | the other side's acceptance sets only the accepted flag |
| ConversationStore.Reject | frontend/src/stores/conversation.ts:148-157 | the conversation leaves the list, and stops being the current one if it was |
| ConversationStore.Select | frontend/src/stores/conversation.ts:76-115 | messages are cleared; only an accepted conversation is loaded and subscribed to |
| ConversationStore.PendingSelectionShowsNothing | frontend/src/stores/conversation.ts:76-89 | selecting a pending conversation shows no messages and subscribes to nothing |
| ConversationStore.OnMessage | frontend/src/stores/conversation.ts:161-176 | others' messages are appended; the conversation's last message is updated in every case |
| ConversationStore.OwnMessageOnlyUpdatesPreview | frontend/src/stores/conversation.ts:161-176 | one's own message is not appended again, but becomes the preview, marked as one's own |
| CompanyStore.MyChannels | frontend/src/stores/company.ts:49 | exactly the channels one is a member of |
| CompanyStore.OtherChannels | frontend/src/stores/company.ts:50 | exactly the channels one is not a member of |
| CompanyStore.ChannelsPartitioned | frontend/src/stores/company.ts:49-50 | the two views partition the channel list |
| CompanyStore.OwnershipNotConsulted | frontend/src/stores/company.ts:51 | for every company, isAdmin holds exactly when the role reads 'admin', whatever the ownership flag says |
| CompanyStore.OnJoining | frontend/src/stores/company.ts:82-86 | a user is appended only when their id is not listed; ids stay distinct |
| CompanyStore.OnLeaving | frontend/src/stores/company.ts:87-89 | every entry with the id goes, and nothing else |
| CompanyStore.OnStatusChanged | frontend/src/stores/company.ts:90-95 | only the first entry with the id takes the status |
| CompanyStore.GetUserStatus | frontend/src/stores/company.ts:151-158 | the listed status, or 'offline' when the user is absent or the status is empty |
| CompanyStore.RosterQueriesFollowEvents | frontend/src/stores/company.ts:82-95 | a joined user is online, a user who left is offline, and a status change is what the status query reports |
| CompanyStore.LeaveCompany | frontend/src/stores/company.ts:122-129 | the company leaves the list; if it was current, the current company and the channels are cleared, but the current channel is not |
| CompanyStore.SelectCompany | frontend/src/stores/company.ts:65-97 | the company becomes current, the current channel is cleared, and the channels are replaced |
| CompanyStore.CreateChannel | frontend/src/stores/company.ts:131-141 | nothing without a current company; otherwise the channel is appended as joined |
| CompanyStore.CreatedChannelIsMine | frontend/src/stores/company.ts:131-141 | a freshly created channel is among one's own channels |
| CompanyStore.RequestJoinChannel | frontend/src/stores/company.ts:143-149 | the first channel with the id is marked pending and every other entry is unchanged; an unlisted id changes nothing |
| Router.MetaOfRoutes | frontend/src/router/index.ts:6-71 | every page under the app shell requires authentication; only login and register are guest-only; no page is both |
| Router.FetchUser | frontend/src/stores/auth.ts:90-103 | without a token nothing changes; with a token the user becomes the server's answer |
| Router.Guard | frontend/src/router/index.ts:74-93 | a token without a user is resolved first; then login with a redirect exactly for protected pages without a session, the app exactly for guest pages with a session, otherwise proceed |
| Router.RedirectsSettle | frontend/src/router/index.ts:74-93 | the redirect targets are let through, so the guard never loops |
| Router.RejectedSessionGoesToLogin | frontend/src/router/index.ts:78-85 | a stored token the server no longer accepts cannot open a protected page |

## Left out

- File bytes, disk storage, thumbnail rendering and image compression: these are I/O. The compression result and "thumbnail written" are inputs of `FileService.UploadRecord`.
- Cipher internals, base64 and random IV generation. The cipher is a parameter with a round-trip predicate, and the IV is an argument.
- Broadcast transport and the websocket client. Events are values carrying their topics and an exclude-self flag.
- Authentication endpoints, tokens, the HTTP client of the frontend, the metrics and user controllers, and `uploadLogo`: these are outside the core, or are I/O.
- `unread_count` of conversations and read receipts: the count query is not part of the modelled behaviour.
- The `updated_at` sort of the conversation list. `ConversationController.Index` returns a set of views.
- Concurrency and transactions: every request is atomic in the model.
- The SQL `LIKE` in searches. It is modelled as a case-sensitive substring test, so case-insensitive collation and the `%`/`_` wildcards inside the term are not modelled.
- The rounding and string formatting of the human-readable file size. Only the unit chosen is modelled.
- The paginator's page arithmetic in the file listings. `FileController.ChannelFiles` and `FileController.ConversationFiles` return the filtered set of files and the page size.
- Response bodies of write endpoints beyond the status. The database after the request and the events are modelled instead.
- The reaction endpoint `emojis` only returns the category table and a fixed list, so it is not modelled separately.
- `EmojiService.ShortcodesByCategory`: it is a constant. That each of its codes is a key of the table is not proved, because the 187-entry table is a parameter and is not transcribed.
- `EmojiService.SharedEmojiComesBackAsLaterCode`: shown for a two-entry table with one emoji. It is not stated for the concrete table of `EmojiService`, which is not transcribed.
- `EmojiService.Unique`: it returns a sequence, so array_unique's preserved keys (a sparse array) are not modelled.
- The client's `sortedMessages` getter sorts by time; the list kept by the stores is modelled, and the sort is not.
- The client's `clearMessages`, `fetch*` and `selectChannel` actions only assign server answers to fields, and the pushes in `sendMessage`, `createCompany` and `joinCompany` are single appends. They are not modelled separately.
- The aliasing between the current conversation and its list entry on the client. The two are separate values in the model.
- `Router.Guard`: the server's answer is a parameter. The guard assumes the same answer on a re-navigation.
- `ChannelController.Destroy`: it removes the channel row and its memberships. The cascade to messages, files and join requests is not modelled.
- `FileService.UploadValid`: the validation rules ignore `getMaxFileSize`, as the source does. This is stated by `FileService.RulesIgnoreImageLimit`.
- `MessageController.Update`: Carbon's fractional `diffInHours` is modelled as "more than 24 hours of seconds have elapsed".
- `ChannelModel.AddChannelMember` and `ChannelModel.PendingJoinRequests`: `Channel::addMember` and `pendingJoinRequests` do not appear in the Channel model file. They are modelled from their uses in the controllers and tests.
- `CompanyModel.RemoveMember`: this is the evidently intended removal. The source calls `detach` on a has-many relation, which throws (see "## Findings"). `CompanyController.Leave` and `CompanyController.RemoveMemberAction` use the intended removal; `CompanyController.LeaveAsWritten` and `CompanyModel.RemoveMemberAsWritten` keep the behaviour as written.
- `ConversationController.Store`: this is the corrected version, which refuses a request to oneself as the test suite expects. `ConversationController.StoreAsWritten` keeps the behaviour as written (see "## Findings").
- `ChannelController.RequestJoin`: this is the corrected version, which answers 201 with the stored request. `ChannelController.RequestJoinAsWritten` keeps the 500 as written (see "## Findings"). Whether the listing of `ChannelController.JoinRequests` (ChannelController.php:309) meets a null `created_at` depends on the join-requests migration, which is not part of this model; the listing is modelled as answered.
- `Events.StatusChangeTopics`: stated for `Events.UserStatusChangedOnPresence`, the corrected event. The event as written is `Events.UserStatusChanged`, and `Events.StatusChangeUnheard` says that no client hears it (see "## Findings").
- Laravel's global `TrimStrings` and `ConvertEmptyStringsToNull` middleware run before validation and are not modelled. The string arguments of the endpoints are the values the controller sees after them. So content of blanks only, which the source refuses with 422 as empty, is taken as given, and a name with surrounding blanks is measured with them. This applies to `MessageController.StoreChannelMessage`, `MessageController.Update`, `ConversationController.SendMessage`, `CompanyController.Store`, `CompanyController.Update`, `CompanyController.Join`, `CompanyController.Search`, `ChannelController.Store`, `ChannelController.Update` and `FileController.Caption`.
- `MessageController.StoreChannelMessage`: the content is stored as given; the trimming of the middleware is not modelled (see the line above).
- `ConversationController.SendMessage`: the content is stored as given; the trimming of the middleware is not modelled.
- `CompanyController.Store`: the name is validated and stored as given; the trimming of the middleware is not modelled.
- `CompanyController.Update`: the name is validated and stored as given; the trimming of the middleware is not modelled.
- `Pagination.History`: SQL leaves the order of rows with equal `created_at` open. The model fixes one order, the table order, so which of several rows with the same time lands on a page boundary is one of the choices the database may make. `Pagination.NextPageFollows` assumes distinct timestamps for that reason.
- `EmojiService.NoShortcodeLeft` and `EmojiService.NoEmojiLeft`: stated for tables whose shortcodes and emojis are non-empty and share no character, as in the table of the service (ASCII shortcodes, non-ASCII emojis). That the concrete table meets this is not proved, because it is not transcribed. `EmojiService.HypothesesNeeded` shows that the property fails without the condition.
- `MessageFormat.FormatMessage`: the sender's username, avatar and status, and the ISO-8601 formatting of times, are not modelled. The reactions are a map keyed by emoji, where the source answers the same summaries as a list.

## Findings

| source | as written | input that shows it | evidently intended | confidence | as-written member | corrected member |
|---|---|---|---|---|---|---|
| backend/app/Events/UserStatusChanged.php:20-28 | the status event is broadcast on `PrivateChannel('company.{id}')`, whose wire name is `private-company.{id}`, while the roster joins `company.{id}` with `echo.join` (frontend/src/services/websocket.ts:156), whose wire name is `presence-company.{id}` | a status change of a member of company 1: it is published as `private-company.1`, and the client listens on `presence-company.1` | broadcast on the presence channel the roster joins, so the roster's `user.status_changed` listener hears it | not executed | Events.StatusChangeUnheard | Events.StatusChangeTopics |
| backend/app/Http/Controllers/Api/DirectConversationController.php:55 | `'different:' . $user->id` compares `user_id` with a request field named after the caller's id; the request has no such field, and `different` passes when the other field is absent | user 7 posts `user_id` 7: the answer is 201 and a row pairing user 7 with itself, accepted by both slots | refuse a request to oneself with 422, as backend/tests/Feature/Api/DirectConversation/CreateConversationTest.php:72-82 expects | not executed | ConversationController.SelfRequestCreatesRow | ConversationController.StoreCorrectsOnlySelf |
| backend/app/Models/Company.php:69-77 | the channel memberships are detached through `$channel->members()`, which backend/app/Models/Channel.php:38-41 declares as has-many; a has-many relation has no `detach`, so the call throws after the company membership is already detached | a member who is not the owner leaves a company that has its default channel: the answer is 500, the company membership is gone and the channel membership stays | detach through the many-to-many `users()` relation, so the user leaves the company's channels too | not executed | CompanyModel.RemovalStrandsChannelMembership | CompanyModel.RemoveMember |
| backend/app/Http/Controllers/Api/ChannelController.php:282 | the response reads `$joinRequest->created_at->toIso8601String()`, but backend/app/Models/ChannelJoinRequest.php:12 switches timestamps off, so the instance `create` returns has no `created_at` and the call on null throws after the row is stored | a company member outside a channel, without a pending request, asks to join: the answer is 500, and the retry is refused with 422 because the first request is pending | answer 201 with the stored request | not executed | ChannelController.RequestJoinFailsAfterStoring | ChannelController.RequestJoin |
