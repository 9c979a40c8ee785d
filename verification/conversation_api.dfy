/** DirectConversationController: chat requests between two users, their
    acceptance, and messaging inside an accepted conversation. */
module ConversationController {
  import opened Common
  import opened Schema
  import opened Encryption
  import opened UserModel
  import opened DirectConversationModel
  import opened Topics
  import opened Events
  import opened Http
  import opened Pagination
  import opened Messaging
  import opened MessageFormat

  /** The caller is one of the two users of an existing conversation. Route model
      binding answers 404 for a missing row, and every action answers 404 to a
      non-participant, so both read as "not found". */
  predicate Participant(s: State, user: Id, id: Id) {
    id in s.conversations && HasUser(s.conversations[id], user)
  }

  // ---------------------------------------------------------------------------
  // Listing and formatting
  // ---------------------------------------------------------------------------

  const PreviewLength: nat := 100

  /** The last-message preview: the first 100 characters, and "..." when the
      text was longer. */
  function Preview(text: string): (r: string)
  {
    if |text| > PreviewLength then text[..PreviewLength] + "..." else text
  }

  /** The preview is at most 103 characters and starts with the text's first
      100; a text that fits is shown whole, a longer one is cut to exactly 100
      characters followed by "...". */
  lemma PreviewShape(text: string)
    ensures |Preview(text)| <= PreviewLength + 3
    ensures StartsWith(Preview(text), text[..if |text| < PreviewLength then |text| else PreviewLength])
    ensures |text| <= PreviewLength ==> Preview(text) == text
    ensures |text| > PreviewLength ==>
              |Preview(text)| == PreviewLength + 3 && Preview(text)[PreviewLength..] == "..."
  {
    if |text| > PreviewLength {
      assert Preview(text)[..PreviewLength] == text[..PreviewLength];
    }
  }

  /** `latest()->first()` on the conversation's messages. */
  function LatestMessage(ms: seq<Message>, id: Id): (r: Option<Message>)
    ensures r.Some? ==> r.value in ms && r.value.owner == Direct(id) && !r.value.deleted
    ensures r.Some? ==> forall m :: m in ms && m.owner == Direct(id) && !m.deleted ==> m.createdAt <= r.value.createdAt
    ensures r.None? ==> forall m :: m in ms && m.owner == Direct(id) ==> m.deleted
  {
    var h := History(ms, Direct(id));
    if |h| == 0 then None
    else
      assert forall m :: m in h ==> m.createdAt <= h[0].createdAt by {
        forall m | m in h ensures m.createdAt <= h[0].createdAt {
          var i :| 0 <= i < |h| && h[i] == m;
        }
      }
      Some(h[0])
  }

  datatype LastMessage = LastMessage(content: string, createdAt: int, isMine: bool)

  /** What `formatConversation` reports for the caller (the other user's profile
      fields are reduced to the id). */
  datatype ConversationView = ConversationView(
    id: Id,
    otherUser: Id,
    isAccepted: bool,
    isPendingMyAcceptance: bool,
    lastMessage: Option<LastMessage>)

  /** `formatConversation`. Decrypting the last message may raise; that is None. */
  function FormatConversation(s: State, c: Cipher, id: Id, user: Id): (r: Option<ConversationView>)
    requires id in s.conversations
    ensures var latest := LatestMessage(s.messages, id);
            r.None? <==> latest.Some? && DecryptFromStorage(c, latest.value.content, latest.value.contentIv).None?
    ensures r.Some? ==> r.value.id == id && r.value.otherUser == OtherUser(s.conversations[id], user)
    ensures r.Some? ==> r.value.isAccepted == IsAccepted(s.conversations[id])
    ensures r.Some? ==>
              r.value.isPendingMyAcceptance ==
              (if s.conversations[id].userOne == user then !s.conversations[id].userOneAccepted
               else !s.conversations[id].userTwoAccepted)
    ensures r.Some? ==> (r.value.lastMessage.Some? <==> LatestMessage(s.messages, id).Some?)
  {
    var conv := s.conversations[id];
    var pending := if conv.userOne == user then !conv.userOneAccepted else !conv.userTwoAccepted;
    match LatestMessage(s.messages, id)
    case None => Some(ConversationView(id, OtherUser(conv, user), IsAccepted(conv), pending, None))
    case Some(m) =>
      match DecryptFromStorage(c, m.content, m.contentIv)
      case None => None
      case Some(text) =>
        Some(ConversationView(id, OtherUser(conv, user), IsAccepted(conv), pending,
                              Some(LastMessage(Preview(text), m.createdAt, m.sender == user))))
  }

  /** `show`. */
  function Show(s: State, c: Cipher, user: Id, id: Id): (r: Response<ConversationView>)
    ensures !Participant(s, user, id) ==> r == Deny(NotFound)
    ensures Participant(s, user, id) && FormatConversation(s, c, id, user).Some? ==>
              r == Answer(FormatConversation(s, c, id, user).value)
    ensures Participant(s, user, id) && FormatConversation(s, c, id, user).None? ==> r == Deny(ServerError)
  {
    if !Participant(s, user, id) then Deny(NotFound)
    else
      match FormatConversation(s, c, id, user)
      case None => Deny(ServerError)
      case Some(v) => Answer(v)
  }

  /** `index`: every conversation in which the caller is one of the two users,
      each through `formatConversation`; one latest message that fails to
      decrypt raises, and the whole listing is a 500. (Ordering by `updated_at`
      and the unread counts are left out.) */
  function Index(s: State, c: Cipher, user: Id): (r: Response<set<ConversationView>>)
    ensures r.status == Ok || r == Deny(ServerError)
    ensures r.status == ServerError <==>
              exists id :: Participant(s, user, id) && FormatConversation(s, c, id, user).None?
    ensures r.status == Ok ==>
              r.body.Some? &&
              forall v :: v in r.body.value <==>
                exists id :: Participant(s, user, id) && FormatConversation(s, c, id, user) == Some(v)
  {
    if exists id :: id in s.conversations && HasUser(s.conversations[id], user) && FormatConversation(s, c, id, user).None?
    then Deny(ServerError)
    else Answer(set id | id in s.conversations && HasUser(s.conversations[id], user) :: FormatConversation(s, c, id, user).value)
  }

  /** A conversation is formatted whenever every stored row decrypts. */
  lemma ReadableFormats(s: State, c: Cipher, id: Id, user: Id)
    requires id in s.conversations
    requires Readable(c, s.messages)
    ensures FormatConversation(s, c, id, user).Some?
  {
    var latest := LatestMessage(s.messages, id);
    if latest.Some? {
      assert latest.value in s.messages;
    }
  }

  /** Over readable rows the listing is answered 200. */
  lemma ReadableIndexAnswered(s: State, c: Cipher, user: Id)
    requires Readable(c, s.messages)
    ensures Index(s, c, user).status == Ok
  {
    forall id | Participant(s, user, id)
      ensures FormatConversation(s, c, id, user).Some?
    {
      ReadableFormats(s, c, id, user);
    }
  }

  /** When answered, the listing holds exactly one view per conversation topic
      the caller may subscribe to. */
  lemma IndexMatchesTopicAccess(s: State, c: Cipher, user: Id, id: Id)
    requires user in s.users
    ensures Index(s, c, user).status == Ok ==>
              ((exists v :: v in Index(s, c, user).body.value && v.id == id) <==>
               MaySubscribe(s, user, ConversationTopic(id)))
  {
    var r := Index(s, c, user);
    if r.status == Ok {
      if MaySubscribe(s, user, ConversationTopic(id)) {
        assert Participant(s, user, id);
        var v := FormatConversation(s, c, id, user).value;
        assert v in r.body.value && v.id == id;
      }
    }
  }

  // ---------------------------------------------------------------------------
  // The request life cycle
  // ---------------------------------------------------------------------------

  /** What `store` does once the request is valid. `between` and
      `findOrCreateBetween` look up the same canonical pair. An existing row is
      formatted and answered 200 without change; otherwise the row is created as
      `findOrCreateBetween` creates it, the receiver is notified (the initiator's
      own socket is not excluded), and the new row is formatted with 201.
      Formatting decrypts the latest message and raises when that fails: a 500,
      after any write and broadcast. */
  ghost function Open(s: State, c: Cipher, user: Id, target: Id, newId: Id): (o: Outcome)
    requires user in s.users && target in s.users
    requires newId !in s.conversations
    ensures var found := FindOrCreateBetween(s.conversations, user, target, newId);
            PairStored(s.conversations, Min(user, target), Max(user, target)) ==>
              o == Refuse(s, if FormatConversation(s, c, found.id, user).Some? then Ok else ServerError)
    ensures !PairStored(s.conversations, Min(user, target), Max(user, target)) ==>
              o.state == s.(conversations := FindOrCreateBetween(s.conversations, user, target, newId).convs) &&
              o.events == [NewConversationRequest(newId, user, s.users[user], target)] &&
              o.status == (if FormatConversation(o.state, c, newId, user).Some? then Created else ServerError)
  {
    var lo := Min(user, target);
    var hi := Max(user, target);
    if PairStored(s.conversations, lo, hi) then
      var existing := FindOrCreateBetween(s.conversations, user, target, newId).id;
      Refuse(s, if FormatConversation(s, c, existing, user).Some? then Ok else ServerError)
    else
      var s1 := s.(conversations := s.conversations[newId := Conversation(lo, hi, lo == user, hi == user)]);
      Outcome(s1, if FormatConversation(s1, c, newId, user).Some? then Created else ServerError,
              [NewConversationRequest(newId, user, s.users[user], target)])
  }

  /** `store`: start a conversation with `target`, which must exist and differ
      from the caller (422 otherwise); the rest is `Open`. */
  ghost function Store(s: State, c: Cipher, user: Id, target: Id, newId: Id): (o: Outcome)
    requires user in s.users
    requires newId !in s.conversations
    ensures target !in s.users || target == user ==> o == Refuse(s, Unprocessable)
    ensures target in s.users && target != user ==> o == Open(s, c, user, target, newId)
    ensures target in s.users && target != user && PairStored(s.conversations, Min(user, target), Max(user, target)) ==>
              o.state == s && o.events == [] && (o.status == Ok || o.status == ServerError)
    ensures target in s.users && target != user && !PairStored(s.conversations, Min(user, target), Max(user, target)) ==>
              (o.status == Created || o.status == ServerError) &&
              o.state == s.(conversations := FindOrCreateBetween(s.conversations, user, target, newId).convs) &&
              o.events == [NewConversationRequest(newId, user, s.users[user], target)]
  {
    if target !in s.users || target == user then Refuse(s, Unprocessable)
    else Open(s, c, user, target, newId)
  }

  /** `store` as written. The rule `'different:' . $user->id` names a request
      field called by the caller's id, which the request does not carry, and
      `different` passes when the other field is absent; so only the target's
      existence is checked, and a request to oneself goes on to
      `findOrCreateBetween`. */
  ghost function StoreAsWritten(s: State, c: Cipher, user: Id, target: Id, newId: Id): (o: Outcome)
    requires user in s.users
    requires newId !in s.conversations
    ensures target !in s.users ==> o == Refuse(s, Unprocessable)
    ensures target in s.users ==> o == Open(s, c, user, target, newId)
    ensures target in s.users && PairStored(s.conversations, Min(user, target), Max(user, target)) ==>
              o.state == s && o.events == [] && (o.status == Ok || o.status == ServerError)
    ensures target in s.users && !PairStored(s.conversations, Min(user, target), Max(user, target)) ==>
              (o.status == Created || o.status == ServerError) &&
              o.state == s.(conversations := FindOrCreateBetween(s.conversations, user, target, newId).convs) &&
              o.events == [NewConversationRequest(newId, user, s.users[user], target)]
  {
    if target !in s.users then Refuse(s, Unprocessable)
    else Open(s, c, user, target, newId)
  }

  /** Over readable rows `store` never answers 500: an existing pair is 200, a
      new one 201. */
  lemma ReadableStoreAnswered(s: State, c: Cipher, user: Id, target: Id, newId: Id)
    requires user in s.users && target in s.users && target != user
    requires newId !in s.conversations
    requires Readable(c, s.messages)
    ensures var o := Store(s, c, user, target, newId);
            o.status == (if PairStored(s.conversations, Min(user, target), Max(user, target)) then Ok else Created)
  {
    var found := FindOrCreateBetween(s.conversations, user, target, newId);
    ReadableFormats(Store(s, c, user, target, newId).state, c, found.id, user);
  }

  /** As written, a request to oneself is answered 201 with a row pairing the
      caller with itself, accepted by both slots at once, which breaks the
      canonical-pair invariant, and the request is announced to the caller. */
  lemma SelfRequestCreatesRow(s: State, c: Cipher, user: Id, newId: Id)
    requires user in s.users && newId !in s.conversations
    requires ValidConversations(s.conversations)
    requires forall m :: m in s.messages ==> m.owner != Direct(newId)
    ensures var o := StoreAsWritten(s, c, user, user, newId);
            o.status == Created &&
            o.state.conversations[newId] == Conversation(user, user, true, true) &&
            IsAccepted(o.state.conversations[newId]) &&
            !ValidConversations(o.state.conversations) &&
            o.events[0].topics == [UserTopic(user)]
  {
    assert !PairStored(s.conversations, user, user);
  }

  /** Apart from a request to oneself, the corrected `store` is the one as
      written; and the corrected one keeps the pairs valid (StorePreservesValid). */
  lemma StoreCorrectsOnlySelf(s: State, c: Cipher, user: Id, target: Id, newId: Id)
    requires user in s.users && newId !in s.conversations
    ensures target != user ==> Store(s, c, user, target, newId) == StoreAsWritten(s, c, user, target, newId)
    ensures Store(s, c, user, user, newId) == Refuse(s, Unprocessable)
  {
  }

  /** `accept`: 404 for a non-participant, 422 once accepted, otherwise the
      caller's flag is set and both participants are told, built from the
      refreshed row; the answer formats the refreshed row, a 500 (after the
      write and the broadcast) when its latest message fails to decrypt. */
  function Accept(s: State, c: Cipher, user: Id, id: Id): (o: Outcome)
    requires user in s.users
    ensures !Participant(s, user, id) ==> o == Refuse(s, NotFound)
    ensures Participant(s, user, id) && IsAccepted(s.conversations[id]) ==> o == Refuse(s, Unprocessable)
    ensures Participant(s, user, id) && !IsAccepted(s.conversations[id]) ==>
              o.state == s.(conversations := s.conversations[id := AcceptBy(s.conversations[id], user)]) &&
              o.events == [ConversationAccepted(id, AcceptBy(s.conversations[id], user), user, s.users[user])] &&
              o.status == (if FormatConversation(o.state, c, id, user).Some? then Ok else ServerError)
  {
    if !Participant(s, user, id) then Refuse(s, NotFound)
    else if IsAccepted(s.conversations[id]) then Refuse(s, Unprocessable)
    else
      var fresh' := AcceptBy(s.conversations[id], user);
      var s1 := s.(conversations := s.conversations[id := fresh']);
      Outcome(s1, if FormatConversation(s1, c, id, user).Some? then Ok else ServerError,
              [ConversationAccepted(id, fresh', user, s.users[user])])
  }

  /** Over readable rows an acceptance that passes the guards is answered 200. */
  lemma ReadableAcceptAnswered(s: State, c: Cipher, user: Id, id: Id)
    requires user in s.users && Readable(c, s.messages)
    requires Participant(s, user, id) && !IsAccepted(s.conversations[id])
    ensures Accept(s, c, user, id).status == Ok
  {
    ReadableFormats(Accept(s, c, user, id).state, c, id, user);
  }

  /** `reject`: 404 for a non-participant, 422 once accepted, otherwise the row
      is deleted, whichever participant asks (the initiator withdraws a request
      the same way). */
  function Reject(s: State, user: Id, id: Id): (o: Outcome)
    ensures !Participant(s, user, id) ==> o == Refuse(s, NotFound)
    ensures Participant(s, user, id) && IsAccepted(s.conversations[id]) ==> o == Refuse(s, Unprocessable)
    ensures Participant(s, user, id) && !IsAccepted(s.conversations[id]) ==>
              o == Outcome(s.(conversations := s.conversations - {id}), Ok, [])
  {
    if !Participant(s, user, id) then Refuse(s, NotFound)
    else if IsAccepted(s.conversations[id]) then Refuse(s, Unprocessable)
    else Outcome(s.(conversations := s.conversations - {id}), Ok, [])
  }

  /** `destroy`: any participant deletes, accepted or not. */
  function Destroy(s: State, user: Id, id: Id): (o: Outcome)
    ensures !Participant(s, user, id) ==> o == Refuse(s, NotFound)
    ensures Participant(s, user, id) ==> o == Outcome(s.(conversations := s.conversations - {id}), Ok, [])
  {
    if !Participant(s, user, id) then Refuse(s, NotFound)
    else Outcome(s.(conversations := s.conversations - {id}), Ok, [])
  }

  /** Every write of this controller keeps pairs canonical and unique. */
  lemma StorePreservesValid(s: State, c: Cipher, user: Id, target: Id, newId: Id)
    requires user in s.users && newId !in s.conversations
    requires ValidConversations(s.conversations)
    ensures ValidConversations(Store(s, c, user, target, newId).state.conversations)
  {
    if target in s.users && target != user && !PairStored(s.conversations, Min(user, target), Max(user, target)) {
      FindOrCreatePreservesValid(s.conversations, user, target, newId);
    }
  }

  lemma AcceptPreservesValid(s: State, c: Cipher, user: Id, id: Id)
    requires user in s.users
    requires ValidConversations(s.conversations)
    ensures ValidConversations(Accept(s, c, user, id).state.conversations)
  {
    if Participant(s, user, id) && !IsAccepted(s.conversations[id]) {
      var convs := Accept(s, c, user, id).state.conversations;
      assert forall k :: k in convs ==>
        (k in s.conversations && convs[k].userOne == s.conversations[k].userOne &&
         convs[k].userTwo == s.conversations[k].userTwo);
    }
  }

  lemma RemovalPreservesValid(s: State, user: Id, id: Id)
    requires ValidConversations(s.conversations)
    ensures ValidConversations(Reject(s, user, id).state.conversations)
    ensures ValidConversations(Destroy(s, user, id).state.conversations)
  {
  }

  /** Asking twice creates nothing the second time, from either side: the
      second call writes and broadcasts nothing and, over readable rows, answers
      the stored pair with 200. */
  lemma StoreTwiceCreatesOnce(s: State, c: Cipher, user: Id, target: Id, newId: Id, newId2: Id)
    requires user in s.users && target in s.users && target != user
    requires newId !in s.conversations
    requires newId2 !in Store(s, c, user, target, newId).state.conversations
    ensures var s1 := Store(s, c, user, target, newId).state;
            var o1 := Store(s1, c, user, target, newId2);
            var o2 := Store(s1, c, target, user, newId2);
            o1.state == s1 && o1.events == [] && o2.state == s1 && o2.events == [] &&
            (Readable(c, s.messages) ==> o1.status == Ok && o2.status == Ok)
  {
    var s1 := Store(s, c, user, target, newId).state;
    var lo := Min(user, target);
    var hi := Max(user, target);
    assert Min(target, user) == lo && Max(target, user) == hi;
    if !PairStored(s.conversations, lo, hi) {
      assert s1.conversations[newId].userOne == lo && s1.conversations[newId].userTwo == hi;
    }
    assert PairStored(s1.conversations, lo, hi);
    if Readable(c, s.messages) {
      ReadableStoreAnswered(s1, c, user, target, newId2);
      ReadableStoreAnswered(s1, c, target, user, newId2);
    }
  }

  /** A fresh request is pending for the receiver only: the initiator's view says
      nothing awaits their acceptance, the receiver's says it does. */
  lemma NewRequestPendingForReceiver(s: State, c: Cipher, user: Id, target: Id, newId: Id)
    requires user in s.users && target in s.users && target != user
    requires newId !in s.conversations
    requires !PairStored(s.conversations, Min(user, target), Max(user, target))
    requires forall m :: m in s.messages ==> m.owner != Direct(newId)
    ensures Store(s, c, user, target, newId).status == Created
    ensures var s1 := Store(s, c, user, target, newId).state;
            newId in s1.conversations &&
            FormatConversation(s1, c, newId, user) == Some(ConversationView(newId, target, false, false, None)) &&
            FormatConversation(s1, c, newId, target) == Some(ConversationView(newId, user, false, true, None))
  {
  }

  /** The receiver's acceptance completes the request: afterwards the
      conversation is accepted, rejecting it is refused, and the history is open
      to both. */
  lemma AcceptCompletesRequest(s: State, c: Cipher, user: Id, target: Id, newId: Id)
    requires user in s.users && target in s.users && target != user
    requires newId !in s.conversations
    requires !PairStored(s.conversations, Min(user, target), Max(user, target))
    requires forall m :: m in s.messages ==> m.owner != Direct(newId)
    ensures var s1 := Store(s, c, user, target, newId).state;
            var o := Accept(s1, c, target, newId);
            o.status == Ok && IsAccepted(o.state.conversations[newId]) &&
            Reject(o.state, user, newId) == Refuse(o.state, Unprocessable) &&
            Reject(o.state, target, newId) == Refuse(o.state, Unprocessable) &&
            Typing(o.state, user, newId).status == Ok && Typing(o.state, target, newId).status == Ok
  {
  }

  /** The acceptance event goes to both personal topics; each participant, the
      acceptor included, may subscribe to their own. */
  lemma AcceptanceReachesBoth(s: State, c: Cipher, user: Id, id: Id)
    requires user in s.users
    requires Participant(s, user, id) && !IsAccepted(s.conversations[id])
    ensures var o := Accept(s, c, user, id);
            var conv := s.conversations[id];
            |o.events| == 1 && !o.events[0].excludeSelf &&
            UserTopic(conv.userOne) in o.events[0].topics && UserTopic(conv.userTwo) in o.events[0].topics &&
            MaySubscribe(s, user, UserTopic(user))
  {
  }

  // ---------------------------------------------------------------------------
  // Messaging inside a conversation
  // ---------------------------------------------------------------------------

  /** `messages`: 404 for a non-participant, 403 until accepted, 422 for an
      invalid query, otherwise the page of history, each row decrypted and with
      its reactions; a row that fails to decrypt makes the answer a 500. */
  function Messages(s: State, c: Cipher, user: Id, id: Id, q: HistoryQuery, now: int): (r: Response<HistoryView>)
    ensures !Participant(s, user, id) ==> r == Deny(NotFound)
    ensures Participant(s, user, id) && !IsAccepted(s.conversations[id]) ==> r == Deny(Forbidden)
    ensures Participant(s, user, id) && IsAccepted(s.conversations[id]) && !ValidQuery(s.messages, q) ==>
              r == Deny(Unprocessable)
    ensures Participant(s, user, id) && IsAccepted(s.conversations[id]) && ValidQuery(s.messages, q) &&
              FormatHistory(s.reactions, c, HistoryPage(s.messages, Direct(id), q, now)).None? ==>
              r == Deny(ServerError)
    ensures r.status == Ok <==>
              Participant(s, user, id) && IsAccepted(s.conversations[id]) && ValidQuery(s.messages, q) &&
              FormatHistory(s.reactions, c, HistoryPage(s.messages, Direct(id), q, now)).Some?
    ensures r.status == Ok ==> r.body == FormatHistory(s.reactions, c, HistoryPage(s.messages, Direct(id), q, now))
  {
    if !Participant(s, user, id) then Deny(NotFound)
    else if !IsAccepted(s.conversations[id]) then Deny(Forbidden)
    else if !ValidQuery(s.messages, q) then Deny(Unprocessable)
    else
      match FormatHistory(s.reactions, c, HistoryPage(s.messages, Direct(id), q, now))
      case None => Deny(ServerError)
      case Some(v) => Answer(v)
  }

  /** When every stored row decrypts, an accepted participant's valid query is
      answered with the page of history, each body the plaintext of its row. */
  lemma ReadableConversationAnswered(s: State, c: Cipher, user: Id, id: Id, q: HistoryQuery, now: int)
    requires Readable(c, s.messages)
    requires Participant(s, user, id) && IsAccepted(s.conversations[id]) && ValidQuery(s.messages, q)
    ensures var r := Messages(s, c, user, id, q, now);
            var p := HistoryPage(s.messages, Direct(id), q, now);
            r.status == Ok && r.body.value.hasMore == p.hasMore &&
            |r.body.value.messages| == |p.messages| &&
            forall i :: 0 <= i < |p.messages| ==>
              r.body.value.messages[i].id == p.messages[i].id &&
              Some(r.body.value.messages[i].content) == DecryptFromStorage(c, p.messages[i].content, p.messages[i].contentIv)
  {
    var p := HistoryPage(s.messages, Direct(id), q, now);
    HistoryPageContents(s.messages, Direct(id), q, now);
    ReadablePageFormats(s.reactions, c, s.messages, p.messages);
  }

  /** `sendMessage`: after the participant and acceptance checks, the body and
      the parent are validated, the text is encrypted and stored as a 'text'
      message of this conversation. Nothing is broadcast. */
  function SendMessage(s: State, c: Cipher, iv: string, user: Id, id: Id, content: string,
                       parent: Option<Id>, newId: Id, now: int): (o: Outcome)
    requires RowOf(s.messages, newId).None?
    ensures !Participant(s, user, id) ==> o == Refuse(s, NotFound)
    ensures Participant(s, user, id) && !IsAccepted(s.conversations[id]) ==> o == Refuse(s, Forbidden)
    ensures o.events == []
    ensures o.status == Created <==>
              Participant(s, user, id) && IsAccepted(s.conversations[id]) && ContentValid(content) &&
              (JudgeParent(s.messages, parent, Direct(id)).NoParent? || JudgeParent(s.messages, parent, Direct(id)).SameOwner?) &&
              EncryptForStorage(c, iv, content).Some?
    ensures o.status == Created ==>
              o.state == s.(messages := s.messages + [NewTextMessage(newId, Direct(id), user,
                                                                    EncryptForStorage(c, iv, content).value, parent, now)])
    ensures o.status != Created ==> o.state == s
  {
    if !Participant(s, user, id) then Refuse(s, NotFound)
    else if !IsAccepted(s.conversations[id]) then Refuse(s, Forbidden)
    else
      var verdict := JudgeParent(s.messages, parent, Direct(id));
      if !ContentValid(content) || verdict.Unknown? then Refuse(s, Unprocessable)
      else if verdict.Trashed? then Refuse(s, ServerError)
      else if verdict.ElsewhereOwned? then Refuse(s, Unprocessable)
      else
        match EncryptForStorage(c, iv, content)
        case None => Refuse(s, ServerError)
        case Some(stored) =>
          Outcome(s.(messages := s.messages + [NewTextMessage(newId, Direct(id), user, stored, parent, now)]), Created, [])
  }

  /** A message sent into a conversation reads back as the text sent, keeps ids
      unique, and a reply's parent is a live message of the same conversation. */
  lemma SentMessageIsStoredFaithfully(s: State, c: Cipher, iv: string, user: Id, id: Id, content: string,
                                      parent: Option<Id>, newId: Id, now: int)
    requires RowOf(s.messages, newId).None? && UniqueIds(s.messages)
    requires RoundTrips(c) && !PhpFalsy(iv)
    requires SendMessage(s, c, iv, user, id, content, parent, newId, now).status == Created
    ensures var ms := SendMessage(s, c, iv, user, id, content, parent, newId, now).state.messages;
            var m := ms[|ms| - 1];
            UniqueIds(ms) && m.owner == Direct(id) && m.sender == user &&
            DecryptFromStorage(c, m.content, m.contentIv) == Some(content) &&
            (parent.Some? ==> Find(s.messages, parent.value).Some? && Find(s.messages, parent.value).value.owner == Direct(id))
  {
    var stored := EncryptForStorage(c, iv, content).value;
    NewMessageReadsBack(c, iv, content, newId, Direct(id), user, parent, now);
    AppendKeepsUniqueIds(s.messages, NewTextMessage(newId, Direct(id), user, stored, parent, now));
  }

  /** Sending under a round-tripping cipher keeps every stored row readable. */
  lemma SendingKeepsReadable(s: State, c: Cipher, iv: string, user: Id, id: Id, content: string,
                             parent: Option<Id>, newId: Id, now: int)
    requires RowOf(s.messages, newId).None?
    requires RoundTrips(c) && !PhpFalsy(iv) && Readable(c, s.messages)
    ensures Readable(c, SendMessage(s, c, iv, user, id, content, parent, newId, now).state.messages)
  {
    if SendMessage(s, c, iv, user, id, content, parent, newId, now).status == Created {
      var m := NewTextMessage(newId, Direct(id), user, EncryptForStorage(c, iv, content).value, parent, now);
      NewMessageReadsBack(c, iv, content, newId, Direct(id), user, parent, now);
      AppendKeepsReadable(c, s.messages, m);
    }
  }

  /** `typing`: the same two guards; the event is not sent. */
  function Typing(s: State, user: Id, id: Id): (o: Outcome)
    ensures !Participant(s, user, id) ==> o == Refuse(s, NotFound)
    ensures Participant(s, user, id) && !IsAccepted(s.conversations[id]) ==> o == Refuse(s, Forbidden)
    ensures Participant(s, user, id) && IsAccepted(s.conversations[id]) ==> o == Refuse(s, Ok)
  {
    if !Participant(s, user, id) then Refuse(s, NotFound)
    else if !IsAccepted(s.conversations[id]) then Refuse(s, Forbidden)
    else Refuse(s, Ok)
  }

  /** History, sending and typing share one gate: for a participant they are
      refused with 403 exactly while the conversation is not accepted. */
  lemma AcceptanceGatesMessaging(s: State, c: Cipher, iv: string, user: Id, id: Id, q: HistoryQuery,
                                 content: string, parent: Option<Id>, newId: Id, now: int)
    requires RowOf(s.messages, newId).None?
    requires Participant(s, user, id)
    ensures Messages(s, c, user, id, q, now).status == Forbidden <==> !IsAccepted(s.conversations[id])
    ensures SendMessage(s, c, iv, user, id, content, parent, newId, now).status == Forbidden <==>
              !IsAccepted(s.conversations[id])
    ensures Typing(s, user, id).status == Forbidden <==> !IsAccepted(s.conversations[id])
  {
    HistoryGate(s, c, user, id, q, now);
    SendingGate(s, c, iv, user, id, content, parent, newId, now);
  }

  lemma HistoryGate(s: State, c: Cipher, user: Id, id: Id, q: HistoryQuery, now: int)
    requires Participant(s, user, id)
    ensures Messages(s, c, user, id, q, now).status == Forbidden <==> !IsAccepted(s.conversations[id])
  {
  }

  lemma SendingGate(s: State, c: Cipher, iv: string, user: Id, id: Id, content: string,
                    parent: Option<Id>, newId: Id, now: int)
    requires RowOf(s.messages, newId).None?
    requires Participant(s, user, id)
    ensures SendMessage(s, c, iv, user, id, content, parent, newId, now).status == Forbidden <==>
              !IsAccepted(s.conversations[id])
  {
  }
}
