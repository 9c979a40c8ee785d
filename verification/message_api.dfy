/** MessageController: channel history, posting to a channel, editing and
    deleting a message, and the channel typing indicator. */
module MessageController {
  import opened Common
  import opened Schema
  import opened UserModel
  import opened Encryption
  import opened Events
  import opened Http
  import opened Messaging
  import opened Pagination
  import opened MessageFormat

  /** Edits are allowed while `created_at->diffInHours(now())` is at most 24;
      Carbon answers fractional hours, so the bound is 24 hours in seconds. */
  const EditWindowSeconds: int := 24 * 3600

  /** Route model binding found the channel and the caller belongs to it. */
  predicate ChannelMember(s: State, user: Id, id: Id) {
    id in s.channels && IsMemberOfChannel(s, user, id)
  }

  /** `channelMessages`: 404 for a missing channel, 403 for a non-member, 422
      for a bad query, otherwise a page of the channel's history, each row
      decrypted and with its reactions; a row that fails to decrypt makes the
      whole answer a 500. */
  function ChannelMessages(s: State, c: Cipher, user: Id, id: Id, q: HistoryQuery, now: int): (r: Response<HistoryView>)
    ensures id !in s.channels ==> r == Deny(NotFound)
    ensures id in s.channels && !IsMemberOfChannel(s, user, id) ==> r == Deny(Forbidden)
    ensures ChannelMember(s, user, id) && !ValidQuery(s.messages, q) ==> r == Deny(Unprocessable)
    ensures ChannelMember(s, user, id) && ValidQuery(s.messages, q) &&
              FormatHistory(s.reactions, c, HistoryPage(s.messages, Channel(id), q, now)).None? ==>
              r == Deny(ServerError)
    ensures r.status == Ok <==>
              ChannelMember(s, user, id) && ValidQuery(s.messages, q) &&
              FormatHistory(s.reactions, c, HistoryPage(s.messages, Channel(id), q, now)).Some?
    ensures r.status == Ok ==> r.body == FormatHistory(s.reactions, c, HistoryPage(s.messages, Channel(id), q, now))
  {
    if id !in s.channels then Deny(NotFound)
    else if !IsMemberOfChannel(s, user, id) then Deny(Forbidden)
    else if !ValidQuery(s.messages, q) then Deny(Unprocessable)
    else
      match FormatHistory(s.reactions, c, HistoryPage(s.messages, Channel(id), q, now))
      case None => Deny(ServerError)
      case Some(v) => Answer(v)
  }

  /** When every stored row decrypts, a member's valid query is answered, and
      the answer is the page of history message for message: same ids, same
      order, each body the plaintext of its row. */
  lemma ReadableHistoryAnswered(s: State, c: Cipher, user: Id, id: Id, q: HistoryQuery, now: int)
    requires Readable(c, s.messages)
    requires ChannelMember(s, user, id) && ValidQuery(s.messages, q)
    ensures var r := ChannelMessages(s, c, user, id, q, now);
            var p := HistoryPage(s.messages, Channel(id), q, now);
            r.status == Ok && r.body.value.hasMore == p.hasMore &&
            |r.body.value.messages| == |p.messages| &&
            forall i :: 0 <= i < |p.messages| ==>
              r.body.value.messages[i].id == p.messages[i].id &&
              Some(r.body.value.messages[i].content) == DecryptFromStorage(c, p.messages[i].content, p.messages[i].contentIv)
  {
    var p := HistoryPage(s.messages, Channel(id), q, now);
    HistoryPageContents(s.messages, Channel(id), q, now);
    ReadablePageFormats(s.reactions, c, s.messages, p.messages);
  }

  /** `storeChannelMessage`: the shared steps of writing a message, then the
      plaintext is announced to the other members. */
  function StoreChannelMessage(s: State, c: Cipher, iv: string, user: Id, id: Id, content: string,
                               parent: Option<Id>, newId: Id, now: int): (o: Outcome)
    requires user in s.users
    requires RowOf(s.messages, newId).None?
    ensures id !in s.channels ==> o == Refuse(s, NotFound)
    ensures id in s.channels && !IsMemberOfChannel(s, user, id) ==> o == Refuse(s, Forbidden)
    ensures (ChannelMember(s, user, id) && JudgeParent(s.messages, parent, Channel(id)).ElsewhereOwned? &&
             ContentValid(content)) ==> o == Refuse(s, Unprocessable)
    ensures o.status == Created <==>
              ChannelMember(s, user, id) && ContentValid(content) &&
              (JudgeParent(s.messages, parent, Channel(id)).NoParent? || JudgeParent(s.messages, parent, Channel(id)).SameOwner?) &&
              EncryptForStorage(c, iv, content).Some?
    ensures o.status == Created ==>
              var m := NewTextMessage(newId, Channel(id), user, EncryptForStorage(c, iv, content).value, parent, now);
              o.state == s.(messages := s.messages + [m]) &&
              o.events == [ToOthers(NewMessage(m, s.users[user], content))]
    ensures o.status != Created ==> o.state == s && o.events == []
  {
    if id !in s.channels then Refuse(s, NotFound)
    else if !IsMemberOfChannel(s, user, id) then Refuse(s, Forbidden)
    else
      var verdict := JudgeParent(s.messages, parent, Channel(id));
      if !ContentValid(content) || verdict.Unknown? then Refuse(s, Unprocessable)
      else if verdict.Trashed? then Refuse(s, ServerError)
      else if verdict.ElsewhereOwned? then Refuse(s, Unprocessable)
      else
        match EncryptForStorage(c, iv, content)
        case None => Refuse(s, ServerError)
        case Some(stored) =>
          var m := NewTextMessage(newId, Channel(id), user, stored, parent, now);
          Outcome(s.(messages := s.messages + [m]), Created, [ToOthers(NewMessage(m, s.users[user], content))])
  }

  /** A posted message shows up in its channel's history, reads back as the
      text that was sent, and the announcement carries that text, not the
      ciphertext. */
  lemma PostedMessageIsInHistory(s: State, c: Cipher, iv: string, user: Id, id: Id, content: string,
                                 parent: Option<Id>, newId: Id, now: int)
    requires user in s.users && RowOf(s.messages, newId).None? && UniqueIds(s.messages)
    requires RoundTrips(c) && !PhpFalsy(iv)
    requires StoreChannelMessage(s, c, iv, user, id, content, parent, newId, now).status == Created
    ensures var o := StoreChannelMessage(s, c, iv, user, id, content, parent, newId, now);
            var m := o.state.messages[|o.state.messages| - 1];
            UniqueIds(o.state.messages) && m.id == newId &&
            m in History(o.state.messages, Channel(id)) &&
            DecryptFromStorage(c, m.content, m.contentIv) == Some(content) &&
            o.events[0].payload.content == content && o.events[0].excludeSelf
  {
    var stored := EncryptForStorage(c, iv, content).value;
    var m := NewTextMessage(newId, Channel(id), user, stored, parent, now);
    NewMessageReadsBack(c, iv, content, newId, Channel(id), user, parent, now);
    AppendKeepsUniqueIds(s.messages, m);
    assert m in s.messages + [m];
  }

  /** Posting under a round-tripping cipher keeps every stored row readable,
      so the history endpoint keeps answering. */
  lemma PostingKeepsReadable(s: State, c: Cipher, iv: string, user: Id, id: Id, content: string,
                             parent: Option<Id>, newId: Id, now: int)
    requires user in s.users && RowOf(s.messages, newId).None?
    requires RoundTrips(c) && !PhpFalsy(iv) && Readable(c, s.messages)
    ensures Readable(c, StoreChannelMessage(s, c, iv, user, id, content, parent, newId, now).state.messages)
  {
    if StoreChannelMessage(s, c, iv, user, id, content, parent, newId, now).status == Created {
      var m := NewTextMessage(newId, Channel(id), user, EncryptForStorage(c, iv, content).value, parent, now);
      NewMessageReadsBack(c, iv, content, newId, Channel(id), user, parent, now);
      AppendKeepsReadable(c, s.messages, m);
    }
  }

  /** `update`, after route model binding (a soft-deleted message is 404): only
      the sender, only inside the window, and the content is validated after
      those two checks. */
  function Update(s: State, c: Cipher, iv: string, user: Id, msgId: Id, content: string, now: int): (o: Outcome)
    ensures Find(s.messages, msgId).None? ==> o == Refuse(s, NotFound)
    ensures Find(s.messages, msgId).Some? && Find(s.messages, msgId).value.sender != user ==> o == Refuse(s, Forbidden)
    ensures (Find(s.messages, msgId).Some? && Find(s.messages, msgId).value.sender == user &&
             now - Find(s.messages, msgId).value.createdAt > EditWindowSeconds) ==> o == Refuse(s, Unprocessable)
    ensures o.status == Ok <==>
              Find(s.messages, msgId).Some? && Find(s.messages, msgId).value.sender == user &&
              now - Find(s.messages, msgId).value.createdAt <= EditWindowSeconds &&
              ContentValid(content) && EncryptForStorage(c, iv, content).Some?
    ensures o.status == Ok ==>
              var m := Find(s.messages, msgId).value;
              var stored := EncryptForStorage(c, iv, content).value;
              var m' := m.(content := stored.content, contentIv := Some(stored.contentIv), editedAt := Some(now));
              o.state == s.(messages := UpdateRow(s.messages, msgId, m')) &&
              o.events == [ToOthers(MessageEdited(m', content))]
    ensures o.status != Ok ==> o.state == s && o.events == []
  {
    match Find(s.messages, msgId)
    case None => Refuse(s, NotFound)
    case Some(m) =>
      if m.sender != user then Refuse(s, Forbidden)
      else if now - m.createdAt > EditWindowSeconds then Refuse(s, Unprocessable)
      else if !ContentValid(content) then Refuse(s, Unprocessable)
      else
        match EncryptForStorage(c, iv, content)
        case None => Refuse(s, ServerError)
        case Some(stored) =>
          var m' := m.(content := stored.content, contentIv := Some(stored.contentIv), editedAt := Some(now));
          Outcome(s.(messages := UpdateRow(s.messages, msgId, m')), Ok, [ToOthers(MessageEdited(m', content))])
  }

  /** Replacing the row with an id is what a later lookup of that id sees. */
  lemma {:induction false} RowOfUpdated(ms: seq<Message>, id: Id, m: Message)
    requires RowOf(ms, id).Some? && m.id == id
    ensures RowOf(UpdateRow(ms, id, m), id) == Some(m)
  {
    if ms[0].id != id {
      assert UpdateRow(ms, id, m)[1..] == UpdateRow(ms[1..], id, m);
      RowOfUpdated(ms[1..], id, m);
    }
  }

  /** Replacing the row with one id leaves every other id's row alone. */
  lemma {:induction false} RowOfUpdatedElsewhere(ms: seq<Message>, id: Id, m: Message, other: Id)
    requires other != id && m.id == id
    ensures RowOf(UpdateRow(ms, id, m), other) == RowOf(ms, other)
  {
    if |ms| > 0 {
      assert UpdateRow(ms, id, m)[0].id == other <==> ms[0].id == other;
      assert UpdateRow(ms, id, m)[1..] == UpdateRow(ms[1..], id, m);
      RowOfUpdatedElsewhere(ms[1..], id, m, other);
    }
  }

  /** An edit keeps the row's identity, sender, place and creation time, and
      the edited message reads back as the new text; it is only possible
      inside the window. */
  lemma EditKeepsIdentity(s: State, c: Cipher, iv: string, user: Id, msgId: Id, content: string, now: int)
    requires RoundTrips(c) && !PhpFalsy(iv)
    requires Update(s, c, iv, user, msgId, content, now).status == Ok
    ensures var old_ := Find(s.messages, msgId).value;
            var e := Find(Update(s, c, iv, user, msgId, content, now).state.messages, msgId);
            e.Some? && e.value.id == msgId && e.value.createdAt == old_.createdAt &&
            e.value.sender == old_.sender == user && e.value.owner == old_.owner &&
            e.value.editedAt == Some(now) && now - old_.createdAt <= EditWindowSeconds &&
            DecryptFromStorage(c, e.value.content, e.value.contentIv) == Some(content)
  {
    var m := Find(s.messages, msgId).value;
    var stored := EncryptForStorage(c, iv, content).value;
    var m' := m.(content := stored.content, contentIv := Some(stored.contentIv), editedAt := Some(now));
    RowOfUpdated(s.messages, msgId, m');
    StorageRoundTrip(c, iv, content);
  }

  /** An edit is refused the moment a full day has passed, however valid the
      new text. */
  lemma EditWindowCloses(s: State, c: Cipher, iv: string, user: Id, msgId: Id, content: string, now: int)
    requires Find(s.messages, msgId).Some? && Find(s.messages, msgId).value.sender == user
    ensures Update(s, c, iv, user, msgId, content, now).status == Unprocessable <==>
              now - Find(s.messages, msgId).value.createdAt > EditWindowSeconds || !ContentValid(content)
  {
  }

  /** Deletion rights: the sender, or an admin of the company whose channel
      holds the message. Ownership of the company does not count, and a direct
      message has no admin. */
  predicate MayDelete(s: State, user: Id, m: Message) {
    m.sender == user ||
    (m.owner.TypeName() == "channel" && m.owner.id in s.channels &&
     IsAdminOf(s, user, s.channels[m.owner.id].company))
  }

  /** `destroy`: a soft delete; the event is built from the row before it goes. */
  function Destroy(s: State, user: Id, msgId: Id): (o: Outcome)
    ensures Find(s.messages, msgId).None? ==> o == Refuse(s, NotFound)
    ensures Find(s.messages, msgId).Some? && !MayDelete(s, user, Find(s.messages, msgId).value) ==>
              o == Refuse(s, Forbidden)
    ensures o.status == Ok <==> Find(s.messages, msgId).Some? && MayDelete(s, user, Find(s.messages, msgId).value)
    ensures o.status == Ok ==>
              var m := Find(s.messages, msgId).value;
              o.state == s.(messages := UpdateRow(s.messages, msgId, m.(deleted := true))) &&
              o.events == [ToOthers(MessageDeleted(Snapshot(m)))]
  {
    match Find(s.messages, msgId)
    case None => Refuse(s, NotFound)
    case Some(m) =>
      if !MayDelete(s, user, m) then Refuse(s, Forbidden)
      else
        var event := MessageDeleted(Snapshot(m));
        Outcome(s.(messages := UpdateRow(s.messages, msgId, m.(deleted := true))), Ok, [ToOthers(event)])
  }

  /** Direct messages can be deleted by their sender only. */
  lemma DirectMessagesSenderOnly(s: State, user: Id, msgId: Id)
    requires Find(s.messages, msgId).Some? && Find(s.messages, msgId).value.owner.Direct?
    ensures Destroy(s, user, msgId).status == Ok <==> Find(s.messages, msgId).value.sender == user
  {
  }

  /** A channel admin may delete anyone's message in the company's channels. */
  lemma AdminDeletesInChannels(s: State, user: Id, msgId: Id)
    requires Find(s.messages, msgId).Some?
    requires Find(s.messages, msgId).value.owner.Channel?
    requires Find(s.messages, msgId).value.owner.id in s.channels
    requires IsAdminOf(s, user, s.channels[Find(s.messages, msgId).value.owner.id].company)
    ensures Destroy(s, user, msgId).status == Ok
  {
  }

  /** After a delete the message is gone for every lookup and every history,
      and a second delete of the same id is 404; other rows are untouched. */
  lemma DeleteHidesMessage(s: State, user: Id, msgId: Id, other: Id, owner: Messageable)
    requires Destroy(s, user, msgId).status == Ok
    requires other != msgId
    ensures var ms := Destroy(s, user, msgId).state.messages;
            Find(ms, msgId).None? && RowOf(ms, msgId).Some? &&
            Destroy(Destroy(s, user, msgId).state, user, msgId) == Refuse(Destroy(s, user, msgId).state, NotFound) &&
            Find(ms, other) == Find(s.messages, other) &&
            (forall m :: m in History(ms, owner) ==> m.id != msgId)
  {
    var m := Find(s.messages, msgId).value;
    var ms := UpdateRow(s.messages, msgId, m.(deleted := true));
    RowOfUpdated(s.messages, msgId, m.(deleted := true));
    RowOfUpdatedElsewhere(s.messages, msgId, m.(deleted := true), other);
    assert forall j :: 0 <= j < |ms| && ms[j].id == msgId ==> ms[j].deleted;
  }

  /** `typing`: members only, announced to the other members. */
  function Typing(s: State, user: Id, id: Id, now: int): (o: Outcome)
    requires user in s.users
    ensures id !in s.channels ==> o == Refuse(s, NotFound)
    ensures id in s.channels && !IsMemberOfChannel(s, user, id) ==> o == Refuse(s, Forbidden)
    ensures o.state == s
    ensures o.status == Ok <==> ChannelMember(s, user, id)
    ensures o.status == Ok ==> o.events == [ToOthers(UserTyping(user, s.users[user], "channel", id, now))]
  {
    if id !in s.channels then Refuse(s, NotFound)
    else if !IsMemberOfChannel(s, user, id) then Refuse(s, Forbidden)
    else Outcome(s, Ok, [ToOthers(UserTyping(user, s.users[user], "channel", id, now))])
  }

  /** Non-members of an existing channel get 403, never 404, on all three
      channel endpoints. */
  lemma NonMembersForbidden(s: State, c: Cipher, iv: string, user: Id, id: Id, q: HistoryQuery,
                            content: string, parent: Option<Id>, newId: Id, now: int)
    requires user in s.users && RowOf(s.messages, newId).None?
    requires id in s.channels && !IsMemberOfChannel(s, user, id)
    ensures ChannelMessages(s, c, user, id, q, now).status == Forbidden
    ensures StoreChannelMessage(s, c, iv, user, id, content, parent, newId, now).status == Forbidden
    ensures Typing(s, user, id, now).status == Forbidden
  {
  }
}
