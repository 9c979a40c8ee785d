/** The broadcast events: each event class is a pure function from the entities
    it is built from to its topics, its name and its payload. Emitting is data:
    `excludeSelf` records a `->toOthers()` call. Delivery is not modelled. */
module Events {
  import opened Common
  import opened Schema
  import opened UserModel
  import opened Topics

  /** The payload of each event class, field for field. Timestamps are seconds
      (their ISO-8601 rendering is left out). */
  datatype Payload =
    | NewMessagePayload(id: Id, content: string, contentType: string, senderId: Id,
                        senderName: string, senderAvatar: Option<string>, parentId: Option<Id>,
                        createdAt: int)
    | MessageEditedPayload(id: Id, content: string, editedAt: int)
    | MessageDeletedPayload(id: Id)
    | ReactionAddedPayload(messageId: Id, reactionId: Id, emoji: string, userId: Id, username: string)
    | ReactionRemovedPayload(messageId: Id, emoji: string, userId: Id)
    | UserTypingPayload(userId: Id, username: string, timestamp: int)
    | ConversationRequestPayload(conversationId: Id, initiatorId: Id, initiatorName: string,
                                 initiatorAvatar: Option<string>)
    | ConversationAcceptedPayload(conversationId: Id, acceptedById: Id, acceptedByName: string)
    | StatusChangedPayload(userId: Id, status: string, statusText: Option<string>)

  /** An event: the kind of its topics, the topics, the broadcast name, the
      payload and whether the sender's socket is skipped. */
  datatype Event = Event(kind: Kind, topics: seq<Topic>, name: string, payload: Payload, excludeSelf: bool)

  /** `broadcast(...)->toOthers()`: the sender's own socket is skipped. */
  function ToOthers(e: Event): (r: Event)
    ensures r.excludeSelf
    ensures r.kind == e.kind && r.topics == e.topics && r.name == e.name && r.payload == e.payload
  {
    e.(excludeSelf := true)
  }

  /** The topic of everything said in a messageable: `channel.{id}` for a channel,
      `conversation.{id}` otherwise. */
  function MessageableTopic(owner: Messageable): (t: Topic)
    ensures owner.Channel? <==> t.ChannelTopic?
    ensures owner.Direct? <==> t.ConversationTopic?
    ensures t.id == owner.id
  {
    if owner.TypeName() == "channel" then ChannelTopic(owner.id) else ConversationTopic(owner.id)
  }

  /** NewMessage: one topic; the content is the plaintext handed in, never the
      stored row's ciphertext. */
  function NewMessage(m: Message, sender: User, plaintext: string): (e: Event)
    ensures e.topics == [MessageableTopic(m.owner)]
    ensures e.name == "message.new" && !e.excludeSelf && e.kind == Private
    ensures e.payload.NewMessagePayload? && e.payload.id == m.id && e.payload.content == plaintext
    ensures e.payload.contentType == m.contentType.Name() && e.payload.parentId == m.parent
    ensures e.payload.senderId == m.sender && e.payload.senderName == sender.username
    ensures e.payload.senderAvatar == AvatarUrl(sender) && e.payload.createdAt == m.createdAt
  {
    Event(Private, [MessageableTopic(m.owner)], "message.new",
          NewMessagePayload(m.id, plaintext, m.contentType.Name(), m.sender, sender.username,
                            AvatarUrl(sender), m.parent, m.createdAt), false)
  }

  /** MessageEdited: the same routing as NewMessage; the payload is exactly
      {id, content, edited_at}, so the message must have been edited. */
  function MessageEdited(m: Message, plaintext: string): (e: Event)
    requires m.editedAt.Some?
    ensures e.topics == [MessageableTopic(m.owner)]
    ensures e.name == "message.edited" && !e.excludeSelf && e.kind == Private
    ensures e.payload == MessageEditedPayload(m.id, plaintext, m.editedAt.value)
  {
    Event(Private, [MessageableTopic(m.owner)], "message.edited", MessageEditedPayload(m.id, plaintext, m.editedAt.value), false)
  }

  /** What MessageDeleted captures at construction, before the row goes away. */
  datatype DeletedSnapshot = DeletedSnapshot(owner: Messageable, messageId: Id)

  function Snapshot(m: Message): (snap: DeletedSnapshot)
    ensures snap.owner == m.owner && snap.messageId == m.id
  {
    DeletedSnapshot(m.owner, m.id)
  }

  /** MessageDeleted: routed from the snapshot; the payload carries only the id. */
  function MessageDeleted(snap: DeletedSnapshot): (e: Event)
    ensures e.topics == [MessageableTopic(snap.owner)]
    ensures e.name == "message.deleted" && !e.excludeSelf && e.kind == Private
    ensures e.payload == MessageDeletedPayload(snap.messageId)
  {
    Event(Private, [MessageableTopic(snap.owner)], "message.deleted", MessageDeletedPayload(snap.messageId), false)
  }

  /** Routing does not depend on the deleted row: the snapshot of the row before
      and after its soft delete gives the same event, and it carries no content. */
  lemma DeletedEventIndependentOfRow(m: Message)
    ensures MessageDeleted(Snapshot(m)) == MessageDeleted(Snapshot(m.(deleted := true)))
    ensures MessageDeleted(Snapshot(m)).payload.MessageDeletedPayload?
  {
  }

  /** ReactionAdded: `reaction.user` is the acting user passed in. */
  function ReactionAdded(m: Message, reactionId: Id, emoji: string, userId: Id, user: User): (e: Event)
    ensures e.topics == [MessageableTopic(m.owner)]
    ensures e.name == "reaction.added" && !e.excludeSelf && e.kind == Private
    ensures e.payload == ReactionAddedPayload(m.id, reactionId, emoji, userId, user.username)
  {
    Event(Private, [MessageableTopic(m.owner)], "reaction.added",
          ReactionAddedPayload(m.id, reactionId, emoji, userId, user.username), false)
  }

  /** ReactionRemoved: the emoji is the requested string; no row is needed. */
  function ReactionRemoved(m: Message, emoji: string, userId: Id): (e: Event)
    ensures e.topics == [MessageableTopic(m.owner)]
    ensures e.name == "reaction.removed" && !e.excludeSelf && e.kind == Private
    ensures e.payload == ReactionRemovedPayload(m.id, emoji, userId)
  {
    Event(Private, [MessageableTopic(m.owner)], "reaction.removed", ReactionRemovedPayload(m.id, emoji, userId), false)
  }

  /** UserTyping takes the type as a string: 'channel' gives the channel topic,
      any other string the conversation topic. */
  function UserTyping(userId: Id, user: User, messageableType: string, messageableId: Id, now: int): (e: Event)
    ensures messageableType == "channel" ==> e.topics == [ChannelTopic(messageableId)]
    ensures messageableType != "channel" ==> e.topics == [ConversationTopic(messageableId)]
    ensures e.name == "user.typing" && !e.excludeSelf && e.kind == Private
    ensures e.payload == UserTypingPayload(userId, user.username, now)
  {
    var topic := if messageableType == "channel" then ChannelTopic(messageableId) else ConversationTopic(messageableId);
    Event(Private, [topic], "user.typing", UserTypingPayload(userId, user.username, now), false)
  }

  /** Typing in a messageable, named by its own type, goes where its messages go. */
  lemma TypingFollowsMessages(userId: Id, user: User, owner: Messageable, now: int)
    ensures UserTyping(userId, user, owner.TypeName(), owner.id, now).topics == [MessageableTopic(owner)]
  {
  }

  /** NewConversationRequest: only to the receiver's personal topic. */
  function NewConversationRequest(conversationId: Id, initiatorId: Id, initiator: User, receiverId: Id): (e: Event)
    ensures e.topics == [UserTopic(receiverId)]
    ensures e.name == "conversation.request" && !e.excludeSelf && e.kind == Private
    ensures e.payload == ConversationRequestPayload(conversationId, initiatorId, initiator.username, AvatarUrl(initiator))
  {
    Event(Private, [UserTopic(receiverId)], "conversation.request",
          ConversationRequestPayload(conversationId, initiatorId, initiator.username, AvatarUrl(initiator)), false)
  }

  /** ConversationAccepted: both participants' personal topics, the acceptor's
      own included. */
  function ConversationAccepted(conversationId: Id, c: Conversation, acceptorId: Id, acceptor: User): (e: Event)
    ensures e.topics == [UserTopic(c.userOne), UserTopic(c.userTwo)]
    ensures e.name == "conversation.accepted" && !e.excludeSelf && e.kind == Private
    ensures e.payload == ConversationAcceptedPayload(conversationId, acceptorId, acceptor.username)
  {
    Event(Private, [UserTopic(c.userOne), UserTopic(c.userTwo)], "conversation.accepted",
          ConversationAcceptedPayload(conversationId, acceptorId, acceptor.username), false)
  }

  /** UserStatusChanged as written: one `company.{id}` topic per company of
      the user, in the order of the user's memberships, each a `PrivateChannel`. */
  function UserStatusChanged(userId: Id, user: User, companies: seq<Id>): (e: Event)
    ensures |e.topics| == |companies|
    ensures forall i :: 0 <= i < |companies| ==> e.topics[i] == CompanyTopic(companies[i])
    ensures e.name == "user.status_changed" && !e.excludeSelf && e.kind == Private
    ensures e.payload == StatusChangedPayload(userId, user.status, user.statusText)
  {
    Event(Private, CompanyTopics(companies), "user.status_changed", StatusChangedPayload(userId, user.status, user.statusText), false)
  }

  /** The roster joins `company.{id}` as a presence topic, so the private
      status event is published under a name no client subscription has: the
      status change is heard by nobody. */
  lemma StatusChangeUnheard(userId: Id, user: User, companies: seq<Id>, t: Topic)
    ensures var e := UserStatusChanged(userId, user, companies);
            forall i :: 0 <= i < |e.topics| ==> WireName(e.kind, e.topics[i]) != ClientSubscription(t)
  {
    var e := UserStatusChanged(userId, user, companies);
    forall i | 0 <= i < |e.topics|
      ensures WireName(e.kind, e.topics[i]) != ClientSubscription(t)
    {
      HeardByClient(Private, e.topics[i], t);
    }
  }

  /** UserStatusChanged as evidently intended: the same name, payload and
      topics on the presence channels the roster joins. */
  function UserStatusChangedOnPresence(userId: Id, user: User, companies: seq<Id>): (e: Event)
    ensures |e.topics| == |companies|
    ensures forall i :: 0 <= i < |companies| ==> e.topics[i] == CompanyTopic(companies[i])
    ensures e.name == "user.status_changed" && !e.excludeSelf && e.kind == Presence
    ensures e.payload == StatusChangedPayload(userId, user.status, user.statusText)
  {
    Event(Presence, CompanyTopics(companies), "user.status_changed", StatusChangedPayload(userId, user.status, user.statusText), false)
  }

  function CompanyTopics(companies: seq<Id>): (ts: seq<Topic>)
    ensures |ts| == |companies|
    ensures forall i :: 0 <= i < |companies| ==> ts[i] == CompanyTopic(companies[i])
  {
    seq(|companies|, i requires 0 <= i < |companies| => CompanyTopic(companies[i]))
  }

  /** Everything about one message (new, edited, deleted, reactions) is routed to
      one and the same single topic. */
  lemma MessageEventsShareTopic(m: Message, sender: User, plaintext: string, reactionId: Id,
                                emoji: string, userId: Id, user: User)
    requires m.editedAt.Some?
    ensures var t := NewMessage(m, sender, plaintext).topics;
            |t| == 1 &&
            MessageEdited(m, plaintext).topics == t &&
            MessageDeleted(Snapshot(m)).topics == t &&
            ReactionAdded(m, reactionId, emoji, userId, user).topics == t &&
            ReactionRemoved(m, emoji, userId).topics == t
  {
  }

  /** The subscribers of a message's topic: for a channel exactly its members,
      for a conversation exactly its two participants, accepted or not. */
  lemma MessageTopicAudience(s: State, user: Id, owner: Messageable)
    requires user in s.users
    ensures owner.Channel? ==>
              (MaySubscribe(s, user, MessageableTopic(owner)) <==>
               owner.id in s.channels && IsMemberOfChannel(s, user, owner.id))
    ensures owner.Direct? ==>
              (MaySubscribe(s, user, MessageableTopic(owner)) <==>
               owner.id in s.conversations &&
               (s.conversations[owner.id].userOne == user || s.conversations[owner.id].userTwo == user))
  {
  }

  /** The presence status event reaches every roster of the user: each topic is
      published under the name the client joins for that company, its
      subscribers are the company's members with the user among them, and a
      user without companies reaches no topic. */
  lemma StatusChangeTopics(s: State, userId: Id, user: User, companies: seq<Id>)
    requires userId in s.users
    requires forall i :: 0 <= i < |companies| ==> companies[i] in s.companies && IsMemberOf(s, userId, companies[i])
    ensures var e := UserStatusChangedOnPresence(userId, user, companies);
            (|companies| == 0 ==> e.topics == []) &&
            (forall i :: 0 <= i < |companies| ==>
               WireName(e.kind, e.topics[i]) == ClientSubscription(CompanyTopic(companies[i]))) &&
            (forall t :: t in e.topics ==> t.CompanyTopic? && Authorize(s, userId, t).Present?)
  {
    var e := UserStatusChangedOnPresence(userId, user, companies);
    forall t | t in e.topics
      ensures t.CompanyTopic? && Authorize(s, userId, t).Present?
    {
      var i :| 0 <= i < |e.topics| && e.topics[i] == t;
      assert t == CompanyTopic(companies[i]);
    }
  }

  /** Every other event is private on a non-company topic, which the client
      subscribes to privately: it is published under the name listened on. */
  lemma PrivateEventsHeard(e: Event)
    requires e.kind == Private
    requires forall t :: t in e.topics ==> !t.CompanyTopic?
    ensures forall i :: 0 <= i < |e.topics| ==> WireName(e.kind, e.topics[i]) == ClientSubscription(e.topics[i])
  {
  }
}
