/** The broadcast topics and their authorisation closures
    (routes/channels.php). A topic is one of four families, each named by a
    prefix and a decimal id; on the socket it is private or presence. */
module Topics {
  import opened Common
  import opened Schema
  import opened UserModel
  import opened DirectConversationModel

  datatype Topic =
    | UserTopic(id: Id)
    | ChannelTopic(id: Id)
    | ConversationTopic(id: Id)
    | CompanyTopic(id: Id)

  const UserPrefix: string := "user."
  const ChannelPrefix: string := "channel."
  const ConversationPrefix: string := "conversation."
  const CompanyPrefix: string := "company."

  /** The name given to `PrivateChannel` ("channel." . $id and so on). */
  function TopicName(t: Topic): (name: string)
  {
    match t
    case UserTopic(id) => UserPrefix + NatToString(id)
    case ChannelTopic(id) => ChannelPrefix + NatToString(id)
    case ConversationTopic(id) => ConversationPrefix + NatToString(id)
    case CompanyTopic(id) => CompanyPrefix + NatToString(id)
  }

  /** The id part of a topic name, when it is a non-empty run of digits. */
  function IdPart(name: string, prefix: string): (r: Option<Id>)
    requires StartsWith(name, prefix)
    ensures r.Some? ==> AllDigits(name[|prefix|..]) && r.value == DigitsValue(name[|prefix|..])
  {
    var rest := name[|prefix|..];
    if |rest| > 0 && AllDigits(rest) then Some(DigitsValue(rest)) else None
  }

  /** Reading a topic name back: the family from the prefix, the id from the
      digits after it. Names outside the four families are not topics. */
  function ParseTopic(name: string): (r: Option<Topic>)
  {
    if StartsWith(name, UserPrefix) then
      match IdPart(name, UserPrefix) case Some(id) => Some(UserTopic(id)) case None => None
    else if StartsWith(name, ChannelPrefix) then
      match IdPart(name, ChannelPrefix) case Some(id) => Some(ChannelTopic(id)) case None => None
    else if StartsWith(name, ConversationPrefix) then
      match IdPart(name, ConversationPrefix) case Some(id) => Some(ConversationTopic(id)) case None => None
    else if StartsWith(name, CompanyPrefix) then
      match IdPart(name, CompanyPrefix) case Some(id) => Some(CompanyTopic(id)) case None => None
    else None
  }

  lemma PrefixedRest(prefix: string, rest: string)
    ensures StartsWith(prefix + rest, prefix) && (prefix + rest)[|prefix|..] == rest
  {
    assert (prefix + rest)[..|prefix|] == prefix;
  }

  /** Every topic name parses back to its topic, so no two topics share a name. */
  lemma ParseTopicName(t: Topic)
    ensures ParseTopic(TopicName(t)) == Some(t)
  {
    var digits := NatToString(t.id);
    NatToStringRoundTrip(t.id);
    var name := TopicName(t);
    match t
    case UserTopic(id) =>
      PrefixedRest(UserPrefix, digits);
    case ChannelTopic(id) =>
      PrefixedRest(ChannelPrefix, digits);
      assert name[0] == 'c';
    case ConversationTopic(id) =>
      PrefixedRest(ConversationPrefix, digits);
      assert name[0] == 'c' && name[2] == 'n';
    case CompanyTopic(id) =>
      PrefixedRest(CompanyPrefix, digits);
      assert name[0] == 'c' && name[2] == 'm';
  }

  lemma TopicNameInjective(t1: Topic, t2: Topic)
    requires TopicName(t1) == TopicName(t2)
    ensures t1 == t2
  {
    ParseTopicName(t1);
    ParseTopicName(t2);
  }

  // ---------------------------------------------------------------------------
  // Private and presence subscriptions
  // ---------------------------------------------------------------------------

  /** The broadcaster tells the two kinds apart by a prefix on the topic name:
      a `PrivateChannel` (and `echo.private` on the client) is published as
      "private-" plus the name, a presence channel (`echo.join`) as "presence-"
      plus the name. */
  datatype Kind = Private | Presence

  const PrivateWirePrefix: string := "private-"
  const PresenceWirePrefix: string := "presence-"

  /** The name a topic of a kind has on the socket. */
  function WireName(k: Kind, t: Topic): (name: string)
  {
    (if k.Private? then PrivateWirePrefix else PresenceWirePrefix) + TopicName(t)
  }

  /** Different kinds or different topics never share a socket name. */
  lemma WireNameInjective(k1: Kind, t1: Topic, k2: Kind, t2: Topic)
    requires WireName(k1, t1) == WireName(k2, t2)
    ensures k1 == k2 && t1 == t2
  {
    var w := WireName(k1, t1);
    var p1 := if k1.Private? then PrivateWirePrefix else PresenceWirePrefix;
    var p2 := if k2.Private? then PrivateWirePrefix else PresenceWirePrefix;
    assert w[2] == p1[2] && w[2] == p2[2];
    assert p1 == p2;
    PrefixedRest(p1, TopicName(t1));
    PrefixedRest(p2, TopicName(t2));
    TopicNameInjective(t1, t2);
  }

  /** The client's subscriptions (services/websocket.ts): the personal, channel
      and conversation topics with `echo.private`, the company roster with
      `echo.join`. */
  function ClientKind(t: Topic): (k: Kind)
    ensures k.Presence? <==> t.CompanyTopic?
  {
    if t.CompanyTopic? then Presence else Private
  }

  /** The socket name the client listens on for a topic. */
  function ClientSubscription(t: Topic): (name: string)
  {
    WireName(ClientKind(t), t)
  }

  /** An event of kind `k` on topic `t` is heard by the client exactly when
      the client subscribes to `t` with that kind. */
  lemma HeardByClient(k: Kind, t: Topic, t': Topic)
    ensures WireName(k, t) == ClientSubscription(t') <==> t == t' && k == ClientKind(t)
  {
    if WireName(k, t) == ClientSubscription(t') {
      WireNameInjective(k, t, ClientKind(t'), t');
    }
  }

  // ---------------------------------------------------------------------------
  // Authorisation closures
  // ---------------------------------------------------------------------------

  /** The member record a presence subscription yields. */
  datatype RosterEntry = RosterEntry(id: Id, username: string, avatarUrl: Option<string>, status: string)

  /** What a closure answers: false, true, or (presence topics) a member record. */
  datatype Authorization = Denied | Granted | Present(entry: RosterEntry)

  /** The closure of each topic family for an authenticated user. */
  function Authorize(s: State, user: Id, t: Topic): (r: Authorization)
    requires user in s.users
    ensures t.UserTopic? ==> (r.Granted? <==> user == t.id) && !r.Present?
    ensures t.ChannelTopic? ==>
              (r.Granted? <==> t.id in s.channels && IsMemberOfChannel(s, user, t.id)) && !r.Present?
    ensures t.ConversationTopic? ==>
              (r.Granted? <==> t.id in s.conversations && HasUser(s.conversations[t.id], user)) && !r.Present?
    ensures t.CompanyTopic? ==>
              !r.Granted? && (r.Present? <==> t.id in s.companies && IsMemberOf(s, user, t.id))
    ensures r.Present? ==>
              r.entry == RosterEntry(user, s.users[user].username, AvatarUrl(s.users[user]), s.users[user].status)
  {
    match t
    case UserTopic(id) => if user == id then Granted else Denied
    case ChannelTopic(id) =>
      if id !in s.channels then Denied
      else if IsMemberOfChannel(s, user, id) then Granted else Denied
    case ConversationTopic(id) =>
      if id !in s.conversations then Denied
      else if HasUser(s.conversations[id], user) then Granted else Denied
    case CompanyTopic(id) =>
      if id !in s.companies || !IsMemberOf(s, user, id) then Denied
      else
        var u := s.users[user];
        Present(RosterEntry(user, u.username, AvatarUrl(u), u.status))
  }

  /** A subscription succeeds when the closure grants access or yields a record. */
  predicate MaySubscribe(s: State, user: Id, t: Topic)
    requires user in s.users
  {
    !Authorize(s, user, t).Denied?
  }

  /** The conversation topic does not wait for acceptance: both participants of
      a pending conversation may subscribe, so the still-unaccepted receiver can
      listen to a conversation it has not agreed to. */
  lemma PendingConversationTopicOpen(s: State, user: Id, id: Id)
    requires user in s.users
    requires id in s.conversations && HasUser(s.conversations[id], user)
    requires !IsAccepted(s.conversations[id])
    ensures MaySubscribe(s, user, ConversationTopic(id))
  {
  }

  /** Nobody may subscribe to another user's personal topic. */
  lemma UserTopicIsPersonal(s: State, user: Id, other: Id)
    requires user in s.users
    ensures MaySubscribe(s, user, UserTopic(other)) <==> user == other
  {
  }
}
