/** ReactionController: emoji reactions on messages, a set of
    (message, user, emoji) triples each with its row id. */
module ReactionController {
  import opened Common
  import opened Schema
  import opened UserModel
  import opened DirectConversationModel
  import opened Topics
  import opened Events
  import opened Http

  const MaxEmojiLength: nat := 50

  /** `'emoji' => ['required', 'string', 'max:50']`. */
  predicate EmojiValid(emoji: string) {
    emoji != "" && |emoji| <= MaxEmojiLength
  }

  /** `canAccessMessage`: a channel message needs channel membership; a direct
      message needs a participant of an accepted conversation. */
  predicate CanAccessMessage(s: State, user: Id, m: Message) {
    match m.owner
    case Channel(id) => id in s.channels && IsMemberOfChannel(s, user, id)
    case Direct(id) => id in s.conversations && HasUser(s.conversations[id], user) && IsAccepted(s.conversations[id])
  }

  /** Who can react to a message can subscribe to its topic; for channels the
      converse holds too, while a pending conversation's participant may listen
      to the topic but not react. */
  lemma AccessImpliesTopic(s: State, user: Id, m: Message)
    requires user in s.users
    ensures CanAccessMessage(s, user, m) ==> MaySubscribe(s, user, MessageableTopic(m.owner))
    ensures m.owner.Channel? ==> (CanAccessMessage(s, user, m) <==> MaySubscribe(s, user, MessageableTopic(m.owner)))
    ensures m.owner.Direct? && m.owner.id in s.conversations && !IsAccepted(s.conversations[m.owner.id]) ==>
              !CanAccessMessage(s, user, m)
  {
  }

  /** The message a route names, as route model binding finds it (soft-deleted
      rows are 404), if the caller may see it. Every action answers 404
      "Message not found" otherwise. */
  predicate Reachable(s: State, user: Id, msgId: Id) {
    Find(s.messages, msgId).Some? && CanAccessMessage(s, user, Find(s.messages, msgId).value)
  }

  /** `store`: an existing triple is answered 200 without change; a new one is
      inserted, answered 201 and announced to the others. */
  function Store(s: State, user: Id, msgId: Id, emoji: string, newId: Id): (o: Outcome)
    requires user in s.users
    ensures !Reachable(s, user, msgId) ==> o == Refuse(s, NotFound)
    ensures Reachable(s, user, msgId) && !EmojiValid(emoji) ==> o == Refuse(s, Unprocessable)
    ensures Reachable(s, user, msgId) && EmojiValid(emoji) && ReactionKey(msgId, user, emoji) in s.reactions ==>
              o == Refuse(s, Ok)
    ensures o.status == Created <==>
              Reachable(s, user, msgId) && EmojiValid(emoji) && ReactionKey(msgId, user, emoji) !in s.reactions
    ensures o.status == Created ==>
              o.state == s.(reactions := s.reactions[ReactionKey(msgId, user, emoji) := newId]) &&
              o.events == [ToOthers(ReactionAdded(Find(s.messages, msgId).value, newId, emoji, user, s.users[user]))]
  {
    if !Reachable(s, user, msgId) then Refuse(s, NotFound)
    else if !EmojiValid(emoji) then Refuse(s, Unprocessable)
    else
      var key := ReactionKey(msgId, user, emoji);
      if key in s.reactions then Refuse(s, Ok)
      else
        var m := Find(s.messages, msgId).value;
        Outcome(s.(reactions := s.reactions[key := newId]), Created,
                [ToOthers(ReactionAdded(m, newId, emoji, user, s.users[user]))])
  }

  /** `destroy`: only the caller's own triple; a missing triple is 404. */
  function Destroy(s: State, user: Id, msgId: Id, emoji: string): (o: Outcome)
    ensures !Reachable(s, user, msgId) ==> o == Refuse(s, NotFound)
    ensures Reachable(s, user, msgId) && ReactionKey(msgId, user, emoji) !in s.reactions ==> o == Refuse(s, NotFound)
    ensures o.status == Ok <==> Reachable(s, user, msgId) && ReactionKey(msgId, user, emoji) in s.reactions
    ensures o.status == Ok ==>
              o.state == s.(reactions := s.reactions - {ReactionKey(msgId, user, emoji)}) &&
              o.events == [ToOthers(ReactionRemoved(Find(s.messages, msgId).value, emoji, user))]
  {
    if !Reachable(s, user, msgId) then Refuse(s, NotFound)
    else
      var key := ReactionKey(msgId, user, emoji);
      if key !in s.reactions then Refuse(s, NotFound)
      else
        Outcome(s.(reactions := s.reactions - {key}), Ok,
                [ToOthers(ReactionRemoved(Find(s.messages, msgId).value, emoji, user))])
  }

  datatype ToggleAction = Added | Removed

  datatype Toggled = Toggled(outcome: Outcome, action: Option<ToggleAction>)

  /** `toggle`: removes the triple if present, otherwise adds it, and reports
      which branch it took. */
  function Toggle(s: State, user: Id, msgId: Id, emoji: string, newId: Id): (t: Toggled)
    requires user in s.users
    ensures t.action.Some? <==> Reachable(s, user, msgId) && EmojiValid(emoji)
    ensures t.action == Some(Removed) ==>
              ReactionKey(msgId, user, emoji) in s.reactions && t.outcome == Destroy(s, user, msgId, emoji)
    ensures t.action == Some(Added) ==>
              ReactionKey(msgId, user, emoji) !in s.reactions && t.outcome == Store(s, user, msgId, emoji, newId)
    ensures t.action.None? ==> t.outcome == Store(s, user, msgId, emoji, newId) && !t.outcome.status.IsSuccess()
  {
    if !Reachable(s, user, msgId) then Toggled(Refuse(s, NotFound), None)
    else if !EmojiValid(emoji) then Toggled(Refuse(s, Unprocessable), None)
    else
      var key := ReactionKey(msgId, user, emoji);
      if key in s.reactions then
        Toggled(Outcome(s.(reactions := s.reactions - {key}), Ok,
                        [ToOthers(ReactionRemoved(Find(s.messages, msgId).value, emoji, user))]), Some(Removed))
      else
        var m := Find(s.messages, msgId).value;
        Toggled(Outcome(s.(reactions := s.reactions[key := newId]), Created,
                        [ToOthers(ReactionAdded(m, newId, emoji, user, s.users[user]))]), Some(Added))
  }

  /** Adding the same reaction twice adds it once. */
  lemma StoreIdempotent(s: State, user: Id, msgId: Id, emoji: string, newId: Id, newId2: Id)
    requires user in s.users
    ensures var s1 := Store(s, user, msgId, emoji, newId).state;
            Store(s1, user, msgId, emoji, newId2).state == s1 &&
            (Store(s, user, msgId, emoji, newId).status.IsSuccess() ==> Store(s1, user, msgId, emoji, newId2).status == Ok)
  {
  }

  /** One user's different emojis on one message coexist. */
  lemma DistinctEmojisCoexist(s: State, user: Id, msgId: Id, e1: string, e2: string, id1: Id, id2: Id)
    requires user in s.users && e1 != e2
    requires Reachable(s, user, msgId) && EmojiValid(e1) && EmojiValid(e2)
    ensures var s2 := Store(Store(s, user, msgId, e1, id1).state, user, msgId, e2, id2).state;
            ReactionKey(msgId, user, e1) in s2.reactions && ReactionKey(msgId, user, e2) in s2.reactions
  {
  }

  /** Removing a reaction touches no other triple, in particular no other user's. */
  lemma DestroyTouchesOnlyOwnTriple(s: State, user: Id, msgId: Id, emoji: string, k: ReactionKey)
    requires k != ReactionKey(msgId, user, emoji)
    ensures var r := Destroy(s, user, msgId, emoji).state.reactions;
            (k in r <==> k in s.reactions) && (k in r ==> r[k] == s.reactions[k])
  {
  }

  /** Reactions do not change who may reach a message. */
  lemma ReachIgnoresReactions(s: State, r: map<ReactionKey, Id>, user: Id, msgId: Id)
    ensures Reachable(s.(reactions := r), user, msgId) <==> Reachable(s, user, msgId)
  {
  }

  /** Toggling off, then on again, brings the triple back (with a new row id). */
  lemma ToggleOffThenOn(s: State, user: Id, msgId: Id, emoji: string, newId: Id, newId2: Id)
    requires user in s.users && Reachable(s, user, msgId) && EmojiValid(emoji)
    requires ReactionKey(msgId, user, emoji) in s.reactions
    ensures var s1 := Toggle(s, user, msgId, emoji, newId).outcome.state;
            Toggle(s1, user, msgId, emoji, newId2).outcome.state.reactions.Keys == s.reactions.Keys
  {
    var key := ReactionKey(msgId, user, emoji);
    var r1 := s.reactions - {key};
    var s1 := Toggle(s, user, msgId, emoji, newId).outcome.state;
    assert s1 == s.(reactions := r1);
    ReachIgnoresReactions(s, r1, user, msgId);
    assert Toggle(s1, user, msgId, emoji, newId2).outcome.state.reactions == r1[key := newId2];
    assert r1[key := newId2].Keys == s.reactions.Keys;
  }

  /** Toggling on, then off again, removes the triple it added. */
  lemma ToggleOnThenOff(s: State, user: Id, msgId: Id, emoji: string, newId: Id, newId2: Id)
    requires user in s.users && Reachable(s, user, msgId) && EmojiValid(emoji)
    requires ReactionKey(msgId, user, emoji) !in s.reactions
    ensures var s1 := Toggle(s, user, msgId, emoji, newId).outcome.state;
            Toggle(s1, user, msgId, emoji, newId2).outcome.state.reactions == s.reactions
  {
    var key := ReactionKey(msgId, user, emoji);
    var r1 := s.reactions[key := newId];
    var s1 := Toggle(s, user, msgId, emoji, newId).outcome.state;
    assert s1 == s.(reactions := r1);
    ReachIgnoresReactions(s, r1, user, msgId);
    assert Toggle(s1, user, msgId, emoji, newId2).outcome.state.reactions == r1 - {key};
    assert r1 - {key} == s.reactions;
  }

  // ---------------------------------------------------------------------------
  // Grouping by emoji (`index`, and `aggregateReactions` of the message views)
  // ---------------------------------------------------------------------------

  /** The reaction rows of one message with one emoji. */
  function RowsWith(reactions: map<ReactionKey, Id>, msgId: Id, emoji: string): set<ReactionKey> {
    set k | k in reactions && k.message == msgId && k.emoji == emoji
  }

  function UsersOf(rows: set<ReactionKey>): set<Id> {
    set k | k in rows :: k.user
  }

  /** What is known of one emoji on one message, whoever asks: the number of
      its rows and the reacting users (`aggregateReactions` of the message
      views answers exactly this). */
  datatype ReactionSummary = ReactionSummary(emoji: string, count: nat, users: set<Id>)

  function Summary(reactions: map<ReactionKey, Id>, msgId: Id, emoji: string): (g: ReactionSummary)
    ensures g.emoji == emoji
    ensures forall u :: u in g.users <==> ReactionKey(msgId, u, emoji) in reactions
  {
    var rows := RowsWith(reactions, msgId, emoji);
    var users := UsersOf(rows);
    assert forall u :: u in users <==> ReactionKey(msgId, u, emoji) in reactions by {
      forall u ensures u in users <==> ReactionKey(msgId, u, emoji) in reactions {
        if ReactionKey(msgId, u, emoji) in reactions {
          assert ReactionKey(msgId, u, emoji) in rows;
        }
      }
    }
    ReactionSummary(emoji, |rows|, users)
  }

  /** One group of the `index` projection: the summary and the viewer's flag. */
  datatype EmojiGroup = EmojiGroup(emoji: string, count: nat, users: set<Id>, hasReacted: bool)

  /** The group of one emoji for one viewer: the number of rows, the reacting
      users, and whether the viewer is among them. */
  function Group(reactions: map<ReactionKey, Id>, msgId: Id, emoji: string, viewer: Id): (g: EmojiGroup)
    ensures g.emoji == emoji
    ensures forall u :: u in g.users <==> ReactionKey(msgId, u, emoji) in reactions
    ensures g.hasReacted <==> ReactionKey(msgId, viewer, emoji) in reactions
  {
    var t := Summary(reactions, msgId, emoji);
    EmojiGroup(emoji, t.count, t.users, viewer in t.users)
  }

  /** The emojis used on a message. */
  function EmojisOn(reactions: map<ReactionKey, Id>, msgId: Id): set<string> {
    set k | k in reactions && k.message == msgId :: k.emoji
  }

  /** `groupBy('emoji')`: one group per emoji used on the message. */
  function Aggregate(reactions: map<ReactionKey, Id>, msgId: Id, viewer: Id): (r: map<string, EmojiGroup>)
    ensures r.Keys == EmojisOn(reactions, msgId)
  {
    map e | e in EmojisOn(reactions, msgId) :: Group(reactions, msgId, e, viewer)
  }

  /** `aggregateReactions`: one summary per emoji used on the message. */
  function Summaries(reactions: map<ReactionKey, Id>, msgId: Id): (r: map<string, ReactionSummary>)
    ensures r.Keys == EmojisOn(reactions, msgId)
    ensures forall e :: e in r ==> r[e].emoji == e
  {
    map e | e in EmojisOn(reactions, msgId) :: Summary(reactions, msgId, e)
  }

  /** The message views and `index` group alike: each summary is the viewer's
      group without the flag, its count is its number of users, and no summary
      is empty. */
  lemma SummariesAgreeWithIndex(reactions: map<ReactionKey, Id>, msgId: Id, viewer: Id, e: string)
    requires e in Summaries(reactions, msgId)
    ensures var t := Summaries(reactions, msgId)[e];
            var g := Aggregate(reactions, msgId, viewer)[e];
            t.emoji == g.emoji && t.count == g.count && t.users == g.users &&
            t.count == |t.users| && t.count > 0 &&
            (forall u :: u in t.users <==> ReactionKey(msgId, u, e) in reactions)
  {
    IndexGroups(reactions, msgId, viewer, e);
  }

  /** A group's count is its number of distinct users, since a user reacts with
      an emoji at most once. */
  lemma {:induction false} CountIsDistinctUsers(rows: set<ReactionKey>, msgId: Id, emoji: string)
    requires forall k :: k in rows ==> k.message == msgId && k.emoji == emoji
    ensures |UsersOf(rows)| == |rows|
    decreases |rows|
  {
    if rows != {} {
      var k :| k in rows;
      var rest := rows - {k};
      CountIsDistinctUsers(rest, msgId, emoji);
      assert UsersOf(rows) == UsersOf(rest) + {k.user};
      assert k.user !in UsersOf(rest);
    }
  }

  /** `index`: every group's count equals its number of users, `has_reacted`
      is membership of the viewer, and a group is non-empty. */
  lemma IndexGroups(reactions: map<ReactionKey, Id>, msgId: Id, viewer: Id, e: string)
    requires e in Aggregate(reactions, msgId, viewer)
    ensures var g := Aggregate(reactions, msgId, viewer)[e];
            g.count == |g.users| && g.count > 0 && (g.hasReacted <==> viewer in g.users)
  {
    var rows := RowsWith(reactions, msgId, e);
    CountIsDistinctUsers(rows, msgId, e);
    var k :| k in reactions && k.message == msgId && k.emoji == e;
    assert k in rows;
  }

  /** `index` answers the groups to whoever may access the message. */
  function Index(s: State, user: Id, msgId: Id): (r: Response<map<string, EmojiGroup>>)
    ensures !Reachable(s, user, msgId) ==> r == Deny(NotFound)
    ensures Reachable(s, user, msgId) ==> r == Answer(Aggregate(s.reactions, msgId, user))
  {
    if !Reachable(s, user, msgId) then Deny(NotFound) else Answer(Aggregate(s.reactions, msgId, user))
  }
}
