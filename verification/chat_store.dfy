/** The channel chat store: local reaction aggregation on loaded messages
    and the list of users currently typing. */
module ChatStore {
  import opened Common
  import opened MessageList

  // ---------------------------------------------------------------------------
  // Reaction groups
  // ---------------------------------------------------------------------------

  /** The groups as the server sends them: the count is the number of users,
      at least one. */
  predicate GroupsWellFormed(gs: seq<Group>) {
    forall i :: 0 <= i < |gs| ==> gs[i].count == |gs[i].userIds| && gs[i].count >= 1
  }

  function OfEmoji(emoji: string): Group -> bool {
    (g: Group) => g.emoji == emoji
  }

  function OtherEmojis(emoji: string): Group -> bool {
    (g: Group) => g.emoji != emoji
  }

  function OtherUsers(user: Id): Id -> bool {
    (u: Id) => u != user
  }

  /** A reaction added: the first group of the emoji counts one more and lists
      the user last; without such a group a new one is appended. */
  function AddReaction(gs: seq<Group>, emoji: string, user: Id): (r: seq<Group>)
    ensures (forall i :: 0 <= i < |gs| ==> gs[i].emoji != emoji) ==> r == gs + [Group(emoji, 1, [user])]
    ensures forall i :: 0 <= i < |gs| && gs[i].emoji == emoji && (forall j :: 0 <= j < i ==> gs[j].emoji != emoji) ==>
              r == gs[i := Group(emoji, gs[i].count + 1, gs[i].userIds + [user])]
  {
    match FindFirst(gs, OfEmoji(emoji))
    case None => gs + [Group(emoji, 1, [user])]
    case Some(i) => gs[i := gs[i].(count := gs[i].count + 1, userIds := gs[i].userIds + [user])]
  }

  /** A reaction removed: the first group of the emoji counts one less and no
      longer lists the user; when its count reaches zero every group of the
      emoji is dropped. Without such a group nothing changes. */
  function RemoveReaction(gs: seq<Group>, emoji: string, user: Id): (r: seq<Group>)
    ensures (forall i :: 0 <= i < |gs| ==> gs[i].emoji != emoji) ==> r == gs
    ensures FindFirst(gs, OfEmoji(emoji)).Some? ==>
              var i := FindFirst(gs, OfEmoji(emoji)).value;
              var g := Group(emoji, gs[i].count - 1, Filter(gs[i].userIds, OtherUsers(user)));
              (g.count != 0 ==> r == gs[i := g]) &&
              (g.count == 0 ==> r == Filter(gs, OtherEmojis(emoji)))
  {
    match FindFirst(gs, OfEmoji(emoji))
    case None => gs
    case Some(i) =>
      var g := gs[i].(count := gs[i].count - 1, userIds := Filter(gs[i].userIds, OtherUsers(user)));
      if g.count == 0 then
        FilterReplaceDropped(gs, i, g, emoji);
        Filter(gs[i := g], OtherEmojis(emoji))
      else gs[i := g]
  }

  /** Replacing a group of the emoji by another one of the emoji does not
      change what filtering the emoji out leaves. */
  lemma FilterReplaceDropped(gs: seq<Group>, i: nat, g: Group, emoji: string)
    requires i < |gs| && gs[i].emoji == emoji && g.emoji == emoji
    ensures Filter(gs[i := g], OtherEmojis(emoji)) == Filter(gs, OtherEmojis(emoji))
  {
    var f := OtherEmojis(emoji);
    assert gs == gs[..i] + [gs[i]] + gs[i + 1..];
    assert gs[i := g] == gs[..i] + [g] + gs[i + 1..];
    FilterSplit(gs[..i] + [gs[i]], gs[i + 1..], f);
    FilterSplit(gs[..i], [gs[i]], f);
    FilterSplit(gs[..i] + [g], gs[i + 1..], f);
    FilterSplit(gs[..i], [g], f);
    assert Filter([g][1..], f) == [];
    assert Filter([gs[i]][1..], f) == [];
  }

  /** Filtering distributes over concatenation. */
  lemma {:induction false} FilterSplit<T(!new)>(a: seq<T>, b: seq<T>, f: T -> bool)
    ensures Filter(a + b, f) == Filter(a, f) + Filter(b, f)
    decreases |a|
  {
    if |a| == 0 {
      assert a + b == b;
    } else {
      assert (a + b)[0] == a[0];
      assert (a + b)[1..] == a[1..] + b;
      FilterSplit(a[1..], b, f);
    }
  }

  /** Filtering out what is not there changes nothing. */
  lemma {:induction false} FilterKeepsAll<T(!new)>(xs: seq<T>, f: T -> bool)
    requires forall i :: 0 <= i < |xs| ==> f(xs[i])
    ensures Filter(xs, f) == xs
    decreases |xs|
  {
    if |xs| > 0 {
      FilterKeepsAll(xs[1..], f);
      assert [xs[0]] + xs[1..] == xs;
    }
  }

  /** A reaction added and then removed by a user who had not reacted with
      that emoji leaves the well-formed groups exactly as they were. */
  lemma AddThenRemoveRestores(gs: seq<Group>, emoji: string, user: Id)
    requires GroupsWellFormed(gs)
    requires forall i :: 0 <= i < |gs| && gs[i].emoji == emoji ==> user !in gs[i].userIds
    ensures RemoveReaction(AddReaction(gs, emoji, user), emoji, user) == gs
  {
    match FindFirst(gs, OfEmoji(emoji))
    case None => RestoresWhenNewGroup(gs, emoji, user);
    case Some(i) => RestoresWhenGroupExists(gs, i, emoji, user);
  }

  lemma RestoresWhenNewGroup(gs: seq<Group>, emoji: string, user: Id)
    requires forall i :: 0 <= i < |gs| ==> gs[i].emoji != emoji
    ensures RemoveReaction(AddReaction(gs, emoji, user), emoji, user) == gs
  {
    var added := gs + [Group(emoji, 1, [user])];
    assert AddReaction(gs, emoji, user) == added;
    var i := |gs|;
    FindFirstIs(added, OfEmoji(emoji), i);
    assert Filter([user][1..], OtherUsers(user)) == [];
    assert added[i].count - 1 == 0;
    FilterSplit(gs, [added[i]], OtherEmojis(emoji));
    assert Filter([added[i]][1..], OtherEmojis(emoji)) == [];
    FilterKeepsAll(gs, OtherEmojis(emoji));
  }

  lemma RestoresWhenGroupExists(gs: seq<Group>, i: nat, emoji: string, user: Id)
    requires GroupsWellFormed(gs)
    requires i < |gs| && gs[i].emoji == emoji && forall j :: 0 <= j < i ==> gs[j].emoji != emoji
    requires user !in gs[i].userIds
    ensures RemoveReaction(AddReaction(gs, emoji, user), emoji, user) == gs
  {
    var ids := gs[i].userIds;
    var added := gs[i := Group(emoji, gs[i].count + 1, ids + [user])];
    assert AddReaction(gs, emoji, user) == added;
    FindFirstIs(added, OfEmoji(emoji), i);
    FilterDropsNewUser(ids, user);
    assert gs[i] == Group(emoji, gs[i].count, ids);
    assert added[i := Group(emoji, gs[i].count, ids)] == gs;
  }

  /** Filtering out a user appended to a list without them gives the list. */
  lemma FilterDropsNewUser(ids: seq<Id>, user: Id)
    requires user !in ids
    ensures Filter(ids + [user], OtherUsers(user)) == ids
  {
    FilterSplit(ids, [user], OtherUsers(user));
    assert Filter([user][1..], OtherUsers(user)) == [];
    FilterKeepsAll(ids, OtherUsers(user));
  }

  /** A group the server sent with no users is dropped by the round trip: the
      restoration needs a count of at least one. */
  lemma EmptyGroupDroppedByRoundTrip(emoji: string, user: Id)
    ensures RemoveReaction(AddReaction([Group(emoji, 0, [])], emoji, user), emoji, user) == []
  {
    var gs := [Group(emoji, 0, [])];
    assert [] + [user] == [user];
    var added := [Group(emoji, 1, [user])];
    assert AddReaction(gs, emoji, user) == added;
    FindFirstIs(added, OfEmoji(emoji), 0);
    assert Filter([user][1..], OtherUsers(user)) == [];
    assert Filter(added[1..], OtherEmojis(emoji)) == [];
  }

  // ---------------------------------------------------------------------------
  // Reactions on loaded messages
  // ---------------------------------------------------------------------------

  function ReactOn(ms: seq<Msg>, msgId: Id, f: seq<Group> -> seq<Group>): (r: seq<Msg>)
    ensures |r| == |ms|
    ensures forall i :: 0 <= i < |ms| ==> r[i].id == ms[i].id
    ensures (forall i :: 0 <= i < |ms| ==> ms[i].id != msgId) ==> r == ms
    ensures forall i :: 0 <= i < |ms| && ms[i].id == msgId && (forall j :: 0 <= j < i ==> ms[j].id != msgId) ==>
              r[i] == ms[i].(reactions := f(ms[i].reactions)) &&
              forall j :: 0 <= j < |ms| && j != i ==> r[j] == ms[j]
  {
    UpdateFirst(ms, (m: Msg) => m.id == msgId, (m: Msg) => m.(reactions := f(m.reactions)))
  }

  /** `onReactionAdded`. */
  function OnReactionAdded(ms: seq<Msg>, msgId: Id, emoji: string, user: Id): (r: seq<Msg>)
    ensures |r| == |ms|
    ensures (forall i :: 0 <= i < |ms| ==> ms[i].id != msgId) ==> r == ms
    ensures forall i :: 0 <= i < |ms| && ms[i].id == msgId && (forall j :: 0 <= j < i ==> ms[j].id != msgId) ==>
              r[i] == ms[i].(reactions := AddReaction(ms[i].reactions, emoji, user)) &&
              forall j :: 0 <= j < |ms| && j != i ==> r[j] == ms[j]
  {
    ReactOn(ms, msgId, (gs: seq<Group>) => AddReaction(gs, emoji, user))
  }

  /** `onReactionRemoved`. */
  function OnReactionRemoved(ms: seq<Msg>, msgId: Id, emoji: string, user: Id): (r: seq<Msg>)
    ensures |r| == |ms|
    ensures (forall i :: 0 <= i < |ms| ==> ms[i].id != msgId) ==> r == ms
    ensures forall i :: 0 <= i < |ms| && ms[i].id == msgId && (forall j :: 0 <= j < i ==> ms[j].id != msgId) ==>
              r[i] == ms[i].(reactions := RemoveReaction(ms[i].reactions, emoji, user)) &&
              forall j :: 0 <= j < |ms| && j != i ==> r[j] == ms[j]
  {
    ReactOn(ms, msgId, (gs: seq<Group>) => RemoveReaction(gs, emoji, user))
  }

  /** Broadcast events for a reaction added and then removed leave the loaded
      messages as they were. */
  lemma AddedThenRemovedRestoresMessages(ms: seq<Msg>, msgId: Id, emoji: string, user: Id)
    requires forall i :: 0 <= i < |ms| && ms[i].id == msgId ==>
               GroupsWellFormed(ms[i].reactions) &&
               forall k :: 0 <= k < |ms[i].reactions| && ms[i].reactions[k].emoji == emoji ==> user !in ms[i].reactions[k].userIds
    ensures OnReactionRemoved(OnReactionAdded(ms, msgId, emoji, user), msgId, emoji, user) == ms
  {
    match FindFirst(ms, (m: Msg) => m.id == msgId)
    case None =>
    case Some(i) =>
      RestoredAt(ms, msgId, emoji, user, i);
  }

  /** The round trip on the first message with the id. */
  lemma RestoredAt(ms: seq<Msg>, msgId: Id, emoji: string, user: Id, i: nat)
    requires i < |ms| && ms[i].id == msgId && forall j :: 0 <= j < i ==> ms[j].id != msgId
    requires GroupsWellFormed(ms[i].reactions)
    requires forall k :: 0 <= k < |ms[i].reactions| && ms[i].reactions[k].emoji == emoji ==> user !in ms[i].reactions[k].userIds
    ensures OnReactionRemoved(OnReactionAdded(ms, msgId, emoji, user), msgId, emoji, user) == ms
  {
    AddThenRemoveRestores(ms[i].reactions, emoji, user);
    ReactOnUndone(ms, msgId, (gs: seq<Group>) => AddReaction(gs, emoji, user),
                  (gs: seq<Group>) => RemoveReaction(gs, emoji, user), i);
  }

  /** A second change of the first message with the id that undoes the first
      one restores the list. */
  lemma ReactOnUndone(ms: seq<Msg>, msgId: Id, f: seq<Group> -> seq<Group>, g: seq<Group> -> seq<Group>, i: nat)
    requires i < |ms| && ms[i].id == msgId && forall j :: 0 <= j < i ==> ms[j].id != msgId
    requires g(f(ms[i].reactions)) == ms[i].reactions
    ensures ReactOn(ReactOn(ms, msgId, f), msgId, g) == ms
  {
    var a := ReactOn(ms, msgId, f);
    assert a[i] == ms[i].(reactions := f(ms[i].reactions));
    var r := ReactOn(a, msgId, g);
    assert r[i] == a[i].(reactions := g(a[i].reactions));
    assert forall j :: 0 <= j < |ms| ==> r[j] == ms[j];
  }

  /** A falsy current user id (none, or 0) leaves toggling without effect. */
  predicate NoUser(me: Option<Id>) {
    me.None? || me.value == 0
  }

  /** `toggleReaction` after the server answered: 'added' aggregates the
      current user in, any other answer takes them out. */
  function ToggleReaction(ms: seq<Msg>, msgId: Id, emoji: string, action: string, me: Option<Id>): (r: seq<Msg>)
    ensures (forall i :: 0 <= i < |ms| ==> ms[i].id != msgId) || NoUser(me) ==> r == ms
    ensures !NoUser(me) && action == "added" ==> r == OnReactionAdded(ms, msgId, emoji, me.value)
    ensures !NoUser(me) && action != "added" ==> r == OnReactionRemoved(ms, msgId, emoji, me.value)
  {
    if FindFirst(ms, (m: Msg) => m.id == msgId).None? || NoUser(me) then ms
    else if action == "added" then OnReactionAdded(ms, msgId, emoji, me.value)
    else OnReactionRemoved(ms, msgId, emoji, me.value)
  }

  // ---------------------------------------------------------------------------
  // Typing
  // ---------------------------------------------------------------------------

  const TypingTimeout: int := 5000

  datatype Typer = Typer(id: Id, username: string, timestamp: int)

  predicate TyperIdsDistinct(ts: seq<Typer>) {
    forall i, j :: 0 <= i < j < |ts| ==> ts[i].id != ts[j].id
  }

  /** `onTyping` at time `now` (milliseconds): one's own typing is ignored; a
      user already listed gets a fresh timestamp; anyone else is appended. */
  function OnTyping(ts: seq<Typer>, id: Id, username: string, me: Option<Id>, now: int): (r: seq<Typer>)
    ensures me == Some(id) ==> r == ts
    ensures me != Some(id) ==> exists k :: 0 <= k < |r| && r[k].id == id && r[k].timestamp == now
    ensures TyperIdsDistinct(ts) ==> TyperIdsDistinct(r)
    ensures me != Some(id) && (exists k :: 0 <= k < |ts| && ts[k].id == id) ==> |r| == |ts|
    ensures me != Some(id) && (forall k :: 0 <= k < |ts| ==> ts[k].id != id) ==> r == ts + [Typer(id, username, now)]
    ensures forall i :: 0 <= i < |ts| && me != Some(id) && ts[i].id == id && (forall j :: 0 <= j < i ==> ts[j].id != id) ==>
              r == ts[i := ts[i].(timestamp := now)]
  {
    if me == Some(id) then ts
    else match FindFirst(ts, (t: Typer) => t.id == id)
      case Some(i) =>
        var r := ts[i := ts[i].(timestamp := now)];
        assert r[i].id == id;
        r
      case None =>
        var r := ts + [Typer(id, username, now)];
        assert r[|ts|].id == id;
        r
  }

  /** The timeout's clean-up. */
  function PruneTyping(ts: seq<Typer>, now: int): (r: seq<Typer>)
    ensures forall t :: t in r <==> t in ts && now - t.timestamp < TypingTimeout
  {
    Filter(ts, (t: Typer) => now - t.timestamp < TypingTimeout)
  }

  /** `typingUsernames`: the names of users heard from within the timeout. */
  function TypingUsernames(ts: seq<Typer>, now: int): (r: seq<string>)
    ensures forall name :: name in r <==> exists t :: t in ts && now - t.timestamp < TypingTimeout && t.username == name
  {
    var live := PruneTyping(ts, now);
    var names := seq(|live|, i requires 0 <= i < |live| => live[i].username);
    assert forall name :: name in names <==> exists t :: t in live && t.username == name by {
      forall name | exists t :: t in live && t.username == name ensures name in names {
        var t :| t in live && t.username == name;
        var k :| 0 <= k < |live| && live[k] == t;
        assert names[k] == name;
      }
    }
    names
  }

  /** Someone who has just typed is shown, under the name they were first
      listed with. */
  lemma JustTypedIsShown(ts: seq<Typer>, id: Id, username: string, me: Option<Id>, now: int)
    requires me != Some(id)
    ensures exists t :: t in OnTyping(ts, id, username, me, now) && t.id == id &&
                        t.username in TypingUsernames(OnTyping(ts, id, username, me, now), now)
  {
    var r := OnTyping(ts, id, username, me, now);
    var k :| 0 <= k < |r| && r[k].id == id && r[k].timestamp == now;
    assert r[k] in r;
  }
}
