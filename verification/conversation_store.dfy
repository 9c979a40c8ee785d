/** The direct-message store: the conversation list with its two views,
    starting, accepting and rejecting conversations, selecting one, and the
    live message stream. */
module ConversationStore {
  import opened Common
  import opened MessageList

  datatype LastMessage = LastMessage(content: string, createdAt: string, isMine: bool)

  /** A conversation as the list holds it (`unread_count`, the other user and
      `updated_at` are carried but never changed here, so they are left out). */
  datatype Conv = Conv(id: Id, isAccepted: bool, isPendingMine: bool, lastMessage: Option<LastMessage>)

  datatype Dms = Dms(
    conversations: seq<Conv>,
    current: Option<Conv>,
    messages: seq<Msg>,
    hasMore: bool,
    loading: bool)

  predicate IdsDistinct(cs: seq<Conv>) {
    forall i, j :: 0 <= i < j < |cs| ==> cs[i].id != cs[j].id
  }

  function WithId(id: Id): Conv -> bool {
    (c: Conv) => c.id == id
  }

  /** `acceptedConversations`. */
  function Accepted(cs: seq<Conv>): (r: seq<Conv>)
    ensures forall c :: c in r <==> c in cs && c.isAccepted
  {
    Filter(cs, (c: Conv) => c.isAccepted)
  }

  /** `pendingConversations`. */
  function Pending(cs: seq<Conv>): (r: seq<Conv>)
    ensures forall c :: c in r <==> c in cs && c.isPendingMine
  {
    Filter(cs, (c: Conv) => c.isPendingMine)
  }

  /** `startConversation`: the conversation the server returned goes to the
      front unless one with its id is already listed. */
  function Start(cs: seq<Conv>, c: Conv): (r: seq<Conv>)
    ensures (exists i :: 0 <= i < |cs| && cs[i].id == c.id) ==> r == cs
    ensures (forall i :: 0 <= i < |cs| ==> cs[i].id != c.id) ==> r == [c] + cs
  {
    if FindFirst(cs, WithId(c.id)).Some? then cs else [c] + cs
  }

  /** Starting never duplicates an id, and the conversation is listed after. */
  lemma StartKeepsIdsDistinct(cs: seq<Conv>, c: Conv)
    requires IdsDistinct(cs)
    ensures IdsDistinct(Start(cs, c))
    ensures exists i :: 0 <= i < |Start(cs, c)| && Start(cs, c)[i].id == c.id
  {
    var r := Start(cs, c);
    if forall i :: 0 <= i < |cs| ==> cs[i].id != c.id {
      assert r == [c] + cs;
      assert r[0].id == c.id;
      forall i, j | 0 <= i < j < |r| ensures r[i].id != r[j].id {
        if i > 0 {
          assert r[i] == cs[i - 1] && r[j] == cs[j - 1];
        } else {
          assert r[j] == cs[j - 1];
        }
      }
    }
  }

  /** `acceptConversation` after the server answered: the first conversation
      with the id is accepted and no longer pending; the others are untouched. */
  function Accept(cs: seq<Conv>, id: Id): (r: seq<Conv>)
    ensures |r| == |cs|
    ensures forall i :: 0 <= i < |cs| ==> r[i].id == cs[i].id
    ensures FindFirst(cs, WithId(id)).None? ==> r == cs
    ensures FindFirst(cs, WithId(id)).Some? ==>
              var i := FindFirst(cs, WithId(id)).value;
              r[i] == cs[i].(isAccepted := true, isPendingMine := false) &&
              forall j :: 0 <= j < |cs| && j != i ==> r[j] == cs[j]
  {
    UpdateFirst(cs, WithId(id), (c: Conv) => c.(isAccepted := true, isPendingMine := false))
  }

  /** An accepted conversation moves from the pending view to the accepted one. */
  lemma AcceptMovesBetweenViews(cs: seq<Conv>, id: Id)
    requires FindFirst(cs, WithId(id)).Some?
    ensures var c := Accept(cs, id)[FindFirst(cs, WithId(id)).value];
            c.id == id && c in Accepted(Accept(cs, id)) && c !in Pending(Accept(cs, id))
  {
    var i := FindFirst(cs, WithId(id)).value;
    assert Accept(cs, id)[i] in Accept(cs, id);
  }

  /** `onConversationAccepted` (the other side accepted): only the accepted
      flag is set; the pending flag is left as it was. */
  function OnAccepted(cs: seq<Conv>, id: Id): (r: seq<Conv>)
    ensures |r| == |cs|
    ensures FindFirst(cs, WithId(id)).None? ==> r == cs
    ensures FindFirst(cs, WithId(id)).Some? ==>
              var i := FindFirst(cs, WithId(id)).value;
              r[i] == cs[i].(isAccepted := true) && forall j :: 0 <= j < |cs| && j != i ==> r[j] == cs[j]
  {
    UpdateFirst(cs, WithId(id), (c: Conv) => c.(isAccepted := true))
  }

  /** `rejectConversation` after the server answered: the conversation leaves
      the list, and stops being the current one if it was. */
  function Reject(st: Dms, id: Id): (r: Dms)
    ensures forall c :: c in r.conversations <==> c in st.conversations && c.id != id
    ensures st.current.Some? && st.current.value.id == id ==> r.current.None?
    ensures !(st.current.Some? && st.current.value.id == id) ==> r.current == st.current
    ensures r.messages == st.messages && r.hasMore == st.hasMore && r.loading == st.loading
  {
    var cs := Filter(st.conversations, (c: Conv) => c.id != id);
    if st.current.Some? && st.current.value.id == id then st.(conversations := cs, current := None)
    else st.(conversations := cs)
  }

  /** What selecting a conversation did besides the state: the subscription
      left and the one opened. */
  datatype Selected = Selected(state: Dms, left: Option<Id>, subscribed: Option<Id>)

  /** `selectConversation` with the page the server would return: messages
      are cleared; only an accepted conversation is loaded (unless a load is
      running) and subscribed to. */
  function Select(st: Dms, c: Conv, page: seq<Msg>, more: bool): (r: Selected)
    ensures r.state.current == Some(c) && r.state.conversations == st.conversations
    ensures r.left == (if st.current.Some? then Some(st.current.value.id) else None)
    ensures r.subscribed.Some? <==> c.isAccepted
    ensures r.subscribed.Some? ==> r.subscribed.value == c.id
    ensures !c.isAccepted || st.loading ==> r.state.messages == [] && r.state.hasMore == st.hasMore
    ensures c.isAccepted && !st.loading ==> r.state.messages == page && r.state.hasMore == more
  {
    var left := if st.current.Some? then Some(st.current.value.id) else None;
    var cleared := st.(current := Some(c), messages := []);
    if !c.isAccepted then Selected(cleared, left, None)
    else match LoadMessages([], st.loading, false, page, more)
      case Skipped => Selected(cleared, left, Some(c.id))
      case Requested(_, ms, hm) => Selected(cleared.(messages := ms, hasMore := hm), left, Some(c.id))
  }

  /** A pending conversation shows no messages when selected, whatever the
      server holds. */
  lemma PendingSelectionShowsNothing(st: Dms, c: Conv, page: seq<Msg>, more: bool)
    requires !c.isAccepted
    ensures Select(st, c, page, more).state.messages == []
    ensures Select(st, c, page, more).subscribed.None?
  {
  }

  /** `onMessage` in the open conversation: others' messages are appended,
      and the conversation's last message is updated in every case. */
  function OnMessage(st: Dms, convId: Id, m: Msg, me: Option<Id>): (r: Dms)
    ensures r == st.(messages := r.messages, conversations := r.conversations)
    ensures r.messages == MessageList.OnMessage(st.messages, m, me)
    ensures |r.conversations| == |st.conversations|
    ensures FindFirst(st.conversations, WithId(convId)).None? ==> r.conversations == st.conversations
    ensures FindFirst(st.conversations, WithId(convId)).Some? ==>
              var i := FindFirst(st.conversations, WithId(convId)).value;
              r.conversations[i] ==
                st.conversations[i].(lastMessage := Some(LastMessage(m.content, m.createdAt, me == Some(m.senderId)))) &&
              forall j :: 0 <= j < |st.conversations| && j != i ==> r.conversations[j] == st.conversations[j]
  {
    var last := LastMessage(m.content, m.createdAt, me == Some(m.senderId));
    st.(messages := MessageList.OnMessage(st.messages, m, me),
        conversations := UpdateFirst(st.conversations, WithId(convId), (c: Conv) => c.(lastMessage := Some(last))))
  }

  /** One's own message is not appended again, but is the last message and is
      marked as one's own. */
  lemma OwnMessageOnlyUpdatesPreview(st: Dms, convId: Id, m: Msg, me: Id)
    requires m.senderId == me
    requires FindFirst(st.conversations, WithId(convId)).Some?
    ensures OnMessage(st, convId, m, Some(me)).messages == st.messages
    ensures var i := FindFirst(st.conversations, WithId(convId)).value;
            OnMessage(st, convId, m, Some(me)).conversations[i].lastMessage.value.isMine
  {
  }
}
