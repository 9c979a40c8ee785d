/** The message list both chat stores keep: appending what others send,
    applying edits and deletions, and loading history pages. */
module MessageList {
  import opened Common

  /** A reaction group as the client holds it. */
  datatype Group = Group(emoji: string, count: int, userIds: seq<Id>)

  /** A loaded message: the fields the stores read or change. */
  datatype Msg = Msg(id: Id, senderId: Id, content: string, createdAt: string, editedAt: Option<string>,
                     reactions: seq<Group>)

  /** `onMessage`: a message from someone else is appended; one's own is
      already in the list from the send call. */
  function OnMessage(ms: seq<Msg>, m: Msg, me: Option<Id>): (r: seq<Msg>)
    ensures me == Some(m.senderId) ==> r == ms
    ensures me != Some(m.senderId) ==> |r| == |ms| + 1 && r[..|ms|] == ms && r[|ms|] == m
  {
    if me == Some(m.senderId) then ms else ms + [m]
  }

  /** `onMessageEdited`: the first message with the id takes the new content
      and edit time; every other message is untouched. */
  function OnEdited(ms: seq<Msg>, id: Id, content: string, editedAt: string): (r: seq<Msg>)
    ensures |r| == |ms|
    ensures forall i :: 0 <= i < |ms| ==> r[i].id == ms[i].id && r[i].senderId == ms[i].senderId
    ensures (forall i :: 0 <= i < |ms| ==> ms[i].id != id) ==> r == ms
    ensures forall i :: 0 <= i < |ms| && ms[i].id == id && (forall j :: 0 <= j < i ==> ms[j].id != id) ==>
              r[i] == ms[i].(content := content, editedAt := Some(editedAt)) &&
              forall j :: 0 <= j < |ms| && j != i ==> r[j] == ms[j]
  {
    UpdateFirst(ms, (m: Msg) => m.id == id, (m: Msg) => m.(content := content, editedAt := Some(editedAt)))
  }

  /** `deleteMessage` and `onMessageDeleted`: every message with the id goes,
      and nothing else. */
  function Remove(ms: seq<Msg>, id: Id): (r: seq<Msg>)
    ensures forall m :: m in r <==> m in ms && m.id != id
    ensures forall i :: 0 <= i < |r| ==> r[i].id != id
  {
    Filter(ms, (m: Msg) => m.id != id)
  }

  /** Removing is idempotent and leaves a list without the id as it is. */
  lemma {:induction false} RemoveAbsentIsIdentity(ms: seq<Msg>, id: Id)
    requires forall i :: 0 <= i < |ms| ==> ms[i].id != id
    ensures Remove(ms, id) == ms
    decreases |ms|
  {
    if |ms| > 0 {
      RemoveAbsentIsIdentity(ms[1..], id);
      assert [ms[0]] + ms[1..] == ms;
    }
  }

  /** What `loadMessages` does: nothing while a load is running; otherwise one
      request (with a `before` cursor when loading more) and the page
      replacing, or prepended to, the list. */
  datatype Load =
    | Skipped
    | Requested(before: Option<Id>, messages: seq<Msg>, hasMore: bool)

  function LoadMessages(ms: seq<Msg>, loading: bool, loadMore: bool, page: seq<Msg>, hasMore: bool): (r: Load)
    ensures r.Skipped? <==> loading
    ensures r.Requested? ==> (r.before.Some? <==> loadMore && |ms| > 0) && r.hasMore == hasMore
    ensures r.Requested? && r.before.Some? ==> r.before.value == ms[0].id
    ensures r.Requested? && !loadMore ==> r.messages == page
    ensures r.Requested? && loadMore ==> |r.messages| == |page| + |ms| && r.messages[..|page|] == page && r.messages[|page|..] == ms
  {
    if loading then Skipped
    else
      var before := if loadMore && |ms| > 0 then Some(ms[0].id) else None;
      Requested(before, if loadMore then page + ms else page, hasMore)
  }

  /** After loading more, the message used as the cursor sits right after the
      new page: the page is the history before it. */
  lemma CursorFollowsPage(ms: seq<Msg>, page: seq<Msg>, hasMore: bool)
    requires LoadMessages(ms, false, true, page, hasMore).before.Some?
    ensures var r := LoadMessages(ms, false, true, page, hasMore);
            |r.messages| > |page| && r.messages[|page|].id == r.before.value
  {
    var r := LoadMessages(ms, false, true, page, hasMore);
    assert r.messages[|page|..][0] == ms[0];
  }
}
