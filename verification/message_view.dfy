/** The message view both history endpoints answer (`formatMessage` of
    MessageController and of DirectConversationController): the stored body
    decrypted, and the reactions grouped by emoji. The sender's profile fields
    are reduced to the sender's id and timestamps are seconds. */
module MessageFormat {
  import opened Common
  import opened Schema
  import opened Encryption
  import opened Pagination
  import opened ReactionController

  datatype MessageView = MessageView(
    id: Id,
    content: string,
    contentType: ContentType,
    sender: Id,
    reactions: map<string, ReactionSummary>,
    parent: Option<Id>,
    editedAt: Option<int>,
    createdAt: int)

  /** A page as the history endpoints answer it: `messages` and `has_more`. */
  datatype HistoryView = HistoryView(messages: seq<MessageView>, hasMore: bool)

  /** `formatMessage`: `decryptFromStorage` of the row, which raises when the
      cipher fails (None), and `aggregateReactions` of the row. */
  function FormatMessage(reactions: map<ReactionKey, Id>, c: Cipher, m: Message): (r: Option<MessageView>)
    ensures r.None? <==> DecryptFromStorage(c, m.content, m.contentIv).None?
    ensures r.Some? ==> r.value.id == m.id && r.value.sender == m.sender && r.value.parent == m.parent
    ensures r.Some? ==> Some(r.value.content) == DecryptFromStorage(c, m.content, m.contentIv)
    ensures r.Some? ==> r.value.reactions.Keys == EmojisOn(reactions, m.id)
  {
    match DecryptFromStorage(c, m.content, m.contentIv)
    case None => None
    case Some(text) =>
      Some(MessageView(m.id, text, m.contentType, m.sender, Summaries(reactions, m.id), m.parent, m.editedAt, m.createdAt))
  }

  /** `$messages->map(formatMessage)`: the rows are formatted one by one and a
      single row that fails to decrypt fails the whole response. */
  function FormatPage(reactions: map<ReactionKey, Id>, c: Cipher, ms: seq<Message>): (r: Option<seq<MessageView>>)
    ensures r.Some? <==> forall i :: 0 <= i < |ms| ==> FormatMessage(reactions, c, ms[i]).Some?
    ensures r.Some? ==> |r.value| == |ms|
    ensures r.Some? ==> forall i :: 0 <= i < |ms| ==> FormatMessage(reactions, c, ms[i]) == Some(r.value[i])
    decreases |ms|
  {
    if |ms| == 0 then Some([])
    else
      match FormatMessage(reactions, c, ms[0])
      case None => None
      case Some(v) =>
        match FormatPage(reactions, c, ms[1..])
        case None => None
        case Some(vs) => Some([v] + vs)
  }

  /** The response of a history endpoint for a page. */
  function FormatHistory(reactions: map<ReactionKey, Id>, c: Cipher, p: Page): (r: Option<HistoryView>)
    ensures r.Some? <==> FormatPage(reactions, c, p.messages).Some?
    ensures r.Some? ==> r.value.hasMore == p.hasMore && Some(r.value.messages) == FormatPage(reactions, c, p.messages)
  {
    match FormatPage(reactions, c, p.messages)
    case None => None
    case Some(vs) => Some(HistoryView(vs, p.hasMore))
  }

  /** Every stored row decrypts under the cipher. */
  predicate Readable(c: Cipher, ms: seq<Message>) {
    forall m :: m in ms ==> DecryptFromStorage(c, m.content, m.contentIv).Some?
  }

  /** A page drawn from readable rows is formatted, and each view carries the
      plaintext of its row, in the page's order. */
  lemma ReadablePageFormats(reactions: map<ReactionKey, Id>, c: Cipher, ms: seq<Message>, page: seq<Message>)
    requires Readable(c, ms)
    requires forall m :: m in page ==> m in ms
    ensures FormatPage(reactions, c, page).Some?
    ensures forall i :: 0 <= i < |page| ==>
              FormatPage(reactions, c, page).value[i].id == page[i].id &&
              Some(FormatPage(reactions, c, page).value[i].content) == DecryptFromStorage(c, page[i].content, page[i].contentIv)
  {
    assert forall i :: 0 <= i < |page| ==> page[i] in ms;
  }

  /** Appending a row that decrypts keeps the rows readable. */
  lemma AppendKeepsReadable(c: Cipher, ms: seq<Message>, m: Message)
    requires Readable(c, ms)
    requires DecryptFromStorage(c, m.content, m.contentIv).Some?
    ensures Readable(c, ms + [m])
  {
  }
}
