/** The database of the chat backend as one immutable value: one field per table
    of the core, with the rows the controllers read and write. */
module Schema {
  import opened Common

  /** Company membership role: the pivot column `role`, 'admin' or 'user'. */
  datatype Role = Admin | Member {
    function Name(): string {
      if Admin? then "admin" else "user"
    }
  }

  /** The morph map admits exactly two owners of a message or a file:
      'channel' and 'direct' (a direct conversation). */
  datatype Messageable = Channel(id: Id) | Direct(id: Id) {
    function TypeName(): string {
      if Channel? then "channel" else "direct"
    }
  }

  datatype User = User(
    username: string,
    avatarPath: Option<string>,
    status: string,
    statusText: Option<string>)

  /** `join_password` is a hash; checking it is the opaque predicate `checkJoinPassword`. */
  datatype CompanyRow = CompanyRow(
    name: string,
    slug: Option<string>,
    joinPassword: string,
    owner: Id)

  datatype ChannelRow = ChannelRow(
    company: Id,
    name: string,
    description: Option<string>,
    isPrivate: bool,
    createdBy: Id)

  /** A direct conversation: the pair and one acceptance flag per slot. */
  datatype Conversation = Conversation(
    userOne: Id,
    userTwo: Id,
    userOneAccepted: bool,
    userTwoAccepted: bool)

  /** `content_type`: the column's enum 'text', 'file', 'image', 'emoji'. No
      endpoint of the model writes 'emoji'; rows may still carry it. */
  datatype ContentType = Text | FileContent | Image | Emoji {
    function Name(): string {
      match this
      case Text => "text"
      case FileContent => "file"
      case Image => "image"
      case Emoji => "emoji"
    }
  }

  /** A row of `messages`. `content` is the stored (encrypted) body; `deleted`
      is the soft-delete marker `deleted_at IS NOT NULL`. Times are seconds. */
  datatype Message = Message(
    id: Id,
    owner: Messageable,
    sender: Id,
    content: string,
    contentIv: Option<string>,
    contentType: ContentType,
    parent: Option<Id>,
    editedAt: Option<int>,
    deleted: bool,
    createdAt: int)

  /** The unique key of `message_reactions`. */
  datatype ReactionKey = ReactionKey(message: Id, user: Id, emoji: string)

  datatype JoinStatus = Pending | Approved | Rejected

  datatype JoinRequest = JoinRequest(
    channel: Id,
    user: Id,
    status: JoinStatus,
    message: Option<string>,
    reviewedBy: Option<Id>,
    reviewedAt: Option<int>)

  /** A row of `files`. */
  datatype FileRow = FileRow(
    message: Option<Id>,
    uploader: Id,
    owner: Messageable,
    originalName: string,
    storedName: string,
    mimeType: string,
    fileSize: nat,
    filePath: string,
    thumbnailPath: Option<string>,
    isCompressed: bool,
    originalSize: Option<nat>)

  /** The whole database. Memberships are keyed (company, user) and
      (channel, user); reactions are the set of their unique keys, each with its
      row id. `messages` is in insertion order, which is id order. */
  datatype State = State(
    users: map<Id, User>,
    companies: map<Id, CompanyRow>,
    companyMembers: map<(Id, Id), Role>,
    channels: map<Id, ChannelRow>,
    channelMembers: set<(Id, Id)>,
    joinRequests: map<Id, JoinRequest>,
    conversations: map<Id, Conversation>,
    messages: seq<Message>,
    reactions: map<ReactionKey, Id>,
    files: map<Id, FileRow>)

  // ---------------------------------------------------------------------------
  // Looking up messages
  // ---------------------------------------------------------------------------

  /** The row with this id, soft-deleted or not (`withTrashed()->find`), and the
      table the validation rule `exists:messages,id` consults. */
  function RowOf(ms: seq<Message>, id: Id): (r: Option<Message>)
    ensures r.Some? ==> r.value in ms && r.value.id == id
    ensures r.None? ==> forall m :: m in ms ==> m.id != id
  {
    if |ms| == 0 then None
    else if ms[0].id == id then Some(ms[0])
    else RowOf(ms[1..], id)
  }

  /** `Message::find($id)`: the soft-delete scope hides deleted rows. */
  function Find(ms: seq<Message>, id: Id): (r: Option<Message>)
    ensures r.Some? ==> r.value in ms && r.value.id == id && !r.value.deleted
    ensures r.Some? <==> RowOf(ms, id).Some? && !RowOf(ms, id).value.deleted
  {
    match RowOf(ms, id)
    case Some(m) => if m.deleted then None else Some(m)
    case None => None
  }

  /** Message ids are a key of the table. */
  predicate UniqueIds(ms: seq<Message>) {
    forall i, j :: 0 <= i < |ms| && 0 <= j < |ms| && ms[i].id == ms[j].id ==> i == j
  }

  /** Replace the row with this id, keeping position and every other row. */
  function UpdateRow(ms: seq<Message>, id: Id, m: Message): (r: seq<Message>)
    ensures |r| == |ms|
    ensures forall i :: 0 <= i < |ms| ==> r[i] == if ms[i].id == id then m else ms[i]
  {
    seq(|ms|, i requires 0 <= i < |ms| => if ms[i].id == id then m else ms[i])
  }

  // ---------------------------------------------------------------------------
  // Direct conversations: canonical order and the unique pair index
  // ---------------------------------------------------------------------------

  /** Every stored pair has `user_one_id < user_two_id`. */
  predicate CanonicalPairs(convs: map<Id, Conversation>) {
    forall id :: id in convs ==> convs[id].userOne < convs[id].userTwo
  }

  /** The unique index on (user_one_id, user_two_id). */
  predicate UniquePairs(convs: map<Id, Conversation>) {
    forall i, j ::
      (i in convs && j in convs && convs[i].userOne == convs[j].userOne && convs[i].userTwo == convs[j].userTwo)
      ==> i == j
  }

  predicate ValidConversations(convs: map<Id, Conversation>) {
    CanonicalPairs(convs) && UniquePairs(convs)
  }
}
