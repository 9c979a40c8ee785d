/** The steps the channel and the direct-message endpoints share when a message
    is written: validating the body, checking a reply's parent, and storing the
    encrypted row. */
module Messaging {
  import opened Common
  import opened Schema
  import opened Encryption

  const MaxContentLength: nat := 10000

  /** `'content' => ['required', 'string', 'max:10000']`; an absent field is
      the empty string here. */
  predicate ContentValid(content: string) {
    content != "" && |content| <= MaxContentLength
  }

  /** How the parent of a reply is judged. */
  datatype ParentVerdict =
    | NoParent        // no `parent_id`
    | SameOwner       // the parent is a live message of this channel or conversation
    | Unknown         // `exists:messages,id` fails: 422
    | Trashed         // the row exists but `Message::find` hides it: reading a property of null, 500
    | ElsewhereOwned  // the parent belongs to another channel or conversation: 422

  /** The parent of a reply must be a message of the same channel or
      conversation. The validation rule sees soft-deleted rows; the lookup that
      follows does not. */
  function JudgeParent(ms: seq<Message>, parent: Option<Id>, owner: Messageable): (v: ParentVerdict)
    ensures parent.None? <==> v.NoParent?
    ensures v.SameOwner? <==> parent.Some? && Find(ms, parent.value).Some? && Find(ms, parent.value).value.owner == owner
    ensures v.Unknown? <==> parent.Some? && RowOf(ms, parent.value).None?
    ensures v.Trashed? <==> parent.Some? && RowOf(ms, parent.value).Some? && Find(ms, parent.value).None?
  {
    match parent
    case None => NoParent
    case Some(p) =>
      if RowOf(ms, p).None? then Unknown
      else
        match Find(ms, p)
        case None => Trashed
        case Some(pm) =>
          if pm.owner.TypeName() != owner.TypeName() || pm.owner.id != owner.id then ElsewhereOwned
          else SameOwner
  }

  /** The stored row: content and IV from `encryptForStorage`, type 'text', no
      edit, not deleted. */
  function NewTextMessage(id: Id, owner: Messageable, sender: Id, stored: Stored, parent: Option<Id>, now: int): (m: Message)
    ensures m.id == id && m.owner == owner && m.sender == sender && m.parent == parent
    ensures m.content == stored.content && m.contentIv == Some(stored.contentIv)
    ensures m.contentType == Text && m.editedAt.None? && !m.deleted && m.createdAt == now
  {
    Message(id, owner, sender, stored.content, Some(stored.contentIv), Text, parent, None, false, now)
  }

  /** A stored message reads back as what was sent, given a correct cipher and a
      real IV. */
  lemma NewMessageReadsBack(c: Cipher, iv: string, content: string, id: Id, owner: Messageable,
                            sender: Id, parent: Option<Id>, now: int)
    requires RoundTrips(c) && !PhpFalsy(iv)
    requires EncryptForStorage(c, iv, content).Some?
    ensures var m := NewTextMessage(id, owner, sender, EncryptForStorage(c, iv, content).value, parent, now);
            DecryptFromStorage(c, m.content, m.contentIv) == Some(content)
  {
    StorageRoundTrip(c, iv, content);
  }

  /** Appending a row with an unused id keeps message ids a key. */
  lemma AppendKeepsUniqueIds(ms: seq<Message>, m: Message)
    requires UniqueIds(ms)
    requires RowOf(ms, m.id).None?
    ensures UniqueIds(ms + [m])
  {
    var r := ms + [m];
    forall i, j | 0 <= i < |r| && 0 <= j < |r| && r[i].id == r[j].id
      ensures i == j
    {
      if i < |ms| {
        assert r[i] in ms;
      }
      if j < |ms| {
        assert r[j] in ms;
      }
    }
  }
}
