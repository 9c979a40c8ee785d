/** FileController: uploads into a channel or a conversation (each with its
    message), listing with type and name filters, reading, and deletion. */
module FileController {
  import opened Common
  import opened Schema
  import opened UserModel
  import opened DirectConversationModel
  import opened Encryption
  import opened Events
  import opened Http
  import opened FileModel
  import opened FileService

  const DefaultCaption: string := "[Datei]"
  const DefaultPerPage: nat := 20

  /** `$messageContent ?: '[Datei]'`: an absent, empty or "0" caption becomes
      the placeholder. */
  function Caption(message: Option<string>): (c: string)
    ensures PhpEmpty(message) ==> c == DefaultCaption
    ensures !PhpEmpty(message) ==> c == message.value
    ensures !PhpFalsy(c)
  {
    if PhpEmpty(message) then DefaultCaption else message.value
  }

  /** `getContentType`. */
  function ContentTypeFor(mime: string): (t: ContentType)
    ensures t == Image <==> IsImageMime(mime)
    ensures t != Text
  {
    if IsImageMime(mime) then Image else FileContent
  }

  /** The message an upload posts: the encrypted caption, typed by the MIME
      type, without parent. */
  function UploadMessage(id: Id, owner: Messageable, sender: Id, stored: Stored, mime: string, now: int): (m: Message)
    ensures m.id == id && m.owner == owner && m.sender == sender && m.parent.None? && !m.deleted
    ensures m.content == stored.content && m.contentIv == Some(stored.contentIv)
    ensures m.contentType == ContentTypeFor(mime) && m.editedAt.None? && m.createdAt == now
  {
    Message(id, owner, sender, stored.content, Some(stored.contentIv), ContentTypeFor(mime), None, None, false, now)
  }

  /** The common tail of both uploads: validate, store the caption message
      and the file record, announce the caption. */
  function Post(s: State, c: Cipher, iv: string, user: Id, owner: Messageable, u: Upload, message: Option<string>,
                msgId: Id, fileId: Id, now: int): (o: Outcome)
    requires user in s.users && RowOf(s.messages, msgId).None? && fileId !in s.files
    ensures !UploadValid(u.mimeType, u.size) ==> o == Refuse(s, Unprocessable)
    ensures o.status == Created <==> UploadValid(u.mimeType, u.size) && EncryptForStorage(c, iv, Caption(message)).Some?
    ensures o.status != Created ==> o.state == s && o.events == []
    ensures o.status == Created ==>
              var m := UploadMessage(msgId, owner, user, EncryptForStorage(c, iv, Caption(message)).value, u.mimeType, now);
              o.state == s.(messages := s.messages + [m], files := s.files[fileId := UploadRecord(u, user, owner, Some(msgId))]) &&
              o.events == [ToOthers(NewMessage(m, s.users[user], Caption(message)))]
  {
    if !UploadValid(u.mimeType, u.size) then Refuse(s, Unprocessable)
    else
      var caption := Caption(message);
      match EncryptForStorage(c, iv, caption)
      case None => Refuse(s, ServerError)
      case Some(stored) =>
        var m := UploadMessage(msgId, owner, user, stored, u.mimeType, now);
        var f := UploadRecord(u, user, owner, Some(msgId));
        Outcome(s.(messages := s.messages + [m], files := s.files[fileId := f]), Created,
                [ToOthers(NewMessage(m, s.users[user], caption))])
  }

  /** `uploadToChannel`: channel members only. */
  function UploadToChannel(s: State, c: Cipher, iv: string, user: Id, channel: Id, u: Upload, message: Option<string>,
                           msgId: Id, fileId: Id, now: int): (o: Outcome)
    requires user in s.users && RowOf(s.messages, msgId).None? && fileId !in s.files
    ensures channel !in s.channels ==> o == Refuse(s, NotFound)
    ensures channel in s.channels && !IsMemberOfChannel(s, user, channel) ==> o == Refuse(s, Forbidden)
    ensures channel in s.channels && IsMemberOfChannel(s, user, channel) ==>
              o == Post(s, c, iv, user, Channel(channel), u, message, msgId, fileId, now)
  {
    if channel !in s.channels then Refuse(s, NotFound)
    else if !IsMemberOfChannel(s, user, channel) then Refuse(s, Forbidden)
    else Post(s, c, iv, user, Channel(channel), u, message, msgId, fileId, now)
  }

  /** `uploadToConversation`: 404 for a non-participant, 403 until accepted. */
  function UploadToConversation(s: State, c: Cipher, iv: string, user: Id, id: Id, u: Upload, message: Option<string>,
                                msgId: Id, fileId: Id, now: int): (o: Outcome)
    requires user in s.users && RowOf(s.messages, msgId).None? && fileId !in s.files
    ensures !(id in s.conversations && HasUser(s.conversations[id], user)) ==> o == Refuse(s, NotFound)
    ensures (id in s.conversations && HasUser(s.conversations[id], user) && !IsAccepted(s.conversations[id])) ==>
              o == Refuse(s, Forbidden)
    ensures (id in s.conversations && HasUser(s.conversations[id], user) && IsAccepted(s.conversations[id])) ==>
              o == Post(s, c, iv, user, Direct(id), u, message, msgId, fileId, now)
  {
    if id !in s.conversations || !HasUser(s.conversations[id], user) then Refuse(s, NotFound)
    else if !IsAccepted(s.conversations[id]) then Refuse(s, Forbidden)
    else Post(s, c, iv, user, Direct(id), u, message, msgId, fileId, now)
  }

  /** An upload's file can be read back by the uploader, points at the message
      it came with, and that message reads back as the caption. */
  lemma UploadIsReadable(s: State, c: Cipher, iv: string, user: Id, owner: Messageable, u: Upload,
                         message: Option<string>, msgId: Id, fileId: Id, now: int)
    requires user in s.users && RowOf(s.messages, msgId).None? && fileId !in s.files
    requires RoundTrips(c) && !PhpFalsy(iv)
    requires owner.Channel? ==> owner.id in s.channels && IsMemberOfChannel(s, user, owner.id)
    requires owner.Direct? ==> owner.id in s.conversations && HasUser(s.conversations[owner.id], user)
    requires Post(s, c, iv, user, owner, u, message, msgId, fileId, now).status == Created
    ensures var s' := Post(s, c, iv, user, owner, u, message, msgId, fileId, now).state;
            var m := s'.messages[|s'.messages| - 1];
            fileId in s'.files && CanAccess(s', user, s'.files[fileId]) && s'.files[fileId].message == Some(m.id) &&
            DecryptFromStorage(c, m.content, m.contentIv) == Some(Caption(message)) &&
            (m.contentType == Image <==> IsImage(s'.files[fileId]))
  {
    StorageRoundTrip(c, iv, Caption(message));
  }

  // ---------------------------------------------------------------------------
  // Listing
  // ---------------------------------------------------------------------------

  /** The document types of the channel listing. */
  const ChannelDocumentTypes: set<string> := {
    "application/pdf", "application/msword",
    "application/vnd.openxmlformats-officedocument.wordprocessingml.document",
    "application/vnd.ms-excel",
    "application/vnd.openxmlformats-officedocument.spreadsheetml.sheet",
    "text/plain", "text/csv"}

  /** The document types of the conversation listing: only the first three. */
  const ConversationDocumentTypes: set<string> := {
    "application/pdf", "application/msword",
    "application/vnd.openxmlformats-officedocument.wordprocessingml.document"}

  /** `'type' => ['nullable', 'in:image,document,media,all']`. */
  predicate TypeValid(t: Option<string>) {
    t.None? || t.value in {"image", "document", "media", "all"}
  }

  /** The type filter with a given set of document types; 'all' and no type
      filter nothing. */
  predicate TypeAdmits(t: Option<string>, documents: set<string>, mime: string) {
    if t.None? || t.value == "all" then true
    else if t.value == "image" then StartsWith(mime, "image/")
    else if t.value == "document" then mime in documents
    else if t.value == "media" then StartsWith(mime, "video/") || StartsWith(mime, "audio/")
    else true
  }

  /** A spreadsheet or a text file is a document in a channel but not in a
      conversation; the conversation's documents are a subset. */
  lemma DocumentFiltersDiffer(mime: string)
    ensures TypeAdmits(Some("document"), ConversationDocumentTypes, mime) ==>
              TypeAdmits(Some("document"), ChannelDocumentTypes, mime)
    ensures TypeAdmits(Some("document"), ChannelDocumentTypes, "text/plain")
    ensures !TypeAdmits(Some("document"), ConversationDocumentTypes, "text/plain")
  {
  }

  /** `'per_page' => ['nullable', 'integer', 'min:1', 'max:100']`, default 20. */
  predicate PerPageValid(perPage: Option<int>) {
    perPage.None? || 1 <= perPage.value <= 100
  }

  /** `'page' => ['nullable', 'integer', 'min:1']`; the paginator reads the
      same parameter, page 1 when absent. */
  predicate PageValid(page: Option<int>) {
    page.None? || page.value >= 1
  }

  /** The files a listing shows (before the page is cut), the page asked for
      and the page size. */
  datatype Listing = Listing(files: set<Id>, page: nat, perPage: nat)

  function PageOf(page: Option<int>): (n: nat)
    requires PageValid(page)
    ensures n >= 1
    ensures page.Some? ==> n == page.value
  {
    if page.Some? then page.value else 1
  }

  /** The file ids of one channel or conversation passing both filters. */
  function Select(s: State, owner: Messageable, t: Option<string>, documents: set<string>,
                  search: Option<string>): (ids: set<Id>)
    ensures forall id :: id in ids <==>
              id in s.files && s.files[id].owner == owner && TypeAdmits(t, documents, s.files[id].mimeType) &&
              (search.None? || Contains(s.files[id].originalName, search.value))
  {
    set id | id in s.files && s.files[id].owner == owner && TypeAdmits(t, documents, s.files[id].mimeType) &&
             (search.None? || Contains(s.files[id].originalName, search.value))
  }

  /** `channelFiles`: channel members only; type, name search (at most 100
      characters), page and page size. */
  function ChannelFiles(s: State, user: Id, channel: Id, t: Option<string>, search: Option<string>,
                        page: Option<int>, perPage: Option<int>): (r: Response<Listing>)
    ensures channel !in s.channels ==> r == Deny(NotFound)
    ensures channel in s.channels && !IsMemberOfChannel(s, user, channel) ==> r == Deny(Forbidden)
    ensures r.status == Ok <==>
              channel in s.channels && IsMemberOfChannel(s, user, channel) && TypeValid(t) &&
              (search.None? || |search.value| <= 100) && PageValid(page) && PerPageValid(perPage)
    ensures channel in s.channels && IsMemberOfChannel(s, user, channel) && !PageValid(page) ==>
              r == Deny(Unprocessable)
    ensures r.status == Ok ==>
              r.body.Some? &&
              r.body.value.files == Select(s, Channel(channel), t, ChannelDocumentTypes, search) &&
              r.body.value.page == (if page.Some? then page.value else 1) &&
              r.body.value.perPage == (if perPage.Some? then perPage.value else DefaultPerPage)
  {
    if channel !in s.channels then Deny(NotFound)
    else if !IsMemberOfChannel(s, user, channel) then Deny(Forbidden)
    else if !TypeValid(t) || (search.Some? && |search.value| > 100) || !PageValid(page) || !PerPageValid(perPage) then
      Deny(Unprocessable)
    else Answer(Listing(Select(s, Channel(channel), t, ChannelDocumentTypes, search), PageOf(page),
                        if perPage.Some? then perPage.value else DefaultPerPage))
  }

  /** `conversationFiles`: participants only, accepted or not; no name search. */
  function ConversationFiles(s: State, user: Id, id: Id, t: Option<string>, page: Option<int>,
                             perPage: Option<int>): (r: Response<Listing>)
    ensures !(id in s.conversations && HasUser(s.conversations[id], user)) ==> r == Deny(NotFound)
    ensures r.status == Ok <==>
              id in s.conversations && HasUser(s.conversations[id], user) && TypeValid(t) &&
              PageValid(page) && PerPageValid(perPage)
    ensures id in s.conversations && HasUser(s.conversations[id], user) && !PageValid(page) ==>
              r == Deny(Unprocessable)
    ensures r.status == Ok ==>
              r.body.Some? &&
              r.body.value.files == Select(s, Direct(id), t, ConversationDocumentTypes, None) &&
              r.body.value.page == (if page.Some? then page.value else 1) &&
              r.body.value.perPage == (if perPage.Some? then perPage.value else DefaultPerPage)
  {
    if id !in s.conversations || !HasUser(s.conversations[id], user) then Deny(NotFound)
    else if !TypeValid(t) || !PageValid(page) || !PerPageValid(perPage) then Deny(Unprocessable)
    else Answer(Listing(Select(s, Direct(id), t, ConversationDocumentTypes, None), PageOf(page),
                        if perPage.Some? then perPage.value else DefaultPerPage))
  }

  /** Every listed file is one the caller may open. */
  lemma ListedFilesAreAccessible(s: State, user: Id, channel: Id, t: Option<string>, search: Option<string>,
                                 page: Option<int>, perPage: Option<int>, conv: Id, fileId: Id)
    ensures ChannelFiles(s, user, channel, t, search, page, perPage).status == Ok &&
            fileId in ChannelFiles(s, user, channel, t, search, page, perPage).body.value.files ==>
              CanAccess(s, user, s.files[fileId])
    ensures ConversationFiles(s, user, conv, t, page, perPage).status == Ok &&
            fileId in ConversationFiles(s, user, conv, t, page, perPage).body.value.files ==>
              CanAccess(s, user, s.files[fileId])
  {
  }

  // ---------------------------------------------------------------------------
  // Reading and deleting
  // ---------------------------------------------------------------------------

  /** `show`: a file the caller may not access is 404, like a missing one. */
  function Show(s: State, user: Id, fileId: Id): (r: Response<FileRow>)
    ensures r.status == Ok <==> fileId in s.files && CanAccess(s, user, s.files[fileId])
    ensures r.status != Ok ==> r == Deny(NotFound)
    ensures r.status == Ok ==> r.body == Some(s.files[fileId])
  {
    if fileId !in s.files || !CanAccess(s, user, s.files[fileId]) then Deny(NotFound)
    else Answer(s.files[fileId])
  }

  /** `download`: as `show`, and 404 as well when the stored file is missing
      from the disk (a parameter here). */
  function Download(s: State, user: Id, fileId: Id, onDisk: bool): (r: Response<FileRow>)
    ensures r.status == Ok <==> fileId in s.files && CanAccess(s, user, s.files[fileId]) && onDisk
    ensures r.status != Ok ==> r == Deny(NotFound)
    ensures r.status == Ok ==> r.body == Some(s.files[fileId])
  {
    if fileId !in s.files || !CanAccess(s, user, s.files[fileId]) || !onDisk then Deny(NotFound)
    else Answer(s.files[fileId])
  }

  /** Deletion rights: the uploader, or an admin of the company whose channel
      holds the file. */
  predicate MayDeleteFile(s: State, user: Id, f: FileRow) {
    f.uploader == user ||
    (f.owner.TypeName() == "channel" && f.owner.id in s.channels &&
     IsAdminOf(s, user, s.channels[f.owner.id].company))
  }

  /** `destroy`: the row goes (the stored file and thumbnail are removed from
      the disk too). */
  function Destroy(s: State, user: Id, fileId: Id): (o: Outcome)
    ensures fileId !in s.files ==> o == Refuse(s, NotFound)
    ensures o.status == Ok <==> fileId in s.files && MayDeleteFile(s, user, s.files[fileId])
    ensures fileId in s.files && !MayDeleteFile(s, user, s.files[fileId]) ==> o == Refuse(s, Forbidden)
    ensures o.status == Ok ==> o.state == s.(files := s.files - {fileId})
  {
    if fileId !in s.files then Refuse(s, NotFound)
    else if !MayDeleteFile(s, user, s.files[fileId]) then Refuse(s, Forbidden)
    else Outcome(s.(files := s.files - {fileId}), Ok, [])
  }

  /** Files of a conversation can be deleted by their uploader only; a channel
      admin can delete any file of the company's channels. */
  lemma FileDeletionRights(s: State, user: Id, fileId: Id)
    requires fileId in s.files
    ensures s.files[fileId].owner.Direct? ==>
              (Destroy(s, user, fileId).status == Ok <==> s.files[fileId].uploader == user)
    ensures (s.files[fileId].owner.Channel? && s.files[fileId].owner.id in s.channels &&
             IsAdminOf(s, user, s.channels[s.files[fileId].owner.id].company)) ==>
              Destroy(s, user, fileId).status == Ok
  {
  }
}
