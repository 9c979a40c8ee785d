/** FileService: where uploads are stored, who may read a file, the size
    limits and validation rules, and the record an upload produces. */
module FileService {
  import opened Common
  import opened Schema
  import opened UserModel
  import opened DirectConversationModel
  import opened FileModel

  const MaxImageSize: nat := 10 * 1024 * 1024
  const MaxFileSize: nat := 50 * 1024 * 1024
  /** The validation rule `max:51200`, in kilobytes. */
  const MaxUploadKilobytes: nat := 51200

  /** `getBasePath`: by the type string, with a shared fallback directory. */
  function BasePath(fileableType: string, id: Id): (p: string)
    ensures fileableType == "channel" ==> p == "files/channels/" + NatToString(id)
    ensures fileableType == "direct" ==> p == "files/conversations/" + NatToString(id)
    ensures fileableType != "channel" && fileableType != "direct" ==> p == "files/misc"
  {
    if fileableType == "channel" then "files/channels/" + NatToString(id)
    else if fileableType == "direct" then "files/conversations/" + NatToString(id)
    else "files/misc"
  }

  /** Two different channels or conversations never share a directory, and a
      channel never shares one with a conversation. */
  lemma BasePathsSeparate(a: Messageable, b: Messageable)
    requires a != b
    ensures BasePath(a.TypeName(), a.id) != BasePath(b.TypeName(), b.id)
  {
    var pa := BasePath(a.TypeName(), a.id);
    var pb := BasePath(b.TypeName(), b.id);
    if a.TypeName() == b.TypeName() {
      var prefix := if a.Channel? then "files/channels/" else "files/conversations/";
      if pa == pb {
        assert pa[|prefix|..] == NatToString(a.id);
        assert pb[|prefix|..] == NatToString(b.id);
        NatToStringInjective(a.id, b.id);
      }
    } else {
      assert pa[7] != pb[7];
    }
  }

  /** `canAccess`: a channel file needs channel membership; a conversation
      file needs only to be a participant, accepted or not. */
  predicate CanAccess(s: State, user: Id, f: FileRow) {
    match f.owner
    case Channel(id) => id in s.channels && IsMemberOfChannel(s, user, id)
    case Direct(id) => id in s.conversations && HasUser(s.conversations[id], user)
  }

  /** Unlike messages, files of a pending conversation are readable by both
      participants. */
  lemma PendingConversationFilesReadable(s: State, user: Id, f: FileRow)
    requires f.owner.Direct? && f.owner.id in s.conversations
    requires HasUser(s.conversations[f.owner.id], user) && !IsAccepted(s.conversations[f.owner.id])
    ensures CanAccess(s, user, f)
  {
  }

  /** `getMaxFileSize`. */
  function MaxFileSizeFor(mime: string): (n: nat)
    ensures IsImageMime(mime) ==> n == MaxImageSize
    ensures !IsImageMime(mime) ==> n == MaxFileSize
    ensures n <= MaxFileSize
  {
    if IsImageMime(mime) then MaxImageSize else MaxFileSize
  }

  /** `getAllowedMimeTypes`. */
  const AllowedMimeTypes: seq<string> := [
    "image/jpeg", "image/png", "image/gif", "image/webp", "image/svg+xml",
    "application/pdf", "application/msword",
    "application/vnd.openxmlformats-officedocument.wordprocessingml.document",
    "application/vnd.ms-excel",
    "application/vnd.openxmlformats-officedocument.spreadsheetml.sheet",
    "application/vnd.ms-powerpoint",
    "application/vnd.openxmlformats-officedocument.presentationml.presentation",
    "text/plain", "text/csv", "text/html", "text/css", "text/javascript",
    "application/json", "application/xml",
    "application/zip", "application/x-rar-compressed", "application/x-7z-compressed", "application/gzip",
    "audio/mpeg", "audio/wav", "audio/ogg", "video/mp4", "video/webm", "video/quicktime"]

  /** `getValidationRules`: an allow-listed MIME type and at most 51200 KB
      (Laravel compares `size / 1024` with the limit). The per-type limit of
      `getMaxFileSize` is not part of the rules. */
  predicate UploadValid(mime: string, size: nat) {
    mime in AllowedMimeTypes && size <= MaxUploadKilobytes * 1024
  }

  /** The rules admit an image larger than the image limit: the only size cap
      they enforce is the general one. */
  lemma RulesIgnoreImageLimit()
    ensures UploadValid("image/png", MaxImageSize + 1)
    ensures MaxImageSize + 1 > MaxFileSizeFor("image/png")
    ensures forall mime: string, size: nat :: UploadValid(mime, size) ==> size <= MaxFileSize
  {
    assert AllowedMimeTypes[1] == "image/png";
    assert StartsWith("image/png", ImagePrefix) by {
      assert "image/png"[..6] == ImagePrefix;
    }
  }

  /** A file the rules admit is at most 50 MB, so its human-readable size
      stops at 'MB' at the latest and never runs past the last unit. */
  lemma UploadedSizesHaveAUnit(mime: string, size: nat, i: nat)
    requires UploadValid(mime, size)
    requires StopsAt(size, i)
    ensures i <= 2 && UnitName(i).Some?
  {
    if i >= 3 {
      assert Pow1024(3) == 1024 * 1024 * 1024;
      Pow1024Monotone(3, i);
    }
  }

  /** `createThumbnail`'s path for a stored name. */
  function ThumbnailPath(basePath: string, storedName: string): (p: string)
    ensures p == basePath + "/thumbnails/" + "thumb_" + storedName
  {
    basePath + "/thumbnails/thumb_" + storedName
  }

  /** What the compression service reports (`compressUploadedFile`). */
  datatype Compression = Compression(path: string, success: bool, compressedSize: nat)

  /** An upload as the service sees it. The stored name (a UUID plus the
      extension), the compression service's verdict and result, and whether
      the thumbnail could be written are decided outside the model. */
  datatype Upload = Upload(
    originalName: string,
    mimeType: string,
    size: nat,
    storedName: string,
    compressible: bool,
    compression: Compression,
    thumbnailWritten: bool)

  /** `upload`: the record it creates. Compressible images go through the
      compression service; everything else is stored as is; every image gets
      a thumbnail attempt. */
  function UploadRecord(u: Upload, uploader: Id, owner: Messageable, message: Option<Id>): (f: FileRow)
    ensures f.uploader == uploader && f.owner == owner && f.message == message
    ensures f.originalName == u.originalName && f.storedName == u.storedName && f.mimeType == u.mimeType
    ensures f.originalSize.Some? <==> f.isCompressed
    ensures f.originalSize.Some? ==> f.originalSize.value == u.size
    ensures !IsImageMime(u.mimeType) ==> f.thumbnailPath.None? && !f.isCompressed && f.fileSize == u.size
    ensures f.thumbnailPath.Some? ==>
              IsImageMime(u.mimeType) && f.thumbnailPath.value == ThumbnailPath(BasePath(owner.TypeName(), owner.id), u.storedName)
    ensures IsImageMime(u.mimeType) ==> (f.thumbnailPath.Some? <==> u.thumbnailWritten)
  {
    var base := BasePath(owner.TypeName(), owner.id);
    var image := IsImageMime(u.mimeType);
    var thumbnail := if image && u.thumbnailWritten then Some(ThumbnailPath(base, u.storedName)) else None;
    if image && u.compressible then
      FileRow(message, uploader, owner, u.originalName, u.storedName, u.mimeType, u.compression.compressedSize,
              u.compression.path, thumbnail, u.compression.success,
              if u.compression.success then Some(u.size) else None)
    else
      FileRow(message, uploader, owner, u.originalName, u.storedName, u.mimeType, u.size,
              base + "/" + u.storedName, thumbnail, false, None)
  }
}
