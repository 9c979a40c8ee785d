/** The File model: the image test, the URL accessors and the unit of the
    human-readable size. */
module FileModel {
  import opened Common
  import opened Schema

  const ImagePrefix: string := "image/"

  /** `str_starts_with($mime, 'image/')`, shared by `isImage`, the size limit,
      the thumbnail decision and the message content type. */
  predicate IsImageMime(mime: string) {
    StartsWith(mime, ImagePrefix)
  }

  /** `isImage`. */
  predicate IsImage(f: FileRow) {
    IsImageMime(f.mimeType)
  }

  /** The `url` accessor: '' for a PHP-falsy path, otherwise the public
      storage URL (the host part of `asset()` is left out). */
  function Url(f: FileRow): (r: string)
    ensures PhpFalsy(f.filePath) <==> r == ""
    ensures !PhpFalsy(f.filePath) ==> r == "storage/" + f.filePath
  {
    if PhpFalsy(f.filePath) then "" else "storage/" + f.filePath
  }

  /** The `thumbnail_url` accessor: null for a PHP-empty thumbnail path. */
  function ThumbnailUrl(f: FileRow): (r: Option<string>)
    ensures r.None? <==> PhpEmpty(f.thumbnailPath)
    ensures r.Some? ==> r.value == "storage/" + f.thumbnailPath.value
  {
    if PhpEmpty(f.thumbnailPath) then None else Some("storage/" + f.thumbnailPath.value)
  }

  const Units: seq<string> := ["B", "KB", "MB", "GB", "TB"]

  function Pow1024(n: nat): (p: nat)
    ensures p >= 1
  {
    if n == 0 then 1 else 1024 * Pow1024(n - 1)
  }

  lemma {:induction false} Pow1024Grows(n: nat)
    ensures Pow1024(n + 1) > Pow1024(n)
    ensures Pow1024(n) >= n + 1
  {
    if n > 0 {
      Pow1024Grows(n - 1);
    }
  }

  /** The index the loop of `getHumanFileSizeAttribute` stops at: dividing by
      1024 while the value exceeds 1024 compares the size with 1024^(i+1), as
      the division is by a power of two; the loop stops at the least i with
      size <= 1024^(i+1). */
  predicate StopsAt(size: nat, i: nat) {
    size <= Pow1024(i + 1) && (i > 0 ==> size > Pow1024(i))
  }

  /** The loop of `getHumanFileSizeAttribute`. */
  method HumanUnitIndex(size: nat) returns (i: nat)
    ensures StopsAt(size, i)
  {
    i := 0;
    while size > Pow1024(i + 1)
      invariant i > 0 ==> size > Pow1024(i)
      decreases size - Pow1024(i)
    {
      Pow1024Grows(i);
      i := i + 1;
    }
  }

  /** `$units[$i]`: past 'TB' the key is undefined, which PHP 8 reports as a
      warning and the framework's error handler raises (None). */
  function UnitName(i: nat): (u: Option<string>)
    ensures i < |Units| <==> u.Some?
    ensures u.Some? ==> u.value == Units[i]
  {
    if i < |Units| then Some(Units[i]) else None
  }

  /** Exactly 1024 bytes stay in 'B'; one byte more is 'KB'; sizes above
      1024^5 run past the last unit and raise. */
  method UnitExamples() returns (atKilo: nat, aboveKilo: nat, beyond: nat)
    ensures atKilo == 0 && UnitName(atKilo) == Some("B")
    ensures aboveKilo == 1 && UnitName(aboveKilo) == Some("KB")
    ensures beyond >= 5 && UnitName(beyond).None?
  {
    atKilo := HumanUnitIndex(1024);
    aboveKilo := HumanUnitIndex(1025);
    assert Pow1024(2) == 1024 * 1024;
    if aboveKilo >= 2 {
      Pow1024Monotone(2, aboveKilo);
    }
    var big := Pow1024(5) + 1;
    beyond := HumanUnitIndex(big);
    if beyond < 5 {
      Pow1024Monotone(beyond + 1, 5);
    }
  }

  lemma {:induction false} Pow1024Monotone(a: nat, b: nat)
    requires a <= b
    ensures Pow1024(a) <= Pow1024(b)
    decreases b - a
  {
    if a < b {
      Pow1024Grows(a);
      Pow1024Monotone(a + 1, b);
    }
  }
}
