/** `LocalStorageProvider`: PDFs copied into a local directory, handed out as
    "file://<path>||local" locators, and deleted again through them. The
    file system is the set of paths of the files that exist. */
module LocalStorage {
  import opened Wrappers
  import opened JavaText
  import opened TextLaws

  const FileScheme := "file://"
  const LocalIdSuffix := "||local"
  const StoreFailedMessage := "Failed to store file locally"

  /** Where `uploadFile` copies a file: the absolute storage directory, then a
      UUID, a dash and the file's own name. */
  function DestinationPath(absDir: string, uuid: string, fileName: string): string {
    absDir + "/" + uuid + "-" + fileName
  }

  /** The result of an upload and the file system after it. */
  datatype LocalUpload = LocalUpload(result: Result<string>, files: set<string>)

  /** `uploadFile(file, contentType, customTags)`: the tags are ignored; the
      copy lands at the destination path, replacing any file there, and the
      locator is "file://" + that path + "||local". `ioFails` stands for an
      `IOException` from creating the directory or copying, which is
      rethrown as a `RuntimeException`. */
  function UploadFile(files: set<string>, absDir: string, uuid: string, fileName: string,
                      customTags: Option<map<string, string>>, ioFails: bool): (u: LocalUpload)
    ensures ioFails ==> u == LocalUpload(Err(Thrown(Runtime, Some(StoreFailedMessage))), files)
    ensures !ioFails ==>
              && u.files == files + {DestinationPath(absDir, uuid, fileName)}
              && u.result.Ok?
              && StartsWith(u.result.value, FileScheme)
              && u.result.value[|FileScheme|..] == DestinationPath(absDir, uuid, fileName) + LocalIdSuffix
  {
    if ioFails then LocalUpload(Err(Thrown(Runtime, Some(StoreFailedMessage))), files)
    else
      var path := DestinationPath(absDir, uuid, fileName);
      LocalUpload(Ok(FileScheme + path + LocalIdSuffix), files + {path})
  }

  /** `uploadFile(file, contentType)`: the three-argument upload without
      tags. */
  function UploadFileUntagged(files: set<string>, absDir: string, uuid: string, fileName: string,
                              ioFails: bool): (u: LocalUpload)
    ensures forall tags :: u == UploadFile(files, absDir, uuid, fileName, tags, ioFails)
  {
    UploadFile(files, absDir, uuid, fileName, None, ioFails)
  }

  /** `isAvailable`: the local directory is always considered available. */
  predicate IsAvailable() {
    true
  }

  /** The path `deleteFile` reads from a locator: without "file://" there is
      none; otherwise what follows it, cut before the first "||". A path
      made only of separators splits into nothing, and reading its first
      piece throws. */
  function RecoveredPath(loc: string): (r: Option<Result<string>>)
    ensures r.None? <==> !StartsWith(loc, FileScheme)
    ensures r.Some? && !Contains(loc[|FileScheme|..], "||") ==> r.value == Ok(loc[|FileScheme|..])
    ensures r.Some? && r.value.Err? ==> r.value.error.kind == IndexOutOfBounds
    ensures r.Some? && Contains(loc[|FileScheme|..], "||") ==>
              var path := loc[|FileScheme|..];
              var cut := IndexOf(path, "||", 0).value;
              && (r.value.Ok? ==> r.value.value == path[..cut])
              && (r.value.Err? ==> cut == 0)
  {
    if !StartsWith(loc, FileScheme) then None
    else
      var path := loc[|FileScheme|..];
      if Contains(path, "||") then
        var parts := Split(path, "||");
        if |parts| == 0 then Some(Err(Thrown(IndexOutOfBounds, None))) else Some(Ok(parts[0]))
      else Some(Ok(path))
  }

  /** The result of a delete and the file system after it. */
  datatype LocalDelete = LocalDelete(result: Result<bool>, files: set<string>)

  /** `deleteFile(fileUrl)`: false for a locator that is not "file://"; true
      and the file gone when the recovered path names a file; false and
      nothing changed otherwise. The index error of a locator whose path is
      made only of "||" is not an `IOException` and escapes. */
  function DeleteFile(files: set<string>, loc: string): (d: LocalDelete)
    ensures !StartsWith(loc, FileScheme) ==> d == LocalDelete(Ok(false), files)
    ensures d.result.Err? ==> d.files == files && d.result.error.kind == IndexOutOfBounds
    ensures d.result == Ok(true) ==>
              && RecoveredPath(loc).Some? && RecoveredPath(loc).value.Ok?
              && var path := RecoveredPath(loc).value.value;
                 path in files && d.files == files - {path}
    ensures d.result.Ok? && !d.result.value ==> d.files == files
    ensures d.files <= files
    ensures RecoveredPath(loc).Some? && RecoveredPath(loc).value.Ok? ==>
              var p := RecoveredPath(loc).value.value;
              d == if p in files then LocalDelete(Ok(true), files - {p}) else LocalDelete(Ok(false), files)
  {
    match RecoveredPath(loc)
    case None => LocalDelete(Ok(false), files)
    case Some(Err(e)) => LocalDelete(Err(e), files)
    case Some(Ok(path)) =>
      if path in files then LocalDelete(Ok(true), files - {path}) else LocalDelete(Ok(false), files)
  }

  /** The locator of an upload leads back to the uploaded file exactly when
      its path neither holds "||" nor ends with '|'. */
  lemma UploadedPathRecovered(path: string)
    ensures (RecoveredPath(FileScheme + path + LocalIdSuffix) == Some(Ok(path)))
              <==> SeparatorFirstAfter(path, "||")
  {
    if SeparatorFirstAfter(path, "||") {
      SeparatorFirstRecovers(path);
    }
    if RecoveredPath(FileScheme + path + LocalIdSuffix) == Some(Ok(path)) {
      RecoveryNeedsSeparatorFirst(path);
    }
  }

  /** What follows the scheme in an upload's locator, and that it holds the
      separator. */
  lemma LocatorTail(path: string)
    ensures var loc := FileScheme + path + LocalIdSuffix;
      && StartsWith(loc, FileScheme)
      && loc[|FileScheme|..] == path + "||" + "local"
      && Contains(loc[|FileScheme|..], "||")
  {
    var rest := path + "||" + "local";
    assert OccursAt(rest, "||", |path|) by {
      assert rest[|path|..|path| + 2] == "||";
    }
    ContainsAt(rest, "||", |path|);
  }

  lemma SeparatorFirstRecovers(path: string)
    requires SeparatorFirstAfter(path, "||")
    ensures RecoveredPath(FileScheme + path + LocalIdSuffix) == Some(Ok(path))
  {
    LocatorTail(path);
    AbsentChar("local", "||", 0);
    SplitOnce(path, "||", "local");
  }

  lemma RecoveryNeedsSeparatorFirst(path: string)
    requires RecoveredPath(FileScheme + path + LocalIdSuffix) == Some(Ok(path))
    ensures SeparatorFirstAfter(path, "||")
  {
    LocatorTail(path);
    FirstPieceRecovers(path, "||", "local");
  }

  /** Deleting through a fresh upload's locator removes the uploaded file and
      reports true; deleting through it a second time reports false and
      changes nothing. */
  lemma UploadThenDeleteTwice(files: set<string>, absDir: string, uuid: string, fileName: string)
    requires SeparatorFirstAfter(DestinationPath(absDir, uuid, fileName), "||")
    ensures var path := DestinationPath(absDir, uuid, fileName);
      var up := UploadFile(files, absDir, uuid, fileName, None, false);
      var first := DeleteFile(up.files, up.result.value);
      var second := DeleteFile(first.files, up.result.value);
      && first == LocalDelete(Ok(true), files - {path})
      && second == LocalDelete(Ok(false), first.files)
  {
    var path := DestinationPath(absDir, uuid, fileName);
    UploadedPathRecovered(path);
  }

  /** After one delete, a second one through the same locator reports false
      and changes nothing. */
  lemma DeleteIsIdempotent(files: set<string>, loc: string)
    requires DeleteFile(files, loc).result.Ok?
    ensures var once := DeleteFile(files, loc);
      DeleteFile(once.files, loc) == LocalDelete(Ok(false), once.files)
  {
  }
}
