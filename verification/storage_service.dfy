/** `StorageService`: a PDF goes to S3 when S3 is configured and the put
    succeeds, and is otherwise referred to where it already lies on disk. */
module StorageService {
  import opened Wrappers
  import opened JavaText
  import ExternalBucket

  /** The service as constructed: whether an S3 client was injected, the
      bucket name, and the derived switch. */
  datatype Storage = Storage(hasClient: bool, bucketName: Option<string>, s3Enabled: bool)

  /** The constructor: S3 is enabled exactly when a client is present and the
      bucket name is non-empty; with a client and a null bucket name the
      emptiness check throws. */
  function NewStorage(hasClient: bool, bucketName: Option<string>): (r: Result<Storage>)
    ensures r.Err? <==> hasClient && bucketName.None?
    ensures r.Err? ==> r.error.kind == NullPointer
    ensures r.Ok? ==> (r.value.s3Enabled <==> hasClient && bucketName.Some? && bucketName.value != [])
  {
    if !hasClient then Ok(Storage(false, bucketName, false))
    else if bucketName.None? then Err(Thrown(NullPointer, None))
    else Ok(Storage(true, bucketName, bucketName.value != []))
  }

  const DirectoryFailedMessage := "Failed to create local storage directory"

  /** The S3 key of an upload: a UUID, a dash and the file's name. */
  function ObjectKey(uuid: string, fileName: string): string {
    uuid + "-" + fileName
  }

  /** The key put to S3, if any, and the URL returned or the exception
      thrown. */
  datatype StoreOutcome = StoreOutcome(putKey: Option<string>, result: Result<string>)

  /** `uploadFile(file, contentType)`. `directoryReady` is false when creating
      the local storage directory throws; `put` is the outcome of putting an
      object under a key and asking for its URL; `absPath` is the file's
      absolute path. */
  function UploadFile(s: Storage, directoryReady: bool, uuid: string, fileName: string, absPath: string,
                      put: string -> Result<string>): (o: StoreOutcome)
    ensures !directoryReady ==> o == StoreOutcome(None, Err(Thrown(Runtime, Some(DirectoryFailedMessage))))
    ensures directoryReady ==> o.result.Ok?
    ensures o.putKey.Some? <==> directoryReady && s.s3Enabled
    ensures o.putKey.Some? ==> o.putKey.value == ObjectKey(uuid, fileName)
    ensures directoryReady && s.s3Enabled && put(ObjectKey(uuid, fileName)).Ok? ==>
              o.result == put(ObjectKey(uuid, fileName))
    ensures directoryReady && (!s.s3Enabled || put(ObjectKey(uuid, fileName)).Err?) ==>
              o.result == Ok("file://" + absPath)
  {
    if !directoryReady then StoreOutcome(None, Err(Thrown(Runtime, Some(DirectoryFailedMessage))))
    else if s.s3Enabled then
      var key := ObjectKey(uuid, fileName);
      match put(key)
      case Ok(url) => StoreOutcome(Some(key), Ok(url))
      case Err(_) => StoreOutcome(Some(key), Ok("file://" + absPath))
    else StoreOutcome(None, Ok("file://" + absPath))
  }

  /** Without S3 no put is made and the result never depends on what a put
      would have answered. */
  lemma DisabledIgnoresS3(s: Storage, uuid: string, fileName: string, absPath: string,
                          put1: string -> Result<string>, put2: string -> Result<string>)
    requires !s.s3Enabled
    ensures UploadFile(s, true, uuid, fileName, absPath, put1) == UploadFile(s, true, uuid, fileName, absPath, put2)
    ensures UploadFile(s, true, uuid, fileName, absPath, put1).result == Ok("file://" + absPath)
  {
  }

  /** A recipe PDF, named "recipe_<id>.pdf", is stored under the name from
      which the student bucket's id extraction reads the recipe id back: a
      student-bucket URL ending in that key yields the id. */
  lemma RecipePdfKey(prefix: string, uuid: string, id: string)
    requires ExternalBucket.IsUuidText(uuid) && id != [] && ExternalBucket.IsDigits(id)
    requires var url := prefix + "/" + ObjectKey(uuid, "recipe_" + id + ".pdf");
      Contains(url, ExternalBucket.StudentBucketPath) && !Contains(url, ExternalBucket.PublicFilePath)
    ensures ObjectKey(uuid, "recipe_" + id + ".pdf") == ExternalBucket.RecipePdfName(uuid, id)
    ensures ExternalBucket.ExtractFileIdFromUrl(prefix + "/" + ObjectKey(uuid, "recipe_" + id + ".pdf")) == Some(id)
  {
    assert ObjectKey(uuid, "recipe_" + id + ".pdf") == ExternalBucket.RecipePdfName(uuid, id);
    ExternalBucket.StudentBucketRecipeId(prefix, uuid, id);
  }
}
