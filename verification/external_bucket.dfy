/** `ExternalBucketProvider`: the student bucket as seen through its
    configuration, the shapes of its JSON answers and the locators it hands
    out. Every REST exchange (upload, private search, DELETE) is an argument
    holding its outcome. */
module ExternalBucket {
  import opened Wrappers
  import opened JavaText
  import opened TextLaws

  /* ------------------------------------------------------- configuration */

  /** The injected settings: `external.bucket.enabled`, `.url`, `.group.id`
      and `.token`, any of the last three possibly null. */
  datatype BucketConfig = BucketConfig(
    enabled: bool,
    baseUrl: Option<string>,
    groupId: Option<int>,
    token: Option<string>)

  /** `isAvailable`: enabled, with a non-empty base URL and a group id. */
  predicate IsAvailable(c: BucketConfig) {
    c.enabled && c.baseUrl.Some? && c.baseUrl.value != [] && c.groupId.Some?
  }

  /** A non-null, non-empty student token. */
  predicate HasToken(c: BucketConfig) {
    c.token.Some? && c.token.value != []
  }

  /** The map `getProviderInfo` answers with. */
  datatype ProviderInfo = ProviderInfo(
    baseUrl: Option<string>,
    groupId: Option<int>,
    hasToken: bool,
    canUpload: bool,
    canSearchPublic: bool,
    canSearchPrivate: bool,
    canDelete: bool)

  function GetProviderInfo(c: BucketConfig): (info: ProviderInfo)
    ensures info.canUpload == info.canSearchPrivate == info.canDelete
    ensures info.canUpload <==> IsAvailable(c) && HasToken(c)
    ensures info.canSearchPublic <==> IsAvailable(c)
    ensures info.hasToken <==> HasToken(c)
    ensures info.canUpload ==> info.hasToken && info.canSearchPublic
  {
    var both := IsAvailable(c) && HasToken(c);
    ProviderInfo(c.baseUrl, c.groupId, HasToken(c), both, IsAvailable(c), both, both)
  }

  /* ------------------------------------------------------ JSON answers */

  /** A value of a decoded JSON body. */
  datatype JsonValue = JString(s: string) | JInt(i: int) | JBool(b: bool) | JNull

  type JsonObject = map<string, JsonValue>

  /** `String.valueOf` of a decoded value. */
  function Render(v: JsonValue): string {
    match v
    case JString(s) => s
    case JInt(i) => IntToString(i)
    case JBool(b) => if b then "true" else "false"
    case JNull => "null"
  }

  /** The `(String)` cast of a decoded value: strings and null pass, anything
      else throws. */
  function CastToString(v: JsonValue): (r: Result<Option<string>>)
    ensures r.Err? <==> v.JInt? || v.JBool?
    ensures r.Err? ==> r.error.kind == ClassCast
    ensures v.JString? ==> r == Ok(Some(v.s))
  {
    match v
    case JString(s) => Ok(Some(s))
    case JNull => Ok(None)
    case _ => Err(Thrown(ClassCast, None))
  }

  const PublicFilePath := "/public/file/"
  const StudentBucketPath := "/student-bucket/"
  const LocatorSeparator := "||"

  /** `getFileUrl`: where the bucket serves a public file. */
  function PublicFileUrl(base: string, name: string): (r: string)
    ensures StartsWith(r, base) && r[|base|..] == PublicFilePath + name
  {
    base + PublicFilePath + name
  }

  /** `constructPublicUrl`: the first of the keys url, fileUrl, idExterne,
      fileName and id the body holds decides; the first two are the URL
      itself, the other three name a public file; with none of them the
      public file "unknown". A null url is null, a null file name "null". */
  function ConstructPublicUrl(base: string, body: JsonObject): (r: Result<Option<string>>)
    ensures r.Err? ==> r.error.kind == ClassCast && ("url" in body || "fileUrl" in body || "fileName" in body)
    ensures "url" !in body && "fileUrl" !in body && r.Ok? ==>
              r.value.Some? && StartsWith(r.value.value, base + PublicFilePath)
    ensures FirstUrlKey(body, 0) == Some(0) ==> r == CastToString(body["url"])
    ensures FirstUrlKey(body, 0) == Some(1) ==> r == CastToString(body["fileUrl"])
    ensures FirstUrlKey(body, 0) == Some(2) ==> r == Ok(Some(PublicFileUrl(base, Render(body["idExterne"]))))
    ensures FirstUrlKey(body, 0) == Some(3) ==>
              && (r.Err? <==> body["fileName"].JInt? || body["fileName"].JBool?)
              && (r.Ok? ==> r == Ok(Some(PublicFileUrl(base, Render(body["fileName"])))))
    ensures FirstUrlKey(body, 0) == Some(4) ==> r == Ok(Some(PublicFileUrl(base, Render(body["id"]))))
    ensures FirstUrlKey(body, 0).None? ==> r == Ok(Some(PublicFileUrl(base, "unknown")))
  {
    if "url" in body then CastToString(body["url"])
    else if "fileUrl" in body then CastToString(body["fileUrl"])
    else if "idExterne" in body then Ok(Some(PublicFileUrl(base, Render(body["idExterne"]))))
    else if "fileName" in body then
      match CastToString(body["fileName"])
      case Err(e) => Err(e)
      case Ok(name) => Ok(Some(PublicFileUrl(base, name.GetOr("null"))))
    else if "id" in body then Ok(Some(PublicFileUrl(base, Render(body["id"]))))
    else Ok(Some(PublicFileUrl(base, "unknown")))
  }

  /** The keys `constructPublicUrl` looks at, in the order it looks. */
  const UrlKeys: seq<string> := ["url", "fileUrl", "idExterne", "fileName", "id"]

  /** The position in `UrlKeys` of the first key the body holds. */
  function FirstUrlKey(body: JsonObject, i: nat): (r: Option<nat>)
    requires i <= |UrlKeys|
    ensures r.Some? ==> i <= r.value < |UrlKeys| && UrlKeys[r.value] in body
    ensures forall j :: i <= j < (if r.Some? then r.value else |UrlKeys|) ==> UrlKeys[j] !in body
    decreases |UrlKeys| - i
  {
    if i == |UrlKeys| then None
    else if UrlKeys[i] in body then Some(i)
    else FirstUrlKey(body, i + 1)
  }

  /** Two bodies that agree on the keys up to the first one either holds. */
  predicate AgreeUpTo(body: JsonObject, other: JsonObject, k: nat)
    requires k <= |UrlKeys|
  {
    forall j :: 0 <= j < k ==>
      && (UrlKeys[j] in body <==> UrlKeys[j] in other)
      && (UrlKeys[j] in body ==> body[UrlKeys[j]] == other[UrlKeys[j]])
  }

  /** Only the first key present decides the URL: whatever else the body
      holds after it makes no difference, and a body holding none of the
      keys names the public file "unknown". */
  lemma FirstUrlKeyDecides(base: string, body: JsonObject, other: JsonObject)
    requires var k := FirstUrlKey(body, 0);
      AgreeUpTo(body, other, if k.Some? then k.value + 1 else |UrlKeys|)
    ensures ConstructPublicUrl(base, body) == ConstructPublicUrl(base, other)
    ensures FirstUrlKey(body, 0).None? ==> ConstructPublicUrl(base, body) == Ok(Some(PublicFileUrl(base, "unknown")))
  {
    var k := FirstUrlKey(body, 0);
    var n := if k.Some? then k.value + 1 else |UrlKeys|;
    assert forall j :: 0 <= j < n ==> (UrlKeys[j] in body <==> UrlKeys[j] in other);
    if k.Some? {
      var key := UrlKeys[k.value];
      assert key in body && key in other && body[key] == other[key];
    }
  }

  /** The id the server reports for an upload, as a string: "null" when the
      body has no idExterne. */
  function ServerId(body: JsonObject): string {
    if "idExterne" in body then Render(body["idExterne"]) else "null"
  }

  /* ------------------------------------------------------------- upload */

  /** `extractRecipeType`: the category a file name suggests, checked in the
      order dessert, main course, starter. */
  function ExtractRecipeType(fileName: string): (r: string)
    ensures r == "dessert" <==> Contains(fileName, "dessert")
    ensures r == "main-course" <==> !Contains(fileName, "dessert") && Contains(fileName, "plat")
    ensures r == "starter" <==>
              !Contains(fileName, "dessert") && !Contains(fileName, "plat") && Contains(fileName, "entree")
    ensures r == "general" <==>
              !Contains(fileName, "dessert") && !Contains(fileName, "plat") && !Contains(fileName, "entree")
  {
    if Contains(fileName, "dessert") then "dessert"
    else if Contains(fileName, "plat") then "main-course"
    else if Contains(fileName, "entree") then "starter"
    else "general"
  }

  /** `generateExternalIdNumeric`: the clock's milliseconds modulo 100000. */
  function ExternalIdNumeric(millis: nat): string {
    NatToString(millis % 100000)
  }

  /** What the multipart POST to /student/upload carries besides the file. */
  datatype UploadRequest = UploadRequest(
    url: string,
    token: string,
    idExterne: string,
    tag1: string,
    tag2: string,
    tag3: string)

  /** What the HTTP client hands back: the status, its rendering and the
      decoded body, which may be null. */
  datatype HttpResponse = HttpResponse(status: int, statusText: string, body: Option<JsonObject>)

  /** The request sent, if any, and the locator returned or the exception
      thrown. */
  datatype UploadOutcome = UploadOutcome(request: Option<UploadRequest>, result: Result<string>)

  const NotAvailableMessage := "External Bucket Provider is not available"
  const TokenRequiredMessage := "Student token required for upload"
  const UploadFailedPrefix := "External bucket upload failed: "

  /** The locator `uploadFile` returns: the public URL and the server's id
      joined by "||". */
  function Locator(publicUrl: Option<string>, serverId: string): string {
    publicUrl.GetOr("null") + LocatorSeparator + serverId
  }

  /** The body of the `try` block of `uploadFile`, the exchange's outcome
      given as `post`. */
  function UploadAttempt(base: string, post: Result<HttpResponse>): (r: Result<string>)
  {
    match post
    case Err(e) => Err(e)
    case Ok(resp) =>
      if resp.status == 200 && resp.body.Some? then
        match ConstructPublicUrl(base, resp.body.value)
        case Err(e) => Err(e)
        case Ok(url) => Ok(Locator(url, ServerId(resp.body.value)))
      else
        Err(Thrown(Runtime, Some("Failed to upload to external bucket: " + resp.statusText)))
  }

  /** `uploadFile(file, contentType)`: refused before any request when the
      provider is unavailable or has no token; otherwise one POST whose
      answer, if 200 with a body, yields `publicUrl || serverId`, and any
      failure is rethrown wrapped with the "External bucket upload failed: "
      prefix. */
  function UploadFile(c: BucketConfig, fileName: string, millis: nat, today: string,
                      post: Result<HttpResponse>): (o: UploadOutcome)
    ensures o.request.None? <==> !(IsAvailable(c) && HasToken(c))
    ensures !IsAvailable(c) ==> o.result == Err(Thrown(IllegalState, Some(NotAvailableMessage)))
    ensures IsAvailable(c) && !HasToken(c) ==> o.result == Err(Thrown(IllegalState, Some(TokenRequiredMessage)))
    ensures o.request.Some? ==>
              && o.request.value.url == c.baseUrl.value + "/student/upload"
              && o.request.value.token == c.token.value
              && o.request.value.idExterne == ExternalIdNumeric(millis)
              && o.request.value.tag1 == "recipe"
              && o.request.value.tag2 == ExtractRecipeType(fileName)
              && o.request.value.tag3 == today
    ensures (&& IsAvailable(c) && HasToken(c)
             && post.Ok? && post.value.status == 200 && post.value.body.Some?
             && ConstructPublicUrl(c.baseUrl.value, post.value.body.value).Ok?) ==> o.result.Ok?
    ensures o.request.Some? && o.result.Err? ==>
              o.result.error.kind == Runtime && o.result.error.message.Some?
              && StartsWith(o.result.error.message.value, UploadFailedPrefix)
    ensures o.result.Ok? ==>
              && post.Ok? && post.value.status == 200 && post.value.body.Some?
              && var body := post.value.body.value;
                 ConstructPublicUrl(c.baseUrl.value, body).Ok?
                 && o.result.value == Locator(ConstructPublicUrl(c.baseUrl.value, body).value, ServerId(body))
  {
    if !IsAvailable(c) then
      UploadOutcome(None, Err(Thrown(IllegalState, Some(NotAvailableMessage))))
    else if !HasToken(c) then
      UploadOutcome(None, Err(Thrown(IllegalState, Some(TokenRequiredMessage))))
    else
      var base := c.baseUrl.value;
      var request := UploadRequest(base + "/student/upload", c.token.value, ExternalIdNumeric(millis),
                                   "recipe", ExtractRecipeType(fileName), today);
      match UploadAttempt(base, post)
      case Ok(loc) => UploadOutcome(Some(request), Ok(loc))
      case Err(e) =>
        var message := UploadFailedPrefix + e.MessageText();
        assert StartsWith(message, UploadFailedPrefix);
        UploadOutcome(Some(request), Err(Thrown(Runtime, Some(message))))
  }

  /** `getProviderInfo` advertises uploading exactly when `uploadFile` gets
      as far as sending its request. */
  lemma CanUploadMatchesUpload(c: BucketConfig, fileName: string, millis: nat, today: string,
                               post: Result<HttpResponse>)
    ensures GetProviderInfo(c).canUpload <==> UploadFile(c, fileName, millis, today, post).request.Some?
  {
  }

  /* ---------------------------------------------------- locators and ids */

  /** A locator as `deleteFile` takes it apart: the URL and the stored id. */
  datatype LocatorParts = LocatorParts(url: string, storedId: Option<string>)

  /** `deleteFile`, lines splitting on "||": a locator with the separator is
      cut into its first two pieces; one made only of separators splits into
      nothing, and reading its first piece throws. */
  function ParseLocator(loc: string): (r: Result<LocatorParts>)
    ensures !Contains(loc, LocatorSeparator) ==> r == Ok(LocatorParts(loc, None))
    ensures r.Err? ==> r.error.kind == IndexOutOfBounds
  {
    if Contains(loc, LocatorSeparator) then
      var parts := Split(loc, LocatorSeparator);
      if |parts| == 0 then Err(Thrown(IndexOutOfBounds, None))
      else Ok(LocatorParts(parts[0], if |parts| > 1 then Some(parts[1]) else None))
    else Ok(LocatorParts(loc, None))
  }

  /** A URL and an id joined by "||" come apart into exactly that URL and
      that id when the URL neither holds "||" nor ends with '|', and the id is
      non-empty and free of "||" ... */
  lemma LocatorRoundTrip(u: string, d: string)
    requires SeparatorFirstAfter(u, LocatorSeparator) && d != [] && !Contains(d, LocatorSeparator)
    ensures ParseLocator(u + LocatorSeparator + d) == Ok(LocatorParts(u, Some(d)))
  {
    var loc := u + LocatorSeparator + d;
    SplitOnce(u, LocatorSeparator, d);
    assert OccursAt(loc, LocatorSeparator, |u|) by {
      assert loc[|u|..|u| + 2] == LocatorSeparator;
    }
  }

  /** ... and only then. */
  lemma LocatorRecovered(u: string, d: string)
    requires ParseLocator(u + LocatorSeparator + d) == Ok(LocatorParts(u, Some(d)))
    ensures SeparatorFirstAfter(u, LocatorSeparator) && d != [] && !Contains(d, LocatorSeparator)
  {
    var loc := u + LocatorSeparator + d;
    assert OccursAt(loc, LocatorSeparator, |u|) by {
      assert loc[|u|..|u| + 2] == LocatorSeparator;
    }
    ContainsAt(loc, LocatorSeparator, |u|);
    SplitRecovers(u, LocatorSeparator, d);
  }

  /** Where `lastIndexOf('/')` finds the last slash before `j`. */
  function LastSlashBefore(s: string, j: nat): (r: Option<nat>)
    requires j <= |s|
    ensures r.Some? ==> r.value < j && s[r.value] == '/'
    ensures forall k :: (if r.Some? then r.value + 1 else 0) <= k < j ==> s[k] != '/'
    decreases j
  {
    if j == 0 then None
    else if s[j - 1] == '/' then Some(j - 1)
    else LastSlashBefore(s, j - 1)
  }

  /** `fileUrl.substring(fileUrl.lastIndexOf('/') + 1)`: the text after the
      last slash, or all of it. */
  function AfterLastSlash(s: string): (r: string)
    ensures |r| <= |s| && r == s[|s| - |r|..]
    ensures forall k :: 0 <= k < |r| ==> r[k] != '/'
    ensures |r| < |s| ==> s[|s| - |r| - 1] == '/'
  {
    match LastSlashBefore(s, |s|)
    case None => s
    case Some(k) => s[k + 1..]
  }

  /** The last "/"-piece of a URL, if splitting leaves any. */
  function LastSegment(url: string): Option<string> {
    var segments := Split(url, "/");
    if |segments| > 0 then Some(segments[|segments| - 1]) else None
  }

  /** The number in a "<uuid>-recipe_<n>.pdf" file name, with every ".pdf"
      removed from what follows the first "-recipe_". */
  function RecipeNumber(fileName: string): Option<string> {
    if Contains(fileName, "-recipe_") then
      var parts := Split(fileName, "-recipe_");
      if |parts| > 1 then Some(Replace(parts[1], ".pdf", "")) else None
    else None
  }

  /** `extractFileIdFromUrl`: null for an empty URL; what follows
      "/public/file/" in a public-file URL; the recipe number, or else the
      file name, in a student-bucket URL; otherwise the last segment. */
  function ExtractFileIdFromUrl(url: string): (r: Option<string>)
    ensures url == [] ==> r.None?
    ensures r.None? ==> Split(url, "/") == [] || url == []
  {
    if url == [] then None
    else
      var publicParts := Split(url, PublicFilePath);
      if Contains(url, PublicFilePath) && |publicParts| > 1 then Some(publicParts[1])
      else if Contains(url, StudentBucketPath) && LastSegment(url).Some? then
        var name := LastSegment(url).value;
        match RecipeNumber(name)
        case Some(n) => Some(n)
        case None => Some(name)
      else LastSegment(url)
  }

  /** The id of a public file is read back from its URL. */
  lemma PublicFileIdRoundTrip(base: string, id: string)
    requires SeparatorFirstAfter(base, PublicFilePath) && id != [] && !Contains(id, PublicFilePath)
    ensures ExtractFileIdFromUrl(PublicFileUrl(base, id)) == Some(id)
  {
    var url := PublicFileUrl(base, id);
    SplitOnce(base, PublicFilePath, id);
    assert OccursAt(url, PublicFilePath, |base|) by {
      assert url[|base|..|base| + |PublicFilePath|] == PublicFilePath;
    }
    ContainsAt(url, PublicFilePath, |base|);
  }

  predicate IsLowerHexDigit(c: char) {
    ('0' <= c <= '9') || ('a' <= c <= 'f')
  }

  /** The characters `UUID.toString` produces. */
  predicate IsUuidText(u: string) {
    forall k :: 0 <= k < |u| ==> IsLowerHexDigit(u[k]) || u[k] == '-'
  }

  predicate IsDigits(n: string) {
    forall k :: 0 <= k < |n| ==> '0' <= n[k] <= '9'
  }

  /** The name `StorageService` gives a stored recipe PDF: a UUID, a dash and
      the "recipe_<id>.pdf" name. */
  function RecipePdfName(uuid: string, n: string): string {
    uuid + "-recipe_" + n + ".pdf"
  }

  /** A student-bucket URL of a stored recipe PDF yields the recipe's id. */
  lemma StudentBucketRecipeId(prefix: string, uuid: string, n: string)
    requires IsUuidText(uuid) && n != [] && IsDigits(n)
    requires var url := prefix + "/" + RecipePdfName(uuid, n);
      Contains(url, StudentBucketPath) && !Contains(url, PublicFilePath)
    ensures ExtractFileIdFromUrl(prefix + "/" + RecipePdfName(uuid, n)) == Some(n)
  {
    var name := RecipePdfName(uuid, n);
    var url := prefix + "/" + name;
    assert LastSegment(url) == Some(name) by {
      RecipePdfNameHasNoSlash(uuid, n);
      LastPiece(prefix, '/', name);
    }
    RecipeNumberOfPdfName(uuid, n);
    StudentBucketBranch(url, name, n);
  }

  /** A student-bucket URL that is no public-file URL yields the recipe
      number of its last segment, when there is one. */
  lemma StudentBucketBranch(url: string, name: string, n: string)
    requires url != [] && Contains(url, StudentBucketPath) && !Contains(url, PublicFilePath)
    requires LastSegment(url) == Some(name) && RecipeNumber(name) == Some(n)
    ensures ExtractFileIdFromUrl(url) == Some(n)
  {
  }

  /** The recipe number is read back from the stored PDF's name. */
  lemma RecipeNumberOfPdfName(uuid: string, n: string)
    requires IsUuidText(uuid) && n != [] && IsDigits(n)
    ensures RecipeNumber(RecipePdfName(uuid, n)) == Some(n)
  {
    var name := RecipePdfName(uuid, n);
    var d := n + ".pdf";
    assert name == uuid + "-recipe_" + d;
    assert OccursAt(name, "-recipe_", |uuid|) by {
      assert name[|uuid|..|uuid| + 8] == "-recipe_";
    }
    ContainsAt(name, "-recipe_", |uuid|);
    UuidBeforeRecipeMarker(uuid);
    DigitsHaveNoRecipeMarker(d, n);
    SplitOnce(uuid, "-recipe_", d);
    DigitsBeforePdf(n);
    ReplaceFinal(n, ".pdf");
  }

  lemma UuidBeforeRecipeMarker(uuid: string)
    requires IsUuidText(uuid)
    ensures SeparatorFirstAfter(uuid, "-recipe_")
  {
    var w := uuid + "-recipe";
    assert "-recipe_"[..7] == "-recipe";
    forall k | 0 <= k < |w|
      ensures w[k] != '_'
    {
      if k >= |uuid| {
        assert w[k] == "-recipe"[k - |uuid|];
      }
    }
    AbsentChar(w, "-recipe_", 7);
  }

  lemma DigitsHaveNoRecipeMarker(d: string, n: string)
    requires IsDigits(n) && d == n + ".pdf"
    ensures !Contains(d, "-recipe_")
  {
    forall k | 0 <= k < |d|
      ensures d[k] != '-'
    {
      if k >= |n| {
        assert d[k] == ".pdf"[k - |n|];
      }
    }
    AbsentChar(d, "-recipe_", 0);
  }

  lemma DigitsBeforePdf(n: string)
    requires IsDigits(n)
    ensures SeparatorFirstAfter(n, ".pdf")
  {
    var w := n + ".pd";
    assert ".pdf"[..3] == ".pd";
    forall k | 0 <= k < |w|
      ensures w[k] != 'f'
    {
      if k >= |n| {
        assert w[k] == ".pd"[k - |n|];
      }
    }
    AbsentChar(w, ".pdf", 3);
  }

  lemma RecipePdfNameHasNoSlash(uuid: string, n: string)
    requires IsUuidText(uuid) && IsDigits(n)
    ensures var name := RecipePdfName(uuid, n);
      name != [] && forall k :: 0 <= k < |name| ==> name[k] != '/'
  {
    var name := RecipePdfName(uuid, n);
    forall k | 0 <= k < |name|
      ensures name[k] != '/'
    {
      if k < |uuid| {
        assert name[k] == uuid[k];
      } else if k < |uuid| + 8 {
        assert name[k] == "-recipe_"[k - |uuid|];
      } else if k < |uuid| + 8 + |n| {
        assert name[k] == n[k - |uuid| - 8];
      } else {
        assert name[k] == ".pdf"[k - |uuid| - 8 - |n|];
      }
    }
  }

  /** Any other URL yields its last segment. */
  lemma LastSegmentId(prefix: string, f: string)
    requires f != [] && forall k :: 0 <= k < |f| ==> f[k] != '/'
    requires var url := prefix + "/" + f;
      !Contains(url, PublicFilePath) && !Contains(url, StudentBucketPath)
    ensures ExtractFileIdFromUrl(prefix + "/" + f) == Some(f)
  {
    LastPiece(prefix, '/', f);
  }

  /** A public-file URL the upload constructed from the server's numeric id
      gives that id back. */
  lemma ConstructedUrlNamesServerId(base: string, body: JsonObject)
    requires SeparatorFirstAfter(base, PublicFilePath)
    requires "url" !in body && "fileUrl" !in body && "idExterne" in body && body["idExterne"].JInt?
    ensures ConstructPublicUrl(base, body).Ok?
    ensures ExtractFileIdFromUrl(ConstructPublicUrl(base, body).value.value) == Some(ServerId(body))
  {
    var id := ServerId(body);
    AbsentChar(id, PublicFilePath, 0);
    PublicFileIdRoundTrip(base, id);
  }

  /* ----------------------------------------------------- delete candidates */

  predicate NoDuplicates(ids: seq<string>) {
    forall i, j :: 0 <= i < j < |ids| ==> ids[i] != ids[j]
  }

  /** `if (!idsToTry.contains(id)) idsToTry.add(id)` */
  function AddNew(ids: seq<string>, id: string): (r: seq<string>)
    ensures id in r && forall x :: x in r <==> x in ids || x == id
    ensures |ids| <= |r| && r[..|ids|] == ids
    ensures NoDuplicates(ids) ==> NoDuplicates(r)
  {
    if id in ids then ids else ids + [id]
  }

  /** Each of `xs` in turn, skipping those already present. */
  function AddAll(ids: seq<string>, xs: seq<string>): (r: seq<string>)
    ensures forall x :: x in r <==> x in ids || x in xs
    ensures |ids| <= |r| && r[..|ids|] == ids
    ensures NoDuplicates(ids) ==> NoDuplicates(r)
    decreases |xs|
  {
    if xs == [] then ids else AddAll(AddNew(ids, xs[0]), xs[1..])
  }

  const FallbackIds: seq<string> := ["1", "2", "3", "4", "5"]

  /** Which step of `deleteFile` first proposes `x`: the stored id, a search
      hit, the id read from the URL, or a fallback. */
  function Stage(stored: Option<string>, hits: seq<string>, extracted: Option<string>, x: string): nat {
    if stored == Some(x) then 0
    else if x in hits then 1
    else if extracted == Some(x) then 2
    else 3
  }

  predicate StageOrdered(ids: seq<string>, stored: Option<string>, hits: seq<string>, extracted: Option<string>) {
    forall i, j :: 0 <= i < j < |ids| ==> Stage(stored, hits, extracted, ids[i]) <= Stage(stored, hits, extracted, ids[j])
  }

  /** The ids `deleteFile` tries, in order: the stored id, the ids of search
      hits, the id read from the URL, then the `fallback` ids, each only
      once. */
  function CandidateIds(stored: Option<string>, hits: seq<string>, extracted: Option<string>,
                        fallback: seq<string>): (r: seq<string>)
    ensures NoDuplicates(r)
    ensures forall x :: x in r <==> stored == Some(x) || x in hits || extracted == Some(x) || x in fallback
    ensures stored.Some? ==> r[0] == stored.value
    ensures StageOrdered(r, stored, hits, extracted)
  {
    var first := if stored.Some? then [stored.value] else [];
    var urlId := if extracted.Some? then [extracted.value] else [];
    var searched := AddAll(first, hits);
    var withUrlId := AddAll(searched, urlId);
    HitStage(first, stored, hits, extracted);
    AddAllOrdered(first, hits, stored, hits, extracted, 1);
    UrlIdStage(searched, urlId, stored, hits, extracted);
    AddAllOrdered(searched, urlId, stored, hits, extracted, 2);
    FallbackStage(withUrlId, fallback, stored, hits, extracted);
    AddAllOrdered(withUrlId, fallback, stored, hits, extracted, 3);
    AddAll(withUrlId, fallback)
  }

  lemma HitStage(first: seq<string>, stored: Option<string>, hits: seq<string>, extracted: Option<string>)
    requires first == if stored.Some? then [stored.value] else []
    ensures StageOrdered(first, stored, hits, extracted)
    ensures forall x :: x in first ==> Stage(stored, hits, extracted, x) <= 1
    ensures forall x :: x in hits ==> x in first || Stage(stored, hits, extracted, x) == 1
  {
  }

  lemma UrlIdStage(ids: seq<string>, urlId: seq<string>, stored: Option<string>, hits: seq<string>,
                   extracted: Option<string>)
    requires urlId == if extracted.Some? then [extracted.value] else []
    requires stored.Some? ==> stored.value in ids
    requires forall h :: h in hits ==> h in ids
    ensures forall x :: x in urlId ==> x in ids || Stage(stored, hits, extracted, x) == 2
  {
  }

  /** Once the stored id, the hits and the URL id are listed, every id not
      yet listed belongs to the last stage. */
  lemma FallbackStage(ids: seq<string>, xs: seq<string>, stored: Option<string>,
                      hits: seq<string>, extracted: Option<string>)
    requires stored.Some? ==> stored.value in ids
    requires extracted.Some? ==> extracted.value in ids
    requires forall h :: h in hits ==> h in ids
    ensures forall x :: x in xs ==> x in ids || Stage(stored, hits, extracted, x) == 3
  {
  }

  /** Appending ids of one stage to a list of earlier stages keeps it
      ordered by stage. */
  lemma {:induction false} AddAllOrdered(ids: seq<string>, xs: seq<string>, stored: Option<string>,
                                         hits: seq<string>, extracted: Option<string>, k: nat)
    requires StageOrdered(ids, stored, hits, extracted)
    requires forall x :: x in ids ==> Stage(stored, hits, extracted, x) <= k
    requires forall x :: x in xs ==> x in ids || Stage(stored, hits, extracted, x) == k
    ensures StageOrdered(AddAll(ids, xs), stored, hits, extracted)
    ensures forall x :: x in AddAll(ids, xs) ==> Stage(stored, hits, extracted, x) <= k
    ensures xs == [] || AddAll(ids, xs) == AddAll(AddNew(ids, xs[0]), xs[1..])
    decreases |xs|
  {
    if xs != [] {
      var next := AddNew(ids, xs[0]);
      assert forall x :: x in xs[1..] ==> x in xs;
      AddAllOrdered(next, xs[1..], stored, hits, extracted, k);
    }
  }

  /** The ids of the private-search entries named `fileName`, in order; an
      entry whose fileName is null throws inside the search's `try`, which
      ends the search with the ids found so far. */
  function SearchHits(files: seq<JsonObject>, fileName: string): (r: seq<string>)
    ensures forall x :: x in r ==> exists i :: 0 <= i < |files| && NamedEntry(files[i], fileName) && EntryId(files[i]) == x
    decreases |files|
  {
    if files == [] then []
    else if "fileName" in files[0] && files[0]["fileName"].JNull? then []
    else
      var rest := SearchHits(files[1..], fileName);
      assert forall x :: x in rest ==> exists i :: 0 < i < |files| && NamedEntry(files[i], fileName) && EntryId(files[i]) == x by {
        forall x | x in rest
          ensures exists i :: 0 < i < |files| && NamedEntry(files[i], fileName) && EntryId(files[i]) == x
        {
          var i :| 0 <= i < |files[1..]| && NamedEntry(files[1..][i], fileName) && EntryId(files[1..][i]) == x;
          assert files[1..][i] == files[i + 1];
        }
      }
      (if NamedEntry(files[0], fileName) then [EntryId(files[0])] else []) + rest
  }

  /** An entry whose fileName is the string `fileName`. */
  predicate NamedEntry(entry: JsonObject, fileName: string) {
    "fileName" in entry && entry["fileName"] == JString(fileName)
  }

  predicate NullNamedEntry(entry: JsonObject) {
    "fileName" in entry && entry["fileName"].JNull?
  }

  /** `String.valueOf(file.get("idExterne"))` */
  function EntryId(entry: JsonObject): string {
    if "idExterne" in entry then Render(entry["idExterne"]) else "null"
  }

  /** Without a null file name the search finds the id of every entry named
      `fileName`. */
  lemma {:induction false} SearchFindsEveryNamedEntry(files: seq<JsonObject>, fileName: string, i: nat)
    requires forall k :: 0 <= k < |files| ==> !NullNamedEntry(files[k])
    requires i < |files| && NamedEntry(files[i], fileName)
    ensures EntryId(files[i]) in SearchHits(files, fileName)
    decreases |files|
  {
    if i > 0 {
      assert files[1..][i - 1] == files[i];
      SearchFindsEveryNamedEntry(files[1..], fileName, i - 1);
    }
  }

  /* -------------------------------------------------------------- delete */

  /** Every id in turn until the first that the bucket accepts. */
  function TryInOrder(ids: seq<string>, accepts: string -> bool): (attempted: seq<string>)
    ensures |attempted| <= |ids| && attempted == ids[..|attempted|]
    ensures forall i :: 0 <= i < |attempted| - 1 ==> !accepts(attempted[i])
    ensures (attempted != [] && accepts(attempted[|attempted| - 1]))
              <==> exists i :: 0 <= i < |ids| && accepts(ids[i])
    ensures (attempted == [] || !accepts(attempted[|attempted| - 1])) ==> attempted == ids
    decreases |ids|
  {
    if ids == [] then []
    else if accepts(ids[0]) then [ids[0]]
    else
      var rest := TryInOrder(ids[1..], accepts);
      assert forall i :: 1 <= i < |ids| ==> ids[i] == ids[1..][i - 1];
      [ids[0]] + rest
  }

  /** Whether the private search was sent, the ids a DELETE was sent for,
      and the result. */
  datatype DeleteOutcome = DeleteOutcome(searched: bool, attempted: seq<string>, deleted: bool)

  /** `deleteFile(fileUrl)`: false without a token or when the locator splits
      into nothing; otherwise one private search, whose entries are given as
      `search` (absent when it failed or listed no files), then a DELETE for
      each candidate id until the bucket accepts one. The later HEAD check
      only logs. */
  function DeleteFile(c: BucketConfig, loc: string, search: Option<seq<JsonObject>>,
                      accepts: string -> bool): (o: DeleteOutcome)
    ensures !HasToken(c) ==> o == DeleteOutcome(false, [], false)
    ensures o.searched <==> HasToken(c) && ParseLocator(loc).Ok?
    ensures !o.searched ==> o.attempted == [] && !o.deleted
    ensures NoDuplicates(o.attempted)
    ensures o.deleted <==> o.attempted != [] && accepts(o.attempted[|o.attempted| - 1])
    ensures forall i :: 0 <= i < |o.attempted| - 1 ==> !accepts(o.attempted[i])
    ensures o.searched && !o.deleted ==> forall x :: x in FallbackIds ==> x in o.attempted && !accepts(x)
    ensures o.searched ==>
              var ids := DeleteCandidates(ParseLocator(loc).value, search);
              && |o.attempted| <= |ids| && o.attempted == ids[..|o.attempted|]
              && (o.deleted <==> exists x :: x in ids && accepts(x))
              && (!o.deleted ==> o.attempted == ids)
  {
    if !HasToken(c) then DeleteOutcome(false, [], false)
    else
      match ParseLocator(loc)
      case Err(_) => DeleteOutcome(false, [], false)
      case Ok(parts) => DeleteLoop(DeleteCandidates(parts, search), accepts)
  }

  /** The ids `deleteFile` tries for a parsed locator: the stored id, the ids
      the search finds under the URL's last path segment, the id read from
      the URL, then the fallback ids. */
  function DeleteCandidates(parts: LocatorParts, search: Option<seq<JsonObject>>): (r: seq<string>)
    ensures NoDuplicates(r)
    ensures forall x :: x in FallbackIds ==> x in r
    ensures parts.storedId.Some? ==> r != [] && r[0] == parts.storedId.value
  {
    var hits := if search.Some? then SearchHits(search.value, AfterLastSlash(parts.url)) else [];
    CandidateIds(parts.storedId, hits, ExtractFileIdFromUrl(parts.url), FallbackIds)
  }

  /** The DELETE requests over the candidate ids, after the search. */
  function DeleteLoop(ids: seq<string>, accepts: string -> bool): (o: DeleteOutcome)
    requires NoDuplicates(ids)
    ensures o.searched && NoDuplicates(o.attempted)
    ensures o.deleted <==> o.attempted != [] && accepts(o.attempted[|o.attempted| - 1])
    ensures forall i :: 0 <= i < |o.attempted| - 1 ==> !accepts(o.attempted[i])
    ensures !o.deleted ==> o.attempted == ids && forall x :: x in ids ==> !accepts(x)
    ensures |o.attempted| <= |ids| && o.attempted == ids[..|o.attempted|]
    ensures o.deleted <==> exists x :: x in ids && accepts(x)
  {
    var attempted := TryInOrder(ids, accepts);
    assert NoDuplicates(attempted) by {
      forall i, j | 0 <= i < j < |attempted|
        ensures attempted[i] != attempted[j]
      {
        assert attempted[i] == ids[i] && attempted[j] == ids[j];
      }
    }
    DeleteOutcome(true, attempted, attempted != [] && accepts(attempted[|attempted| - 1]))
  }

  /** Deleting through a locator `uploadFile` returned tries the id the
      server reported first. */
  lemma DeleteTriesStoredIdFirst(c: BucketConfig, u: string, d: string,
                                 search: Option<seq<JsonObject>>, accepts: string -> bool)
    requires HasToken(c)
    requires SeparatorFirstAfter(u, LocatorSeparator) && d != [] && !Contains(d, LocatorSeparator)
    ensures var o := DeleteFile(c, Locator(Some(u), d), search, accepts);
      o.searched && o.attempted != [] && o.attempted[0] == d
      && (accepts(d) ==> o.attempted == [d] && o.deleted)
  {
    LocatorRoundTrip(u, d);
  }
}
