/** The photo-upload server of server.js: the upload allow-list, the name a
    received file is stored under, the in-memory `photoMetadata` store, and
    the `/upload`, `/photo/:id` and `/health` handlers.  Randomness (uuid),
    the clock, QR-code rendering and date formatting are parameters. */
module PhotoServer {
  import opened Wrappers
  import opened NodePath
  import opened HtmlEscape

  // ---------------------------------------------------------------------
  // The upload allow-list (fileFilter)
  // ---------------------------------------------------------------------

  const AllowedMimeTypes: seq<string> := ["image/jpeg", "image/png", "image/gif", "image/webp"]
  const AllowedExtensions: seq<string> := [".jpg", ".jpeg", ".png", ".gif", ".webp"]
  const FilterError: string := "Only image files (JPEG, PNG, GIF, WebP) are allowed!"

  /** String.prototype.toLowerCase on one character, ASCII letters only. */
  function LowerChar(c: char): (d: char)
    ensures ('A' <= c <= 'Z') ==> d as int == c as int + 32
    ensures !('A' <= c <= 'Z') ==> d == c
  {
    if 'A' <= c <= 'Z' then (c as int + 32) as char else c
  }

  function Lower(s: string): (t: string)
    ensures |t| == |s|
    ensures forall i :: 0 <= i < |s| ==> t[i] == LowerChar(s[i])
  {
    seq(|s|, i requires 0 <= i < |s| => LowerChar(s[i]))
  }

  /** What multer learns about an uploaded part before it stores it. */
  datatype IncomingFile = IncomingFile(originalname: string, mimetype: string, size: nat)

  datatype FilterDecision = Accept | Reject(message: string)

  /** fileFilter: accept an image by declared MIME type and by extension. */
  function FileFilter(f: IncomingFile): (r: FilterDecision)
    ensures r.Reject? ==> r.message == FilterError
  {
    var ext := Lower(Extname(f.originalname));
    if f.mimetype in AllowedMimeTypes && ext in AllowedExtensions then Accept
    else Reject(FilterError)
  }

  /** Reference definition of "the name ends in an allowed image extension",
      stated on the name itself: some slice of it, preceded by a character
      that is not a slash and followed only by slashes, is an allowed
      extension up to letter case. */
  ghost predicate HasImageExtension(name: string) {
    exists i, j | 0 < i <= j <= |name| ::
      Lower(name[i..j]) in AllowedExtensions && name[i - 1] != '/' && AllSlashes(name[j..])
  }

  lemma AllowedExtensionsShaped(x: string)
    requires Lower(x) in AllowedExtensions
    ensures ExtShaped(x)
  {
    var l := Lower(x);
    forall k | 0 <= k < |x| ensures (k == 0) == (x[k] == '.') && x[k] != '/' {
      assert l[k] == LowerChar(x[k]);
    }
  }

  /** The filter accepts a file exactly when its declared MIME type is one of
      the four image types (compared exactly) and its name ends in one of the
      five image extensions (compared without regard to letter case). */
  lemma {:induction false} FileFilterAcceptsIff(f: IncomingFile)
    ensures FileFilter(f) == Accept <==>
              f.mimetype in AllowedMimeTypes && HasImageExtension(f.originalname)
  {
    var name := f.originalname;
    var e := Extname(name);
    if Lower(e) in AllowedExtensions {
      AllowedExtensionsShaped(e);
      ExtnameCharacterization(name, e);
      var i, j :| 0 < i <= j <= |name| && name[i..j] == e && name[i - 1] != '/' && AllSlashes(name[j..]);
      assert Lower(name[i..j]) in AllowedExtensions;
    }
    if HasImageExtension(name) {
      var i, j :| 0 < i <= j <= |name| &&
        Lower(name[i..j]) in AllowedExtensions && name[i - 1] != '/' && AllSlashes(name[j..]);
      AllowedExtensionsShaped(name[i..j]);
      ExtnameCharacterization(name, name[i..j]);
    }
  }

  /** The extension test ignores letter case: an upper-case `.JPG` passes. */
  lemma UpperCaseExtensionAccepted()
    ensures FileFilter(IncomingFile("IMG_0001.JPG", "image/jpeg", 1)) == Accept
  {
    var name := "IMG_0001.JPG";
    assert name[8..12] == ".JPG";
    WitnessGivesExtname(name, ".JPG", 8, 12);
    var l := Lower(".JPG");
    assert l[0] == '.' && l[1] == 'j' && l[2] == 'p' && l[3] == 'g';
    assert l == ".jpg";
  }

  /** The MIME test is an exact comparison: `image/PNG` is refused, whatever
      the file is called. */
  lemma UpperCaseMimeRejected(name: string, size: nat)
    ensures FileFilter(IncomingFile(name, "image/PNG", size)).Reject?
  {
    assert "image/PNG"[6] != "image/png"[6];
  }

  /** Both tests are required: a file declared as `text/plain` is refused
      even when its name ends in `.png`. */
  lemma TextMimeRejected(name: string, size: nat)
    ensures FileFilter(IncomingFile(name, "text/plain", size)).Reject?
  {
  }

  /** A leading dot does not start an extension: `.png`, or any name made of
      one dot and then no dot or slash, has none and is refused. */
  lemma DotLedNameRejected(rest: string, mime: string, size: nat)
    requires forall k :: 0 <= k < |rest| ==> rest[k] != '.' && rest[k] != '/'
    ensures FileFilter(IncomingFile("." + rest, mime, size)).Reject?
  {
    var p := "." + rest;
    var sc := ScanPath(p);
    assert forall k :: 1 <= k < |p| ==> p[k] == rest[k - 1];
    assert sc.end == |p| && sc.start == 0;
    assert sc.dot == -1;
  }

  /** Only the last extension counts: a name such as `photo.png.txt` is
      refused, whatever extension precedes its last one. */
  lemma LastExtensionCounts(stem: string, x: string, mime: string, size: nat)
    requires |stem| > 0 && stem[|stem| - 1] != '/'
    requires ExtShaped(x) && Lower(x) !in AllowedExtensions
    ensures FileFilter(IncomingFile(stem + x, mime, size)).Reject?
  {
    var name := stem + x;
    assert name[|stem|..|name|] == x;
    assert name[|name|..] == [];
    WitnessGivesExtname(name, x, |stem|, |name|);
  }

  // ---------------------------------------------------------------------
  // Stored file name and photo id (multer's filename callback, /upload)
  // ---------------------------------------------------------------------

  predicate IsLowerHex(c: char) {
    '0' <= c <= '9' || 'a' <= c <= 'f'
  }

  /** The text form produced by uuidv4(): 36 characters, dashes at 8, 13, 18
      and 23, version digit '4', variant digit in 8..b, lower-case hex. */
  predicate ValidUuid(u: string) {
    && |u| == 36
    && (forall i :: 0 <= i < 36 ==>
          if i == 8 || i == 13 || i == 18 || i == 23 then u[i] == '-' else IsLowerHex(u[i]))
    && u[14] == '4'
    && (u[19] == '8' || u[19] == '9' || u[19] == 'a' || u[19] == 'b')
  }

  /** The name multer stores an accepted file under: the uuid followed by the
      extension of the client's file name, with its letter case kept. */
  function StoredFilename(uuid: string, originalname: string): (filename: string)
    ensures uuid <= filename
    ensures filename[|uuid|..] == Extname(originalname)
  {
    uuid + Extname(originalname)
  }

  /** The photo id the upload handler derives from the stored file name,
      path.parse(filename).name, is exactly the uuid, because a uuid holds
      neither a dot nor a slash. */
  lemma PhotoIdIsUuid(uuid: string, originalname: string)
    requires ValidUuid(uuid)
    ensures ParseName(StoredFilename(uuid, originalname)) == uuid
  {
    var e := Extname(originalname);
    var f := uuid + e;
    assert forall i :: 0 <= i < |uuid| ==> f[i] == uuid[i] && uuid[i] != '.' && uuid[i] != '/';
    assert forall i :: |uuid| <= i < |f| ==> f[i] == e[i - |uuid|];
    var sc := ScanPath(f);
    assert sc.end == |f|;
    assert sc.start == 0;
    if e != [] {
      assert f[|uuid|] == '.';
      assert sc.dot == |uuid|;
    } else {
      assert sc.dot == -1;
    }
    assert f[..|uuid|] == uuid;
  }

  // ---------------------------------------------------------------------
  // The photoMetadata store and the handlers that use it
  // ---------------------------------------------------------------------

  datatype Metadata = Metadata(
    filename: string,
    originalName: string,
    uploadDate: string,
    size: nat,
    mimetype: string)

  /** photoMetadata: photo id to metadata, in memory only. */
  type Store = map<string, Metadata>

  datatype UploadResponse =
    | Uploaded(photoId: string, photoUrl: string, qrCode: string, filename: string)
    | NoFileUploaded          // the handler's 400 { error: 'No file uploaded' }
    | FileRejected(message: string)  // fileFilter's error, passed on by multer
    | UploadFailed            // the handler's 500 { error: 'Failed to upload photo' }

  datatype UploadResult = UploadResult(store: Store, response: UploadResponse)

  /** The HTTP status an upload answers with.  A file the filter refuses never
      reaches the handler: multer hands the error to Express's default error
      handler, which answers 500 because the error carries no status. */
  function UploadStatus(resp: UploadResponse): (code: int)
    ensures code == 200 || code == 400 || code == 500
    ensures code == 200 <==> resp.Uploaded?
    ensures code == 400 <==> resp.NoFileUploaded?
  {
    match resp
    case Uploaded(_, _, _, _) => 200
    case NoFileUploaded => 400
    case FileRejected(_) => 500
    case UploadFailed => 500
  }

  /** The photo id of an accepted file. */
  function PhotoIdOf(uuid: string, f: IncomingFile): string {
    ParseName(StoredFilename(uuid, f.originalname))
  }

  /** The record the handler stores for an accepted file. */
  function RecordOf(uuid: string, f: IncomingFile, uploadDate: string): Metadata {
    Metadata(StoredFilename(uuid, f.originalname), f.originalname, uploadDate, f.size, f.mimetype)
  }

  /** POST /upload: multer filters and names the file, then the handler
      stores its metadata and renders a QR code for the photo page.  `file` is
      req.file (None when the request carries no file), `uuid` the value
      uuidv4() returned, `uploadDate` the ISO time of the request, `origin`
      the request's protocol and host, and `qr` the QR renderer (None when it
      throws).  The metadata is stored before the QR code is rendered, so a
      renderer failure answers 500 but keeps the record. */
  function Upload(store: Store, file: Option<IncomingFile>, uuid: string, uploadDate: string,
                  origin: string, qr: string -> Option<string>): (r: UploadResult)
    ensures file.None? ==> r.store == store && r.response == NoFileUploaded
    ensures file.Some? && FileFilter(file.value).Reject? ==>
              r.store == store && r.response == FileRejected(FilterError)
    ensures file.Some? && FileFilter(file.value) == Accept ==>
              var id := PhotoIdOf(uuid, file.value);
              && r.store.Keys == store.Keys + {id}
              && r.store[id] == RecordOf(uuid, file.value, uploadDate)
              && (forall k :: k in store && k != id ==> r.store[k] == store[k])
              && (r.response.Uploaded? || r.response == UploadFailed)
    ensures r.response.Uploaded? ==>
              && r.response.photoId in r.store
              && r.store[r.response.photoId].filename == r.response.filename
              && r.response.photoUrl == origin + "/photo/" + r.response.photoId
              && Some(r.response.qrCode) == qr(r.response.photoUrl)
    ensures r.response == UploadFailed ==> qr(origin + "/photo/" + PhotoIdOf(uuid, file.value)).None?
  {
    match file
    case None => UploadResult(store, NoFileUploaded)
    case Some(f) =>
      match FileFilter(f)
      case Reject(message) => UploadResult(store, FileRejected(message))
      case Accept => StoreAccepted(store, f, uuid, uploadDate, origin, qr)
  }

  /** The handler body for a file multer accepted and stored: record the
      metadata under the parsed photo id, then render the QR code. */
  function StoreAccepted(store: Store, f: IncomingFile, uuid: string, uploadDate: string,
                         origin: string, qr: string -> Option<string>): (r: UploadResult)
    ensures var id := PhotoIdOf(uuid, f);
            && r.store.Keys == store.Keys + {id}
            && r.store[id] == RecordOf(uuid, f, uploadDate)
            && (forall k :: k in store && k != id ==> r.store[k] == store[k])
    ensures r.response.Uploaded? || r.response == UploadFailed
    ensures r.response.Uploaded? ==>
              && r.response.photoId == PhotoIdOf(uuid, f)
              && r.response.filename == StoredFilename(uuid, f.originalname)
              && r.response.photoUrl == origin + "/photo/" + r.response.photoId
              && Some(r.response.qrCode) == qr(r.response.photoUrl)
    ensures r.response == UploadFailed ==> qr(origin + "/photo/" + PhotoIdOf(uuid, f)).None?
  {
    var filename := StoredFilename(uuid, f.originalname);
    var photoId := ParseName(filename);
    var photoUrl := origin + "/photo/" + photoId;
    var stored := store[photoId := Metadata(filename, f.originalname, uploadDate, f.size, f.mimetype)];
    match qr(photoUrl)
    case None => UploadResult(stored, UploadFailed)
    case Some(code) => UploadResult(stored, Uploaded(photoId, photoUrl, code, filename))
  }

  /** The page /photo/:id renders, reduced to the values it interpolates:
      the image path, and the original name and upload date after escaping. */
  datatype PhotoView =
    | PhotoPage(photoPath: string, originalNameHtml: string, uploadDateHtml: string)
    | PhotoNotFound           // 404 page
    | ViewFailed              // 500 from Express's default error handler

  function ViewStatus(v: PhotoView): (code: int)
    ensures v.PhotoPage? <==> code == 200
    ensures v.PhotoNotFound? <==> code == 404
    ensures v.ViewFailed? <==> code == 500
  {
    match v
    case PhotoPage(_, _, _) => 200
    case PhotoNotFound => 404
    case ViewFailed => 500
  }

  /** The page for a stored record.  `localize` is the date formatting of
      `new Date(uploadDate).toLocaleString()`. */
  function PageFor(md: Metadata, localize: string -> string): (v: PhotoView)
    ensures v.PhotoPage?
    ensures v.photoPath == "/uploads/" + md.filename
    ensures Safe(v.originalNameHtml) && Safe(v.uploadDateHtml)
    ensures UnescapeHtml(v.originalNameHtml) == md.originalName
    ensures UnescapeHtml(v.uploadDateHtml) == localize(md.uploadDate)
  {
    UnescapeEscape(md.originalName);
    UnescapeEscape(localize(md.uploadDate));
    PhotoPage("/uploads/" + md.filename, EscapeHtml(md.originalName),
              EscapeHtml(localize(md.uploadDate)))
  }

  /** GET /photo/:id with the lookup restricted to the store's own keys (see
      ViewPhotoAsWritten for the lookup the server performs).  An unknown id
      gets the 404 page; a known one the page that shows /uploads/<filename>,
      with the user-supplied name escaped so that it decodes back to itself
      and cannot open markup. */
  function ViewPhoto(store: Store, id: string, localize: string -> string): (v: PhotoView)
    ensures v.PhotoNotFound? <==> id !in store
    ensures !v.ViewFailed?
    ensures v.PhotoPage? ==>
              && v.photoPath == "/uploads/" + store[id].filename
              && Safe(v.originalNameHtml)
              && UnescapeHtml(v.originalNameHtml) == store[id].originalName
              && Safe(v.uploadDateHtml)
              && UnescapeHtml(v.uploadDateHtml) == localize(store[id].uploadDate)
  {
    if id in store then PageFor(store[id], localize) else PhotoNotFound
  }

  /** The names every plain JavaScript object inherits from Object.prototype. */
  const ObjectPrototypeNames: set<string> := {
    "constructor", "__proto__", "hasOwnProperty", "isPrototypeOf",
    "propertyIsEnumerable", "toLocaleString", "toString", "valueOf",
    "__defineGetter__", "__defineSetter__", "__lookupGetter__", "__lookupSetter__"
  }

  /** GET /photo/:id as written: `photoMetadata[id]` on a plain object also
      finds the inherited Object.prototype members, which are truthy, so the
      404 guard lets them through; the page then calls escapeHtml on their
      missing `originalName`, `undefined.replace` throws, and Express answers
      500. */
  function ViewPhotoAsWritten(store: Store, id: string, localize: string -> string): (v: PhotoView)
    ensures v.PhotoNotFound? ==> id !in store
    ensures v.ViewFailed? <==> id !in store && id in ObjectPrototypeNames
  {
    if id in store then PageFor(store[id], localize)
    else if id in ObjectPrototypeNames then ViewFailed
    else PhotoNotFound
  }

  /** The as-written lookup breaks the 404 promise: /photo/constructor on an
      empty store fails with 500 where the intended answer is 404. */
  lemma PrototypeIdFailsView(localize: string -> string)
    ensures ViewPhotoAsWritten(map[], "constructor", localize) == ViewFailed
    ensures ViewPhoto(map[], "constructor", localize) == PhotoNotFound
  {
  }

  /** Outside the inherited names the two lookups agree; in particular on
      every id the upload handler creates, since a uuid is none of them. */
  lemma ViewAsWrittenAgreesOffPrototype(store: Store, id: string, localize: string -> string)
    requires id !in ObjectPrototypeNames
    ensures ViewPhotoAsWritten(store, id, localize) == ViewPhoto(store, id, localize)
  {
  }

  lemma UuidIsNoPrototypeName(uuid: string)
    requires ValidUuid(uuid)
    ensures uuid !in ObjectPrototypeNames
  {
  }

  datatype HealthReport = HealthReport(status: string, photos: nat)

  /** GET /health: status "ok" and the number of stored photos. */
  function Health(store: Store): (h: HealthReport)
    ensures h.status == "ok"
    ensures h.photos == |store|
  {
    HealthReport("ok", |store.Keys|)
  }

  // ---------------------------------------------------------------------
  // Properties relating the handlers
  // ---------------------------------------------------------------------

  /** An accepted upload is filed under its uuid, and the photo page for that
      uuid then shows the stored file /uploads/<uuid><ext>. */
  lemma UploadThenView(store: Store, f: IncomingFile, uuid: string, uploadDate: string,
                       origin: string, qr: string -> Option<string>, localize: string -> string)
    requires ValidUuid(uuid) && FileFilter(f) == Accept
    ensures var r := Upload(store, Some(f), uuid, uploadDate, origin, qr);
            && r.store.Keys == store.Keys + {uuid}
            && (r.response.Uploaded? ==> r.response.photoId == uuid)
            && ViewPhoto(r.store, uuid, localize)
               == PageFor(Metadata(uuid + Extname(f.originalname), f.originalname, uploadDate,
                                   f.size, f.mimetype), localize)
  {
    PhotoIdIsUuid(uuid, f.originalname);
  }

  /** An upload changes the page of no other photo id. */
  lemma UploadKeepsOtherViews(store: Store, file: Option<IncomingFile>, uuid: string,
                              uploadDate: string, origin: string, qr: string -> Option<string>,
                              id: string, localize: string -> string)
    requires ValidUuid(uuid) && id != uuid
    ensures ViewPhoto(Upload(store, file, uuid, uploadDate, origin, qr).store, id, localize)
            == ViewPhoto(store, id, localize)
  {
    if file.Some? {
      PhotoIdIsUuid(uuid, file.value.originalname);
    }
  }

  /** The health count grows by one with each accepted upload under a fresh
      uuid and is unchanged by a refused or empty one. */
  lemma UploadHealthCount(store: Store, file: Option<IncomingFile>, uuid: string,
                          uploadDate: string, origin: string, qr: string -> Option<string>)
    requires ValidUuid(uuid) && uuid !in store
    ensures Upload(store, file, uuid, uploadDate, origin, qr).store.Keys <= store.Keys + {uuid}
    ensures Health(Upload(store, file, uuid, uploadDate, origin, qr).store).photos
            == |store| + (if file.Some? && FileFilter(file.value) == Accept then 1 else 0)
  {
    if file.Some? && FileFilter(file.value) == Accept {
      PhotoIdIsUuid(uuid, file.value.originalname);
      var r := Upload(store, file, uuid, uploadDate, origin, qr);
      assert r.store.Keys == store.Keys + {uuid};
      assert |r.store.Keys| == |store.Keys| + 1;
    }
  }

  /** One request to /upload, with the values its environment supplied. */
  datatype UploadRequest = UploadRequest(file: Option<IncomingFile>, uuid: string,
                                         uploadDate: string, origin: string)

  /** Serves a sequence of upload requests in order. */
  function ServeUploads(store: Store, reqs: seq<UploadRequest>, qr: string -> Option<string>): Store
    decreases |reqs|
  {
    if reqs == [] then store
    else
      var q := reqs[0];
      ServeUploads(Upload(store, q.file, q.uuid, q.uploadDate, q.origin, qr).store, reqs[1..], qr)
  }

  predicate Accepted(q: UploadRequest) {
    q.file.Some? && FileFilter(q.file.value) == Accept
  }

  function AcceptedCount(reqs: seq<UploadRequest>): (n: nat)
    ensures n <= |reqs|
  {
    if reqs == [] then 0 else (if Accepted(reqs[0]) then 1 else 0) + AcceptedCount(reqs[1..])
  }

  /** With uuids that are fresh and pairwise distinct, as uuidv4 provides,
      /health after a run of uploads reports the photos present before plus
      one per accepted upload. */
  lemma {:induction false} HealthCountsAcceptedUploads(store: Store, reqs: seq<UploadRequest>,
                                                       qr: string -> Option<string>)
    requires forall i :: 0 <= i < |reqs| ==> ValidUuid(reqs[i].uuid) && reqs[i].uuid !in store
    requires forall i, j :: 0 <= i < j < |reqs| ==> reqs[i].uuid != reqs[j].uuid
    ensures Health(ServeUploads(store, reqs, qr)).photos == |store| + AcceptedCount(reqs)
    decreases |reqs|
  {
    if reqs != [] {
      var q := reqs[0];
      var r := Upload(store, q.file, q.uuid, q.uploadDate, q.origin, qr);
      UploadHealthCount(store, q.file, q.uuid, q.uploadDate, q.origin, qr);
      var tail := reqs[1..];
      assert forall i :: 0 <= i < |tail| ==> tail[i] == reqs[i + 1];
      assert forall i :: 0 <= i < |tail| ==> tail[i].uuid !in r.store;
      HealthCountsAcceptedUploads(r.store, tail, qr);
    }
  }
}
