# Photobooth photo server, modelled in Dafny

A model of the photo-upload server of a live-event photobooth (`server.js`)
and of its logging helper (`utils/logger.js`).

The server accepts one image per `POST /upload`. A multer file filter admits
it only with an image MIME type and an image extension. The file is stored as
`<uuid><extension>`, and its metadata goes into an in-memory map keyed by the
photo id. The server then answers with a link to `/photo/<id>` and a QR code
for that link. `GET /photo/:id` renders the photo page, with the user-supplied
file name passed through `escapeHtml`, or a 404 page. `GET /health` reports
how many photos are stored. The logger formats `[timestamp] [LEVEL] message
data` lines. Each line goes to the console in the level's colour and, without
colour, to a log file. `debug` lines are written only when `DEBUG` is set.

Files:

- `wrappers.dfy`: `Option`.
- `html_escape.dfy` (module `HtmlEscape`): `escapeHtml`, an entity decoder,
  and the output-safety, round-trip, identity and concatenation properties.
- `node_path.dfy` (module `NodePath`): Node's POSIX `path.extname` and
  `path.parse(..).name`, modelled as a backwards scan from the end of the
  path. `extname` follows Node's scan exactly. `parse` scans an absolute
  path only down to index 1, so on `/..` it finds the name `.` and the
  extension `.`, where `extname` finds no extension. The model keeps that
  difference and proves it is the only one. The module also holds a
  reference definition of "has extension x". For every x that is a dot
  followed by non-dot, non-slash characters (the lone `.` included), it is
  proved equivalent to `extname`, except that the base name `..` has no
  extension. A separate lemma states when `extname` is empty.
- `photo_server.dfy` (module `PhotoServer`): the file filter, the stored file
  name, the metadata store, the three handlers, and lemmas relating them.
- `logger.dfy` (module `Logger`): `formatLogMessage`, colours,
  `logToConsole`, and the exported `logger` methods over a growing console and
  file output.

Parameters stand in for what the code obtains from outside:

- `uuid` is the value `uuidv4()` returned.
- `uploadDate`, `timestamp`, `consoleTime` and `fileTime` are clock readings.
- `origin` is `req.protocol://host`.
- `qr` is `QRCode.toDataURL`. It returns `None` when it throws.
- `localize` is `toLocaleString`.
- `stringify` is `JSON.stringify`.
- `debugEnv` is `process.env.DEBUG`.

## Model

| member | source | states |
|---|---|---|
| HtmlEscape.EntityFor | server.js:53-59 | each of the five special characters maps to a longer entity, opened by `&` and closed by `;`; every other character maps to itself alone |
| HtmlEscape.EscapeHtml | server.js:52-61 | the output is at least as long as the input, contains none of `< > " '`, and every `&` in it starts one of `&amp; &lt; &gt; &quot; &#039;` |
| HtmlEscape.UnescapeEntity | server.js:53-59 | the decoder reads each table entry back as its character, whatever text follows |
| HtmlEscape.UnescapeEscape | server.js:53-60 | decoding the five entities in the output gives back the input exactly |
| HtmlEscape.EscapeIdentityIff | server.js:60 | the output equals the input if and only if the input holds none of `& < > " '` |
| HtmlEscape.EscapeConcat | server.js:60 | escaping distributes over concatenation, as a global one-character-class replace does |
| NodePath.Extname | server.js:22 | the extension is empty or one dot followed by characters that are neither dots nor slashes |
| NodePath.ParseName | server.js:74 | the parsed name never contains a slash |
| NodePath.ParseNameIsBaseWithoutExt | server.js:74 | parse's name followed by parse's extension is the base name: the maximal run of non-slash characters that starts the path or follows a slash, ends at a non-slash (or at the start) and has only slashes after it |
| NodePath.BaseSpanUnique | server.js:74 | every path has at most one such base-name span, so the lemma above pins the name and extension |
| NodePath.ParseNameWithoutSlashes | server.js:74 | on a path without slashes, the name followed by the extname extension is the whole path |
| NodePath.ParseExtAgreesWithExtname | server.js:22 | parse's extension equals extname's on every path except `/..` followed only by slashes |
| NodePath.ParseOfRootDotDot | server.js:74 | `path.parse('/..')` gives the name `.` and the extension `.`, while `path.extname('/..')` is empty |
| NodePath.ExtnameCharacterization | server.js:30 | for every x made of a dot and then characters that are neither dots nor slashes (the lone `.` included), extname returns x exactly when x follows a non-slash character and only slashes come after it, except that the base name `..` has no extension |
| NodePath.ExtnameEmptyIff | server.js:30 | extname is empty exactly when the base name is `..` or no dot-led suffix of the base name follows one of its characters: the base name has no dot, or only a leading one |
| NodePath.DotDotHasNoExtension | server.js:30 | a path whose base name is `..`, with any trailing slashes, has no extension |
| PhotoServer.Lower | server.js:30 | lower-casing keeps the length and changes exactly the letters A-Z |
| PhotoServer.FileFilter | server.js:27-38 | a rejection always carries the message "Only image files (JPEG, PNG, GIF, WebP) are allowed!" |
| PhotoServer.FileFilterAcceptsIff | server.js:29-37 | the filter accepts exactly when the MIME type is one of the four image types and the name ends, ignoring case, in one of the five image extensions; otherwise it rejects |
| PhotoServer.UpperCaseExtensionAccepted | server.js:30-34 | `IMG_0001.JPG` declared as `image/jpeg` is accepted: the extension test ignores case |
| PhotoServer.UpperCaseMimeRejected | server.js:33-36 | a file declared as `image/PNG` is rejected, whatever its name: the MIME test is exact |
| PhotoServer.TextMimeRejected | server.js:33-36 | a file declared as `text/plain` is rejected even when named `*.png`: both tests are required |
| PhotoServer.DotLedNameRejected | server.js:30-36 | a name made of one leading dot followed by no dot or slash, such as `.png`, has no extension and is rejected |
| PhotoServer.LastExtensionCounts | server.js:30-36 | a name whose last extension is not allowed, such as `photo.png.txt`, is rejected whatever extension comes before it |
| PhotoServer.StoredFilename | server.js:20-24 | the stored name starts with the uuid, and the rest is the original name's extension with its case kept |
| PhotoServer.PhotoIdIsUuid | server.js:74 | for every uuidv4-shaped uuid, `path.parse(uuid + ext).name` is the uuid itself |
| PhotoServer.UploadStatus | server.js:68-107 | status 200 exactly for a success, 400 exactly for a missing file, 500 otherwise |
| PhotoServer.Upload | server.js:68-107 | no file: 400 and the store is unchanged; filter rejection: the store is unchanged; acceptance adds exactly the key `photoId` with {filename, originalName, uploadDate, size, mimetype} and changes no other key; a success returns an id that is in the store with the returned filename, the `/photo/<id>` URL and its QR code; a QR failure answers 500 |
| PhotoServer.StoreAccepted | server.js:74-102 | for an accepted file, the store gains exactly the parsed photo id, holding {filename, originalName, uploadDate, size, mimetype}, and no other key changes; the response is a success carrying that id, the stored filename, `<origin>/photo/<id>` and its QR code, or a 500 exactly when the QR renderer fails |
| PhotoServer.PageFor | server.js:163-268 | the page shows `/uploads/<filename>`; it interpolates markup-safe text for the name and the date; the name text decodes back to the stored original name and the date text to the localized upload date |
| PhotoServer.ViewPhoto | server.js:110-115 | intended lookup: not-found exactly when the id is not a key; otherwise the page serves `/uploads/<filename>` with the escaped name and the escaped localized upload date, each decoding back to its value |
| PhotoServer.ViewStatus | server.js:114-115 | 200 exactly for a page, 404 exactly for not-found, 500 exactly for a failed page |
| PhotoServer.ViewPhotoAsWritten | server.js:111-114 | lookup as written: fails with 500 exactly when the id is not a key but names an Object.prototype member; 404 only for ids not in the store |
| PhotoServer.PrototypeIdFailsView | server.js:112-114 | `/photo/constructor` on an empty store fails as written and is not-found in the intended lookup |
| PhotoServer.ViewAsWrittenAgreesOffPrototype | server.js:112-114 | away from the inherited names, the lookup as written and the intended one agree |
| PhotoServer.UuidIsNoPrototypeName | server.js:21 | no uuid is an inherited Object.prototype name, so uploaded ids never take the failing path |
| PhotoServer.Health | server.js:279-281 | the health report's status is "ok" and its photo count is the number of keys in the store |
| PhotoServer.UploadThenView | server.js:74-84 | after an accepted upload, the store gains exactly the uuid key, a successful response names the uuid, and `/photo/<uuid>` shows `/uploads/<uuid><ext>` |
| PhotoServer.UploadKeepsOtherViews | server.js:78-84 | an upload leaves the page of every other id unchanged |
| PhotoServer.UploadHealthCount | server.js:280 | with a fresh uuid, the health count grows by one for an accepted upload and is unchanged otherwise |
| PhotoServer.HealthCountsAcceptedUploads | server.js:279-281 | after a run of uploads with fresh distinct uuids, health reports the earlier count plus the number of accepted uploads |
| Logger.TypeOf | utils/logger.js:40 | `typeof` is "object" exactly for null and objects |
| Logger.NatToString | utils/logger.js:43 | a number's decimal text is non-empty, all digits, and without a leading zero |
| Logger.NatToStringValue | utils/logger.js:43 | the decimal text denotes the number again |
| Logger.IntToString | utils/logger.js:43 | an integer's text is non-empty, has a leading `-` exactly when it is negative, is otherwise all digits with no leading zero (0 is the single digit `0`), and the digits denote the integer's magnitude |
| Logger.ToJsString | utils/logger.js:43 | the string form of a primitive is empty only for the empty string; a string is itself; a number (an integer of magnitude at most 2^53) has as text its decimal digits with no leading zero, preceded by `-` when negative, and those digits denote the number |
| Logger.FormatLogMessage | utils/logger.js:35-48 | the line always starts with `[ts] [level] msg`; falsy data appends nothing; object data appends a space and its serialisation; other truthy data appends a space and its string form |
| Logger.FalsyDataAppendsNothing | utils/logger.js:39 | the line is exactly the prefix if and only if data is falsy (null, undefined, false, 0, NaN, "") |
| Logger.TimestampRecoverable | utils/logger.js:36-37 | a timestamp without `]` is recovered as the text between the first `[` and the first `]` |
| Logger.Color | utils/logger.js:25-31 | the five levels get a five-character ANSI colour code; any other level gets the empty string |
| Logger.ConsoleLine | utils/logger.js:58-62 | the console text is the level's colour, then the formatted line, then the reset code |
| Logger.LevelOf | utils/logger.js:17-23 | every method logs under one of the five level names |
| Logger.LevelOfInjective | utils/logger.js:17-23 | distinct methods log under distinct levels |
| Logger.Log | utils/logger.js:64-91 | debug without DEBUG changes nothing; every other call appends one console line and one file line, built from the same level, message and data |
| Logger.ConsoleMatchesFile | utils/logger.js:65-67 | with equal clock readings, the new console line with its colour codes removed, plus a newline, is exactly the text appended to the file |
| Logger.ConsoleLineCount | utils/logger.js:64-91 | over any run of calls, the console gains one line per call that is not a suppressed debug call, and earlier output is kept |

## Findings

| source | as written | input that shows it | evidently intended | confidence | as-written member | corrected member |
|---|---|---|---|---|---|---|
| server.js:112-114 | `photoMetadata[photoId]` reads a plain object, so inherited Object.prototype members are found. They are truthy, so they pass the 404 guard. The page then calls `escapeHtml(undefined)`, which throws, and Express answers 500 | `GET /photo/constructor`, also `__proto__`, `toString` and similar names | a 404 page for every id that is not a stored photo | not executed; high | PhotoServer.ViewPhotoAsWritten | PhotoServer.ViewPhoto |

## Left out

- `public/app.js`, `public/remote.js` and `Testing/server.test.js` call `/api/session/*` routes, which `server.js` does not implement, so they are not modelled.
- Multer's disk storage, multipart parsing, the `destination` callback and its unexpected-field errors are library plumbing.
- The 10 MiB size limit is not modelled: an over-size file is treated like any other accepted file.
- `uuidv4`, `new Date()`, `toLocaleString`, `QRCode.toDataURL`, `JSON.stringify` and `process.env.DEBUG` are foreign calls and become parameters.
- The HTML templates are left out, except the values they interpolate: the image path and the escaped name and date.
- Static file serving and `app.listen` are I/O.
- PhotoServer.Lower: models `toLowerCase` on ASCII letters only. The only non-ASCII characters that lower-case to letters of the allowed extensions do so with an extra combining character, so the filter's decisions are unaffected.
- NodePath.Extname: models Node's POSIX path rules only. Windows drive letters and backslashes are not handled.
- Logger.Log: the log file's directory creation, its date-stamped name, and the `console.error` fallback when an append fails are I/O.
- Logger.FormatLogMessage: `data` covers undefined, null, booleans, NaN, Infinity and -Infinity, strings, objects, and integers of magnitude at most 2^53, which JavaScript numbers hold exactly. Larger integers are not modelled: up to 10^21 `${data}` writes the double's shortest round-trip digits padded with zeros (2^60 prints as `1152921504606847000`), and from 10^21 on it uses exponent form (`1e+21`). Fractional numbers, BigInt, symbols (`${symbol}` throws) and functions are not modelled. The serialiser is a parameter, so a throwing or `undefined` JSON.stringify is not modelled.
- Logger.Color: a level text that names an Object.prototype member would pick up the inherited member. The logger only ever passes the five level names, so the model keeps to the table.
- The unused fields of multer's file record (path, destination, encoding, field name) are not modelled.
