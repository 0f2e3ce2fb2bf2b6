# Smart QR Code Generator — registry and redirect core in Dafny

This project models the backend core of the Smart QR Code Generator. The core
issues short codes for http/https URLs, stores one record per code in a JSON
file, redirects `/r/:shortCode` to the stored URL, and counts each redirect.

The model has four modules, plus `Wrappers` (`wrappers.dfy`), which holds the
`Option` type they share:

- `Base64Url` (`base64url.dfy`) is the unpadded base64url encoding of section 5
  of RFC 4648, the encoding Node's `Buffer#toString("base64url")` produces. It
  comes with a reference decoder. The decoder is used to prove that decoding an
  encoding gives the bytes back, so the encoding is injective.
- `Records` (`records.dfy`) holds the `QrRecord` datatype and the pure logic
  the store applies to its ordered collection:
  - membership of a short code;
  - `findIndex`;
  - one scan (count + 1, update time set) and a run of N scans;
  - the stable newest-first sort of the listing.
- `Store` (`store.dfy`) is the store module as a class `QrStore`. Its field
  `file` is the persisted file: missing, unparseable, not an array, or a saved
  array of records. Each store function is a method that reads and rewrites
  that field as `store.js` reads and rewrites the file. Each method is proved
  against the functions of `Records`.
- `Server` (`server.dfy`) holds the rules of the two routes that touch the
  store:
  - the short-code maker;
  - `trim`, the URL check and the `BASE_URL` normalisation;
  - the POST `/api/qrs` handler with its loop of at most five attempts;
  - the GET `/r/:shortCode` handler.

  Each handler is a method proved equal to a pure specification function,
  `Register` or `Resolve`, over the records before and after. The lemmas about
  those functions state what the routes promise.

Values the handlers take from outside are parameters, bundled in
`Server.Environment`:

- the six random bytes of each `randomBytes(6)` call, a sequence of `Draw`s;
- the UUID;
- the clock;
- the rendered QR image;
- the protocol that `new URL(value)` reports (`None` when the constructor throws).

Timestamps are integers: the instants the ISO-8601 strings denote.

## Model

| member | source | states |
|---|---|---|
| Base64Url.Symbol | backend/src/server.js:16 | every 6-bit value is written as a character of `A–Z a–z 0–9 - _`, and that character reads back as the same value |
| Base64Url.Sextets | backend/src/server.js:16 | n octets regroup into exactly `4*(n/3)` sextets plus 2 or 3 for a final partial group (no padding) |
| Base64Url.Encode | backend/src/server.js:16 | the encoding of n octets has that many symbols, all from the URL-safe alphabet |
| Base64Url.EncodeIsSymbols | backend/src/server.js:16 | encoding three octets at a time equals writing the symbols of the whole bit regrouping |
| Base64Url.ValuesOfSymbols | backend/src/server.js:16 | reading back the symbols written for a run of sextets gives that run |
| Base64Url.OctetsOfSextets | backend/src/server.js:16 | regrouping octets into sextets and back gives the octets, for every length |
| Base64Url.RoundTrip | backend/src/server.js:16 | decoding the encoding of any octets gives those octets |
| Base64Url.EncodeInjective | backend/src/server.js:16 | distinct octet strings have distinct encodings |
| Base64Url.EncodeOneGroup | backend/src/server.js:16 | three octets are written as the four symbols of their 6-bit regrouping |
| Base64Url.EncodesFoo | backend/src/server.js:16 | the octets of "foo" encode to "Zm9v", the value in section 10 of RFC 4648 |
| Base64Url.EncodesBar | backend/src/server.js:16 | the octets of "bar" encode to "YmFy" |
| Base64Url.EncodesFoobar | backend/src/server.js:16 | the octets of "foobar" encode to "Zm9vYmFy", the value in section 10 of RFC 4648 |
| Base64Url.EncodesUrlSafeSymbols | backend/src/server.js:16 | the octets fb ff bf encode to "-_-_": sextets 62 and 63 use the URL-safe `-` and `_` of section 5 of RFC 4648, not `+` and `/` |
| Server.MakeShortCode | backend/src/server.js:15-17 | a short code is exactly 8 characters, all URL-safe |
| Server.ShortCodeIsEncoding | backend/src/server.js:16 | 6 bytes encode to exactly 8 characters, so `.slice(0, 8)` removes nothing |
| Server.ShortCodeInjective | backend/src/server.js:15-17 | distinct draws of 6 bytes give distinct short codes |
| Server.RequestUrl | backend/src/server.js:45 | a body whose `url` is missing or not a string gives ""; a string gives the trimmed string: the part left after cutting its leading and trailing white space, so that everything cut is white space and the result neither starts nor ends with white space |
| Server.IsValidHttpUrl | backend/src/server.js:26-33 | a URL is valid exactly when the URL parser, the `protocolOf` parameter, accepts it and reports `http:` or `https:` as its protocol |
| Server.Trim | backend/src/server.js:45 | `trim()` returns the longest middle part of the string that neither starts nor ends with white space; everything cut is white space; the result is empty exactly when the string is all white space |
| Server.StripTrailingSlash | backend/src/server.js:12 | `.replace(/\/$/, "")` removes exactly one trailing `/` when there is one and otherwise returns the string unchanged; the result still ends in `/` only when the input ended in `//` |
| Server.Decimal | backend/src/server.js:12 | the port is rendered as a non-empty run of decimal digits, without a leading zero, whose decimal value is the port |
| Server.ConfiguredBaseUrl | backend/src/server.js:11-12 | an unset or empty BASE_URL falls back to `http://localhost:` and the port; a set one is kept, minus its one trailing `/` |
| Server.LastSegment | backend/src/server.js:90 | the part of a path after its last `/` is a suffix with no `/` in it, and it is the whole path or is preceded by a `/` |
| Server.TrackedUrlEndsInCode | backend/src/server.js:66 | the last segment of `BASE_URL + "/r/" + code`, the segment the `/r/:shortCode` route binds, is the code when the code has no `/` |
| Server.MadeCodeRoundTrips | backend/src/server.js:66 | every generated code is recovered from its tracked URL |
| Server.FreeCode | backend/src/server.js:53-60 | the code the attempt loop settles on is one that no stored record carries, of length 8 |
| Server.FreeCodeNone | backend/src/server.js:53-64 | the loop finds nothing exactly when the codes of all remaining attempts are taken |
| Server.FreeCodeSome | backend/src/server.js:53-60 | a code the loop finds is the code of some attempt k below 5, every earlier attempt's code being taken |
| Server.NewRecord | backend/src/server.js:66-80 | the record built for a free code holds the UUID, the trimmed URL, the code, the clock time, count 0 and no update time; its tracked URL is `BASE_URL + "/r/" + code` and its image is the rendering of that URL |
| Server.Register | backend/src/server.js:43-88 | a response other than 201 leaves the records as they were; a 201 appends the returned record, whose code was not stored |
| Server.RegisterRejects | backend/src/server.js:45-51 | a URL that is missing, not a string, blank after trimming, or not http/https gets 400 with the fixed message, and the store is unchanged; every other URL does not get 400 |
| Server.RegisterExhausts | backend/src/server.js:53-64 | a valid URL gets 500 exactly when the codes of all five draws are taken, and then no record is created |
| Server.RegisterCreates | backend/src/server.js:66-84 | a created record holds the trimmed URL, the UUID, the clock time, count 0, no update time, `trackedUrl == BASE_URL + "/r/" + shortCode` and an 8-character code free before the call (the first free code among the five draws); it is appended to the store |
| Server.RegisterKeepsUnique | backend/src/server.js:53-82 | because the check comes before the append, registration keeps the short codes of the store unique |
| Server.PickShortCode | backend/src/server.js:53-60 | the attempt loop returns the code that FreeCode specifies, or "" when all five are taken, and leaves the store file holding an array with the same records |
| Server.PostQrs | backend/src/server.js:43-88 | the handler's response and the records afterwards are those of `Register`; a 400 does not touch the store file |
| Server.Resolve | backend/src/server.js:90-99 | an unknown code gets 404 "QR code not found" and no change; a known code gets a 302 to its record's `originalUrl`, and that record's count rises by exactly one and its update time becomes the clock time; nothing but that record's scanCount and updatedAt changes |
| Server.GetRedirect | backend/src/server.js:90-99 | the handler's response and the records afterwards are those of `Resolve` |
| Server.RegisterThenResolve | backend/src/server.js:43-99 | a code just registered sits at the end of the store, and N resolutions of it each redirect to the submitted URL, with counts 1..N |
| Records.HasCodeIsMembership | backend/src/store.js:44 | a code is present (some stored record carries it) exactly when it is in the set of the stored records' short codes |
| Records.ScanValue | backend/src/store.js:65 | the count a scan starts from: a missing count reads as 0, a present one as itself |
| Records.Scanned | backend/src/store.js:62-67 | the updated record keeps every field except `scanCount`, which is the old count plus one, and `updatedAt`, which is the clock time |
| Records.FindIndex | backend/src/store.js:56 | the index is -1 exactly when no record has the code; otherwise it is the first record with the code |
| Records.ApplyScan | backend/src/store.js:54-73 | a miss returns None and changes nothing. A hit changes only the first matching record: its count becomes the old one (a missing count read as 0) plus one, and its update time is set. Every other field, every other record and the length stay the same. The record returned is the one stored |
| Records.ScanKeepsCodes | backend/src/store.js:62-69 | a scan leaves every record's short code in place |
| Records.ScanKeepsIndex | backend/src/store.js:54-73 | after a scan the code is found at the same index, and unique codes stay unique |
| Records.RepeatedScans | backend/src/store.js:54-73 | N scans of a stored code raise its count by exactly N; the k-th call returns the old count plus k; returned counts strictly increase; nothing but that record's scanCount and updatedAt changes |
| Records.ScansOfAppended | backend/src/store.js:47-73 | N scans of the code of a record just appended with a fresh code find it at the end each time; each returns that record's URL and the counts run from its old count plus 1 up to plus N |
| Records.AppendFreshKeepsUnique | backend/src/store.js:47-52 | appending a record whose code is not stored keeps codes unique, and the code is then stored |
| Records.AppendDuplicateBreaksUnique | backend/src/store.js:47-52 | the append does no duplicate check: appending a record twice leaves two records with one code |
| Records.Insert | backend/src/store.js:37-41 | inserting into a newest-first sequence keeps it newest first and adds exactly that record |
| Records.SortNewestFirst | backend/src/store.js:37-41 | the listing is ordered by `createdAt`, newest first, and is a permutation of the stored records |
| Records.InsertKeepsTies | backend/src/store.js:37-41 | insertion keeps records of equal `createdAt` in the order they had |
| Records.SortKeepsTies | backend/src/store.js:37-41 | the sort is stable: records created at the same instant keep their stored order |
| Records.ListingOfThree | backend/src/store.js:37-41 | records stored oldest first (t1 < t2 < t3) are listed as t3, t2, t1 |
| Store.Contents | backend/src/store.js:17-29 | a saved array reads as its records; a missing, unparseable or non-array file reads as no records |
| Store.QrStore.constructor | backend/src/store.js:4 | a store over the given file state |
| Store.QrStore.EnsureStoreFile | backend/src/store.js:6-12 | a missing file is created holding `[]`; an existing file is untouched |
| Store.QrStore.ReadAll | backend/src/store.js:14-30 | a saved array is returned as it is and left unchanged; a missing, unparseable or non-array file reads as no records and is reset to `[]` |
| Store.QrStore.WriteAll | backend/src/store.js:32-35 | the file afterwards holds exactly the given records |
| Store.QrStore.ListQrs | backend/src/store.js:37-41 | returns the stable newest-first sort of the stored records: sorted, and a permutation of them |
| Store.QrStore.HasShortCode | backend/src/store.js:43-45 | true exactly when some stored record has the code; the records are unchanged |
| Store.QrStore.CreateQr | backend/src/store.js:47-52 | the stored records become the old ones with the record appended at the end, and the record is returned unchanged |
| Store.QrStore.IncrementScanCount | backend/src/store.js:54-73 | the returned record and the records afterwards are those of `ApplyScan`: a miss returns None and keeps the records; a hit returns the updated record, stored at the first matching index |

## Left out

- The file system and JSON (de)serialisation in `store.js` (`mkdirSync`, `readFileSync`, `writeFileSync`, `JSON.parse` and `JSON.stringify`) are not modelled. The file is its parsed content.
- Elements of a saved array that are not well-formed records are not modelled. Neither are a `scanCount` that `Number(...)` would turn into something other than a number, nor a `createdAt` that parses to an invalid date (a NaN comparison).
- ISO-8601 date strings are not modelled. `createdAt` and `updatedAt` are the instants they denote, as integers, and the clock is a parameter.
- `randomBytes` and `randomUUID` are parameters, not randomness. The handler requires at least five draws, one per attempt.
- The WHATWG URL parser behind `new URL(value)` is not modelled. The protocol it reports is a parameter (`protocolOf`).
- `QRCode.toDataURL` is not modelled. The rendered image is a function parameter of the tracked URL, and its failure (a rejected promise sent to the error middleware) is not modelled.
- Express routing, CORS, dotenv, `express.json()`, `app.listen`, the `/api/health` route and the error middleware are left out as I/O plumbing.
- The GET `/api/qrs` route is just `ListQrs`, so it has no separate member.
- `PORT` is not parsed from the environment. It is taken as a natural number, so a non-numeric `PORT` (NaN) is not modelled.
- String handling is over Unicode scalar values rather than UTF-16 code units. `trim` removes the white space and line terminators that ECMAScript defines.
- Concurrency is not modelled. The handlers run one at a time, so a second request arriving between the code check and `createQr` (across the `await` of the QR rendering) is outside the model. The source has no duplicate check at commit, no validation inside `createQr`, and no atomic increment, so the model follows the code:
  - `CreateQr` appends without checking (`Records.AppendDuplicateBreaksUnique`);
  - uniqueness holds only because `PostQrs` checks before it appends, run sequentially (`Server.RegisterKeepsUnique`).
- Records.RepeatedScans: counts are unbounded integers. JavaScript numbers are doubles, so above 2^53 `+ 1` stops changing the count; that ceiling is not modelled, and the strict increase of returned counts holds of the model only. The same holds for Records.ApplyScan and Records.Scanned.
- Server.TrackedUrlEndsInCode: the route binds the last path segment of the request path only when `BASE_URL` has no path part. With a path part (for example `https://host/app`), Express would see `/app/r/<code>`, which `/r/:shortCode` does not match. Proxies and path rewriting are not modelled.
- Server.ConfiguredBaseUrl is the rule for `BASE_URL`. The handlers take the result as `Environment.baseUrl` and do not recompute it.
- The frontend (`frontend/src/App.jsx`) is not part of this model.
