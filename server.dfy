/** The registration and resolution rules of the backend: how a short code is
    made, how the configured base URL and the submitted URL are normalised,
    the POST /api/qrs handler with its bounded search for an unused code, and
    the GET /r/:shortCode redirect.

    What the handlers obtain from outside the model is passed in: the six
    random bytes of each draw, the UUID, the clock, the rendered QR image and
    the protocol the URL parser reports. Handlers run one at a time. */
module Server {
  import opened Wrappers
  import opened Records
  import opened Store
  import Base64Url

  const MaxAttempts := 5
  const ShortCodeLength := 8
  const InvalidUrlError := "Please provide a valid URL starting with http:// or https://"
  const ExhaustedError := "Could not generate a unique QR code"
  const NotFoundText := "QR code not found"

  // ---------------------------------------------------------------------------
  // Short codes

  /** What one call of randomBytes(6) returns. */
  type Draw = b: seq<Base64Url.Byte> | |b| == 6 witness [0, 0, 0, 0, 0, 0]

  function Min(a: int, b: int): int { if a < b then a else b }

  /** base64url of the six bytes, cut to at most eight characters: eight
      characters of the URL-safe alphabet. */
  function MakeShortCode(draw: Draw): (code: string)
    ensures |code| == ShortCodeLength
    ensures forall i :: 0 <= i < |code| ==> Base64Url.IsUrlSafe(code[i])
  {
    var encoded := Base64Url.Encode(draw);
    encoded[..Min(ShortCodeLength, |encoded|)]
  }

  /** Six bytes encode to exactly eight characters, so the cut removes nothing. */
  lemma ShortCodeIsEncoding(draw: Draw)
    ensures MakeShortCode(draw) == Base64Url.Encode(draw)
    ensures |Base64Url.Encode(draw)| == ShortCodeLength
  {
  }

  /** Distinct draws give distinct short codes. */
  lemma ShortCodeInjective(a: Draw, b: Draw)
    ensures MakeShortCode(a) == MakeShortCode(b) ==> a == b
  {
    ShortCodeIsEncoding(a);
    ShortCodeIsEncoding(b);
    Base64Url.EncodeInjective(a, b);
  }

  // ---------------------------------------------------------------------------
  // Strings: trimming, BASE_URL, the tracked URL

  /** The characters String.prototype.trim removes: ECMAScript WhiteSpace and LineTerminator. */
  predicate IsTrimmable(c: char) {
    c == '\t' || c == '\n' || c == '\U{000B}' || c == '\U{000C}' || c == '\r' || c == ' ' ||
    c == '\U{00A0}' || c == '\U{1680}' || ('\U{2000}' <= c <= '\U{200A}') ||
    c == '\U{2028}' || c == '\U{2029}' || c == '\U{202F}' || c == '\U{205F}' ||
    c == '\U{3000}' || c == '\U{FEFF}'
  }

  /** Number of trimmable characters at the start of s. */
  function LeadingSpace(s: string): (n: nat)
    ensures n <= |s|
    ensures forall k :: 0 <= k < n ==> IsTrimmable(s[k])
    ensures n < |s| ==> !IsTrimmable(s[n])
    decreases |s|
  {
    if s != [] && IsTrimmable(s[0]) then 1 + LeadingSpace(s[1..]) else 0
  }

  /** Number of trimmable characters at the end of s. */
  function TrailingSpace(s: string): (n: nat)
    ensures n <= |s|
    ensures forall k :: |s| - n <= k < |s| ==> IsTrimmable(s[k])
    ensures n < |s| ==> !IsTrimmable(s[|s| - n - 1])
    decreases |s|
  {
    if s != [] && IsTrimmable(s[|s| - 1]) then 1 + TrailingSpace(s[..|s| - 1]) else 0
  }

  /** String.prototype.trim: s without its leading and trailing white space. */
  function Trim(s: string): (r: string)
    ensures LeadingSpace(s) + |r| <= |s|
    ensures r == s[LeadingSpace(s)..LeadingSpace(s) + |r|]
    ensures forall k :: 0 <= k < |s| && !(LeadingSpace(s) <= k < LeadingSpace(s) + |r|) ==> IsTrimmable(s[k])
    ensures r != [] ==> !IsTrimmable(r[0]) && !IsTrimmable(r[|r| - 1])
    ensures r == [] <==> forall k :: 0 <= k < |s| ==> IsTrimmable(s[k])
  {
    var rest := s[LeadingSpace(s)..];
    rest[..|rest| - TrailingSpace(rest)]
  }

  predicate EndsWithSlash(s: string) {
    |s| > 0 && s[|s| - 1] == '/'
  }

  /** `.replace(/\/$/, "")`: drops one '/' at the very end, if there is one. */
  function StripTrailingSlash(s: string): (r: string)
    ensures r <= s
    ensures |r| == if EndsWithSlash(s) then |s| - 1 else |s|
    ensures EndsWithSlash(r) <==> EndsWithSlash(s) && |s| >= 2 && s[|s| - 2] == '/'
  {
    if EndsWithSlash(s) then s[..|s| - 1] else s
  }

  function DigitChar(d: int): (c: char)
    requires 0 <= d < 10
    ensures '0' <= c <= '9' && c as int - '0' as int == d
  {
    ('0' as int + d) as char
  }

  /** The number a run of decimal digits denotes, most significant digit first. */
  function NumeralValue(r: string): nat
    requires forall i :: 0 <= i < |r| ==> '0' <= r[i] <= '9'
    decreases |r|
  {
    if r == [] then 0 else NumeralValue(r[..|r| - 1]) * 10 + (r[|r| - 1] as int - '0' as int)
  }

  /** The decimal numeral of n, as a template literal renders a port number:
      digits that denote n, with no leading zero. */
  function Decimal(n: nat): (r: string)
    ensures r != []
    ensures forall i :: 0 <= i < |r| ==> '0' <= r[i] <= '9'
    ensures NumeralValue(r) == n
    ensures r[0] == '0' ==> r == "0"
    decreases n
  {
    if n < 10 then [DigitChar(n)]
    else
      var front := Decimal(n / 10);
      var r := front + [DigitChar(n % 10)];
      assert r[..|r| - 1] == front;
      r
  }

  /** BASE_URL: the configured value (an unset or empty one falls back to
      http://localhost:PORT) with one trailing '/' removed. */
  function ConfiguredBaseUrl(configured: Option<string>, port: nat): (r: string)
    ensures configured.None? || configured == Some("") ==> r == "http://localhost:" + Decimal(port)
    ensures configured.Some? && configured.value != "" ==> r + (if EndsWithSlash(configured.value) then "/" else "") == configured.value
  {
    var chosen := if configured.Some? && configured.value != "" then configured.value else "http://localhost:" + Decimal(port);
    StripTrailingSlash(chosen)
  }

  /** The redirect link of a short code. */
  function TrackedUrl(baseUrl: string, code: string): string {
    baseUrl + "/r/" + code
  }

  /** The text after the last '/' of s (all of s when it has none). */
  function LastSegment(s: string): (r: string)
    ensures |r| <= |s| && r == s[|s| - |r|..]
    ensures forall i :: 0 <= i < |r| ==> r[i] != '/'
    ensures |r| == |s| || s[|s| - |r| - 1] == '/'
    decreases |s|
  {
    if s == [] || s[|s| - 1] == '/' then [] else LastSegment(s[..|s| - 1]) + [s[|s| - 1]]
  }

  /** The last path segment of a tracked URL, the part the /r/:shortCode route
      binds, is the short code whenever the code holds no '/'. */
  lemma {:induction false} TrackedUrlEndsInCode(baseUrl: string, code: string)
    requires forall i :: 0 <= i < |code| ==> code[i] != '/'
    ensures LastSegment(TrackedUrl(baseUrl, code)) == code
    decreases |code|
  {
    var url := TrackedUrl(baseUrl, code);
    if code == [] {
      assert url[|url| - 1] == '/';
    } else {
      var shorter := code[..|code| - 1];
      var last := code[|code| - 1];
      TrackedUrlEndsInCode(baseUrl, shorter);
      assert url == TrackedUrl(baseUrl, shorter) + [last];
      assert url[..|url| - 1] == TrackedUrl(baseUrl, shorter);
      assert url[|url| - 1] == last != '/';
      assert code == shorter + [last];
    }
  }

  /** Every short code made from a draw is recovered from its tracked URL. */
  lemma MadeCodeRoundTrips(baseUrl: string, draw: Draw)
    ensures LastSegment(TrackedUrl(baseUrl, MakeShortCode(draw))) == MakeShortCode(draw)
  {
    TrackedUrlEndsInCode(baseUrl, MakeShortCode(draw));
  }

  // ---------------------------------------------------------------------------
  // Requests and responses

  /** The `url` member of the request body. */
  datatype UrlField = Absent | NotAString | Text(value: string)

  /** The submitted URL: the trimmed string, or "" when the member is missing or not a string. */
  function RequestUrl(field: UrlField): (url: string)
    ensures !field.Text? ==> url == ""
    ensures field.Text? ==> LeadingSpace(field.value) + |url| <= |field.value| && url == field.value[LeadingSpace(field.value)..LeadingSpace(field.value) + |url|]
    ensures field.Text? ==> forall k :: 0 <= k < |field.value| && !(LeadingSpace(field.value) <= k < LeadingSpace(field.value) + |url|) ==> IsTrimmable(field.value[k])
    ensures field.Text? ==> url == Trim(field.value)
    ensures url != [] ==> !IsTrimmable(url[0]) && !IsTrimmable(url[|url| - 1])
  {
    if field.Text? then Trim(field.value) else ""
  }

  /** isValidHttpUrl: the URL parser accepts the value and reports the
      protocol "http:" or "https:". protocolOf stands for `new URL(value).protocol`,
      None when the constructor throws. */
  predicate IsValidHttpUrl(protocolOf: string -> Option<string>, value: string)
    ensures IsValidHttpUrl(protocolOf, value) ==> protocolOf(value).Some?
    ensures IsValidHttpUrl(protocolOf, value) ==> protocolOf(value).value in {"http:", "https:"}
    ensures protocolOf(value) in {Some("http:"), Some("https:")} ==> IsValidHttpUrl(protocolOf, value)
  {
    protocolOf(value) == Some("http:") || protocolOf(value) == Some("https:")
  }

  datatype Response =
    | Created(record: QrRecord)      // 201, JSON { data: record }
    | BadRequest(error: string)      // 400, JSON { error }
    | ServerError(error: string)     // 500, JSON { error }
    | NotFound(text: string)         // 404, plain text
    | Redirect(location: string)     // 302 to location
  {
    function Status(): int {
      match this
      case Created(_) => 201
      case BadRequest(_) => 400
      case ServerError(_) => 500
      case NotFound(_) => 404
      case Redirect(_) => 302
    }
  }

  /** Everything the registration handler takes from outside the model. */
  datatype Environment = Environment(
    baseUrl: string,                         // BASE_URL, that is ConfiguredBaseUrl(BASE_URL setting, PORT)
    protocolOf: string -> Option<string>,    // the URL parser, see IsValidHttpUrl
    draws: seq<Draw>,                        // randomBytes(6), call after call
    newId: string,                           // randomUUID()
    now: int,                                // the clock when the record is made
    render: string -> string)                // QRCode.toDataURL of the tracked URL

  // ---------------------------------------------------------------------------
  // Registration

  /** The handler's search for an unused code, from the given attempt on: the
      code of the first draw whose code no record carries, or None when the
      codes of all the remaining attempts are taken. */
  function FreeCode(records: seq<QrRecord>, draws: seq<Draw>, attempt: nat): (code: Option<string>)
    requires attempt <= MaxAttempts <= |draws|
    ensures code.Some? ==> !HasCode(records, code.value) && |code.value| == ShortCodeLength
    decreases MaxAttempts - attempt
  {
    if attempt == MaxAttempts then None
    else if !HasCode(records, MakeShortCode(draws[attempt])) then Some(MakeShortCode(draws[attempt]))
    else FreeCode(records, draws, attempt + 1)
  }

  /** The search finds nothing exactly when every remaining draw's code is taken. */
  lemma {:induction false} FreeCodeNone(records: seq<QrRecord>, draws: seq<Draw>, attempt: nat)
    requires attempt <= MaxAttempts <= |draws|
    ensures FreeCode(records, draws, attempt).None? <==>
      forall k :: attempt <= k < MaxAttempts ==> HasCode(records, MakeShortCode(draws[k]))
    decreases MaxAttempts - attempt
  {
    if attempt < MaxAttempts {
      FreeCodeNone(records, draws, attempt + 1);
    }
  }

  /** What the search finds is an unused code: that of some draw k, every
      earlier draw's code being taken. */
  lemma {:induction false} FreeCodeSome(records: seq<QrRecord>, draws: seq<Draw>, attempt: nat)
    requires attempt <= MaxAttempts <= |draws|
    requires FreeCode(records, draws, attempt).Some?
    ensures var code := FreeCode(records, draws, attempt).value;
      && !HasCode(records, code)
      && exists k :: attempt <= k < MaxAttempts && code == MakeShortCode(draws[k]) &&
           forall j :: attempt <= j < k ==> HasCode(records, MakeShortCode(draws[j]))
    decreases MaxAttempts - attempt
  {
    if HasCode(records, MakeShortCode(draws[attempt])) {
      FreeCodeSome(records, draws, attempt + 1);
      var code := FreeCode(records, draws, attempt).value;
      var k :| attempt + 1 <= k < MaxAttempts && code == MakeShortCode(draws[k]) &&
        forall j :: attempt + 1 <= j < k ==> HasCode(records, MakeShortCode(draws[j]));
      assert forall j :: attempt <= j < k ==> HasCode(records, MakeShortCode(draws[j]));
    } else {
      assert FreeCode(records, draws, attempt).value == MakeShortCode(draws[attempt]);
    }
  }

  /** The record a successful registration stores. */
  function NewRecord(url: string, code: string, env: Environment): (r: QrRecord)
    ensures r.id == env.newId && r.originalUrl == url && r.shortCode == code && r.createdAt == env.now
    ensures ScanValue(r) == 0 && r.scanCount.Some? && r.updatedAt.None?
    ensures r.trackedUrl == env.baseUrl + "/r/" + code && r.qrImageDataUrl == env.render(r.trackedUrl)
  {
    var trackedUrl := TrackedUrl(env.baseUrl, code);
    QrRecord(env.newId, url, code, trackedUrl, env.render(trackedUrl), Some(0), env.now, None)
  }

  /** Whether the submitted URL is refused with 400. */
  predicate Rejected(field: UrlField, env: Environment) {
    RequestUrl(field) == "" || !IsValidHttpUrl(env.protocolOf, RequestUrl(field))
  }

  /** POST /api/qrs on a store holding `records`: the response and the records afterwards. */
  function Register(records: seq<QrRecord>, field: UrlField, env: Environment): (out: (Response, seq<QrRecord>))
    requires |env.draws| >= MaxAttempts
    ensures !out.0.Created? ==> out.1 == records
    ensures out.0.Created? ==> out.1 == records + [out.0.record] && !HasCode(records, out.0.record.shortCode)
    ensures out.0.Created? ==> out.0.record.originalUrl == RequestUrl(field) && ScanValue(out.0.record) == 0
  {
    var url := RequestUrl(field);
    if url == "" || !IsValidHttpUrl(env.protocolOf, url) then (BadRequest(InvalidUrlError), records)
    else match FreeCode(records, env.draws, 0)
      case None => (ServerError(ExhaustedError), records)
      case Some(code) =>
        var r := NewRecord(url, code, env);
        (Created(r), records + [r])
  }

  /** A URL that is missing, not a string, blank, or not http/https gets 400
      and leaves the store as it was; any other URL does not. */
  lemma RegisterRejects(records: seq<QrRecord>, field: UrlField, env: Environment)
    requires |env.draws| >= MaxAttempts
    ensures Register(records, field, env).0 == BadRequest(InvalidUrlError) <==> Rejected(field, env)
    ensures Register(records, field, env).0.Status() == 400 <==> Rejected(field, env)
    ensures Rejected(field, env) ==> Register(records, field, env).1 == records
  {
  }

  /** A valid URL gets 500, and the store keeps its records, exactly when the
      codes of all five draws are taken. */
  lemma RegisterExhausts(records: seq<QrRecord>, field: UrlField, env: Environment)
    requires |env.draws| >= MaxAttempts
    requires !Rejected(field, env)
    ensures var out := Register(records, field, env);
      && (out.0.ServerError? <==> forall k :: 0 <= k < MaxAttempts ==> HasCode(records, MakeShortCode(env.draws[k])))
      && (out.0.ServerError? ==> out == (ServerError(ExhaustedError), records))
      && (out.0.Status() == 500 <==> out.0.ServerError?)
  {
    FreeCodeNone(records, env.draws, 0);
  }

  /** A created record holds the trimmed URL, a zero count and no update time,
      the tracked URL of its code, and the code of the first of the five draws
      that no stored record had; it is appended to the store. */
  lemma RegisterCreates(records: seq<QrRecord>, field: UrlField, env: Environment)
    requires |env.draws| >= MaxAttempts
    requires Register(records, field, env).0.Created?
    ensures var (resp, after) := Register(records, field, env);
      var r := resp.record;
      && after == records + [r]
      && r.originalUrl == RequestUrl(field) && r.originalUrl != ""
      && r.scanCount == Some(0) && r.updatedAt == None
      && r.id == env.newId && r.createdAt == env.now
      && r.trackedUrl == env.baseUrl + "/r/" + r.shortCode
      && |r.shortCode| == ShortCodeLength
      && !HasCode(records, r.shortCode)
      && exists k :: 0 <= k < MaxAttempts && r.shortCode == MakeShortCode(env.draws[k]) &&
           forall j :: 0 <= j < k ==> HasCode(records, MakeShortCode(env.draws[j]))
  {
    FreeCodeSome(records, env.draws, 0);
  }

  /** Registration keeps the short codes of the store unique. */
  lemma RegisterKeepsUnique(records: seq<QrRecord>, field: UrlField, env: Environment)
    requires |env.draws| >= MaxAttempts
    requires UniqueCodes(records)
    ensures UniqueCodes(Register(records, field, env).1)
  {
    var out := Register(records, field, env);
    if out.0.Created? {
      AppendFreshKeepsUnique(records, out.0.record);
    }
  }

  /** The attempts loop of the handler: up to five draws, stopping at the first
      one whose code the store does not hold; "" when every code is taken. The
      store file is read, and so reset if it held no array, at every attempt. */
  method PickShortCode(store: QrStore, draws: seq<Draw>) returns (shortCode: string)
    requires |draws| >= MaxAttempts
    modifies store
    ensures store.file == Saved(Contents(old(store.file)))
    ensures FreeCode(Contents(old(store.file)), draws, 0).None? ==> shortCode == ""
    ensures FreeCode(Contents(old(store.file)), draws, 0).Some? ==> shortCode == FreeCode(Contents(old(store.file)), draws, 0).value
  {
    ghost var records := Contents(store.file);
    shortCode := "";
    var attempt := 0;
    while attempt < MaxAttempts
      invariant 0 <= attempt <= MaxAttempts
      invariant shortCode == ""
      invariant Contents(store.file) == records
      invariant attempt == 0 ==> store.file == old(store.file)
      invariant attempt > 0 ==> store.file == Saved(records)
      invariant FreeCode(records, draws, attempt) == FreeCode(records, draws, 0)
    {
      var candidate := MakeShortCode(draws[attempt]);
      var taken := store.HasShortCode(candidate);
      if !taken {
        shortCode := candidate;
        break;
      }
      assert FreeCode(records, draws, attempt) == FreeCode(records, draws, attempt + 1);
      attempt := attempt + 1;
    }
  }

  /** The POST /api/qrs handler. */
  method PostQrs(store: QrStore, field: UrlField, env: Environment) returns (resp: Response)
    requires |env.draws| >= MaxAttempts
    modifies store
    ensures (resp, Contents(store.file)) == Register(Contents(old(store.file)), field, env)
    ensures resp.BadRequest? ==> store.file == old(store.file)
    ensures !resp.BadRequest? ==> store.file.Saved?
  {
    var url := if field.Text? then Trim(field.value) else "";
    if url == "" || !IsValidHttpUrl(env.protocolOf, url) {
      return BadRequest(InvalidUrlError);
    }

    var shortCode := PickShortCode(store, env.draws);
    if shortCode == "" {
      return ServerError(ExhaustedError);
    }

    var trackedUrl := env.baseUrl + "/r/" + shortCode;
    var qrImageDataUrl := env.render(trackedUrl);
    var record := QrRecord(env.newId, url, shortCode, trackedUrl, qrImageDataUrl, Some(0), env.now, None);
    var created := store.CreateQr(record);
    resp := Created(created);
  }

  // ---------------------------------------------------------------------------
  // Resolution

  /** GET /r/:shortCode on a store holding `records`: the response and the records afterwards. */
  function Resolve(records: seq<QrRecord>, code: string, now: int): (out: (Response, seq<QrRecord>))
    ensures out.0.Status() == if HasCode(records, code) then 302 else 404
    ensures !HasCode(records, code) ==> out == (NotFound(NotFoundText), records)
    ensures HasCode(records, code) ==>
      var i := FindIndex(records, code);
      && out.0 == Redirect(records[i].originalUrl)
      && |out.1| == |records|
      && ScanValue(out.1[i]) == ScanValue(records[i]) + 1
      && out.1[i].updatedAt == Some(now)
      && SameButScan(records[i], out.1[i])
      && forall j :: 0 <= j < |records| && j != i ==> out.1[j] == records[j]
  {
    var (updated, after) := ApplyScan(records, code, now);
    match updated
    case None => (NotFound(NotFoundText), after)
    case Some(r) => (Redirect(r.originalUrl), after)
  }

  /** The GET /r/:shortCode handler. */
  method GetRedirect(store: QrStore, code: string, now: int) returns (resp: Response)
    modifies store
    ensures (resp, Contents(store.file)) == Resolve(Contents(old(store.file)), code, now)
    ensures store.file.Saved?
  {
    var record := store.IncrementScanCount(code, now);
    if record.None? {
      return NotFound(NotFoundText);
    }
    return Redirect(record.value.originalUrl);
  }

  /** A code just registered is found at the end of the store, and resolving
      it N times redirects to the submitted URL each time and leaves its count
      at exactly N. */
  lemma RegisterThenResolve(records: seq<QrRecord>, field: UrlField, env: Environment, nows: seq<int>)
    requires |env.draws| >= MaxAttempts
    requires Register(records, field, env).0.Created?
    ensures var (resp, stored) := Register(records, field, env);
      var (returned, after) := ScanTimes(stored, resp.record.shortCode, nows);
      && FindIndex(stored, resp.record.shortCode) == |records|
      && ScanValue(after[|records|]) == |nows|
      && forall k :: 0 <= k < |nows| ==>
           returned[k].Some? && returned[k].value.originalUrl == RequestUrl(field) &&
           ScanValue(returned[k].value) == k + 1
  {
    ScansOfAppended(records, Register(records, field, env).0.record, nows);
  }
}
