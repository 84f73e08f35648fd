/**
 HAR export and import of internal/har/har.go. The document in between is the tree of its
 JSON; text inside it is a sequence of bytes, as Go strings are. Fields that import does
 not read (versions, sizes, query string, timings) are left out of the tree.
 */
module Har {
  import opened Base64
  import opened Collections
  import opened Octets
  import opened Ordering
  import opened Text
  import opened Wrappers

  type Headers = map<string, string>

  datatype RequestRecord = RequestRecord(
    id: string, verb: string, url: string, headers: Headers, body: Bytes,
    timestamp: int, durationMs: int, protocol: string, bodySize: int)

  datatype ResponseRecord = ResponseRecord(
    requestId: string, status: int, text: string, headers: Headers, body: Bytes, bodySize: int)

  /** Lists of records; `None` is a nil entry. */
  type Requests = seq<Option<RequestRecord>>
  type Responses = seq<Option<ResponseRecord>>

  datatype Imported = Imported(request: RequestRecord, response: Option<ResponseRecord>)

  datatype Pair = Pair(name: string, value: string)

  datatype Body = Body(mimeType: string, text: Bytes, encoding: string)

  datatype HarRequest = HarRequest(verb: string, url: string, headers: seq<Pair>, postData: Option<Body>)

  datatype HarResponse = HarResponse(status: int, text: string, headers: seq<Pair>, content: Body)

  /** `started` is the instant of startedDateTime, `None` when that is empty. */
  datatype Entry = Entry(started: Option<int>, time: int, request: HarRequest, response: HarResponse)

  datatype Archive = Archive(version: string, entries: seq<Entry>)

  datatype Error = CountMismatch | MissingVersion | MissingUrl | BadBase64

  datatype Result<T> = Ok(value: T) | Err(error: Error)

  /** `http.StatusText`, and the integer nearest to one among the values of a float64. */
  datatype Library = Library(statusText: int -> string, nearest: int -> int)

  function FirstNonEmpty(a: string, b: string): string {
    if a != "" then a else b
  }

  // Headers.

  function PairsOf(keys: seq<string>, headers: Headers): seq<Pair>
    requires forall k | k in keys :: k in headers
  {
    if keys == [] then []
    else
      var last := keys[|keys| - 1];
      PairsOf(keys[..|keys| - 1], headers) + [Pair(last, headers[last])]
  }

  function Exported(headers: Headers): seq<Pair> {
    PairsOf(SortedKeys(headers.Keys), headers)
  }

  /** Later pairs win, and pairs without a name are skipped. */
  function FromPairs(pairs: seq<Pair>): Headers {
    if pairs == [] then map[]
    else
      var before, last := FromPairs(pairs[..|pairs| - 1]), pairs[|pairs| - 1];
      if last.name == "" then before else before[last.name := last.value]
  }

  method PairLoop(keys: seq<string>, headers: Headers) returns (items: seq<Pair>)
    requires forall k | k in keys :: k in headers
    ensures items == PairsOf(keys, headers)
  {
    items := [];
    for i := 0 to |keys|
      invariant items == PairsOf(keys[..i], headers)
    {
      assert keys[..i + 1][..i] == keys[..i];
      items := items + [Pair(keys[i], headers[keys[i]])];
    }
    assert keys[..|keys|] == keys;
  }

  method MapToHar(headers: Headers) returns (items: seq<Pair>)
    ensures items == Exported(headers)
  {
    var keys := SortedKeys(headers.Keys);
    items := PairLoop(keys, headers);
  }

  method MapFromHar(headers: seq<Pair>) returns (out: Headers)
    ensures out == FromPairs(headers)
  {
    out := map[];
    for i := 0 to |headers|
      invariant out == FromPairs(headers[..i])
    {
      assert headers[..i + 1][..i] == headers[..i];
      if headers[i].name != "" {
        out := out[headers[i].name := headers[i].value];
      }
    }
    assert headers[..|headers|] == headers;
  }

  ghost predicate HasHeader(headers: Headers, name: string) {
    exists k :: k in headers && EqualFold(k, name)
  }

  /** What looking a header up without regard to case can give: the map is visited in any order. */
  ghost predicate IsHeaderValue(headers: Headers, name: string, value: string) {
    if HasHeader(headers, name) then exists k :: k in headers && EqualFold(k, name) && headers[k] == value
    else value == ""
  }

  method HeaderValue(headers: Headers, name: string) returns (value: string)
    ensures IsHeaderValue(headers, name, value)
  {
    var todo := headers.Keys;
    while todo != {}
      invariant todo <= headers.Keys
      invariant forall k | k in headers && k !in todo :: !EqualFold(k, name)
    {
      var k :| k in todo;
      if EqualFold(k, name) {
        return headers[k];
      }
      todo := todo - {k};
    }
    return "";
  }

  ghost function WithMissing(headers: Headers, name: string, value: string): Headers {
    if value == "" || HasHeader(headers, name) then headers else headers[name := value]
  }

  method SetMissingHeader(headers: Headers, name: string, value: string) returns (out: Headers)
    ensures out == WithMissing(headers, name, value)
  {
    if value == "" {
      return headers;
    }
    var todo := headers.Keys;
    while todo != {}
      invariant todo <= headers.Keys
      invariant forall k | k in headers && k !in todo :: !EqualFold(k, name)
    {
      var k :| k in todo;
      if EqualFold(k, name) {
        return headers;
      }
      todo := todo - {k};
    }
    return headers[name := value];
  }

  // Bodies.

  const BASE64 := "base64"
  const CONTENT_TYPE := "Content-Type"

  function NewBody(body: Bytes, mimeType: string): Body {
    if IsUtf8(body) then Body(mimeType, body, "") else Body(mimeType, Encode(body), BASE64)
  }

  function DecodeBody(body: Body): Option<Bytes> {
    if body.text == [] then Some([])
    else if EqualFold(body.encoding, BASE64) then Decode(body.text)
    else Some(body.text)
  }

  lemma FoldReflexive(s: string)
    ensures EqualFold(s, s)
  {
  }

  /** A stored body is restored, as text or as base64. */
  lemma BodyRoundTrip(body: Bytes, mimeType: string)
    ensures DecodeBody(NewBody(body, mimeType)) == Some(body)
    ensures NewBody(body, mimeType).text == [] <==> body == []
  {
    DecodeEncode(body);
    FoldReflexive(BASE64);
  }

  /** A valid text is exported as it is, anything else in base64; the exported text is always valid. */
  lemma BodyExported(body: Bytes, mimeType: string)
    ensures (exists cs :: AllScalar(cs) && Utf8All(cs) == body) ==>
              NewBody(body, mimeType).text == body && NewBody(body, mimeType).encoding == ""
    ensures !(exists cs :: AllScalar(cs) && Utf8All(cs) == body) ==>
              NewBody(body, mimeType).text == Encode(body) && NewBody(body, mimeType).encoding == "base64"
    ensures IsUtf8(NewBody(body, mimeType).text) && NewBody(body, mimeType).mimeType == mimeType
  {
    IsUtf8Iff(body);
    EncodeIsAscii(body);
    AsciiIsUtf8(Encode(body));
  }

  /** A body is decoded if its encoding reads "base64" in any case, and taken as it is otherwise. */
  lemma BodyDecoded(body: Body)
    requires IsToken(body.encoding) && body.text != []
    ensures ToLower(body.encoding) != "base64" ==> DecodeBody(body) == Some(body.text)
    ensures ToLower(body.encoding) == "base64" ==>
              DecodeBody(body) == Decode(body.text)
              && (DecodeBody(body).Some? <==> WellPadded(WithoutNewlines(body.text)))
  {
    Base64Name();
    TokensFold(body.encoding, BASE64);
    DecodesIff(WithoutNewlines(body.text));
  }

  lemma Base64Name()
    ensures IsToken(BASE64) && ToLower(BASE64) == "base64"
  {
  }

  // One entry.

  const NO_BODY := Body("", [], "")
  const NO_RESPONSE := HarResponse(0, "", [], NO_BODY)

  /** What exporting a pair of records can give, the mime types being header lookups. */
  ghost predicate IsExport(lib: Library, req: RequestRecord, resp: Option<ResponseRecord>, entry: Entry) {
    && entry.started == Some(req.timestamp)
    && entry.time == lib.nearest(req.durationMs)
    && IsRequestExport(req, entry.request)
    && (if resp.None? then entry.response == NO_RESPONSE else IsResponseExport(lib, resp.value, entry.response))
  }

  ghost predicate IsRequestExport(req: RequestRecord, out: HarRequest) {
    && out.verb == req.verb && out.url == req.url && out.headers == Exported(req.headers)
    && (if req.body == [] then out.postData == None
        else out.postData.Some? && IsBodyExport(req.body, req.headers, out.postData.value))
  }

  ghost predicate IsResponseExport(lib: Library, resp: ResponseRecord, out: HarResponse) {
    && out.status == resp.status && out.text == FirstNonEmpty(resp.text, lib.statusText(resp.status))
    && out.headers == Exported(resp.headers)
    && IsBodyExport(resp.body, resp.headers, out.content)
  }

  ghost predicate IsBodyExport(body: Bytes, headers: Headers, out: Body) {
    IsHeaderValue(headers, CONTENT_TYPE, out.mimeType) && out == NewBody(body, out.mimeType)
  }

  method ExportEntry(lib: Library, req: RequestRecord, resp: Option<ResponseRecord>) returns (entry: Entry)
    ensures IsExport(lib, req, resp, entry)
  {
    var requestHeaders := MapToHar(req.headers);
    var requestType := HeaderValue(req.headers, CONTENT_TYPE);
    var requestBody := NewBody(req.body, requestType);
    var response := NO_RESPONSE;
    if resp.Some? {
      var r := resp.value;
      var responseHeaders := MapToHar(r.headers);
      var responseType := HeaderValue(r.headers, CONTENT_TYPE);
      response := HarResponse(
        r.status, FirstNonEmpty(r.text, lib.statusText(r.status)), responseHeaders, NewBody(r.body, responseType));
    }
    entry := Entry(
      Some(req.timestamp),
      lib.nearest(req.durationMs),
      HarRequest(req.verb, req.url, requestHeaders, if |req.body| > 0 then Some(requestBody) else None),
      response);
  }

  predicate HasResponse(resp: HarResponse) {
    resp.status > 0 || resp.headers != [] || resp.content.text != [] || resp.text != ""
  }

  ghost function ParsedRequest(r: HarRequest, body: Bytes, started: int, time: int, id: string): RequestRecord {
    var headers := FromPairs(r.headers);
    var filled := if r.postData.None? then headers else WithMissing(headers, CONTENT_TYPE, r.postData.value.mimeType);
    RequestRecord(id, FirstNonEmpty(r.verb, "GET"), r.url, filled, body, started, time, "", 0)
  }

  ghost function ParsedResponse(lib: Library, r: HarResponse, body: Bytes, id: string): ResponseRecord {
    ResponseRecord(
      id, r.status, FirstNonEmpty(r.text, lib.statusText(r.status)),
      WithMissing(FromPairs(r.headers), CONTENT_TYPE, r.content.mimeType), body, 0)
  }

  /** What importing an entry gives, with a new identifier and the current time. */
  ghost function Parsed(lib: Library, entry: Entry, id: string, now: int): Result<Imported> {
    var post := if entry.request.postData.None? then Some([]) else DecodeBody(entry.request.postData.value);
    if entry.request.url == "" then Err(MissingUrl)
    else if post.None? then Err(BadBase64)
    else
      var started := if entry.started.None? then now else entry.started.value;
      var request := ParsedRequest(entry.request, post.value, started, entry.time, id);
      if !HasResponse(entry.response) then Ok(Imported(request, None))
      else
        var content := DecodeBody(entry.response.content);
        if content.None? then Err(BadBase64)
        else Ok(Imported(request, Some(ParsedResponse(lib, entry.response, content.value, id))))
  }

  method ParseRequest(r: HarRequest, started: int, time: int, id: string) returns (out: Option<RequestRecord>)
    ensures
      var post := if r.postData.None? then Some([]) else DecodeBody(r.postData.value);
      out == if post.None? then None else Some(ParsedRequest(r, post.value, started, time, id))
  {
    var headers := MapFromHar(r.headers);
    if r.postData.Some? && r.postData.value.mimeType != "" {
      headers := SetMissingHeader(headers, CONTENT_TYPE, r.postData.value.mimeType);
    }
    var body := if r.postData.None? then Some([]) else DecodeBody(r.postData.value);
    if body.None? {
      return None;
    }
    return Some(RequestRecord(id, FirstNonEmpty(r.verb, "GET"), r.url, headers, body.value, started, time, "", 0));
  }

  method ParseResponse(lib: Library, r: HarResponse, id: string) returns (out: Option<ResponseRecord>)
    ensures
      var content := DecodeBody(r.content);
      out == if content.None? then None else Some(ParsedResponse(lib, r, content.value, id))
  {
    var headers := MapFromHar(r.headers);
    if r.content.mimeType != "" {
      headers := SetMissingHeader(headers, CONTENT_TYPE, r.content.mimeType);
    }
    var body := DecodeBody(r.content);
    if body.None? {
      return None;
    }
    return Some(ResponseRecord(id, r.status, FirstNonEmpty(r.text, lib.statusText(r.status)), headers, body.value, 0));
  }

  method ParseEntry(lib: Library, entry: Entry, id: string, now: int) returns (tx: Result<Imported>)
    ensures tx == Parsed(lib, entry, id, now)
  {
    if entry.request.url == "" {
      return Err(MissingUrl);
    }
    var timestamp := if entry.started.None? then now else entry.started.value;
    var request := ParseRequest(entry.request, timestamp, entry.time, id);
    if request.None? {
      return Err(BadBase64);
    }
    if !HasResponse(entry.response) {
      return Ok(Imported(request.value, None));
    }
    var response := ParseResponse(lib, entry.response, id);
    if response.None? {
      return Err(BadBase64);
    }
    return Ok(Imported(request.value, response));
  }

  // Headers survive, and none is invented.

  lemma FromPairsSnoc(pairs: seq<Pair>, p: Pair)
    ensures FromPairs(pairs + [p]) == if p.name == "" then FromPairs(pairs) else FromPairs(pairs)[p.name := p.value]
  {
    assert (pairs + [p])[..|pairs|] == pairs;
  }

  lemma {:induction false} PairsRoundTrip(keys: seq<string>, headers: Headers, x: string)
    requires forall k | k in keys :: k in headers
    ensures x in FromPairs(PairsOf(keys, headers)) <==> x in keys && x != ""
    ensures x in keys && x != "" ==> FromPairs(PairsOf(keys, headers))[x] == headers[x]
  {
    if keys != [] {
      var before, last := keys[..|keys| - 1], keys[|keys| - 1];
      PairsRoundTrip(before, headers, x);
      FromPairsSnoc(PairsOf(before, headers), Pair(last, headers[last]));
      assert x in keys <==> x in before || x == last by { assert keys == before + [last]; }
    }
  }

  lemma HeadersRoundTrip(headers: Headers)
    ensures FromPairs(Exported(headers)) == headers - {""}
  {
    var keys := SortedKeys(headers.Keys);
    forall x ensures x in FromPairs(Exported(headers)) <==> x in headers - {""} {
      PairsRoundTrip(keys, headers, x);
    }
    forall x | x in headers - {""} ensures FromPairs(Exported(headers))[x] == headers[x] {
      PairsRoundTrip(keys, headers, x);
    }
    MapsEqual(FromPairs(Exported(headers)), headers - {""});
  }

  lemma NamelessIsOther(name: string)
    requires name != ""
    ensures !EqualFold("", name)
  {
  }

  /** The Content-Type fill-in adds nothing, whichever of several spellings was exported. */
  lemma NoHeaderInvented(headers: Headers, value: string)
    requires IsHeaderValue(headers, CONTENT_TYPE, value)
    ensures WithMissing(FromPairs(Exported(headers)), CONTENT_TYPE, value) == headers - {""}
  {
    HeadersRoundTrip(headers);
    NamelessIsOther(CONTENT_TYPE);
    if value != "" {
      var k :| k in headers && EqualFold(k, CONTENT_TYPE) && headers[k] == value;
      assert k in headers - {""};
      assert HasHeader(headers - {""}, CONTENT_TYPE);
    }
  }

  // One record.

  /** The record under a new identifier, without the fields a HAR entry has no place for. */
  function RelinkedRequest(req: RequestRecord, id: string): RequestRecord {
    req.(id := id, protocol := "", bodySize := 0)
  }

  function RelinkedResponse(resp: ResponseRecord, id: string): ResponseRecord {
    resp.(requestId := id, bodySize := 0)
  }

  function Relinked(req: RequestRecord, resp: Option<ResponseRecord>, id: string): Imported {
    Imported(RelinkedRequest(req, id), if resp.None? then None else Some(RelinkedResponse(resp.value, id)))
  }

  predicate RestorableRequest(lib: Library, req: RequestRecord) {
    req.url != "" && req.verb != "" && "" !in req.headers && lib.nearest(req.durationMs) == req.durationMs
  }

  predicate RestorableResponse(lib: Library, resp: ResponseRecord) {
    && "" !in resp.headers
    && (resp.text != "" || lib.statusText(resp.status) == "")
    && (resp.status > 0 || resp.headers != map[] || resp.body != [] || resp.text != "")
  }

  predicate Restorable(lib: Library, req: RequestRecord, resp: Option<ResponseRecord>) {
    RestorableRequest(lib, req) && (resp.Some? ==> RestorableResponse(lib, resp.value))
  }

  lemma ParsedRequestIs(req: RequestRecord, out: HarRequest, started: int, time: int, id: string)
    requires IsRequestExport(req, out)
    ensures
      var post := if out.postData.None? then Some([]) else DecodeBody(out.postData.value);
      && post == Some(req.body)
      && ParsedRequest(out, req.body, started, time, id) ==
         RequestRecord(id, FirstNonEmpty(req.verb, "GET"), req.url, req.headers - {""}, req.body, started, time, "", 0)
  {
    HeadersRoundTrip(req.headers);
    if req.body != [] {
      BodyRoundTrip(req.body, out.postData.value.mimeType);
      NoHeaderInvented(req.headers, out.postData.value.mimeType);
    }
  }

  lemma ParsedResponseIs(lib: Library, resp: ResponseRecord, out: HarResponse, id: string)
    requires IsResponseExport(lib, resp, out)
    ensures DecodeBody(out.content) == Some(resp.body)
    ensures ParsedResponse(lib, out, resp.body, id) ==
            ResponseRecord(
              id, resp.status, FirstNonEmpty(resp.text, lib.statusText(resp.status)), resp.headers - {""}, resp.body, 0)
  {
    BodyRoundTrip(resp.body, out.content.mimeType);
    NoHeaderInvented(resp.headers, out.content.mimeType);
  }

  lemma {:induction false} PairsLength(keys: seq<string>, headers: Headers)
    requires forall k | k in keys :: k in headers
    ensures |PairsOf(keys, headers)| == |keys|
  {
    if keys != [] {
      PairsLength(keys[..|keys| - 1], headers);
    }
  }

  lemma ExportedEmpty(headers: Headers)
    ensures Exported(headers) == [] <==> headers == map[]
  {
    PairsLength(SortedKeys(headers.Keys), headers);
    if headers.Keys == {} {
      assert headers == map[];
    }
  }

  lemma HasResponseIff(lib: Library, resp: ResponseRecord, out: HarResponse)
    requires IsResponseExport(lib, resp, out)
    ensures HasResponse(out) <==>
            || resp.status > 0 || resp.headers != map[] || resp.body != []
            || FirstNonEmpty(resp.text, lib.statusText(resp.status)) != ""
  {
    ExportedEmpty(resp.headers);
    BodyRoundTrip(resp.body, out.content.mimeType);
  }

  lemma WithoutNameless(headers: Headers)
    ensures headers - {""} == headers <==> "" !in headers
  {
    if "" !in headers {
      MapsEqual(headers - {""}, headers);
    }
  }

  lemma RequestRestoredIff(lib: Library, req: RequestRecord, id: string)
    ensures
      RequestRecord(
        id, FirstNonEmpty(req.verb, "GET"), req.url, req.headers - {""}, req.body,
        req.timestamp, lib.nearest(req.durationMs), "", 0)
      == RelinkedRequest(req, id)
      <==> req.verb != "" && "" !in req.headers && lib.nearest(req.durationMs) == req.durationMs
  {
    WithoutNameless(req.headers);
  }

  lemma ResponseRestoredIff(lib: Library, resp: ResponseRecord, id: string)
    ensures
      ResponseRecord(
        id, resp.status, FirstNonEmpty(resp.text, lib.statusText(resp.status)), resp.headers - {""}, resp.body, 0)
      == RelinkedResponse(resp, id)
      <==> "" !in resp.headers && (resp.text != "" || lib.statusText(resp.status) == "")
  {
    WithoutNameless(resp.headers);
  }

  /** Import of export gives the pair back under its new identifier exactly when it is restorable. */
  lemma EntryRoundTripIff(
    lib: Library, req: RequestRecord, resp: Option<ResponseRecord>, entry: Entry, id: string, now: int)
    requires IsExport(lib, req, resp, entry)
    ensures Parsed(lib, entry, id, now) == Ok(Relinked(req, resp, id)) <==> Restorable(lib, req, resp)
  {
    ParsedRequestIs(req, entry.request, req.timestamp, entry.time, id);
    RequestRestoredIff(lib, req, id);
    if resp.Some? {
      ParsedResponseIs(lib, resp.value, entry.response, id);
      HasResponseIff(lib, resp.value, entry.response);
      ResponseRestoredIff(lib, resp.value, id);
    }
  }

  // Lists of records.

  const HAR_VERSION := "1.2"

  /** The positions of the requests that are there. */
  function Present(reqs: Requests): seq<nat> {
    if reqs == [] then []
    else Present(reqs[..|reqs| - 1]) + if reqs[|reqs| - 1].None? then [] else [|reqs| - 1]
  }

  lemma {:induction false} PresentAt(reqs: Requests, i: nat)
    requires i < |Present(reqs)|
    ensures Present(reqs)[i] < |reqs| && reqs[Present(reqs)[i]].Some?
  {
    if reqs != [] && i < |Present(reqs[..|reqs| - 1])| {
      PresentAt(reqs[..|reqs| - 1], i);
    }
  }

  ghost predicate ExportsAt(lib: Library, reqs: Requests, resps: Responses, p: nat, e: Entry) {
    p < |reqs| && p < |resps| && reqs[p].Some? && IsExport(lib, reqs[p].value, resps[p], e)
  }

  /** The entries are exports of the requests that are there, in order. */
  ghost predicate AreExports(lib: Library, reqs: Requests, resps: Responses, at: seq<nat>, entries: seq<Entry>) {
    |entries| == |at| && forall i | 0 <= i < |entries| :: ExportsAt(lib, reqs, resps, at[i], entries[i])
  }

  lemma AreExportsSnoc(
    lib: Library, reqs: Requests, resps: Responses, at: seq<nat>, entries: seq<Entry>, p: nat, e: Entry)
    requires AreExports(lib, reqs, resps, at, entries) && ExportsAt(lib, reqs, resps, p, e)
    ensures AreExports(lib, reqs, resps, at + [p], entries + [e])
  {
  }

  method MarshalTransactions(lib: Library, reqs: Requests, resps: Responses) returns (out: Result<Archive>)
    ensures out.Ok? <==> |reqs| == |resps|
    ensures out.Err? ==> out.error == CountMismatch
    ensures out.Ok? ==> out.value.version == "1.2"
    ensures out.Ok? ==> AreExports(lib, reqs, resps, Present(reqs), out.value.entries)
  {
    if |reqs| != |resps| {
      return Err(CountMismatch);
    }
    var entries := [];
    for i := 0 to |reqs|
      invariant AreExports(lib, reqs, resps, Present(reqs[..i]), entries)
    {
      assert reqs[..i + 1][..i] == reqs[..i] && reqs[..i + 1][i] == reqs[i];
      ghost var before := Present(reqs[..i]);
      if reqs[i].Some? {
        var e := ExportEntry(lib, reqs[i].value, resps[i]);
        AreExportsSnoc(lib, reqs, resps, before, entries, i, e);
        entries := entries + [e];
      } else {
        assert before + [] == before;
      }
    }
    assert reqs[..|reqs|] == reqs;
    return Ok(Archive(HAR_VERSION, entries));
  }

  /** Entries are imported in order, up to the first that fails; `ids(i)` is the new identifier of entry `i`. */
  ghost function ParsedAll(lib: Library, entries: seq<Entry>, ids: nat -> string, now: int): Result<seq<Imported>> {
    if entries == [] then Ok([])
    else
      var n := |entries| - 1;
      var before := ParsedAll(lib, entries[..n], ids, now);
      if before.Err? then before
      else
        var last := Parsed(lib, entries[n], ids(n), now);
        if last.Err? then Err(last.error) else Ok(before.value + [last.value])
  }

  method ParseTransactions(
    lib: Library, doc: Archive, ids: nat -> string, now: int)
    returns (out: Result<seq<Imported>>)
    ensures out == if doc.version == "" then Err(MissingVersion) else ParsedAll(lib, doc.entries, ids, now)
  {
    if doc.version == "" {
      return Err(MissingVersion);
    }
    var imported := [];
    for i := 0 to |doc.entries|
      invariant Ok(imported) == ParsedAll(lib, doc.entries[..i], ids, now)
    {
      assert doc.entries[..i + 1][..i] == doc.entries[..i];
      var tx := ParseEntry(lib, doc.entries[i], ids(i), now);
      if tx.Err? {
        ParsedAllStops(lib, doc.entries, ids, now, i + 1);
        return Err(tx.error);
      }
      imported := imported + [tx.value];
    }
    assert doc.entries[..|doc.entries|] == doc.entries;
    return Ok(imported);
  }

  lemma {:induction false} ParsedAllStops(lib: Library, entries: seq<Entry>, ids: nat -> string, now: int, k: nat)
    requires k <= |entries| && ParsedAll(lib, entries[..k], ids, now).Err?
    ensures ParsedAll(lib, entries, ids, now) == ParsedAll(lib, entries[..k], ids, now)
  {
    if k == |entries| {
      assert entries[..k] == entries;
    } else {
      var before := entries[..|entries| - 1];
      assert before[..k] == entries[..k];
      ParsedAllStops(lib, before, ids, now, k);
    }
  }

  ghost predicate AllRestorable(lib: Library, reqs: Requests, resps: Responses)
    requires |reqs| == |resps|
  {
    forall p | 0 <= p < |reqs| && reqs[p].Some? :: Restorable(lib, reqs[p].value, resps[p])
  }

  /** The present records under their new identifiers: the `i`-th one gets `ids(i)`. */
  function AllRelinked(reqs: Requests, resps: Responses, ids: nat -> string): seq<Imported>
    requires |reqs| == |resps|
  {
    if reqs == [] then []
    else
      var n := |reqs| - 1;
      var before := AllRelinked(reqs[..n], resps[..n], ids);
      if reqs[n].None? then before else before + [Relinked(reqs[n].value, resps[n], ids(|before|))]
  }

  lemma {:induction false} RelinkedCount(reqs: Requests, resps: Responses, ids: nat -> string)
    requires |reqs| == |resps|
    ensures |AllRelinked(reqs, resps, ids)| == |Present(reqs)|
  {
    if reqs != [] {
      RelinkedCount(reqs[..|reqs| - 1], resps[..|reqs| - 1], ids);
    }
  }

  lemma EarlierExport(
    lib: Library, reqs: Requests, resps: Responses, entries: seq<Entry>, i: nat)
    requires |reqs| == |resps| && reqs != [] && AreExports(lib, reqs, resps, Present(reqs), entries)
    requires i < |Present(reqs[..|reqs| - 1])|
    ensures ExportsAt(lib, reqs[..|reqs| - 1], resps[..|reqs| - 1], Present(reqs[..|reqs| - 1])[i], entries[i])
  {
    var n := |reqs| - 1;
    PresentAt(reqs[..n], i);
    var p := Present(reqs[..n])[i];
    assert Present(reqs)[i] == p;
    assert ExportsAt(lib, reqs, resps, Present(reqs)[i], entries[i]);
    assert reqs[..n][p] == reqs[p] && resps[..n][p] == resps[p];
  }

  lemma LastExport(lib: Library, reqs: Requests, resps: Responses, entries: seq<Entry>)
    requires |reqs| == |resps| && reqs != [] && AreExports(lib, reqs, resps, Present(reqs), entries)
    requires reqs[|reqs| - 1].Some?
    ensures |entries| == |Present(reqs[..|reqs| - 1])| + 1
    ensures IsExport(lib, reqs[|reqs| - 1].value, resps[|reqs| - 1], entries[|entries| - 1])
  {
    var k := |Present(reqs[..|reqs| - 1])|;
    assert Present(reqs)[k] == |reqs| - 1;
    assert ExportsAt(lib, reqs, resps, Present(reqs)[k], entries[k]);
  }

  /** Splitting off the last pair of records, which has an entry exactly if its request is there. */
  lemma AreExportsInit(lib: Library, reqs: Requests, resps: Responses, entries: seq<Entry>)
    requires |reqs| == |resps| && reqs != [] && AreExports(lib, reqs, resps, Present(reqs), entries)
    ensures
      var n := |reqs| - 1;
      if reqs[n].None? then AreExports(lib, reqs[..n], resps[..n], Present(reqs[..n]), entries)
      else
        && entries != []
        && AreExports(lib, reqs[..n], resps[..n], Present(reqs[..n]), entries[..|entries| - 1])
        && IsExport(lib, reqs[n].value, resps[n], entries[|entries| - 1])
  {
    var n := |reqs| - 1;
    forall i | 0 <= i < |Present(reqs[..n])|
      ensures ExportsAt(lib, reqs[..n], resps[..n], Present(reqs[..n])[i], entries[i])
    {
      EarlierExport(lib, reqs, resps, entries, i);
    }
    if reqs[n].Some? {
      LastExport(lib, reqs, resps, entries);
    }
  }

  lemma AllRestorableInit(lib: Library, reqs: Requests, resps: Responses)
    requires |reqs| == |resps| && reqs != []
    ensures
      var n := |reqs| - 1;
      AllRestorable(lib, reqs, resps) <==>
        AllRestorable(lib, reqs[..n], resps[..n]) && (reqs[n].Some? ==> Restorable(lib, reqs[n].value, resps[n]))
  {
    var n := |reqs| - 1;
    assert forall p | 0 <= p < n :: reqs[..n][p] == reqs[p] && resps[..n][p] == resps[p];
  }

  /**
   The round trip of whole lists: import of export gives back all present records, in order
   and under new linked identifiers, exactly when each of them is restorable.
   */
  lemma {:induction false} RoundTripIff(
    lib: Library, reqs: Requests, resps: Responses, entries: seq<Entry>, ids: nat -> string, now: int)
    requires |reqs| == |resps| && AreExports(lib, reqs, resps, Present(reqs), entries)
    ensures ParsedAll(lib, entries, ids, now) == Ok(AllRelinked(reqs, resps, ids)) <==> AllRestorable(lib, reqs, resps)
    decreases |reqs|
  {
    if reqs != [] {
      var n := |reqs| - 1;
      AreExportsInit(lib, reqs, resps, entries);
      AllRestorableInit(lib, reqs, resps);
      RelinkedCount(reqs[..n], resps[..n], ids);
      if reqs[n].None? {
        RoundTripIff(lib, reqs[..n], resps[..n], entries, ids, now);
      } else {
        var k := |entries| - 1;
        RoundTripIff(lib, reqs[..n], resps[..n], entries[..k], ids, now);
        EntryRoundTripIff(lib, reqs[n].value, resps[n], entries[k], ids(k), now);
        LastParsed(
          lib, entries, ids, now,
          AllRelinked(reqs[..n], resps[..n], ids), Relinked(reqs[n].value, resps[n], ids(k)));
      }
    }
  }

  lemma LastParsed(
    lib: Library, entries: seq<Entry>, ids: nat -> string, now: int, before: seq<Imported>, last: Imported)
    requires entries != []
    ensures
      var k := |entries| - 1;
      ParsedAll(lib, entries, ids, now) == Ok(before + [last]) <==>
        ParsedAll(lib, entries[..k], ids, now) == Ok(before) && Parsed(lib, entries[k], ids(k), now) == Ok(last)
  {
    var k := |entries| - 1;
    var first, final := ParsedAll(lib, entries[..k], ids, now), Parsed(lib, entries[k], ids(k), now);
    if first.Ok? && final.Ok? {
      SnocEqual(first.value, final.value, before, last);
    }
  }
}
