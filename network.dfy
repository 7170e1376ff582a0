/** The request builder and the response validator of the client
    (Network.swift): `buildRequest` turns an endpoint into a URL request by
    three in-place steps (URL parameters, then the body, then the headers),
    and `validateResponse` classifies what came back.

    Foundation's URL parsing, `appendingPathComponent`, `URLComponents`,
    percent-encoding, JSON serialisation and UUID generation are not part of
    this model: they are passed in, the first ones as the fields of a
    `Foundation` value, the UUID strings as plain parameters. */
module Networking {

  import opened Components
  import opened Collections
  import opened DataExtensions
  import opened Uploads
  import opened Multipart
  import opened Endpoints

  /** One `name=value` pair of a URL query; the value is absent when
      percent-encoding fails. */
  datatype QueryItem = QueryItem(name: string, value: Option<string>)

  /** A URL: everything up to the query, kept abstract, and the query items. */
  datatype URL = URL(address: string, queryItems: seq<QueryItem>)

  /** The Foundation services the builder calls, left uninterpreted. */
  datatype Foundation = Foundation(
    parseURL: string -> Option<URL>,                   // `URL(string:)`
    appendingPathComponent: (URL, string) -> URL,
    hasComponents: URL -> bool,                        // `URLComponents(url:resolvingAgainstBaseURL:)` succeeds
    percentEncodeHostAllowed: string -> Option<string>, // `addingPercentEncoding(withAllowedCharacters: .urlHostAllowed)`
    jsonData: map<string, Value> -> Option<seq<byte>>)  // `JSONSerialization.data(withJSONObject:)`; None when it throws

  const FormURLEncoded: string := "application/x-www-form-urlencoded; charset=utf-8"
  const ApplicationJSON: string := "application/json"

  /** The multipart boundary made from a UUID string. */
  function BoundaryFor(uuid: string): string {
    "Boundary=" + uuid
  }

  function MultipartContentType(boundary: string): string {
    "multipart/form-data; boundary=" + boundary
  }

  /** The names of the query items, in order. */
  function Names(items: seq<QueryItem>): seq<string> {
    seq(|items|, i requires 0 <= i < |items| => items[i].name)
  }

  /** `items` holds one item per parameter named in `done`, in some order,
      each valued with the percent-encoded rendering of the parameter's value. */
  predicate IsQueryForSome(items: seq<QueryItem>, params: map<string, Value>, encode: string -> Option<string>, done: set<string>) {
    && Enumerates(Names(items), done)
    && forall i :: 0 <= i < |items| ==> items[i].name in params && items[i].value == encode(Describe(params[items[i].name]))
  }

  /** `items` holds one item per parameter, in some order. */
  predicate IsQueryFor(items: seq<QueryItem>, params: map<string, Value>, encode: string -> Option<string>) {
    IsQueryForSome(items, params, encode, params.Keys)
  }

  /** One step of the query loop: the item of one more parameter is appended. */
  lemma QueryStep(items: seq<QueryItem>, params: map<string, Value>, encode: string -> Option<string>, remaining: set<string>, key: string)
    requires remaining <= params.Keys && key in remaining
    requires IsQueryForSome(items, params, encode, params.Keys - remaining)
    ensures IsQueryForSome(items + [QueryItem(key, encode(Describe(params[key])))], params, encode, params.Keys - (remaining - {key}))
  {
    EnumeratesStep(Names(items), params.Keys - remaining, key);
    assert Names(items + [QueryItem(key, encode(Describe(params[key])))]) == Names(items) + [key];
    assert (params.Keys - remaining) + {key} == params.Keys - (remaining - {key});
  }

  /** Two queries for the same parameters differ only in the order of their
      items, and there are as many items as parameters. */
  lemma QueryItemsUpToOrder(a: seq<QueryItem>, b: seq<QueryItem>, params: map<string, Value>, encode: string -> Option<string>)
    requires IsQueryFor(a, params, encode) && IsQueryFor(b, params, encode)
    ensures multiset(a) == multiset(b)
    ensures |a| == |b| == |params|
  {
    var f := (k: string) => QueryItem(k, if k in params then encode(Describe(params[k])) else None);
    QueryItemsAsMap(a, params, encode, f);
    QueryItemsAsMap(b, params, encode, f);
    EnumerationsArePermutations(Names(a), Names(b), params.Keys);
    MapPermutation(f, Names(a), Names(b));
    DistinctCardinality(Names(a));
    assert |Names(a)| == |a| && Elements(Names(a)) == params.Keys;
    assert |multiset(a)| == |multiset(b)|;
  }

  /** The items of a query are the image of their names under one fixed function. */
  lemma QueryItemsAsMap(items: seq<QueryItem>, params: map<string, Value>, encode: string -> Option<string>, f: string -> QueryItem)
    requires IsQueryFor(items, params, encode)
    requires forall k :: k in params ==> f(k) == QueryItem(k, encode(Describe(params[k])))
    ensures items == Map(f, Names(items))
  {
    forall i | 0 <= i < |items|
      ensures items[i] == Map(f, Names(items))[i]
    {
      MapAt(f, Names(items), i);
    }
  }

  /** Every parameter has exactly one item in the query. */
  lemma OneItemPerParameter(items: seq<QueryItem>, params: map<string, Value>, encode: string -> Option<string>, key: string)
    requires IsQueryFor(items, params, encode) && key in params
    ensures exists i :: 0 <= i < |items| && items[i] == QueryItem(key, encode(Describe(params[key])))
    ensures forall i, j :: 0 <= i < |items| && 0 <= j < |items| && items[i].name == key && items[j].name == key ==> i == j
  {
    assert key in Elements(Names(items));
    var i :| 0 <= i < |items| && Names(items)[i] == key;
    assert items[i].name == key;
    forall i, j | 0 <= i < |items| && 0 <= j < |items| && items[i].name == key && items[j].name == key
      ensures i == j
    {
      assert Names(items)[i] == Names(items)[j];
    }
  }

  /** Sets a header field only when it has no value yet. */
  function SetIfAbsent(h: HTTPHeaders, key: string, value: string): (r: HTTPHeaders)
    ensures r.Keys == h.Keys + {key}
    ensures key in h ==> r == h
    ensures key !in h ==> r[key] == value
    ensures forall k :: k in h ==> r[k] == h[k]
  {
    if key in h then h else h[key := value]
  }

  /** The headers after `addHTTPHeaders`: the caller's fields overwrite the
      earlier ones, and with an upload the multipart Content-Type overwrites
      whatever was there. */
  function WithCallerHeaders(h: HTTPHeaders, caller: HTTPHeaders, hasUpload: bool, boundary: string): (r: HTTPHeaders)
    ensures r.Keys == h.Keys + caller.Keys + (if hasUpload then {ContentType} else {})
    ensures hasUpload ==> r[ContentType] == MultipartContentType(boundary)
    ensures forall k :: k in caller && (k != ContentType || !hasUpload) ==> r[k] == caller[k]
    ensures forall k :: k in h && k !in caller && (k != ContentType || !hasUpload) ==> r[k] == h[k]
  {
    var merged := h + caller;
    if hasUpload then merged[ContentType := MultipartContentType(boundary)] else merged
  }

  /** The headers of a request built by `buildRequest`: the form Content-Type
      set by the URL-parameter step, then the caller's fields and the multipart
      Content-Type. The body step adds nothing, since Content-Type is present. */
  function RequestHeaders(caller: HTTPHeaders, hasUpload: bool, headerUUID: string): HTTPHeaders {
    WithCallerHeaders(SetIfAbsent(map[], ContentType, FormURLEncoded), caller, hasUpload, BoundaryFor(headerUUID))
  }

  /** A built request always has a Content-Type: the multipart one with an
      upload, else the caller's, else the form one; it carries no field but
      Content-Type besides the caller's. */
  lemma RequestContentType(caller: HTTPHeaders, hasUpload: bool, headerUUID: string)
    ensures var r := RequestHeaders(caller, hasUpload, headerUUID);
      && ContentType in r
      && r[ContentType] == (if hasUpload then MultipartContentType(BoundaryFor(headerUUID))
                            else if ContentType in caller then caller[ContentType]
                            else FormURLEncoded)
      && r.Keys == caller.Keys + {ContentType}
  {
  }

  /** The JSON Content-Type never comes from the builder itself: it is there
      only when the caller set it and nothing is uploaded. */
  lemma JSONContentTypeOnlyFromCaller(caller: HTTPHeaders, hasUpload: bool, headerUUID: string)
    ensures RequestHeaders(caller, hasUpload, headerUUID)[ContentType] == ApplicationJSON
        <==> !hasUpload && ContentType in caller && caller[ContentType] == ApplicationJSON
  {
    RequestContentType(caller, hasUpload, headerUUID);
    var m := MultipartContentType(BoundaryFor(headerUUID));
    assert m[0] == 'm' && ApplicationJSON[0] == 'a';
    assert FormURLEncoded[12] == 'x' && ApplicationJSON[12] == 'j';
  }

  /** The URL of a built request: with parameters, and when the URL splits
      into components, the query is replaced by one item per parameter;
      otherwise the URL is the base unchanged. */
  predicate URLFor(url: URL, base: URL, params: map<string, Value>, foundation: Foundation) {
    if foundation.hasComponents(base) && |params| > 0 then
      && url.address == base.address
      && IsQueryFor(url.queryItems, params, foundation.percentEncodeHostAllowed)
    else url == base
  }

  /** The body of a built request: multipart with upload bytes, none without
      body parameters, else their JSON serialisation. */
  ghost predicate BodyFor(body: Option<seq<byte>>, params: Option<map<string, Value>>, uploadInfo: Option<UploadInfo>,
                          foundation: Foundation, bodyUUID: string) {
    if HasUploadData(uploadInfo) then
      && body.Some?
      && IsBodyFor(body.value, BoundaryFor(bodyUUID), FieldValues(params), uploadInfo.value.uploadType, uploadInfo.value.data.value)
    else if params.None? then body == None
    else body == foundation.jsonData(params.value)
  }

  /** The form fields of the multipart body: every body parameter rendered with `"\(value)"`. */
  function FieldValues(params: Option<map<string, Value>>): (fields: map<string, string>)
    ensures params.None? ==> fields == map[]
    ensures params.Some? ==> fields.Keys == params.value.Keys
    ensures params.Some? ==> forall k :: k in fields ==> fields[k] == Describe(params.value[k])
  {
    match params
    case None => map[]
    case Some(p) => map k | k in p :: Describe(p[k])
  }

  /** The upload carries bytes, so the body is multipart. */
  predicate HasUploadData(uploadInfo: Option<UploadInfo>) {
    uploadInfo.Some? && uploadInfo.value.data.Some?
  }

  /** `URLRequest`, updated in place by the builder's steps. */
  class URLRequest {
    var url: URL
    var httpMethod: string
    var headers: HTTPHeaders
    var httpBody: Option<seq<byte>>
    var timeoutInterval: real

    /** A fresh request: method "GET", no header fields, no body. */
    constructor (url: URL, timeoutInterval: real)
      ensures this.url == url && this.timeoutInterval == timeoutInterval
      ensures httpMethod == "GET" && headers == map[] && httpBody == None
    {
      this.url := url;
      this.timeoutInterval := timeoutInterval;
      httpMethod := "GET";
      headers := map[];
      httpBody := None;
    }

    /** `value(forHTTPHeaderField:)`. */
    function HeaderValue(field: string): (r: Option<string>)
      reads this
      ensures r.Some? <==> field in headers
      ensures r.Some? ==> r.value == headers[field]
    {
      if field in headers then Some(headers[field]) else None
    }

    /** `setValue(_:forHTTPHeaderField:)`: sets one field; nothing else changes. */
    method SetValue(value: string, field: string)
      modifies this
      ensures headers == Upsert(old(headers), field, value)
      ensures url == old(url) && httpMethod == old(httpMethod)
      ensures httpBody == old(httpBody) && timeoutInterval == old(timeoutInterval)
    {
      headers := headers[field := value];
    }
  }

  /** The client. The logger, the URL session and the upload progress
      callback play no part in building requests and are not modelled. */
  class Network {
    const baseURL: string

    constructor (baseURL: string)
      ensures this.baseURL == baseURL
    {
      this.baseURL := baseURL;
    }

    /** `buildRequest(from:timeoutInterval:uploadInfo:)`. `bodyUUID` and
        `headerUUID` stand for the two `UUID()` calls, in the body step and in
        the header step; nothing makes them equal. */
    method BuildRequest(endpoint: Endpoint, timeoutInterval: real, uploadInfo: Option<UploadInfo>,
                        foundation: Foundation, bodyUUID: string, headerUUID: string)
      returns (result: Result<URLRequest>)
      ensures foundation.parseURL(baseURL).None? ==> result == Failure(InvalidURL)
      ensures foundation.parseURL(baseURL).Some? ==>
        (result.Failure? <==> !HasUploadData(uploadInfo) && endpoint.bodyParams.Some?
                              && foundation.jsonData(endpoint.bodyParams.value).None?)
      ensures foundation.parseURL(baseURL).Some? && result.Failure? ==> result.error == EncodingFailed
      ensures result.Success? ==> fresh(result.value)
      ensures result.Success? ==>
        var request := result.value;
        && request.httpMethod == endpoint.httpMethod.RawValue()
        && request.timeoutInterval == timeoutInterval
        && request.headers == RequestHeaders(endpoint.httpHeaders, uploadInfo.Some?, headerUUID)
        && URLFor(request.url, foundation.appendingPathComponent(foundation.parseURL(baseURL).value, endpoint.path),
                  endpoint.urlParams, foundation)
        && BodyFor(request.httpBody, endpoint.bodyParams, uploadInfo, foundation, bodyUUID)
    {
      var parsed := foundation.parseURL(baseURL);
      if parsed.None? {
        return Failure(InvalidURL);
      }
      var base := foundation.appendingPathComponent(parsed.value, endpoint.path);
      var request := new URLRequest(base, timeoutInterval);
      request.httpMethod := endpoint.httpMethod.RawValue();
      AddURLParameters(request, Some(endpoint.urlParams), foundation);
      assert URLFor(request.url, base, endpoint.urlParams, foundation);
      ghost var formHeaders := request.headers;
      assert formHeaders == SetIfAbsent(map[], ContentType, FormURLEncoded);
      var outcome := AddPostBody(request, endpoint.bodyParams, uploadInfo, foundation, bodyUUID);
      if outcome.Fail? {
        return Failure(outcome.error);
      }
      assert BodyFor(request.httpBody, endpoint.bodyParams, uploadInfo, foundation, bodyUUID);
      assert ContentType in formHeaders;
      assert request.headers == formHeaders;
      AddHTTPHeaders(request, endpoint.httpHeaders, uploadInfo, headerUUID);
      return Success(request);
    }

    /** `addHTTPHeaders(urlRequest:httpHeaders:uploadInfo:)`: copies the
        caller's fields in dictionary order, then, when there is an upload,
        even one without bytes, sets the multipart Content-Type. */
    method AddHTTPHeaders(request: URLRequest, httpHeaders: HTTPHeaders, uploadInfo: Option<UploadInfo>, headerUUID: string)
      modifies request
      ensures request.headers == WithCallerHeaders(old(request.headers), httpHeaders, uploadInfo.Some?, BoundaryFor(headerUUID))
      ensures request.url == old(request.url) && request.httpMethod == old(request.httpMethod)
      ensures request.httpBody == old(request.httpBody) && request.timeoutInterval == old(request.timeoutInterval)
    {
      var remaining := httpHeaders.Keys;
      while remaining != {}
        invariant remaining <= httpHeaders.Keys
        invariant request.headers == old(request.headers) + map k | k in httpHeaders && k !in remaining :: httpHeaders[k]
        invariant request.url == old(request.url) && request.httpMethod == old(request.httpMethod)
        invariant request.httpBody == old(request.httpBody) && request.timeoutInterval == old(request.timeoutInterval)
        decreases remaining
      {
        var key :| key in remaining;
        request.SetValue(httpHeaders[key], key);
        remaining := remaining - {key};
      }
      assert (map k | k in httpHeaders && k !in remaining :: httpHeaders[k]) == httpHeaders;
      if uploadInfo.Some? {
        var boundary := BoundaryFor(headerUUID);
        request.SetValue(MultipartContentType(boundary), ContentType);
      }
    }

    /** `addURLParameters(urlRequest:params:)`. With parameters, and when the
        URL splits into components, the query is replaced by one item per
        parameter; then Content-Type is set to the form type unless present. */
    method AddURLParameters(request: URLRequest, params: Option<map<string, Value>>, foundation: Foundation)
      modifies request
      ensures params.None? ==> request.url == old(request.url) && request.headers == old(request.headers)
      ensures params.Some? && foundation.hasComponents(old(request.url)) && |params.value| > 0 ==>
        && request.url.address == old(request.url).address
        && IsQueryFor(request.url.queryItems, params.value, foundation.percentEncodeHostAllowed)
      ensures params.Some? && !(foundation.hasComponents(old(request.url)) && |params.value| > 0) ==>
        request.url == old(request.url)
      ensures params.Some? ==> request.headers == SetIfAbsent(old(request.headers), ContentType, FormURLEncoded)
      ensures request.httpMethod == old(request.httpMethod) && request.httpBody == old(request.httpBody)
      ensures request.timeoutInterval == old(request.timeoutInterval)
    {
      if params.None? {
        return;
      }
      var ps := params.value;
      if foundation.hasComponents(request.url) && |ps| > 0 {
        var items: seq<QueryItem> := [];
        var remaining := ps.Keys;
        while remaining != {}
          modifies {}
          invariant remaining <= ps.Keys
          invariant IsQueryForSome(items, ps, foundation.percentEncodeHostAllowed, ps.Keys - remaining)
          decreases remaining
        {
          var key :| key in remaining;
          var item := QueryItem(key, foundation.percentEncodeHostAllowed(Describe(ps[key])));
          QueryStep(items, ps, foundation.percentEncodeHostAllowed, remaining, key);
          items := items + [item];
          remaining := remaining - {key};
        }
        assert ps.Keys - remaining == ps.Keys;
        request.url := request.url.(queryItems := items);
      }
      if request.HeaderValue(ContentType).None? {
        request.SetValue(FormURLEncoded, ContentType);
      }
    }

    /** The multipart branch of `addPostBody`: the parts of the body
        parameters in dictionary order, then the file part and the close
        delimiter, appended piece by piece to a fresh buffer. */
    method MultipartBody(params: Option<map<string, Value>>, uploadType: UploadType, uploadData: seq<byte>, boundary: string)
      returns (bytes: seq<byte>)
      ensures IsBodyFor(bytes, boundary, FieldValues(params), uploadType, uploadData)
    {
      var body := new Data();
      ghost var fields := FieldValues(params);
      ghost var visited: seq<string> := [];
      if params.Some? {
        var ps := params.value;
        var remaining := ps.Keys;
        while remaining != {}
          modifies body
          invariant remaining <= fields.Keys == ps.Keys
          invariant FieldPartsBuilt(body.bytes, boundary, visited, fields, fields.Keys - remaining)
          decreases remaining
        {
          var key :| key in remaining;
          var value := ps[key];
          FieldLoopStep(body.bytes, boundary, visited, fields, remaining, key);
          body.AppendString("--" + boundary + "\r\n");
          body.AppendString("Content-Disposition: form-data; name=\"" + key + "\"\r\n\r\n");
          body.AppendString(Describe(value) + "\r\n");
          visited := visited + [key];
          remaining := remaining - {key};
        }
        assert fields.Keys - remaining == fields.Keys;
      } else {
        assert FieldPartsBuilt(body.bytes, boundary, visited, fields, fields.Keys);
      }
      FinishBody(body.bytes, boundary, visited, fields, uploadType, uploadData);
      body.AppendString("--" + boundary + "\r\n");
      body.AppendString("Content-Disposition: form-data; name=\"" + uploadType.Name() + "\"; filename=\""
                        + uploadType.PlaceholderName() + "\"\r\n");
      body.AppendString("Content-Type: " + uploadType.MimeType() + "\r\n\r\n");
      body.Append(uploadData);
      body.AppendString("\r\n");
      body.AppendString("--" + boundary + "--\r\n");
      bytes := body.bytes;
    }

    /** `addPostBody(urlRequest:with:uploadInfo:)`. With upload bytes the body
        is the multipart body of the parameters and the file, built piece by
        piece; otherwise the parameters, if any, are serialised to JSON, a
        serialisation failure being `EncodingFailed`. */
    method AddPostBody(request: URLRequest, params: Option<map<string, Value>>, uploadInfo: Option<UploadInfo>,
                       foundation: Foundation, bodyUUID: string)
      returns (outcome: Outcome)
      modifies request
      ensures HasUploadData(uploadInfo) ==>
        && outcome == Pass
        && request.httpBody.Some?
        && IsBodyFor(request.httpBody.value, BoundaryFor(bodyUUID), FieldValues(params),
                     uploadInfo.value.uploadType, uploadInfo.value.data.value)
        && request.headers == old(request.headers)
      ensures !HasUploadData(uploadInfo) && params.None? ==>
        outcome == Pass && request.httpBody == old(request.httpBody) && request.headers == old(request.headers)
      ensures !HasUploadData(uploadInfo) && params.Some? && foundation.jsonData(params.value).None? ==>
        outcome == Fail(EncodingFailed) && request.httpBody == old(request.httpBody) && request.headers == old(request.headers)
      ensures !HasUploadData(uploadInfo) && params.Some? && foundation.jsonData(params.value).Some? ==>
        && outcome == Pass
        && request.httpBody == foundation.jsonData(params.value)
        && request.headers == SetIfAbsent(old(request.headers), ContentType, ApplicationJSON)
      ensures request.url == old(request.url) && request.httpMethod == old(request.httpMethod)
      ensures request.timeoutInterval == old(request.timeoutInterval)
    {
      if uploadInfo.Some? && uploadInfo.value.data.Some? {
        var body := MultipartBody(params, uploadInfo.value.uploadType, uploadInfo.value.data.value, BoundaryFor(bodyUUID));
        request.httpBody := Some(body);
        return Pass;
      }
      if params.None? {
        return Pass;
      }
      var json := foundation.jsonData(params.value);
      if json.None? {
        return Fail(EncodingFailed);
      }
      request.httpBody := json;
      if request.HeaderValue(ContentType).None? {
        request.SetValue(ApplicationJSON, ContentType);
      }
      return Pass;
    }
  }

  /** What the session hands back: an HTTP response with its status code, or
      a response of another kind. */
  datatype URLResponse = HTTPURLResponse(statusCode: int) | OtherResponse

  /** `validateResponse(_:data:)`: no HTTP response, then a status code outside
      200..<400, then missing data, are errors, checked in that order. */
  function ValidateResponse(response: Option<URLResponse>, data: Option<seq<byte>>): (r: Outcome)
    ensures r == Fail(NoResponse) <==> !(response.Some? && response.value.HTTPURLResponse?)
    ensures r.Fail? && r.error.BadStatusCode? <==>
      response.Some? && response.value.HTTPURLResponse? && !(200 <= response.value.statusCode < 400)
    ensures r.Fail? && r.error.BadStatusCode? ==> r.error.statusCode == response.value.statusCode
    ensures r == Fail(Unknown) <==>
      response.Some? && response.value.HTTPURLResponse? && 200 <= response.value.statusCode < 400 && data.None?
    ensures r == Pass <==>
      response.Some? && response.value.HTTPURLResponse? && 200 <= response.value.statusCode < 400 && data.Some?
  {
    if !(response.Some? && response.value.HTTPURLResponse?) then Fail(NoResponse)
    else if !(200 <= response.value.statusCode < 400) then Fail(BadStatusCode(response.value.statusCode))
    else if data.None? then Fail(Unknown)
    else Pass
  }

  /** The data is looked at only once the status code is acceptable, and the
      status code only once the response is an HTTP response. */
  lemma ValidationOrder(response: Option<URLResponse>, d1: Option<seq<byte>>, d2: Option<seq<byte>>, code: int)
    ensures !(response.Some? && response.value.HTTPURLResponse? && 200 <= response.value.statusCode < 400) ==>
      ValidateResponse(response, d1) == ValidateResponse(response, d2)
    ensures ValidateResponse(Some(OtherResponse), d1) == Fail(NoResponse)
    ensures ValidateResponse(None, d1) == Fail(NoResponse)
    ensures !(200 <= code < 400) ==> ValidateResponse(Some(HTTPURLResponse(code)), d1) == Fail(BadStatusCode(code))
  {
  }
}
