# LightNetworking request construction, in Dafny

This project models the request-building and response-checking core of
LightNetworking, a small Swift HTTP client. It covers these pieces:

- `Network.buildRequest` turns an `Endpoint` into a `URLRequest` in three in-place steps, in this order:
  - the URL parameters become the query;
  - the body is set, either as JSON or as a multipart/form-data upload;
  - the caller's header fields are copied, and with an upload the multipart Content-Type is forced.
- `Network.validateResponse` classifies the response that comes back.
- `createBodyWithParameters` in the upload extension builds the same multipart body from string parameters.
- The `Endpoint` builder methods.
- The HTTP methods, the header names and the API errors with their descriptions.
- The upload types and their metadata.
- `Data.appendString`, which appends a string's UTF-8 encoding (RFC 3629).

Modules, one per source file plus two shared ones:

| module | file | models |
|---|---|---|
| `Components` | components.dfy | Components.swift |
| `DataExtensions` | data_extensions.dfy | DataExtensions.swift, with the UTF-8 encoder and a decoder that undoes it |
| `Uploads` | uploads.dfy | UploadInfo.swift |
| `Endpoints` | endpoint.dfy | Endpoint.swift |
| `Collections` | collections.dfy | shared: how a loop over a Swift dictionary visits its keys |
| `Multipart` | multipart.dfy | shared: the multipart body layout that both body builders produce (RFC 7578, section 4; delimiters per RFC 2046, section 5.1.1) |
| `Networking` | network.dfy | Network.swift |
| `NetworkUploads` | network_uploads.dfy | `createBodyWithParameters` in Network+Uploads.swift |

Modelling decisions:

- Swift leaves the iteration order of a dictionary unspecified. Every loop over a dictionary picks its next key with `:|` from the keys not yet visited. Its result is stated for an enumeration of the keys: a sequence that holds each key exactly once, in any order.
  - Query results say "one item per parameter" (`IsQueryFor`).
  - Multipart results say "the body for some enumeration of the fields" (`IsBodyFor`).
  - Lemmas then state what does not depend on the order: the multiset of items or parts, and the body's length.
- Foundation's URL parsing, `appendingPathComponent`, `URLComponents`, percent-encoding with `.urlHostAllowed` and `JSONSerialization` are uninterpreted. They are the fields of a `Foundation` value passed to the builder.
  - A `URL` is an abstract address plus its query items.
  - `JSONSerialization` failing is `None`.
- The two `UUID()` calls are two parameters, `bodyUUID` and `headerUUID`. One is made in the body step, the other in the header step, and nothing makes them equal. So the boundary announced in the Content-Type is in general not the one that delimits the body.
- Header fields are a map keyed by the exact field name. `URLRequest` matches field names case-insensitively; the model assumes every caller spells a field the way the client does ("Content-Type").
- Parameter values (`Any` in Swift) are a closed `Value` type of strings, integers and booleans. `"\(value)"` renders a string as itself, an integer in decimal and a boolean as `true`/`false`. The decimal rendering is proved to read back.
- `APIError` adds `NoNetwork` and `DecodingFailed`. Both are thrown in the repository, at Network.swift:52 and JSONParser.swift:23, but the enum in Components.swift does not declare them. The source determines no `errorDescription` for them: with those cases added to the enum, the exhaustive switch would not compile. The model chooses to give them no description. For the five declared cases the description is total.
- `UploadInfo.init` stores its two fields unchanged, and the data may be absent. It is the `UploadInfo` datatype constructor.

Where the code and its documentation differ, the model follows the code:

- `buildRequest` passes the non-optional `urlParams` to `addURLParameters`, so that step always runs. It therefore always sets Content-Type to the form type when the field is absent. As a result the `application/json` default of the body step never fires inside `buildRequest`: the JSON Content-Type appears only when the caller set it and nothing is uploaded (`JSONContentTypeOnlyFromCaller`).
- A JSON body is built for any present `bodyParams`, even an empty dictionary.
- A multipart body is built for any present upload data, even zero bytes.
- The multipart Content-Type is set whenever `uploadInfo` is present, even when its data is absent and the body is not multipart.
- No "missing data" error exists. Absent response data is `unknown`.

## Model

| member | source | states |
|---|---|---|
| Components.MethodFromRawValue | Sources/LightNetworking/Network/Components.swift:26-31 | a recognised raw value gives back the method whose raw value it is |
| Components.MethodRawValueRoundTrip | Sources/LightNetworking/Network/Components.swift:26-31 | GET and POST have raw values "GET" and "POST", each read back as its method, and no other string is a method |
| Components.Describe | Sources/LightNetworking/Network/Network.swift:115 | string interpolation of a parameter value: a string renders as itself, an integer as a decimal that reads back as that integer |
| Components.IntToDecimalRoundTrip | Sources/LightNetworking/Network/Components.swift:54 | the decimal rendering of any integer, negative ones included, parses back to the integer |
| Components.IntToDecimalInjective | Sources/LightNetworking/Network/Components.swift:54 | distinct integers render differently |
| Components.ErrorDescription | Sources/LightNetworking/Network/Components.swift:47-59 | every case declared in the enum has a description; the two undeclared ones do not |
| Components.BadStatusCodeDescription | Sources/LightNetworking/Network/Components.swift:53-54 | the description of a bad status code is "Bad status code: " followed by the code's decimal form, which reads back as the code |
| Components.ErrorDescriptionInjective | Sources/LightNetworking/Network/Components.swift:47-59 | different described errors have different descriptions, so the description identifies the error and its status code |
| DataExtensions.EncodeScalar | Sources/LightNetworking/Extensions/DataExtensions.swift:23 | one character encodes to one to four UTF-8 bytes |
| DataExtensions.Utf8Length | Sources/LightNetworking/Extensions/DataExtensions.swift:23 | a string's UTF-8 encoding has between one and four bytes per character |
| DataExtensions.Utf8Append | Sources/LightNetworking/Extensions/DataExtensions.swift:22-27 | the encoding of a concatenation is the concatenation of the encodings, so appending pieces one by one encodes the whole |
| DataExtensions.Utf8Ascii | Sources/LightNetworking/Extensions/DataExtensions.swift:23 | characters below U+0080 encode as their own codes, one byte each |
| DataExtensions.DecodeEncodeScalar | Sources/LightNetworking/Extensions/DataExtensions.swift:23 | decoding the bytes of one character gives the character back |
| DataExtensions.DecodeScalarUnique | Sources/LightNetworking/Extensions/DataExtensions.swift:23 | a byte sequence that decodes to a character is exactly that character's encoding, so the encoder writes the one shortest form |
| DataExtensions.DecodeRejectsOverlong | Sources/LightNetworking/Extensions/DataExtensions.swift:23 | overlong two-, three- and four-byte forms do not decode |
| DataExtensions.Utf8RoundTrip | Sources/LightNetworking/Extensions/DataExtensions.swift:23 | decoding the UTF-8 encoding of any string gives the string back, so no information is lost |
| DataExtensions.Utf8Injective | Sources/LightNetworking/Extensions/DataExtensions.swift:23 | different strings append different bytes |
| DataExtensions.Data.AppendString | Sources/LightNetworking/Extensions/DataExtensions.swift:22-27 | the buffer becomes the old buffer followed by the string's UTF-8 encoding: the old bytes are a prefix, the length grows by the encoding's length, and the empty string changes nothing |
| DataExtensions.Data.Append | Sources/LightNetworking/Extensions/DataExtensions.swift:26 | the raw bytes are appended after the old buffer |
| Uploads.UploadTypeMetadata | Sources/LightNetworking/Network/UploadInfo.swift:15-35 | video is video/mp4 and placeholder.mov, image is image/jpeg and placeholder.jpeg, both are named "file", and the MIME type and the file name each tell the two types apart |
| Endpoints.Upsert | Sources/LightNetworking/Network/Endpoint.swift:47 | a dictionary write maps the key to the value, keeps every other entry and adds no other key |
| Endpoints.UpsertIdempotent | Sources/LightNetworking/Network/Endpoint.swift:46-67 | writing the same entry twice equals writing it once |
| Endpoints.UpsertGrowth | Sources/LightNetworking/Network/Endpoint.swift:46-67 | a write removes no key and adds at most one |
| Endpoints.Endpoint.constructor | Sources/LightNetworking/Network/Endpoint.swift:32-38 | every argument is stored unchanged; the defaults are GET, no URL parameters, no body parameters and no headers |
| Endpoints.Endpoint.AddURLParam | Sources/LightNetworking/Network/Endpoint.swift:46-48 | the URL parameters get the entry; every other field is unchanged |
| Endpoints.Endpoint.AddBodyParam | Sources/LightNetworking/Network/Endpoint.swift:54-59 | absent body parameters become exactly the one entry; present ones get the entry and keep the rest; every other field is unchanged |
| Endpoints.Endpoint.AddHTTPHeader | Sources/LightNetworking/Network/Endpoint.swift:65-67 | the headers get the entry; every other field is unchanged |
| Collections.EnumerationsArePermutations | Sources/LightNetworking/Network/Network.swift:114 | two iteration orders of the same dictionary differ only in order |
| Multipart.BodyAsPieces | Sources/LightNetworking/Network/Network+Uploads.swift:39-54 | encoding the body's text as a whole gives the same bytes as encoding its pieces one after the other, in the order the builder appends them |
| Multipart.BodyWithoutFields | Sources/LightNetworking/Network/Network+Uploads.swift:47-54 | without fields the body is the UTF-8 text of the delimiter line, the disposition line and the Content-Type line with its blank line, then the file bytes, then CRLF and the close delimiter |
| Multipart.IsBodyForWithoutFields | Sources/LightNetworking/Network/Network+Uploads.swift:39-54 | with nil parameters the builder's result is exactly that body, whatever the order |
| Multipart.FieldPartsAt | Sources/LightNetworking/Network/Network+Uploads.swift:40-44 | the i-th field part is the delimiter, the disposition naming the i-th visited key, and that key's value |
| Multipart.OnePartPerField | Sources/LightNetworking/Network/Network+Uploads.swift:39-45 | there are as many field parts as fields, and every field has its part |
| Multipart.FieldPartsComeFirst | Sources/LightNetworking/Network/Network+Uploads.swift:39-48 | the body opens with all the field parts, before the file part's delimiter and disposition |
| Multipart.FieldPartsOrderIndependent | Sources/LightNetworking/Network/Network.swift:133 | any two iteration orders give the same multiset of field parts |
| Multipart.FileBytesVerbatim | Sources/LightNetworking/Network/Network+Uploads.swift:49-51 | the file bytes appear unchanged, right after the "Content-Type: mime" line and its blank line, and right before CRLF |
| Multipart.EndsWithCloseDelimiter | Sources/LightNetworking/Network/Network+Uploads.swift:54 | the body ends with "--boundary--" and CRLF |
| Multipart.ConcatLengthPermutation | Sources/LightNetworking/Network/Network.swift:133-137 | reordering the parts does not change the encoded length |
| Multipart.IsBodyForSameLength | Sources/LightNetworking/Network/Network.swift:133-137 | two bodies built for the same fields in any two orders have the same length |
| Multipart.AppendFieldPart | Sources/LightNetworking/Network/Network+Uploads.swift:41-43 | appending a field's three lines to the parts so far gives the parts of the longer order |
| Multipart.AppendFilePart | Sources/LightNetworking/Network/Network+Uploads.swift:47-54 | appending the file part and the close delimiter, piece by piece, completes the body |
| Multipart.FieldLoopStep | Sources/LightNetworking/Network/Network+Uploads.swift:40-44 | one pass of the field loop, on a key not yet visited, keeps the buffer equal to the encoded parts of the keys visited so far, which are visited once each and all come from the dictionary |
| Multipart.FinishBody | Sources/LightNetworking/Network/Network+Uploads.swift:47-54 | once every key is visited, appending the file part and the close delimiter gives a body for the fields |
| Networking.QueryItemsUpToOrder | Sources/LightNetworking/Network/Network.swift:111-119 | two queries for the same parameters hold the same items in possibly different orders, one item per parameter |
| Networking.OneItemPerParameter | Sources/LightNetworking/Network/Network.swift:114-117 | every parameter has exactly one item, valued with the percent-encoded rendering of its value |
| Networking.QueryItemsAsMap | Sources/LightNetworking/Network/Network.swift:115 | every item is determined by its name alone |
| Networking.SetIfAbsent | Sources/LightNetworking/Network/Network.swift:121-123 | the field is set only when it has no value; afterwards it is present and no other field changes |
| Networking.WithCallerHeaders | Sources/LightNetworking/Network/Network.swift:91-100 | the caller's fields win over earlier ones; with an upload the multipart Content-Type wins over everything; other earlier fields stay |
| Networking.RequestContentType | Sources/LightNetworking/Network/Network.swift:82-86 | a built request always has a Content-Type: multipart with an upload, else the caller's, else the form type, and no field beyond the caller's and Content-Type |
| Networking.JSONContentTypeOnlyFromCaller | Sources/LightNetworking/Network/Network.swift:159-161 | inside buildRequest the JSON Content-Type is present exactly when the caller set it and nothing is uploaded |
| Networking.FieldValues | Sources/LightNetworking/Network/Network.swift:132-137 | the multipart fields are the body parameters, each rendered with string interpolation; no parameters give no fields |
| Networking.URLRequest.constructor | Sources/LightNetworking/Network/Network.swift:75-77 | a fresh request has the URL and timeout, method GET, no header field and no body |
| Networking.URLRequest.HeaderValue | Sources/LightNetworking/Network/Network.swift:121 | a field has a value exactly when it is set, and the value is the one set |
| Networking.URLRequest.SetValue | Sources/LightNetworking/Network/Network.swift:93 | the field gets the value; nothing else changes |
| Networking.Network.constructor | Sources/LightNetworking/Network/Network.swift:22-26 | the base URL is stored |
| Networking.Network.BuildRequest | Sources/LightNetworking/Network/Network.swift:70-89 | an unparsable base URL fails with invalidURL; otherwise it fails, with encodingFailed, exactly when JSON serialisation of the body parameters fails without upload data. A success has the endpoint's method, the timeout, the headers above, one query item per URL parameter, and the multipart, absent or JSON body |
| Networking.Network.AddHTTPHeaders | Sources/LightNetworking/Network/Network.swift:91-100 | the headers become the old ones overwritten by the caller's, then by the multipart Content-Type with an upload, even one without data; nothing else changes |
| Networking.Network.AddURLParameters | Sources/LightNetworking/Network/Network.swift:102-124 | with parameters, a non-empty dictionary and a URL that splits into components, the query is replaced by one item per parameter; otherwise the URL is unchanged; with parameters the form Content-Type is set if absent; nothing else changes |
| Networking.Network.MultipartBody | Sources/LightNetworking/Network/Network.swift:127-146 | the bytes are the multipart body of the rendered body parameters, in some dictionary order, and of the file |
| Networking.Network.AddPostBody | Sources/LightNetworking/Network/Network.swift:126-166 | with upload data the body is multipart and the headers are unchanged; with no parameters nothing changes; a JSON failure gives encodingFailed and changes nothing; otherwise the body is the JSON and the JSON Content-Type is set if absent |
| Networking.ValidateResponse | Sources/LightNetworking/Network/Network.swift:170-182 | a missing or non-HTTP response is noResponse; an HTTP status outside 200..<400 is badStatusCode with that status; otherwise missing data is unknown; each outcome holds exactly in its case |
| Networking.ValidationOrder | Sources/LightNetworking/Network/Network.swift:170-182 | the data matters only once the status is acceptable, and the status only for an HTTP response |
| NetworkUploads.CreateBodyWithParameters | Sources/LightNetworking/Network/Network+Uploads.swift:36-57 | the bytes are the multipart body of the parameters, in some dictionary order, and of the file; no parameters give no field parts |
| NetworkUploads.AsValues | Sources/LightNetworking/Network/Network+Uploads.swift:36 | string parameters seen as parameter values keep their keys and wrap each string |
| NetworkUploads.StringFieldValues | Sources/LightNetworking/Network/Network+Uploads.swift:39-44 | string parameters rendered by the request builder are the strings themselves |
| NetworkUploads.BuildersAgree | Sources/LightNetworking/Network/Network+Uploads.swift:36-57 | for the same string parameters, boundary, type and bytes, whatever body one builder can produce the other can too, and all have one length |

## Left out

- `Network.request` and `Network.upload` are left out: they are asynchronous URLSession I/O, session creation and logging around `buildRequest` and `validateResponse`.
- `connectionStatus` is left out: it wraps the external Reachability library, which is not part of this model.
- The upload progress delegate is left out: it does `Float` division, runs on the main queue and writes a client-wide callback field.
- NetworkLogger.swift is left out: it only writes to the console.
- JSONParser.swift and `parseJSON` are left out: they are thin wrappers over `JSONDecoder`. Only the `DecodingFailed` error they throw is modelled.
- `prettyPrintedJSONString` is left out: it is a JSON text formatter.
- Foundation internals are uninterpreted and nothing is stated about the final URL string: URL parsing, `appendingPathComponent`, `URLComponents` query serialisation, the `.urlHostAllowed` character set, JSON text and UUID generation.
- `URLComponents.url` returning nil is not modelled. A URL split into components is put back together with the new query.
- Some guards are not modelled because nothing can reach them:
  - `guard let url = urlRequest.url` at Network.swift:103 cannot fail, since `buildRequest` always gives the request a URL;
  - the early return in `appendString` cannot happen, since encoding a Swift string to UTF-8 does not fail.
- `URLRequest` header fields are matched case-insensitively; the model uses exact keys.
- Dictionary keys (URL parameters, body parameters, header names, multipart field names) are compared as sequences of Unicode scalars. Swift compares and hashes `String` keys by canonical equivalence, so "\u{E9}" and "e\u{301}" are one key in Swift and two in the model. The model assumes callers use a single normalisation form. Otherwise the counts also differ: one query item per parameter, and one multipart part per field.
- Components.ErrorDescription: the `None` for `NoNetwork` and `DecodingFailed` is a modelling choice, not something the source determines. The source's switch over the five declared cases would not compile with them.
- The cache policy of the request is not modelled; it does not affect the fields stated.
- The timeout is a `real` instead of a `Double`.
- Parameter values other than strings, integers and booleans (doubles, arrays, dictionaries) are not modelled. Their `"\(value)"` rendering depends on Foundation formatting.
- The generic parameter of `Endpoint` (the model type to decode into) is dropped: it plays no part in building a request.
- Networking.Network.MultipartBody: the source builds this body inline inside `addPostBody`. The model puts those lines in a method of their own, which `AddPostBody` calls.
- Networking.Network.BuildRequest, Multipart.IsBodyFor: the dictionary order is left open, so a body is stated up to the order of its field parts, not byte for byte.
