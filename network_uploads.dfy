/** The upload extension of the client (Network+Uploads.swift): its own
    builder of the multipart body, from string parameters and the file bytes. */
module NetworkUploads {

  import opened Components
  import opened DataExtensions
  import opened Uploads
  import opened Multipart
  import opened Networking

  /** `createBodyWithParameters(parameters:fileDataPath:boundary:uploadInfo:)`:
      the parts of the parameters in dictionary order, then the file part and
      the close delimiter. It reads no state of the client, so it is modelled
      outside the class. */
  method CreateBodyWithParameters(parameters: Option<map<string, string>>, fileData: seq<byte>, boundary: string, uploadInfo: UploadInfo)
    returns (bytes: seq<byte>)
    ensures IsBodyFor(bytes, boundary, if parameters.Some? then parameters.value else map[], uploadInfo.uploadType, fileData)
  {
    var body := new Data();
    ghost var fields: map<string, string> := if parameters.Some? then parameters.value else map[];
    ghost var visited: seq<string> := [];
    if parameters != None {
      var ps := parameters.value;
      var remaining := ps.Keys;
      while remaining != {}
        modifies body
        invariant remaining <= fields.Keys == ps.Keys
        invariant FieldPartsBuilt(body.bytes, boundary, visited, fields, fields.Keys - remaining)
        decreases remaining
      {
        var key :| key in remaining;
        var value := ps[key];
        FieldLoopStep(body.bytes, boundary, visited, fields, remaining, key);
        body.AppendString("--" + boundary + "\r\n");
        body.AppendString("Content-Disposition: form-data; name=\"" + key + "\"\r\n\r\n");
        body.AppendString(value + "\r\n");
        visited := visited + [key];
        remaining := remaining - {key};
      }
      assert fields.Keys - remaining == fields.Keys;
    } else {
      assert FieldPartsBuilt(body.bytes, boundary, visited, fields, fields.Keys);
    }
    var t := uploadInfo.uploadType;
    FinishBody(body.bytes, boundary, visited, fields, t, fileData);
    body.AppendString("--" + boundary + "\r\n");
    body.AppendString("Content-Disposition: form-data; name=\"" + t.Name() + "\"; filename=\"" + t.PlaceholderName() + "\"\r\n");
    body.AppendString("Content-Type: " + t.MimeType() + "\r\n\r\n");
    body.Append(fileData);
    body.AppendString("\r\n");
    body.AppendString("--" + boundary + "--\r\n");
    bytes := body.bytes;
  }

  /** String parameters, as the body step of the request builder receives them. */
  function AsValues(parameters: Option<map<string, string>>): (r: Option<map<string, Value>>)
    ensures r.Some? <==> parameters.Some?
    ensures r.Some? ==> r.value.Keys == parameters.value.Keys
    ensures r.Some? ==> forall k :: k in r.value ==> r.value[k] == Str(parameters.value[k])
  {
    match parameters
    case None => None
    case Some(p) => Some(map k | k in p :: Str(p[k]))
  }

  /** Given string parameters, the multipart branch of the request builder
      sees exactly these parameters as its form fields. */
  lemma StringFieldValues(parameters: Option<map<string, string>>)
    ensures FieldValues(AsValues(parameters)) == (if parameters.Some? then parameters.value else map[])
  {
    var fields: map<string, string> := if parameters.Some? then parameters.value else map[];
    var described := FieldValues(AsValues(parameters));
    assert described.Keys == fields.Keys;
    forall k | k in fields
      ensures described[k] == fields[k]
    {
      assert Describe(Str(fields[k])) == fields[k];
    }
  }

  /** The two builders agree: for the same string parameters, boundary,
      upload type and bytes, every body one of them may build (depending on
      the dictionary order) the other may build too, and all such bodies have
      the same length. */
  lemma BuildersAgree(parameters: Option<map<string, string>>, boundary: string, t: UploadType, file: seq<byte>,
                      body1: seq<byte>, body2: seq<byte>)
    requires IsBodyFor(body1, boundary, if parameters.Some? then parameters.value else map[], t, file)
    ensures IsBodyFor(body1, boundary, FieldValues(AsValues(parameters)), t, file)
    ensures IsBodyFor(body2, boundary, FieldValues(AsValues(parameters)), t, file) ==> |body1| == |body2|
  {
    var fields: map<string, string> := if parameters.Some? then parameters.value else map[];
    StringFieldValues(parameters);
    if IsBodyFor(body2, boundary, fields, t, file) {
      IsBodyForSameLength(body1, body2, boundary, fields, t, file);
    }
  }
}
