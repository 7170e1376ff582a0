/** The layout of the multipart/form-data body that both body builders
    produce (RFC 7578, section 4, with the delimiters of RFC 2046, section
    5.1.1): one part per form field, then the file part, then the close
    delimiter. The fields are visited in dictionary order, which the language
    leaves unspecified, so the layout is given for an enumeration `order` of
    the field names. */
module Multipart {

  import opened Components
  import opened Collections
  import opened DataExtensions
  import opened Uploads

  /** The line that opens a part. */
  function Delimiter(boundary: string): string {
    "--" + boundary + "\r\n"
  }

  /** The line that ends the body. */
  function CloseDelimiter(boundary: string): string {
    "--" + boundary + "--\r\n"
  }

  /** The part that carries one form field. */
  function FieldPart(boundary: string, name: string, value: string): string {
    Delimiter(boundary)
    + "Content-Disposition: form-data; name=\"" + name + "\"\r\n\r\n"
    + value + "\r\n"
  }

  /** The header lines of the file part, up to the blank line before its bytes. */
  function FileDisposition(t: UploadType): string {
    "Content-Disposition: form-data; name=\"" + t.Name() + "\"; filename=\"" + t.PlaceholderName() + "\"\r\n"
  }

  function FileContentType(t: UploadType): string {
    "Content-Type: " + t.MimeType() + "\r\n\r\n"
  }

  /** The field parts, one per name of `order`, in that order. */
  function FieldParts(boundary: string, order: seq<string>, fields: map<string, string>): (parts: seq<string>)
    requires forall i :: 0 <= i < |order| ==> order[i] in fields
    ensures |parts| == |order|
    decreases |order|
  {
    if order == [] then []
    else
      var last := order[|order| - 1];
      FieldParts(boundary, order[..|order| - 1], fields) + [FieldPart(boundary, last, fields[last])]
  }

  /** The strings of `parts`, one after the other. */
  function Concat(parts: seq<string>): string
    decreases |parts|
  {
    if parts == [] then "" else Concat(parts[..|parts| - 1]) + parts[|parts| - 1]
  }

  /** Everything before the file bytes: the field parts and the file part's header lines. */
  function Preamble(boundary: string, order: seq<string>, fields: map<string, string>, t: UploadType): string
    requires forall i :: 0 <= i < |order| ==> order[i] in fields
  {
    Concat(FieldParts(boundary, order, fields)) + Delimiter(boundary) + FileDisposition(t) + FileContentType(t)
  }

  /** The whole body, as bytes: the UTF-8 text before the file, the file
      bytes verbatim, then the line break that ends the file part and the
      close delimiter. */
  function Body(boundary: string, order: seq<string>, fields: map<string, string>, t: UploadType, file: seq<byte>): seq<byte>
    requires forall i :: 0 <= i < |order| ==> order[i] in fields
  {
    Utf8(Preamble(boundary, order, fields, t)) + file + Utf8("\r\n" + CloseDelimiter(boundary))
  }

  /** Encoding the text is encoding its pieces one by one, as the builders
      append them: the field parts, the file part's delimiter and header
      lines, the file, the line break and the close delimiter. */
  lemma BodyAsPieces(boundary: string, order: seq<string>, fields: map<string, string>, t: UploadType, file: seq<byte>)
    requires forall i :: 0 <= i < |order| ==> order[i] in fields
    ensures Body(boundary, order, fields, t, file)
         == Utf8(Concat(FieldParts(boundary, order, fields))) + Utf8(Delimiter(boundary)) + Utf8(FileDisposition(t))
            + Utf8(FileContentType(t)) + file + Utf8("\r\n") + Utf8(CloseDelimiter(boundary))
  {
    EncodePieces(Concat(FieldParts(boundary, order, fields)), Delimiter(boundary), FileDisposition(t), FileContentType(t),
                 file, "\r\n", CloseDelimiter(boundary));
  }

  /** Encoding text pieces one by one around raw bytes is encoding the text
      before the bytes and the text after them. */
  lemma EncodePieces(done: string, d: string, f: string, c: string, file: seq<byte>, crlf: string, close: string)
    ensures Utf8(done) + Utf8(d) + Utf8(f) + Utf8(c) + file + Utf8(crlf) + Utf8(close)
         == Utf8(done + d + f + c) + file + Utf8(crlf + close)
  {
    Utf8Append(done + d + f, c);
    Utf8Append(done + d, f);
    Utf8Append(done, d);
    Utf8Append(crlf, close);
  }

  /** Adding one more field to the order appends its part. */
  lemma FieldPartsSnoc(boundary: string, order: seq<string>, key: string, fields: map<string, string>)
    requires forall i :: 0 <= i < |order| ==> order[i] in fields
    requires key in fields
    ensures Concat(FieldParts(boundary, order + [key], fields))
         == Concat(FieldParts(boundary, order, fields)) + FieldPart(boundary, key, fields[key])
  {
    var order' := order + [key];
    assert order'[..|order'| - 1] == order;
    var parts := FieldParts(boundary, order', fields);
    assert parts[..|parts| - 1] == FieldParts(boundary, order, fields);
  }

  /** Without fields the body is exactly the file part and the close
      delimiter: the delimiter line, the disposition line, the Content-Type
      line with its blank line, the file, the line break and the close
      delimiter. */
  lemma BodyWithoutFields(boundary: string, fields: map<string, string>, t: UploadType, file: seq<byte>)
    ensures Body(boundary, [], fields, t, file)
         == Utf8(Delimiter(boundary) + FileDisposition(t) + FileContentType(t)) + file + Utf8("\r\n" + CloseDelimiter(boundary))
  {
    assert Concat(FieldParts(boundary, [], fields)) == "";
    EmptyPrefix(Delimiter(boundary), FileDisposition(t), FileContentType(t));
  }

  lemma EmptyPrefix(d: string, f: string, c: string)
    ensures "" + d + f + c == d + f + c
  {
  }

  /** The body opens with the field parts, all of them before the file part. */
  lemma FieldPartsComeFirst(boundary: string, order: seq<string>, fields: map<string, string>, t: UploadType, file: seq<byte>)
    requires forall i :: 0 <= i < |order| ==> order[i] in fields
    ensures var text := Utf8(Concat(FieldParts(boundary, order, fields)) + Delimiter(boundary) + FileDisposition(t));
      && |text| <= |Body(boundary, order, fields, t, file)|
      && Body(boundary, order, fields, t, file)[..|text|] == text
  {
    Utf8Append(Concat(FieldParts(boundary, order, fields)) + Delimiter(boundary) + FileDisposition(t), FileContentType(t));
  }

  /** Slicing bytes laid out around a file gives back the pieces next to it. */
  lemma SliceAround(before: seq<byte>, header: seq<byte>, file: seq<byte>, crlf: seq<byte>, close: seq<byte>)
    requires |crlf| == 2
    ensures var x := (before + header) + file + (crlf + close);
      var start := |before + header|;
      && x[start - |header|..start] == header
      && x[start..start + |file|] == file
      && x[start + |file|..start + |file| + 2] == crlf
  {
  }

  /** The file bytes appear verbatim, right after the part's Content-Type line
      and its blank line, and right before the line break that ends the part. */
  lemma FileBytesVerbatim(boundary: string, order: seq<string>, fields: map<string, string>, t: UploadType, file: seq<byte>)
    requires forall i :: 0 <= i < |order| ==> order[i] in fields
    ensures var body := Body(boundary, order, fields, t, file);
      var header := Utf8(FileContentType(t));
      var start := |Utf8(Preamble(boundary, order, fields, t))|;
      && |header| <= start
      && start + |file| + 2 <= |body|
      && body[start - |header|..start] == header
      && body[start..start + |file|] == file
      && body[start + |file|..start + |file| + 2] == Utf8("\r\n")
  {
    FileSlices(Concat(FieldParts(boundary, order, fields)) + Delimiter(boundary) + FileDisposition(t), FileContentType(t),
               file, CloseDelimiter(boundary));
  }

  /** Where the header, the file and the line break after it sit in encoded text around a file. */
  lemma FileSlices(before: string, c: string, file: seq<byte>, close: string)
    ensures var body := Utf8(before + c) + file + Utf8("\r\n" + close);
      var header := Utf8(c);
      var start := |Utf8(before + c)|;
      && |header| <= start
      && start + |file| + 2 <= |body|
      && body[start - |header|..start] == header
      && body[start..start + |file|] == file
      && body[start + |file|..start + |file| + 2] == Utf8("\r\n")
  {
    Utf8Append(before, c);
    Utf8Append("\r\n", close);
    SliceAround(Utf8(before), Utf8(c), file, Utf8("\r\n"), Utf8(close));
  }

  /** The body always ends with the close delimiter. */
  lemma EndsWithCloseDelimiter(boundary: string, order: seq<string>, fields: map<string, string>, t: UploadType, file: seq<byte>)
    requires forall i :: 0 <= i < |order| ==> order[i] in fields
    ensures var body := Body(boundary, order, fields, t, file);
      var close := Utf8(CloseDelimiter(boundary));
      && |close| <= |body|
      && body[|body| - |close|..] == close
  {
    Utf8Append("\r\n", CloseDelimiter(boundary));
  }

  /** The `i`-th field part is the part of the `i`-th name in the order. */
  lemma {:induction false} FieldPartsAt(boundary: string, order: seq<string>, fields: map<string, string>, i: nat)
    requires forall j :: 0 <= j < |order| ==> order[j] in fields
    requires i < |order|
    ensures FieldParts(boundary, order, fields)[i] == FieldPart(boundary, order[i], fields[order[i]])
    decreases |order|
  {
    if i < |order| - 1 {
      FieldPartsAt(boundary, order[..|order| - 1], fields, i);
    }
  }

  /** Visiting the fields in dictionary order gives exactly one part per field. */
  lemma OnePartPerField(boundary: string, order: seq<string>, fields: map<string, string>)
    requires Enumerates(order, fields.Keys)
    ensures |FieldParts(boundary, order, fields)| == |fields|
    ensures forall k :: k in fields ==> FieldPart(boundary, k, fields[k]) in FieldParts(boundary, order, fields)
  {
    DistinctCardinality(order);
    forall k | k in fields
      ensures FieldPart(boundary, k, fields[k]) in FieldParts(boundary, order, fields)
    {
      assert k in Elements(order);
      var i :| 0 <= i < |order| && order[i] == k;
      FieldPartsAt(boundary, order, fields, i);
    }
  }

  /** The field parts are the image of the order under one fixed function. */
  lemma FieldPartsAsMap(boundary: string, order: seq<string>, fields: map<string, string>, f: string -> string)
    requires forall j :: 0 <= j < |order| ==> order[j] in fields
    requires forall k :: k in fields ==> f(k) == FieldPart(boundary, k, fields[k])
    ensures FieldParts(boundary, order, fields) == Map(f, order)
  {
    forall i | 0 <= i < |order|
      ensures FieldParts(boundary, order, fields)[i] == Map(f, order)[i]
    {
      FieldPartsAt(boundary, order, fields, i);
      MapAt(f, order, i);
    }
  }

  /** Whatever order the dictionary yields, the body holds the same parts:
      two enumerations of the fields give the same multiset of field parts. */
  lemma FieldPartsOrderIndependent(boundary: string, o1: seq<string>, o2: seq<string>, fields: map<string, string>)
    requires Enumerates(o1, fields.Keys) && Enumerates(o2, fields.Keys)
    ensures multiset(FieldParts(boundary, o1, fields)) == multiset(FieldParts(boundary, o2, fields))
  {
    var f := (k: string) => FieldPart(boundary, k, if k in fields then fields[k] else "");
    assert forall j :: 0 <= j < |o1| ==> o1[j] in Elements(o1);
    assert forall j :: 0 <= j < |o2| ==> o2[j] in Elements(o2);
    FieldPartsAsMap(boundary, o1, fields, f);
    FieldPartsAsMap(boundary, o2, fields, f);
    EnumerationsArePermutations(o1, o2, fields.Keys);
    MapPermutation(f, o1, o2);
  }

  /** The encoded length of parts laid end to end is the sum of their encoded lengths. */
  lemma {:induction false} ConcatEncodedLength(parts: seq<string>)
    ensures |Utf8(Concat(parts))| == Sum(Map((p: string) => |Utf8(p)|, parts))
    decreases |parts|
  {
    var f := (p: string) => |Utf8(p)|;
    if parts != [] {
      var init, last := parts[..|parts| - 1], parts[|parts| - 1];
      assert parts == init + [last];
      ConcatEncodedLength(init);
      Utf8Append(Concat(init), last);
      MapAppend(f, init, [last]);
      SumAppend(Map(f, init), Map(f, [last]));
      assert Map(f, [last]) == [f(last)];
    }
  }

  /** Reordering the parts does not change the encoded length of the whole. */
  lemma ConcatLengthPermutation(p1: seq<string>, p2: seq<string>)
    requires multiset(p1) == multiset(p2)
    ensures |Utf8(Concat(p1))| == |Utf8(Concat(p2))|
  {
    var f := (p: string) => |Utf8(p)|;
    ConcatEncodedLength(p1);
    ConcatEncodedLength(p2);
    MapPermutation(f, p1, p2);
    SumPermutation(Map(f, p1), Map(f, p2));
  }

  /** `body` is the multipart body for the fields visited in some dictionary order. */
  ghost predicate IsBodyFor(body: seq<byte>, boundary: string, fields: map<string, string>, t: UploadType, file: seq<byte>) {
    exists order ::
      && Enumerates(order, fields.Keys)
      && (forall i :: 0 <= i < |order| ==> order[i] in fields)
      && body == Body(boundary, order, fields, t, file)
  }

  /** One loop step of a builder: appending the three lines of a field's part
      to the parts built so far gives the parts of the longer order. */
  lemma AppendFieldPart(bytes: seq<byte>, boundary: string, visited: seq<string>, fields: map<string, string>, key: string)
    requires forall i :: 0 <= i < |visited| ==> visited[i] in fields
    requires key in fields
    requires bytes == Utf8(Concat(FieldParts(boundary, visited, fields)))
    ensures bytes + Utf8("--" + boundary + "\r\n")
                  + Utf8("Content-Disposition: form-data; name=\"" + key + "\"\r\n\r\n")
                  + Utf8(fields[key] + "\r\n")
         == Utf8(Concat(FieldParts(boundary, visited + [key], fields)))
  {
    var a, b, c := "--" + boundary + "\r\n", "Content-Disposition: form-data; name=\"" + key + "\"\r\n\r\n", fields[key] + "\r\n";
    FieldPartsSnoc(boundary, visited, key, fields);
    FieldPartLines(boundary, key, fields[key]);
    Utf8Three(Concat(FieldParts(boundary, visited, fields)), a, b, c);
  }

  /** A field part is its delimiter line, its disposition line with the blank
      line, and its value line. */
  lemma FieldPartLines(boundary: string, name: string, value: string)
    ensures FieldPart(boundary, name, value)
         == ("--" + boundary + "\r\n")
            + ("Content-Disposition: form-data; name=\"" + name + "\"\r\n\r\n")
            + (value + "\r\n")
  {
  }

  /** Encoding four strings one after the other encodes their concatenation. */
  lemma Utf8Three(done: string, a: string, b: string, c: string)
    ensures Utf8(done) + Utf8(a) + Utf8(b) + Utf8(c) == Utf8(done + (a + b + c))
  {
    assert done + (a + b + c) == done + a + b + c;
    Utf8Append(done + a + b, c);
    Utf8Append(done + a, b);
    Utf8Append(done, a);
  }

  /** The tail of a builder: appending the file part and the close delimiter,
      piece by piece, to the field parts gives the whole body. */
  lemma AppendFilePart(bytes: seq<byte>, boundary: string, order: seq<string>, fields: map<string, string>, t: UploadType, file: seq<byte>)
    requires forall i :: 0 <= i < |order| ==> order[i] in fields
    requires bytes == Utf8(Concat(FieldParts(boundary, order, fields)))
    ensures bytes + Utf8("--" + boundary + "\r\n")
                  + Utf8("Content-Disposition: form-data; name=\"" + t.Name() + "\"; filename=\"" + t.PlaceholderName() + "\"\r\n")
                  + Utf8("Content-Type: " + t.MimeType() + "\r\n\r\n")
                  + file + Utf8("\r\n") + Utf8("--" + boundary + "--\r\n")
         == Body(boundary, order, fields, t, file)
  {
    BodyAsPieces(boundary, order, fields, t, file);
  }

  /** The state of a builder's loop over the fields: the keys of `done` were
      visited in the order `visited`, and the buffer holds their parts. */
  ghost predicate FieldPartsBuilt(bytes: seq<byte>, boundary: string, visited: seq<string>, fields: map<string, string>, done: set<string>) {
    && Enumerates(visited, done)
    && (forall i :: 0 <= i < |visited| ==> visited[i] in fields)
    && bytes == Utf8(Concat(FieldParts(boundary, visited, fields)))
  }

  /** One iteration of a builder's loop keeps its state: appending the three
      lines of a not yet visited field's part visits that field. */
  lemma FieldLoopStep(bytes: seq<byte>, boundary: string, visited: seq<string>, fields: map<string, string>,
                      remaining: set<string>, key: string)
    requires remaining <= fields.Keys && key in remaining
    requires FieldPartsBuilt(bytes, boundary, visited, fields, fields.Keys - remaining)
    ensures FieldPartsBuilt(bytes + Utf8("--" + boundary + "\r\n")
                                  + Utf8("Content-Disposition: form-data; name=\"" + key + "\"\r\n\r\n")
                                  + Utf8(fields[key] + "\r\n"),
                            boundary, visited + [key], fields, fields.Keys - (remaining - {key}))
  {
    AppendFieldPart(bytes, boundary, visited, fields, key);
    EnumeratesStep(visited, fields.Keys - remaining, key);
    assert (fields.Keys - remaining) + {key} == fields.Keys - (remaining - {key});
  }

  /** Once every field is visited, appending the file part and the close
      delimiter piece by piece yields a body for the fields. */
  lemma FinishBody(bytes: seq<byte>, boundary: string, visited: seq<string>, fields: map<string, string>, t: UploadType, file: seq<byte>)
    requires FieldPartsBuilt(bytes, boundary, visited, fields, fields.Keys)
    ensures IsBodyFor(bytes + Utf8("--" + boundary + "\r\n")
                            + Utf8("Content-Disposition: form-data; name=\"" + t.Name() + "\"; filename=\"" + t.PlaceholderName() + "\"\r\n")
                            + Utf8("Content-Type: " + t.MimeType() + "\r\n\r\n")
                            + file + Utf8("\r\n") + Utf8("--" + boundary + "--\r\n"),
                      boundary, fields, t, file)
  {
    AppendFilePart(bytes, boundary, visited, fields, t, file);
  }

  /** Without fields there is only one order, so the body is fully determined. */
  lemma IsBodyForWithoutFields(body: seq<byte>, boundary: string, t: UploadType, file: seq<byte>)
    requires IsBodyFor(body, boundary, map[], t, file)
    ensures body == Utf8(Delimiter(boundary) + FileDisposition(t) + FileContentType(t))
                    + file + Utf8("\r\n" + CloseDelimiter(boundary))
  {
    var none: map<string, string> := map[];
    var order :| Enumerates(order, none.Keys) && (forall i :: 0 <= i < |order| ==> order[i] in none) && body == Body(boundary, order, none, t, file);
    BodyWithoutFields(boundary, none, t, file);
  }

  /** Two bodies for the same fields, whatever order the dictionary yields
      for each, have the same length. */
  lemma IsBodyForSameLength(body1: seq<byte>, body2: seq<byte>, boundary: string, fields: map<string, string>, t: UploadType, file: seq<byte>)
    requires IsBodyFor(body1, boundary, fields, t, file) && IsBodyFor(body2, boundary, fields, t, file)
    ensures |body1| == |body2|
  {
    var o1 := BodyOrder(body1, boundary, fields, t, file);
    var o2 := BodyOrder(body2, boundary, fields, t, file);
    FieldPartsOrderIndependent(boundary, o1, o2, fields);
    ConcatLengthPermutation(FieldParts(boundary, o1, fields), FieldParts(boundary, o2, fields));
  }

  /** The length of a body is that of its encoded field parts plus that of
      the rest, which depends on neither the fields nor their order. */
  lemma BodyOrder(body: seq<byte>, boundary: string, fields: map<string, string>, t: UploadType, file: seq<byte>)
    returns (order: seq<string>)
    requires IsBodyFor(body, boundary, fields, t, file)
    ensures Enumerates(order, fields.Keys) && forall i :: 0 <= i < |order| ==> order[i] in fields
    ensures |body| == |Utf8(Concat(FieldParts(boundary, order, fields)))| + |Body(boundary, [], fields, t, file)|
  {
    order :| Enumerates(order, fields.Keys) && (forall i :: 0 <= i < |order| ==> order[i] in fields)
             && body == Body(boundary, order, fields, t, file);
    assert Concat(FieldParts(boundary, [], fields)) == "";
    LengthAround(Concat(FieldParts(boundary, order, fields)), Delimiter(boundary), FileDisposition(t), FileContentType(t),
                 file, "\r\n" + CloseDelimiter(boundary));
  }

  /** The encoded text before a file splits into its first piece and the rest. */
  lemma LengthAround(done: string, d: string, f: string, c: string, file: seq<byte>, tail: string)
    ensures |Utf8(done + d + f + c) + file + Utf8(tail)| == |Utf8(done)| + |Utf8("" + d + f + c) + file + Utf8(tail)|
  {
    assert done + d + f + c == done + (d + f + c);
    assert "" + d + f + c == d + f + c;
    Utf8Append(done, d + f + c);
  }

}
