/** What is being uploaded: a media category and the bytes to send
    (UploadInfo.swift). */
module Uploads {

  import opened Components
  import opened DataExtensions

  /** The media category of an upload; it fixes the file part's metadata. */
  datatype UploadType = Video | Image {

    /** The MIME type announced for the file part. */
    function MimeType(): string {
      match this
      case Video => "video/mp4"
      case Image => "image/jpeg"
    }

    /** The file name announced for the file part. */
    function PlaceholderName(): string {
      match this
      case Video => "placeholder.mov"
      case Image => "placeholder.jpeg"
    }

    /** The form field name of the file part: the same for every category. */
    function Name(): string {
      "file"
    }
  }

  /** The category and the bytes of one upload; the bytes may be absent.
      `UploadInfo(uploadType:data:)` stores both unchanged. */
  datatype UploadInfo = UploadInfo(uploadType: UploadType, data: Option<seq<byte>>)

  /** The metadata of each category, and that it tells the categories apart. */
  lemma UploadTypeMetadata(t: UploadType, u: UploadType)
    ensures t.MimeType() == (if t == Video then "video/mp4" else "image/jpeg")
    ensures t.PlaceholderName() == (if t == Video then "placeholder.mov" else "placeholder.jpeg")
    ensures t.Name() == u.Name() == "file"
    ensures t.MimeType() == u.MimeType() <==> t == u
    ensures t.PlaceholderName() == u.PlaceholderName() <==> t == u
  {
  }
}
