/** The upload routes of backend/routes/upload.js: the metadata answered for a stored file,
    with its public URL and the message type its MIME type selects. Storing the file is the
    upload middleware's work and is not part of this model: a request carries the result. */
module Upload {
  import opened Common

  /** What the upload middleware reports for a stored file. */
  datatype StoredFile = StoredFile(filename: string, originalName: string, size: int, mimetype: string)

  /** The `data` of an upload answer. */
  datatype FileInfo = FileInfo(fileUrl: string, fileName: string, fileSize: int, fileType: string, messageType: string)

  const UploadsPrefix: string := "/uploads/"

  /** `/uploads/${filename}`. */
  function FileUrl(filename: string): (r: string)
    ensures |r| == |UploadsPrefix| + |filename|
    ensures StartsWith(r, UploadsPrefix) && r[|UploadsPrefix|..] == filename
  {
    UploadsPrefix + filename
  }

  /** Distinct stored files get distinct URLs. */
  lemma FileUrlInjective(a: string, b: string)
    requires FileUrl(a) == FileUrl(b)
    ensures a == b
  {
    assert a == FileUrl(a)[|UploadsPrefix|..];
  }

  /** The message type of a single upload: the first of `image/`, `video/`, `audio/` the MIME
      type starts with, and `file` when it starts with none. */
  function MessageTypeOf(mimetype: string): (r: string)
    ensures r == "image" <==> StartsWith(mimetype, "image/")
    ensures r == "video" <==> StartsWith(mimetype, "video/")
    ensures r == "audio" <==> StartsWith(mimetype, "audio/")
    ensures r == "file" <==>
      (!StartsWith(mimetype, "image/") && !StartsWith(mimetype, "video/") && !StartsWith(mimetype, "audio/"))
  {
    PrefixesExclusive(mimetype);
    if StartsWith(mimetype, "image/") then "image"
    else if StartsWith(mimetype, "video/") then "video"
    else if StartsWith(mimetype, "audio/") then "audio"
    else "file"
  }

  /** The three prefixes differ in their first character, so a MIME type starts with at most
      one of them and the order of the tests does not matter. */
  lemma PrefixesExclusive(mimetype: string)
    ensures !(StartsWith(mimetype, "image/") && StartsWith(mimetype, "video/"))
    ensures !(StartsWith(mimetype, "image/") && StartsWith(mimetype, "audio/"))
    ensures !(StartsWith(mimetype, "video/") && StartsWith(mimetype, "audio/"))
  {
    if |mimetype| >= 6 {
      assert mimetype[..6][0] == mimetype[0];
    }
  }

  /** The answer for one stored file. */
  function Describe(f: StoredFile, messageType: string): FileInfo {
    FileInfo(FileUrl(f.filename), f.originalName, f.size, f.mimetype, messageType)
  }

  /** POST /upload: 400 without a file; otherwise the file's URL, original name, size, MIME
      type and message type. */
  function UploadOne(file: Option<StoredFile>): (r: Reply<FileInfo>)
    ensures file.None? <==> r == Refused(BadRequest)
    ensures r.Done? ==>
      r.value.fileUrl == FileUrl(file.value.filename) && r.value.fileName == file.value.originalName
      && r.value.fileSize == file.value.size && r.value.fileType == file.value.mimetype
      && r.value.messageType == MessageTypeOf(file.value.mimetype)
  {
    match file
    case None => Refused(BadRequest)
    case Some(f) => Done(Describe(f, MessageTypeOf(f.mimetype)))
  }

  /** The message type of a multiple upload: only `image` or `file`. */
  function MultipleTypeOf(mimetype: string): (r: string)
    ensures r == "image" <==> StartsWith(mimetype, "image/")
    ensures r != "image" ==> r == "file"
  {
    if StartsWith(mimetype, "image/") then "image" else "file"
  }

  /** POST /upload-multiple: 400 without files or with an empty list; otherwise one entry per
      file, in order. */
  function UploadMany(files: Option<seq<StoredFile>>): (r: Reply<seq<FileInfo>>)
    ensures (files.None? || files.value == []) <==> r == Refused(BadRequest)
    ensures r.Done? ==> |r.value| == |files.value|
    ensures r.Done? ==> forall i :: 0 <= i < |r.value| ==>
      r.value[i] == Describe(files.value[i], MultipleTypeOf(files.value[i].mimetype))
  {
    if files.None? || files.value == [] then Refused(BadRequest)
    else
      var fs := files.value;
      Done(seq(|fs|, i requires 0 <= i < |fs| => Describe(fs[i], MultipleTypeOf(fs[i].mimetype))))
  }

  /** The two routes agree on images and on plain files; a video or audio file sent with
      several others is answered as a plain `file`. */
  lemma ManyAgreesWithOne(f: StoredFile)
    ensures MultipleTypeOf(f.mimetype) == "image" <==> MessageTypeOf(f.mimetype) == "image"
    ensures MessageTypeOf(f.mimetype) != "image" ==> MultipleTypeOf(f.mimetype) == "file"
    ensures UploadMany(Some([f])).Done? && UploadOne(Some(f)).Done?
    ensures MessageTypeOf(f.mimetype) != "video" && MessageTypeOf(f.mimetype) != "audio" ==>
      UploadMany(Some([f])).value == [UploadOne(Some(f)).value]
  {
  }
}
