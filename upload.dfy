/**
 * The upload rules: which MIME types are accepted, how a stored file is named (a fresh
 * UUID followed by the extension of the client's file name, as Node's `path.extname`
 * computes it), how a file is classified, and the JSON answer of the upload endpoint.
 */
module Upload {
  import opened Common

  /** The accepted MIME types, in the order the filter lists them. The last one is written
      as its family and subtype so that its prefix can be read off without spelling out
      all of its characters. */
  const AllowedMimes: seq<string> := [
    "image/jpeg", "image/png", "image/gif", "image/webp",
    "video/mp4", "video/webm", "video/quicktime",
    "audio/mpeg", "audio/wav", "audio/ogg", "audio/webm", "audio/mp4",
    "application/pdf", "application/msword",
    "application/" + "vnd.openxmlformats-officedocument.wordprocessingml.document"]

  /** The largest accepted upload in bytes (50 MiB); multer enforces it. */
  const MaxFileSize: nat := 50 * 1024 * 1024

  const RejectionPrefix: string := "Tipo de arquivo não permitido: "

  /** The filter's verdict: Ok(true) accepts the file; Err carries the error passed to
      multer's callback. */
  function FileFilter(mimetype: string): (r: Result<bool, string>)
    ensures r == Ok(true) <==> mimetype in AllowedMimes
    ensures r.Err? <==> mimetype !in AllowedMimes
    ensures r.Err? ==> StartsWith(r.error, RejectionPrefix) && r.error[|RejectionPrefix|..] == mimetype
  {
    if mimetype in AllowedMimes then Ok(true) else Err(RejectionPrefix + mimetype)
  }

  // ---------------------------------------------------------------------------
  // File names

  /** The path with its trailing slashes removed. */
  function StripTrailingSlashes(p: string): (r: string)
    ensures |r| <= |p| && r == p[..|r|]
    ensures r == [] || r[|r| - 1] != '/'
    ensures forall i :: |r| <= i < |p| ==> p[i] == '/'
  {
    if p != [] && p[|p| - 1] == '/' then StripTrailingSlashes(p[..|p| - 1]) else p
  }

  /** What follows the last slash (all of `p` when it has none). */
  function AfterLastSlash(p: string): (r: string)
    ensures |r| <= |p| && r == p[|p| - |r|..]
    ensures '/' !in r
    ensures |r| < |p| ==> p[|p| - |r| - 1] == '/'
  {
    if p == [] || p[|p| - 1] == '/' then [] else AfterLastSlash(p[..|p| - 1]) + [p[|p| - 1]]
  }

  /** The last component of a path, ignoring trailing slashes (`path.basename`). */
  function Basename(p: string): string {
    AfterLastSlash(StripTrailingSlashes(p))
  }

  /** Index of the last dot, if any. */
  function LastDot(b: string): (r: Option<nat>)
    ensures r.None? <==> '.' !in b
    ensures r.Some? ==> r.value < |b| && b[r.value] == '.' && '.' !in b[r.value + 1..]
  {
    if b == [] then None
    else if b[|b| - 1] == '.' then Some(|b| - 1)
    else
      var r := LastDot(b[..|b| - 1]);
      assert b[..|b| - 1] + [b[|b| - 1]] == b;
      if r.Some? then
        assert b[r.value + 1..] == b[..|b| - 1][r.value + 1..] + [b[|b| - 1]];
        r
      else r
  }

  /** `path.extname`: from the last dot of the last component to its end, except that a
      component without a dot, one whose only leading dot is its last dot (".bashrc"),
      and ".." have no extension. */
  function Extname(p: string): (r: string)
    ensures r == [] || (r[0] == '.' && '.' !in r[1..] && '/' !in r)
    ensures r != [] ==> '.' in Basename(p) && |r| <= |Basename(p)| && r == Basename(p)[|Basename(p)| - |r|..]
  {
    NameExtension(Basename(p))
  }

  /** The extension of one path component `b`. */
  function NameExtension(b: string): (r: string)
    requires '/' !in b
    ensures r == [] || (r[0] == '.' && '.' !in r[1..] && '/' !in r)
    ensures r != [] ==> '.' in b && |r| <= |b| && r == b[|b| - |r|..]
  {
    match LastDot(b)
    case None => ""
    case Some(d) =>
      // ".." is the parent directory, not a name with an extension
      if d == 0 || (d == 1 && |b| == 2 && b[0] == '.') then ""
      else
        assert b[d..][1..] == b[d + 1..];
        b[d..]
  }

  /** A plain `stem.ext` name has extension `.ext` (unless it is ".."). */
  lemma {:induction false} ExtnameOfStemAndExt(stem: string, ext: string)
    requires stem != [] && forall i :: 0 <= i < |stem| ==> stem[i] != '/'
    requires forall i :: 0 <= i < |ext| ==> ext[i] != '.' && ext[i] != '/'
    requires ext == [] ==> stem != "."
    ensures Extname(stem + "." + ext) == "." + ext
  {
    var p := stem + "." + ext;
    assert forall i :: 0 <= i < |p| ==> p[i] != '/' by {
      assert forall i :: 0 <= i < |stem| ==> p[i] == stem[i];
      assert forall i :: |stem| < i < |p| ==> p[i] == ext[i - |stem| - 1];
    }
    BasenameOfPlain(p);
    LastDotOfStemAndExt(stem, ext);
    assert p != ".." by {
      if |p| == 2 {
        assert |stem| == 1 && stem[0] == p[0];
      }
    }
    ExtnameAtDot(p, |stem|);
  }

  /** Where the last component is the whole path, the extension starts at its last dot
      unless that dot leads the name or the name is "..". */
  lemma ExtnameAtDot(p: string, d: nat)
    requires Basename(p) == p && LastDot(p) == Some(d) && d > 0 && p != ".."
    ensures Extname(p) == p[d..]
  {
  }

  /** A non-empty path without slashes is its own last component. */
  lemma BasenameOfPlain(p: string)
    requires p != [] && forall i :: 0 <= i < |p| ==> p[i] != '/'
    ensures Basename(p) == p
  {
    assert StripTrailingSlashes(p) == p;
    AfterLastSlashOfPlain(p);
  }

  /** The last dot of `stem.ext` is the one before `ext`. */
  lemma {:induction false} LastDotOfStemAndExt(stem: string, ext: string)
    requires forall i :: 0 <= i < |ext| ==> ext[i] != '.'
    ensures LastDot(stem + "." + ext) == Some(|stem|)
  {
    var p := stem + "." + ext;
    if ext != [] {
      var shorter := ext[..|ext| - 1];
      LastDotOfStemAndExt(stem, shorter);
      assert p[..|p| - 1] == stem + "." + shorter;
      assert p[|p| - 1] == ext[|ext| - 1];
    }
  }

  /** A path without slashes is its own last component. */
  lemma {:induction false} AfterLastSlashOfPlain(p: string)
    requires forall i :: 0 <= i < |p| ==> p[i] != '/'
    ensures AfterLastSlash(p) == p
  {
    if p != [] {
      AfterLastSlashOfPlain(p[..|p| - 1]);
      assert p[..|p| - 1] + [p[|p| - 1]] == p;
    }
  }

  /** A name with no dot in its last component has no extension. */
  lemma NoDotNoExtension(p: string)
    requires '.' !in Basename(p)
    ensures Extname(p) == ""
  {
  }

  /** The stored name: the fresh UUID, then the original name's extension. */
  function StoredName(uuid: string, originalname: string): (r: string)
    ensures |r| == |uuid| + |Extname(originalname)|
    ensures r[..|uuid|] == uuid && r[|uuid|..] == Extname(originalname)
  {
    uuid + Extname(originalname)
  }

  /** Different UUIDs (they all have the same length) never give the same stored name,
      whatever the original names. */
  lemma StoredNamesDistinct(u1: string, u2: string, n1: string, n2: string)
    requires |u1| == |u2| && u1 != u2
    ensures StoredName(u1, n1) != StoredName(u2, n2)
  {
    assert StoredName(u1, n1)[..|u1|] == u1;
    assert StoredName(u2, n2)[..|u2|] == u2;
  }

  // ---------------------------------------------------------------------------
  // Classification and the response

  datatype MediaType = Image | Video | Audio | File

  /** The media type from the MIME type's prefix; everything else is a FILE. */
  function Classify(mimetype: string): (k: MediaType)
    ensures k == Image <==> StartsWith(mimetype, "image/")
    ensures k == Video <==> StartsWith(mimetype, "video/") && !StartsWith(mimetype, "image/")
    ensures k == Audio <==> StartsWith(mimetype, "audio/") && !StartsWith(mimetype, "image/") && !StartsWith(mimetype, "video/")
  {
    if StartsWith(mimetype, "image/") then Image
    else if StartsWith(mimetype, "video/") then Video
    else if StartsWith(mimetype, "audio/") then Audio
    else File
  }

  /** Every accepted type is classified by its family: the four image, three video and
      five audio types as such, and the three document types as FILE. */
  lemma AcceptedClassification()
    ensures forall m :: m in AllowedMimes[..4] ==> Classify(m) == Image
    ensures forall m :: m in AllowedMimes[4..7] ==> Classify(m) == Video
    ensures forall m :: m in AllowedMimes[7..12] ==> Classify(m) == Audio
    ensures forall m :: m in AllowedMimes[12..] ==> Classify(m) == File
  {
    ImageTypes();
    VideoTypes();
    AudioTypes();
    DocumentTypes();
    forall m | m in AllowedMimes[4..7]
      ensures Classify(m) == Video
    {
      var j :| 0 <= j < 3 && AllowedMimes[4..7][j] == m;
      assert AllowedMimes[4 + j] == m;
    }
    forall m | m in AllowedMimes[7..12]
      ensures Classify(m) == Audio
    {
      var j :| 0 <= j < 5 && AllowedMimes[7..12][j] == m;
      assert AllowedMimes[7 + j] == m;
    }
    forall m | m in AllowedMimes[12..]
      ensures Classify(m) == File
    {
      var j :| 0 <= j < 3 && AllowedMimes[12..][j] == m;
      assert AllowedMimes[12 + j] == m;
    }
  }

  /** The first four accepted types are images. */
  lemma ImageTypes()
    ensures forall i :: 0 <= i < 4 ==> Classify(AllowedMimes[i]) == Image
  {
    assert AllowedMimes[0] == "image/" + "jpeg";
    assert AllowedMimes[1] == "image/" + "png";
    assert AllowedMimes[2] == "image/" + "gif";
    assert AllowedMimes[3] == "image/" + "webp";
    ClassifyFamily("image/", "jpeg"); ClassifyFamily("image/", "png");
    ClassifyFamily("image/", "gif"); ClassifyFamily("image/", "webp");
  }

  /** The next three are videos. */
  lemma VideoTypes()
    ensures forall i :: 4 <= i < 7 ==> Classify(AllowedMimes[i]) == Video
  {
    assert AllowedMimes[4] == "video/" + "mp4";
    assert AllowedMimes[5] == "video/" + "webm";
    assert AllowedMimes[6] == "video/" + "quicktime";
    ClassifyFamily("video/", "mp4"); ClassifyFamily("video/", "webm"); ClassifyFamily("video/", "quicktime");
  }

  /** The next five are audio. */
  lemma AudioTypes()
    ensures forall i :: 7 <= i < 12 ==> Classify(AllowedMimes[i]) == Audio
  {
    assert AllowedMimes[7] == "audio/" + "mpeg";
    assert AllowedMimes[8] == "audio/" + "wav";
    assert AllowedMimes[9] == "audio/" + "ogg";
    assert AllowedMimes[10] == "audio/" + "webm";
    assert AllowedMimes[11] == "audio/" + "mp4";
    ClassifyFamily("audio/", "mpeg"); ClassifyFamily("audio/", "wav"); ClassifyFamily("audio/", "ogg");
    ClassifyFamily("audio/", "webm"); ClassifyFamily("audio/", "mp4");
  }

  /** The last three are documents, classified as FILE. */
  lemma DocumentTypes()
    ensures forall i :: 12 <= i < 15 ==> Classify(AllowedMimes[i]) == File
  {
    NoMediaPrefix(AllowedMimes[12]);
    NoMediaPrefix(AllowedMimes[13]);
    ClassifyFamily("application/", "vnd.openxmlformats-officedocument.wordprocessingml.document");
  }

  /** A type whose second character is not that of "image/", "video/" or "audio/" is a FILE. */
  lemma NoMediaPrefix(m: string)
    requires |m| > 1 && m[1] !in {'m', 'i', 'u'}
    ensures Classify(m) == File
  {
    if |m| >= 6 {
      assert m[..6][1] == m[1];
    }
  }

  /** The classification of a MIME type depends only on its family prefix. */
  lemma ClassifyFamily(family: string, rest: string)
    requires family in {"image/", "video/", "audio/", "application/"}
    ensures family == "image/" ==> Classify(family + rest) == Image
    ensures family == "video/" ==> Classify(family + rest) == Video
    ensures family == "audio/" ==> Classify(family + rest) == Audio
    ensures family == "application/" ==> Classify(family + rest) == File
  {
    var m := family + rest;
    assert m[..6] == family[..6];
    assert m[0] == family[0] && m[1] == family[1];
  }

  /** What multer hands the controller. */
  datatype StoredFile = StoredFile(originalname: string, filename: string, size: nat, mimetype: string)

  /** The `file` object of a successful answer. */
  datatype FileInfo = FileInfo(mediaUrl: string, fileName: string, fileSize: nat, mimeType: string, mediaType: MediaType)

  /** The endpoint's answer. */
  datatype UploadReply =
    | Refused(status: int, error: string)
    | Uploaded(success: bool, file: FileInfo)

  /** `req.get('host')` in a template string: a missing header prints as "undefined". */
  function HostText(host: Option<string>): string {
    host.GetOr("undefined")
  }

  /** `<protocol>://<host>/uploads/<filename>`. */
  function MediaUrl(protocol: string, host: Option<string>, filename: string): (url: string)
    ensures StartsWith(url, protocol + "://" + HostText(host) + "/uploads/")
    ensures url[|protocol + "://" + HostText(host) + "/uploads/"|..] == filename
  {
    var prefix := protocol + "://" + HostText(host) + "/uploads/";
    assert (prefix + filename)[..|prefix|] == prefix;
    prefix + filename
  }

  /** `uploadFile`: no file is a 400 without metadata; otherwise the answer echoes the
      original name, size and MIME type, and adds the URL and the media type. */
  function UploadFile(file: Option<StoredFile>, protocol: string, host: Option<string>): (r: UploadReply)
    ensures file.None? <==> r.Refused?
    ensures file.None? ==> r == Refused(400, "Nenhum arquivo enviado")
    ensures file.Some? ==>
      && r.success && r.file.fileName == file.value.originalname
      && r.file.fileSize == file.value.size && r.file.mimeType == file.value.mimetype
      && r.file.mediaType == Classify(file.value.mimetype)
      && r.file.mediaUrl == MediaUrl(protocol, host, file.value.filename)
  {
    if file.None? then Refused(400, "Nenhum arquivo enviado")
    else
      var f := file.value;
      Uploaded(true, FileInfo(MediaUrl(protocol, host, f.filename), f.originalname, f.size, f.mimetype, Classify(f.mimetype)))
  }

  /** The URL of an upload leads back to the stored name, and two stored names under the
      same server give different URLs. */
  lemma MediaUrlInjective(protocol: string, host: Option<string>, a: string, b: string)
    ensures MediaUrl(protocol, host, a) == MediaUrl(protocol, host, b) <==> a == b
  {
  }
}
