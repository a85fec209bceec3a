/** The upload routes (server/routes/uploadRoutes.js): which MIME types are
    accepted, how a MIME type and an extension are classified, how a stored
    file is named, how multer's outcome becomes a reply, who may use each
    route, and where a requested file name resolves on disk. The file system
    is a set of existing paths; the clock and the random suffix are
    parameters. */
module Uploads {
  import opened Common
  import opened Text
  import opened UserModel
  import opened AccessControl

  // ---------------------------------------------------------------------------
  // MIME types and extensions
  // ---------------------------------------------------------------------------

  const JpegType := "image/jpeg"
  const PngType := "image/png"
  const GifType := "image/gif"
  const PdfType := "application/pdf"
  const WordType := "application/msword"
  const DocxType := "application/" + "vnd.openxmlformats-officedocument.wordprocessingml.document"
  const TextType := "text/plain"
  const OctetStream := "application/" + "octet-stream"

  /** The MIME types `fileFilter` lets through. */
  const AllowedTypes := [JpegType, PngType, GifType, PdfType, WordType, DocxType, TextType]

  const InvalidTypeMessage := "Invalid file type. Only images, PDFs, and documents are allowed."

  /** `fileFilter`: the upload is kept exactly when its MIME type is listed. */
  predicate FileFilter(mimetype: string) {
    mimetype in AllowedTypes
  }

  /** The classes `getFileType` sorts a MIME type into. */
  datatype FileKind = ImageFile | PdfFile | DocumentFile | TextFile | OtherFile

  /** A witness for `includes`: `sub` occurs at offset `k`. */
  lemma {:induction false} ContainsAt(s: string, sub: string, k: nat)
    requires k + |sub| <= |s| && s[k..k + |sub|] == sub
    ensures Contains(s, sub)
    decreases k
  {
    if k == 0 {
      assert s[..|sub|] == sub;
    } else {
      assert s[1..][k - 1..k - 1 + |sub|] == s[k..k + |sub|];
      ContainsAt(s[1..], sub, k - 1);
    }
  }

  /** A text that lacks the first character of `sub` does not include it. */
  lemma {:induction false} MissingCharNotContained(s: string, sub: string)
    requires |sub| > 0 && sub[0] !in s
    ensures !Contains(s, sub)
    decreases |s|
  {
    if |s| > 0 {
      assert s[1..] == s[1..];
      assert forall i :: 0 <= i < |s[1..]| ==> s[1..][i] == s[i + 1];
      MissingCharNotContained(s[1..], sub);
    }
  }

  /** Of the accepted types, exactly the three images start with `image/`. */
  lemma AcceptedImages(mimetype: string)
    requires FileFilter(mimetype)
    ensures StartsWith(mimetype, "image/") <==> mimetype in [JpegType, PngType, GifType]
  {
    if mimetype !in [JpegType, PngType, GifType] {
      assert mimetype[0] != 'i';
    }
  }

  /** The class `getFileType` gives each accepted type. */
  lemma ClassifyAccepted(mimetype: string)
    requires FileFilter(mimetype)
    ensures mimetype in [JpegType, PngType, GifType] ==> Classify(mimetype) == ImageFile
    ensures mimetype == PdfType ==> Classify(mimetype) == PdfFile
    ensures mimetype in [WordType, DocxType] ==> Classify(mimetype) == DocumentFile
    ensures mimetype == TextType ==> Classify(mimetype) == TextFile
  {
    AcceptedImages(mimetype);
    if mimetype == WordType {
      WordIsDocument();
    } else if mimetype == DocxType {
      DocxIsDocument();
    } else if mimetype == TextType {
      TextIsText();
    }
  }

  lemma WordIsDocument()
    ensures Classify(WordType) == DocumentFile
  {
    assert WordType[0] == 'a';
    assert !StartsWith(WordType, "image/");
    assert WordType != PdfType;
    assert WordType[14..18] == "word";
    ContainsAt(WordType, "word", 14);
    assert Contains(WordType, "word");
  }

  lemma DocxIsDocument()
    ensures Classify(DocxType) == DocumentFile
  {
    assert DocxType[0] == 'a' && DocxType != PdfType;
    ContainsAt(DocxType, "document", |DocxType| - 8);
  }

  lemma TextIsText()
    ensures Classify(TextType) == TextFile
  {
    assert !StartsWith(TextType, "image/") by {
      assert TextType[..6][0] == 't';
    }
    assert |TextType| == 10 && |PdfType| == 15;
    assert 'd' !in TextType && 'w' !in TextType;
    MissingCharNotContained(TextType, "document");
    MissingCharNotContained(TextType, "word");
  }

  /** `getFileType`: the first of the checks that matches decides. Every type
      `fileFilter` accepts is recognised, and its class follows from its
      family: the three images, the PDF, the two Word formats, plain text. */
  function GetFileType(mimetype: string): (k: FileKind)
    ensures FileFilter(mimetype) ==> k != OtherFile
    ensures mimetype in [JpegType, PngType, GifType] ==> k == ImageFile
    ensures mimetype in [WordType, DocxType] ==> k == DocumentFile
    ensures mimetype == TextType ==> k == TextFile
    ensures mimetype == PdfType ==> k == PdfFile
  {
    if FileFilter(mimetype) then
      ClassifyAccepted(mimetype);
      Classify(mimetype)
    else Classify(mimetype)
  }

  /** The chain of checks itself. */
  function Classify(mimetype: string): FileKind {
    if StartsWith(mimetype, "image/") then ImageFile
    else if mimetype == PdfType then PdfFile
    else if Contains(mimetype, "document") || Contains(mimetype, "word") then DocumentFile
    else if mimetype == TextType then TextFile
    else OtherFile
  }

  /** The extensions `getContentType` knows, each with its MIME type. */
  const ContentTypes := [
    (".jpg", JpegType), (".jpeg", JpegType), (".png", PngType), (".gif", GifType),
    (".pdf", PdfType), (".doc", WordType), (".docx", DocxType), (".txt", TextType)]

  const KnownExtensions := [".jpg", ".jpeg", ".png", ".gif", ".pdf", ".doc", ".docx", ".txt"]

  /** `getContentType`: a table lookup, exact on the extension's characters,
      falling back to `application/octet-stream`. Every type it names is one
      `fileFilter` accepts. */
  function GetContentType(extension: string): (t: string)
    ensures t == OctetStream || FileFilter(t)
    ensures t != OctetStream <==> extension in KnownExtensions
    ensures forall i :: 0 <= i < |ContentTypes| && ContentTypes[i].0 == extension ==> t == ContentTypes[i].1
  {
    if extension == ".jpg" || extension == ".jpeg" then JpegType
    else if extension == ".png" then PngType
    else if extension == ".gif" then GifType
    else if extension == ".pdf" then PdfType
    else if extension == ".doc" then WordType
    else if extension == ".docx" then DocxType
    else if extension == ".txt" then TextType
    else OctetStream
  }

  /** Every accepted type is what some known extension maps to. */
  lemma EveryAcceptedTypeHasAnExtension(mimetype: string)
    requires FileFilter(mimetype)
    ensures exists e :: e in KnownExtensions && GetContentType(e) == mimetype
  {
    var e :=
      if mimetype == JpegType then ".jpg"
      else if mimetype == PngType then ".png"
      else if mimetype == GifType then ".gif"
      else if mimetype == PdfType then ".pdf"
      else if mimetype == WordType then ".doc"
      else if mimetype == DocxType then ".docx"
      else ".txt";
    assert e in KnownExtensions && GetContentType(e) == mimetype;
  }

  /** The lookup does not fold case: an upper-case extension is unknown
      until it is lower-cased. */
  lemma ContentTypeIsCaseSensitive()
    ensures GetContentType(".PDF") == OctetStream
    ensures GetContentType(Lower(".PDF")) == PdfType
  {
    assert Lower(".PDF") == ".pdf";
  }

  // ---------------------------------------------------------------------------
  // File names
  // ---------------------------------------------------------------------------

  /** `path.extname` of a name without directory separators: from the last
      dot to the end, unless that dot starts the name or the name is `..`. */
  function Extname(name: string): (e: string)
    requires '/' !in name
    ensures e == "" || (e[0] == '.' && '.' !in e[1..] && |e| < |name| && e == name[|name| - |e|..])
    ensures e == "" ==> '.' !in name || LastIndexOf(name, '.') == Some(0) || name == ".."
  {
    match LastIndexOf(name, '.')
    case None => ""
    case Some(i) => if i == 0 || name == ".." then "" else name[i..]
  }

  /** The last segment of a path, after any trailing separators are dropped,
      as `path.extname` looks at it. */
  function BaseName(name: string): (b: string)
    ensures '/' !in b
    ensures '/' !in name ==> b == name
  {
    if name != [] && name[|name| - 1] == '/' then BaseName(name[..|name| - 1])
    else match LastIndexOf(name, '/')
      case None => name
      case Some(i) => name[i + 1..]
  }

  /** `path.extname` of any name: the extension of its last segment. */
  function PathExtname(name: string): (e: string)
    ensures '/' !in name ==> e == Extname(name)
  {
    Extname(BaseName(name))
  }

  /** A file name as multer reports it: busboy has already cut any directory
      part and never delivers `.` or `..`. */
  predicate UploadName(name: string) {
    '/' !in name && '\\' !in name && name != "." && name != ".."
  }

  /** `Date.now() + '-' + Math.round(Math.random() * 1E9)`. */
  function UniqueSuffix(now: nat, random: nat): (s: string)
    ensures '.' !in s && '/' !in s && '\\' !in s
  {
    var a := Decimal(now);
    var b := Decimal(random);
    assert forall i :: 0 <= i < |a| ==> a[i] != '.' && a[i] != '/' && a[i] != '\\';
    assert forall i :: 0 <= i < |b| ==> b[i] != '.' && b[i] != '/' && b[i] != '\\';
    a + "-" + b
  }

  /** The storage `filename` callback: the original name without its
      extension, a dash, the unique suffix, then the original extension. */
  function StoredName(originalname: string, now: nat, random: nat): (s: string)
    requires UploadName(originalname)
    ensures UploadName(s)
    ensures s == originalname[..|originalname| - |Extname(originalname)|] + "-" + UniqueSuffix(now, random) + Extname(originalname)
  {
    var ext := Extname(originalname);
    var base := originalname[..|originalname| - |ext|];
    assert originalname == base + ext;
    var s := base + "-" + UniqueSuffix(now, random) + ext;
    assert s[|base|] == '-';
    assert s != "." && s != "..";
    s
  }

  /** The stored name keeps the uploaded file's extension. */
  lemma {:induction false} StoredNameKeepsExtension(originalname: string, now: nat, random: nat)
    requires UploadName(originalname)
    ensures Extname(StoredName(originalname, now, random)) == Extname(originalname)
  {
    var ext := Extname(originalname);
    var base := originalname[..|originalname| - |ext|];
    var sfx := UniqueSuffix(now, random);
    var mid := base + "-" + sfx;
    var s := StoredName(originalname, now, random);
    assert s == mid + ext;
    assert '.' !in "-" + sfx;
    if ext == "" {
      assert base == originalname;
      if '.' in originalname {
        assert LastIndexOf(originalname, '.') == Some(0);
        assert s[0] == '.';
        assert s[1..] == originalname[1..] + "-" + sfx;
        assert '.' !in s[1..];
        assert LastIndexOf(s, '.') == Some(0);
      } else {
        assert '.' !in s;
      }
    } else {
      var j := |mid|;
      assert s[j..] == ext;
      assert s[j + 1..] == ext[1..];
      assert s[j] == '.';
      assert LastIndexOf(s, '.') == Some(j);
    }
  }

  // ---------------------------------------------------------------------------
  // Paths
  // ---------------------------------------------------------------------------

  /** A path segment that `path.normalize` keeps as it is. */
  predicate PlainSegment(seg: string) {
    seg != "" && seg != "." && seg != ".." && '/' !in seg
  }

  /** `path.normalize` on an absolute path, segment by segment: empty and `.`
      segments vanish and `..` removes the segment before it (at the root it
      stays at the root). `acc` is the directory reached so far. */
  function Normalize(acc: seq<string>, segs: seq<string>): (r: seq<string>)
    decreases |segs|
  {
    if segs == [] then acc
    else if segs[0] == "" || segs[0] == "." then Normalize(acc, segs[1..])
    else if segs[0] == ".." then Normalize(if acc == [] then [] else acc[..|acc| - 1], segs[1..])
    else Normalize(acc + [segs[0]], segs[1..])
  }

  lemma {:induction false} NormalizeAppend(acc: seq<string>, xs: seq<string>, ys: seq<string>)
    ensures Normalize(acc, xs + ys) == Normalize(Normalize(acc, xs), ys)
    decreases |xs|
  {
    if xs == [] {
      assert xs + ys == ys;
    } else {
      assert (xs + ys)[0] == xs[0] && (xs + ys)[1..] == xs[1..] + ys;
      var next := if xs[0] == "" || xs[0] == "." then acc
                  else if xs[0] == ".." then (if acc == [] then [] else acc[..|acc| - 1])
                  else acc + [xs[0]];
      NormalizeAppend(next, xs[1..], ys);
    }
  }

  /** Plain segments are kept as they are. */
  lemma {:induction false} NormalizePlain(acc: seq<string>, segs: seq<string>)
    requires forall i :: 0 <= i < |segs| ==> PlainSegment(segs[i])
    ensures Normalize(acc, segs) == acc + segs
    decreases |segs|
  {
    if segs != [] {
      NormalizePlain(acc + [segs[0]], segs[1..]);
      assert acc + [segs[0]] + segs[1..] == acc + segs;
    }
  }

  /** The directory the server's module lives in (`__dirname`), as plain
      segments below the root. */
  predicate RoutesDir(dir: seq<string>) {
    |dir| > 0 && forall i :: 0 <= i < |dir| ==> PlainSegment(dir[i])
  }

  /** `path.join(__dirname, '../uploads')`: the sibling `uploads` directory. */
  function UploadsDir(dir: seq<string>): (u: seq<string>)
    requires RoutesDir(dir)
    ensures u == dir[..|dir| - 1] + ["uploads"]
  {
    NormalizeAppend([], dir, ["..", "uploads"]);
    NormalizePlain([], dir);
    Normalize([], dir + ["..", "uploads"])
  }

  /** `path.join(__dirname, '../uploads', filename)` for a requested name. */
  function ResolveUpload(dir: seq<string>, filename: string): seq<string> {
    Normalize([], dir + ["..", "uploads"] + Split(filename, '/'))
  }

  /** A file name that names an entry of the uploads directory itself. */
  predicate PlainFileName(filename: string) {
    PlainSegment(filename)
  }

  /** `..` followed by a plain segment replaces the last segment. */
  lemma ParentThenSegment(acc: seq<string>, f: string)
    requires acc != [] && PlainSegment(f)
    ensures Normalize(acc, ["..", f]) == acc[..|acc| - 1] + [f]
  {
    var up := acc[..|acc| - 1];
    assert ["..", f][0] == ".." && ["..", f][1..] == [f];
    assert Normalize(acc, ["..", f]) == Normalize(up, [f]);
    assert [f][1..] == [];
    assert Normalize(up, [f]) == Normalize(up + [f], []);
  }

  /** As written, a name of the form `../f` (which a route parameter carries
      once Express has decoded `%2F`) resolves to `f` beside the uploads
      directory instead of inside it: with `f` = `server.js` that is the
      server's entry module. */
  lemma {:induction false} TraversalEscapesUploads(dir: seq<string>, f: string)
    requires RoutesDir(dir) && PlainSegment(f)
    ensures ResolveUpload(dir, ".." + "/" + f) == dir[..|dir| - 1] + [f]
    ensures !StartsWithDir(ResolveUpload(dir, ".." + "/" + f), UploadsDir(dir))
  {
    var u := UploadsDir(dir);
    SplitAtOnlySeparator("..", f, '/');
    assert Split(".." + "/" + f, '/') == ["..", f];
    NormalizeAppend([], dir + ["..", "uploads"], ["..", f]);
    ParentThenSegment(u, f);
    assert u[..|u| - 1] == dir[..|dir| - 1];
  }

  /** `path` lies strictly inside directory `d`. */
  predicate StartsWithDir(path: seq<string>, d: seq<string>) {
    |d| < |path| && path[..|d|] == d
  }

  /** With the check the routes need, a requested name resolves to an entry
      of the uploads directory and nowhere else. */
  lemma PlainNamesStayInUploads(dir: seq<string>, filename: string)
    requires RoutesDir(dir) && PlainFileName(filename)
    ensures ResolveUpload(dir, filename) == UploadsDir(dir) + [filename]
    ensures StartsWithDir(ResolveUpload(dir, filename), UploadsDir(dir))
  {
    var u := UploadsDir(dir);
    assert Split(filename, '/') == [filename];
    NormalizeAppend([], dir + ["..", "uploads"], [filename]);
    NormalizePlain(u, [filename]);
    assert (u + [filename])[..|u|] == u;
  }

  /** Where a stored upload lands: its name inside the uploads directory. */
  function StoredPath(dir: seq<string>, stored: string): (p: seq<string>)
    requires RoutesDir(dir)
    ensures StartsWithDir(p, UploadsDir(dir)) && p[|p| - 1] == stored
  {
    var u := UploadsDir(dir);
    assert (u + [stored])[..|u|] == u;
    u + [stored]
  }

  /** A path as the file object's `path` string shows it. */
  function PathText(p: seq<string>): string {
    "/" + Join(p, "/")
  }

  // ---------------------------------------------------------------------------
  // What multer hands the route
  // ---------------------------------------------------------------------------

  const MaxFileSize := 10 * 1024 * 1024
  const MaxFiles := 5

  /** One file part of a multipart request: its form field, the name and
      MIME type the client sent, its size, and the clock and random values
      the storage callback reads when it names the file. */
  datatype Part = Part(field: string, originalname: string, mimetype: string, size: nat, now: nat, random: nat)

  /** A file multer has stored (`req.file` / an element of `req.files`). */
  datatype StoredFile = StoredFile(originalname: string, mimetype: string, size: nat, path: seq<string>)

  /** An error multer passes to the error middleware: a `MulterError` with its
      code and message, or the plain error `fileFilter` raised. */
  datatype UploadError = MulterError(code: string, message: string) | PlainError(message: string)

  /** Every part's name is one multer can report. */
  predicate UploadNames(parts: seq<Part>) {
    forall i :: 0 <= i < |parts| ==> UploadName(parts[i].originalname)
  }

  datatype Received = Received(files: seq<StoredFile>) | Failed(err: UploadError)

  /** A part multer keeps: expected field, accepted type, within the size
      limit, and among the first `MaxFiles` parts and the field's `maxCount`. */
  predicate Acceptable(p: Part, field: string) {
    p.field == field && FileFilter(p.mimetype) && p.size <= MaxFileSize && UploadName(p.originalname)
  }

  /** The disk-storage callbacks, `destination` and `filename`: what multer
      keeps of part `p` is the client's name, type and size, under the
      generated name in the uploads directory. */
  function Store(p: Part, dir: seq<string>): StoredFile
    requires RoutesDir(dir) && UploadName(p.originalname)
  {
    StoredFile(p.originalname, p.mimetype, p.size, StoredPath(dir, StoredName(p.originalname, p.now, p.random)))
  }

  /** A stored file whose part passed multer's checks has an accepted type,
      is within the size limit and lies in the uploads directory. */
  lemma StoredFileIsSafe(p: Part, field: string, dir: seq<string>)
    requires RoutesDir(dir) && Acceptable(p, field)
    ensures var f := Store(p, dir);
            FileFilter(f.mimetype) && f.size <= MaxFileSize && StartsWithDir(f.path, UploadsDir(dir))
  {
  }

  /** multer's checks on parts `k..`, in order. The first part that breaks a
      rule aborts the request with that rule's error: the request-wide file
      limit, then the field and its `maxCount`, then `fileFilter`, then the
      size. */
  function FirstRejection(parts: seq<Part>, k: nat, field: string, maxCount: nat): Option<UploadError>
    requires k <= |parts|
    decreases |parts| - k
  {
    if k == |parts| then None
    else if k >= MaxFiles then Some(MulterError("LIMIT_FILE_COUNT", "Too many files"))
    else if parts[k].field != field || k >= maxCount then Some(MulterError("LIMIT_UNEXPECTED_FILE", "Unexpected field"))
    else if !FileFilter(parts[k].mimetype) then Some(PlainError(InvalidTypeMessage))
    else if parts[k].size > MaxFileSize then Some(MulterError("LIMIT_FILE_SIZE", "File too large"))
    else FirstRejection(parts, k + 1, field, maxCount)
  }

  /** No part is rejected exactly when every remaining part is acceptable and
      neither the request-wide limit nor the field's `maxCount` is exceeded. */
  lemma {:induction false} NoRejectionExactlyWhenAcceptable(parts: seq<Part>, k: nat, field: string, maxCount: nat)
    requires k <= |parts| && k <= MaxFiles && k <= maxCount
    requires UploadNames(parts)
    ensures FirstRejection(parts, k, field, maxCount).None? <==>
              |parts| <= MaxFiles && |parts| <= maxCount && forall i :: k <= i < |parts| ==> Acceptable(parts[i], field)
    decreases |parts| - k
  {
    if k < |parts| && k < MaxFiles && k < maxCount && Acceptable(parts[k], field) {
      NoRejectionExactlyWhenAcceptable(parts, k + 1, field, maxCount);
    }
  }

  /** multer on a whole request: the first rejection aborts it and no file is
      kept; otherwise every part is stored, in order. */
  function Receive(parts: seq<Part>, field: string, maxCount: nat, dir: seq<string>): (r: Received)
    requires RoutesDir(dir) && UploadNames(parts)
    ensures r.Failed? <==> FirstRejection(parts, 0, field, maxCount).Some?
    ensures r.Received? ==> |r.files| == |parts| && forall i :: 0 <= i < |parts| ==> r.files[i] == Store(parts[i], dir)
  {
    match FirstRejection(parts, 0, field, maxCount)
    case Some(e) => Failed(e)
    case None => Received(seq(|parts|, i requires 0 <= i < |parts| => Store(parts[i], dir)))
  }

  /** multer succeeds exactly when every part is acceptable, there are at
      most `MaxFiles` of them and at most the field's `maxCount`; then every
      stored file has an accepted type, is within the size limit and lies in
      the uploads directory. */
  lemma ReceivedExactlyWhenAcceptable(parts: seq<Part>, field: string, maxCount: nat, dir: seq<string>)
    requires RoutesDir(dir) && UploadNames(parts)
    ensures var r := Receive(parts, field, maxCount, dir);
            r.Received? <==>
              |parts| <= MaxFiles && |parts| <= maxCount && forall i :: 0 <= i < |parts| ==> Acceptable(parts[i], field)
    ensures var r := Receive(parts, field, maxCount, dir);
            r.Received? ==> forall i :: 0 <= i < |r.files| ==>
              FileFilter(r.files[i].mimetype) && r.files[i].size <= MaxFileSize
              && StartsWithDir(r.files[i].path, UploadsDir(dir))
  {
    NoRejectionExactlyWhenAcceptable(parts, 0, field, maxCount);
    var r := Receive(parts, field, maxCount, dir);
    if r.Received? {
      forall i | 0 <= i < |r.files|
        ensures FileFilter(r.files[i].mimetype) && r.files[i].size <= MaxFileSize
                && StartsWithDir(r.files[i].path, UploadsDir(dir))
      {
        StoredFileIsSafe(parts[i], field, dir);
      }
    }
  }

  /** The multer error middleware: every upload error is a 400, with a fixed
      message for the three limit codes and the error's own message (or a
      generic one) otherwise. */
  function UploadErrorReply(e: UploadError): (r: Reply)
    ensures r.status == BadRequest
    ensures e.MulterError? && e.code == "LIMIT_FILE_SIZE" ==> r.message == "File size too large. Maximum size is 10MB."
    ensures e.MulterError? && e.code == "LIMIT_FILE_COUNT" ==> r.message == "Too many files. Maximum 5 files allowed."
    ensures e.MulterError? && e.code == "LIMIT_UNEXPECTED_FILE" ==> r.message == "Unexpected file field."
    ensures (e.PlainError? || e.code !in {"LIMIT_FILE_SIZE", "LIMIT_FILE_COUNT", "LIMIT_UNEXPECTED_FILE"}) ==>
              r.message == (if e.message != "" then e.message else "File upload error")
  {
    match e
    case MulterError(code, m) =>
      if code == "LIMIT_FILE_SIZE" then Reply(BadRequest, "File size too large. Maximum size is 10MB.")
      else if code == "LIMIT_FILE_COUNT" then Reply(BadRequest, "Too many files. Maximum 5 files allowed.")
      else if code == "LIMIT_UNEXPECTED_FILE" then Reply(BadRequest, "Unexpected file field.")
      else Reply(BadRequest, if m != "" then m else "File upload error")
    case PlainError(m) => Reply(BadRequest, if m != "" then m else "File upload error")
  }

  // ---------------------------------------------------------------------------
  // Routes
  // ---------------------------------------------------------------------------

  /** The record a successful upload answers with. */
  datatype FileInfo = FileInfo(fileName: string, filePath: seq<string>, fileType: FileKind,
                               fileSize: nat, mimetype: string, uploadedBy: Id, uploadedAt: Millis)

  datatype UploadReply = UploadReply(status: int, message: string, data: seq<FileInfo>)

  /** The `fileInfo` records of the stored files, in order. */
  function Infos(files: seq<StoredFile>, uploader: Id, now: Millis): (infos: seq<FileInfo>)
    ensures |infos| == |files|
    ensures forall i :: 0 <= i < |files| ==>
              var f := files[i];
              infos[i] == FileInfo(f.originalname, f.path, GetFileType(f.mimetype), f.size, f.mimetype, uploader, now)
  {
    seq(|files|, i requires 0 <= i < |files| =>
      var f := files[i];
      FileInfo(f.originalname, f.path, GetFileType(f.mimetype), f.size, f.mimetype, uploader, now))
  }

  function Refuse(r: Reply): UploadReply {
    UploadReply(r.status, r.message, [])
  }

  /** The role gate of the upload routes that need one. */
  const UploaderRoles := [Doctor, Admin]

  /** The record of an uploaded part: its name and type as sent, an accepted
      type that `getFileType` recognises, within the size limit, stored in
      the uploads directory and attributed to the uploader. */
  predicate SafeUpload(info: FileInfo, part: Part, uploader: Id, dir: seq<string>) {
    && RoutesDir(dir)
    && info.fileName == part.originalname && info.mimetype == part.mimetype
    && FileFilter(info.mimetype) && info.fileType != OtherFile
    && info.fileSize <= MaxFileSize && info.uploadedBy == uploader
    && StartsWithDir(info.filePath, UploadsDir(dir))
  }

  /** Every record of a successful multer run is a safe upload. */
  lemma ReceivedFilesAreSafe(parts: seq<Part>, field: string, maxCount: nat, dir: seq<string>, uploader: Id, now: Millis)
    requires RoutesDir(dir) && UploadNames(parts)
    requires Receive(parts, field, maxCount, dir).Received?
    ensures var infos := Infos(Receive(parts, field, maxCount, dir).files, uploader, now);
            |infos| == |parts| && forall i :: 0 <= i < |infos| ==> SafeUpload(infos[i], parts[i], uploader, dir)
  {
    ReceivedExactlyWhenAcceptable(parts, field, maxCount, dir);
    var files := Receive(parts, field, maxCount, dir).files;
    var infos := Infos(files, uploader, now);
    forall i | 0 <= i < |infos|
      ensures SafeUpload(infos[i], parts[i], uploader, dir)
    {
      assert FileFilter(files[i].mimetype);
    }
  }

  /** POST /single and POST /multiple. `single` picks the route: field `file`
      and one file, or field `files` and up to five. Only doctors and admins
      get past the gate; every file in a success reply passed `fileFilter`,
      is within the size limit, lies in the uploads directory and is
      classified as something other than `other`. */
  function UploadRoute(p: Principal, single: bool, parts: seq<Part>, dir: seq<string>, now: Millis): (r: UploadReply)
    requires RoutesDir(dir) && UploadNames(parts)
    ensures r.status == Ok ==> p.role in UploaderRoles
    ensures p.role !in UploaderRoles ==> r.status == Forbidden && r.data == []
    ensures r.status == Ok ==>
              |r.data| == |parts| && 0 < |parts| <= (if single then 1 else MaxFiles)
              && forall i :: 0 <= i < |r.data| ==> SafeUpload(r.data[i], parts[i], p.id, dir)
    ensures r.status != Ok ==> r.data == []
  {
    var gate := Authorize(Some(p), UploaderRoles);
    if gate.Deny? then Refuse(Reply(gate.status, gate.message))
    else
      var field := if single then "file" else "files";
      var maxCount := if single then 1 else MaxFiles;
      match Receive(parts, field, maxCount, dir)
      case Failed(e) => Refuse(UploadErrorReply(e))
      case Received(files) =>
        if files == [] then Refuse(Reply(BadRequest, if single then "No file uploaded" else "No files uploaded"))
        else
          var infos := Infos(files, p.id, now);
          ReceivedExactlyWhenAcceptable(parts, field, maxCount, dir);
          ReceivedFilesAreSafe(parts, field, maxCount, dir, p.id, now);
          UploadReply(Ok, if single then "File uploaded successfully" else Decimal(|files|) + " files uploaded successfully", infos)
  }

  /** What POST /profile decides: the reply and, on success, the new
      `profilePicture`. Any authenticated user may call it; the picture
      must be one of the accepted image types. */
  function ProfileOutcome(parts: seq<Part>, dir: seq<string>): (r: (Reply, Option<string>))
    requires RoutesDir(dir) && UploadNames(parts)
    ensures r.1.Some? <==> r.0.status == Ok
    ensures r.0.status == Ok ==>
              |parts| == 1 && parts[0].mimetype in [JpegType, PngType, GifType]
              && r.1.value == PathText(StoredPath(dir, StoredName(parts[0].originalname, parts[0].now, parts[0].random)))
    ensures |parts| == 1 && parts[0].field == "profilePicture"
            && parts[0].size <= MaxFileSize && parts[0].mimetype in [PdfType, WordType, DocxType, TextType] ==>
              r.0 == Reply(BadRequest, "Profile picture must be an image")
  {
    ReceivedExactlyWhenAcceptable(parts, "profilePicture", 1, dir);
    match Receive(parts, "profilePicture", 1, dir)
    case Failed(e) => (UploadErrorReply(e), None)
    case Received(files) =>
      if files == [] then (Reply(BadRequest, "No profile picture uploaded"), None)
      else
        AcceptedImages(files[0].mimetype);
        if !StartsWith(files[0].mimetype, "image/") then (Reply(BadRequest, "Profile picture must be an image"), None)
      else (Reply(Ok, "Profile picture uploaded successfully"), Some(PathText(files[0].path)))
  }

  /** POST /profile: the decision, then the account update. */
  method ProfileRoute(u: User, parts: seq<Part>, dir: seq<string>) returns (reply: Reply)
    requires RoutesDir(dir) && UploadNames(parts)
    modifies u`profilePicture
    ensures reply == ProfileOutcome(parts, dir).0
    ensures u.profilePicture == (if reply.status == Ok then ProfileOutcome(parts, dir).1 else old(u.profilePicture))
  {
    var outcome := ProfileOutcome(parts, dir);
    reply := outcome.0;
    if outcome.1.Some? {
      u.profilePicture := outcome.1;
    }
  }

  /** What GET /file/:filename answers: the file and its `Content-Type`, or a
      refusal. */
  datatype Download = Fetched(path: seq<string>, contentType: string) | NotServed(reply: Reply)

  const FileNotFound := Reply(NotFound, "File not found")

  /** GET /file/:filename: the requested name is joined to the uploads
      directory unchecked, and whatever path that gives is served when it
      exists. The content type comes from the lower-cased extension. */
  function DownloadRoute(filename: string, dir: seq<string>, existing: set<seq<string>>): (r: Download)
    requires RoutesDir(dir)
    ensures r.Fetched? <==> ResolveUpload(dir, filename) in existing
    ensures r.Fetched? ==> r.path == ResolveUpload(dir, filename)
                           && r.contentType == GetContentType(Lower(PathExtname(filename)))
    ensures r.NotServed? ==> r.reply == FileNotFound
    ensures PlainFileName(filename) ==> (r.Fetched? <==> UploadsDir(dir) + [filename] in existing)
  {
    var path := ResolveUpload(dir, filename);
    assert PlainFileName(filename) ==> ResolveUpload(dir, filename) == UploadsDir(dir) + [filename] by {
      if PlainFileName(filename) { PlainNamesStayInUploads(dir, filename); }
    }
    if path !in existing then NotServed(FileNotFound)
    else Fetched(path, GetContentType(Lower(PathExtname(filename))))
  }

  /** As written, the download route serves `f` beside the uploads directory
      when asked for `../f`. */
  lemma DownloadServesOutsideUploads(dir: seq<string>, f: string, existing: set<seq<string>>)
    requires RoutesDir(dir) && PlainSegment(f) && dir[..|dir| - 1] + [f] in existing
    ensures DownloadRoute(".." + "/" + f, dir, existing).Fetched?
    ensures DownloadRoute(".." + "/" + f, dir, existing).path == dir[..|dir| - 1] + [f]
    ensures !StartsWithDir(DownloadRoute(".." + "/" + f, dir, existing).path, UploadsDir(dir))
  {
    TraversalEscapesUploads(dir, f);
  }

  /** DELETE /file/:filename: doctors and admins only; the requested name is
      joined to the uploads directory unchecked and the path that gives is
      removed when it exists. */
  function DeleteRoute(p: Principal, filename: string, dir: seq<string>, existing: set<seq<string>>): (r: (Reply, set<seq<string>>))
    requires RoutesDir(dir)
    ensures r.0.status == Ok <==> p.role in UploaderRoles && ResolveUpload(dir, filename) in existing
    ensures r.0.status == Ok ==> r.1 == existing - {ResolveUpload(dir, filename)}
    ensures r.0.status != Ok ==> r.1 == existing
    ensures forall q :: q in existing && q !in r.1 ==> q == ResolveUpload(dir, filename)
    ensures PlainFileName(filename) ==>
              forall q :: q in existing && q !in r.1 ==> StartsWithDir(q, UploadsDir(dir))
  {
    var gate := Authorize(Some(p), UploaderRoles);
    var path := ResolveUpload(dir, filename);
    assert PlainFileName(filename) ==> ResolveUpload(dir, filename) == UploadsDir(dir) + [filename] by {
      if PlainFileName(filename) { PlainNamesStayInUploads(dir, filename); }
    }
    if gate.Deny? then (Reply(gate.status, gate.message), existing)
    else if path !in existing then (FileNotFound, existing)
    else (Reply(Ok, "File deleted successfully"), existing - {path})
  }

  /** As written, a doctor asking to delete `../f` removes `f` beside the
      uploads directory. */
  lemma DeleteRemovesOutsideUploads(p: Principal, dir: seq<string>, f: string, existing: set<seq<string>>)
    requires RoutesDir(dir) && PlainSegment(f) && dir[..|dir| - 1] + [f] in existing
    requires p.role in UploaderRoles
    ensures DeleteRoute(p, ".." + "/" + f, dir, existing).1 == existing - {dir[..|dir| - 1] + [f]}
    ensures !StartsWithDir(dir[..|dir| - 1] + [f], UploadsDir(dir))
  {
    TraversalEscapesUploads(dir, f);
  }

  /** What GET /info/:filename reports about a file's type: the class of the
      content type of its extension as written, without lower-casing. */
  function InfoType(filename: string): FileKind {
    GetFileType(GetContentType(PathExtname(filename)))
  }

  /** What GET /info/:filename answers. */
  datatype FileDetails = Details(extension: string, fileType: FileKind) | NoDetails(reply: Reply)

  /** GET /info/:filename: the extension and type of whatever path the
      requested name reaches, when it exists. */
  function InfoRoute(filename: string, dir: seq<string>, existing: set<seq<string>>): (r: FileDetails)
    requires RoutesDir(dir)
    ensures r.Details? <==> ResolveUpload(dir, filename) in existing
    ensures r.Details? ==> r == Details(PathExtname(filename), InfoType(filename))
    ensures r.NoDetails? ==> r.reply == FileNotFound
    ensures PlainFileName(filename) ==> (r.Details? <==> UploadsDir(dir) + [filename] in existing)
  {
    assert PlainFileName(filename) ==> ResolveUpload(dir, filename) == UploadsDir(dir) + [filename] by {
      if PlainFileName(filename) { PlainNamesStayInUploads(dir, filename); }
    }
    if ResolveUpload(dir, filename) !in existing then NoDetails(FileNotFound)
    else Details(PathExtname(filename), InfoType(filename))
  }

  /** A name whose only dot starts its extension has that extension. */
  lemma ExtnameOfPlainBase(base: string, ext: string)
    requires base != "" && '.' !in base && '/' !in base
    requires |ext| > 0 && ext[0] == '.' && '.' !in ext[1..] && '/' !in ext
    ensures Extname(base + ext) == ext
  {
    var s := base + ext;
    assert s[|base|] == '.' && s[|base| + 1..] == ext[1..];
    assert s[0] == base[0] && s != "..";
    assert s[|base|..] == ext;
  }

  /** The download route lower-cases the extension and the info route does
      not, so they disagree on upper-case names: `scan.PDF` downloads as a PDF
      but is reported as `other`. On lower-case extensions they agree. */
  lemma InfoAndDownloadDisagreeOnCase(dir: seq<string>, existing: set<seq<string>>)
    requires RoutesDir(dir) && UploadsDir(dir) + ["scan" + ".PDF"] in existing
    ensures DownloadRoute("scan" + ".PDF", dir, existing) == Fetched(UploadsDir(dir) + ["scan" + ".PDF"], PdfType)
    ensures InfoType("scan" + ".PDF") == OtherFile
  {
    var name := "scan" + ".PDF";
    ExtnameOfPlainBase("scan", ".PDF");
    assert '/' !in name;
    assert PathExtname(name) == ".PDF";
    assert PlainFileName(name);
    PlainNamesStayInUploads(dir, name);
    LowerPdf();
    UpperPdfIsOther();
  }

  lemma LowerPdf()
    ensures GetContentType(Lower(".PDF")) == PdfType
  {
    var lower := Lower(".PDF");
    assert lower[0] == '.' && lower[1] == 'p' && lower[2] == 'd' && lower[3] == 'f';
    assert lower == ".pdf";
  }

  lemma UpperPdfIsOther()
    ensures GetFileType(GetContentType(".PDF")) == OtherFile
  {
    assert GetContentType(".PDF") == OctetStream;
    OctetStreamIsOther();
  }

  /** The fallback content type is classified as `other`. */
  lemma OctetStreamIsOther()
    ensures GetFileType(OctetStream) == OtherFile
  {
    assert OctetStream[0] == 'a' && |OctetStream| == 24;
    assert !StartsWith(OctetStream, "image/");
    assert OctetStream != PdfType && OctetStream != TextType;
    MissingCharNotContained(OctetStream, "document");
    MissingCharNotContained(OctetStream, "word");
    assert Classify(OctetStream) == OtherFile;
    assert |JpegType| == 10 && |PngType| == 9 && |GifType| == 9 && |PdfType| == 15;
    assert |WordType| == 18 && |DocxType| == 71 && |TextType| == 10;
    assert !FileFilter(OctetStream);
  }

  lemma InfoAgreesWithDownloadOnLowerCase(filename: string, dir: seq<string>, existing: set<seq<string>>)
    requires RoutesDir(dir) && PlainFileName(filename) && UploadsDir(dir) + [filename] in existing
    requires Lower(PathExtname(filename)) == PathExtname(filename)
    ensures DownloadRoute(filename, dir, existing).Fetched?
    ensures GetFileType(DownloadRoute(filename, dir, existing).contentType) == InfoType(filename)
  {
  }
}
