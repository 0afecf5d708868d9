/**
  The `gdrive_upload_file` tool: resolve an optional shared drive, check
  that the local file exists, then upload it with one `files.create` call
  whose metadata names the file and its parent folder.

  The local file system is reduced to a flag saying whether the path
  exists; the file's bytes are an opaque stream of that path.
 */
module GDriveUploadFile {
  import opened Strings
  import opened SharedDrive

  const OctetStream: string := "application/octet-stream"

  /** The extension table of `getMimeType`. */
  const MimeTypes: map<string, string> := map[
    "md" := "text/markdown",
    "txt" := "text/plain",
    "json" := "application/json",
    "pdf" := "application/pdf",
    "doc" := "application/msword",
    "docx" := "application/vnd.openxmlformats-officedocument.wordprocessingml.document",
    "xls" := "application/vnd.ms-excel",
    "xlsx" := "application/vnd.openxmlformats-officedocument.spreadsheetml.sheet",
    "png" := "image/png",
    "jpg" := "image/jpeg",
    "jpeg" := "image/jpeg",
    "gif" := "image/gif",
    "zip" := "application/zip"
  ]

  const UploadFields: string := "id, name, mimeType, webViewLink, parents"

  const DefaultFileName: string := "uploaded-file"

  datatype UploadArgs = UploadArgs(filePath: string, fileName: string, parentId: string, driveName: string)

  /** The `requestBody` of the upload: the remote name and, when set, the single parent. */
  datatype UploadMetadata = UploadMetadata(name: string, parents: Option<seq<string>>)

  /** Parameters of the `files.create` call; the media body is a read stream of `mediaBodyPath`. */
  datatype UploadRequest = UploadRequest(
    requestBody: UploadMetadata, mediaMimeType: string, mediaBodyPath: string, fields: string,
    supportsAllDrives: bool, driveId: Option<string>)

  /** The remote calls an upload made, and the envelope it returned. */
  datatype UploadRun = UploadRun(lookup: Option<DrivesListRequest>, create: Option<UploadRequest>, response: Response)

  /** `filePath.split(".").pop().toLowerCase()`: the lowered text after the last dot. */
  function Extension(filePath: string): (ext: string)
    ensures '.' !in ext
  {
    var last := LastSegment(filePath, '.');
    assert forall k :: 0 <= k < |last| ==> ToLower(last)[k] == LowerChar(last[k]);
    ToLower(last)
  }

  /**
    `getMimeType`, as its declared `string` result intends: the table's type
    for a known extension, `application/octet-stream` for any other.
   */
  function GetMimeType(filePath: string): (mime: string)
    ensures mime != ""
    ensures mime == OctetStream <==> Extension(filePath) !in MimeTypes
    ensures Extension(filePath) in MimeTypes ==> mime == MimeTypes[Extension(filePath)]
  {
    var ext := Extension(filePath);
    if ext in MimeTypes then MimeTypes[ext] else OctetStream
  }

  /** What a JavaScript property read on the plain-object table can give back. */
  datatype LookupValue = Str(s: string) | InheritedMember(key: string)

  /** Lower-case keys an object literal inherits from `Object.prototype`; both values are truthy. */
  const PrototypeKeys: set<string> := {"constructor", "__proto__"}

  /**
    `getMimeType` as written: `mimeTypes[ext] || "application/octet-stream"`
    reads inherited members too, so an extension that names one of them
    returns that member instead of a MIME type string.
   */
  function GetMimeTypeAsWritten(filePath: string): (v: LookupValue)
    ensures v.InheritedMember? <==> Extension(filePath) in PrototypeKeys
  {
    var ext := Extension(filePath);
    if ext in MimeTypes then Str(MimeTypes[ext])
    else if ext in PrototypeKeys then InheritedMember(ext)
    else Str(OctetStream)
  }

  /** Away from the inherited keys, the function as written and as intended agree. */
  lemma AsWrittenAgreesOffPrototype(filePath: string)
    requires Extension(filePath) !in PrototypeKeys
    ensures GetMimeTypeAsWritten(filePath) == Str(GetMimeType(filePath))
  {
  }

  /**
    A file named `<base>.constructor` gets no MIME type string from the
    function as written, whatever the base.
   */
  lemma AsWrittenReturnsInheritedMember(base: string)
    ensures GetMimeTypeAsWritten(base + "." + "constructor") == InheritedMember("constructor")
  {
    ConstructorExtension(base);
    ConstructorUnlisted();
  }

  lemma ConstructorExtension(base: string)
    ensures Extension(base + "." + "constructor") == "constructor"
  {
    ExtensionOf(base, "constructor");
    ConstructorIsLowerCase();
  }

  lemma ConstructorUnlisted()
    ensures "constructor" !in MimeTypes && "constructor" in PrototypeKeys
  {
  }

  lemma ConstructorIsLowerCase()
    ensures ToLower("constructor") == "constructor"
  {
    ToLowerNoUpper("constructor");
  }

  lemma ExtensionIgnoresCase(filePath: string)
    ensures Extension(ToLower(filePath)) == Extension(filePath)
  {
    LastSegmentToLower(filePath, '.');
    ToLowerIdempotent(LastSegment(filePath, '.'));
  }

  /** The type does not depend on the letter case of the path. */
  lemma MimeTypeIgnoresCase(filePath: string)
    ensures GetMimeType(ToLower(filePath)) == GetMimeType(filePath)
  {
    ExtensionIgnoresCase(filePath);
  }

  /** The type of `<base>.<ext>` is looked up under the lowered `ext`, whatever dots the base holds. */
  lemma MimeTypeOfExtension(base: string, ext: string)
    requires '.' !in ext
    ensures GetMimeType(base + "." + ext)
            == if ToLower(ext) in MimeTypes then MimeTypes[ToLower(ext)] else OctetStream
  {
    ExtensionOf(base, ext);
  }

  /** A path ending `.docx` is a Word document, in any letter case. */
  lemma WordDocumentExample(base: string)
    ensures GetMimeType(base + ".docx") == GetMimeType(base + ".DOCX")
            == "application/vnd.openxmlformats-officedocument.wordprocessingml.document"
  {
    MimeTypeOfExtension(base, "docx");
    assert base + "." + "docx" == base + ".docx";
    MimeTypeOfExtension(base, "DOCX");
    assert base + "." + "DOCX" == base + ".DOCX";
    DocxLowers();
    DocxListed();
  }

  lemma DocxLowers()
    ensures ToLower("docx") == ToLower("DOCX") == "docx"
  {
    ToLowerNoUpper("docx");
    assert ToLower("DOCX") == "docx";
  }

  lemma DocxListed()
    ensures "docx" in MimeTypes
    ensures MimeTypes["docx"] == "application/vnd.openxmlformats-officedocument.wordprocessingml.document"
  {
  }

  /** `.jpg` and `.jpeg` are both JPEG images. */
  lemma JpegExample(base: string)
    ensures GetMimeType(base + ".jpg") == GetMimeType(base + ".jpeg") == "image/jpeg"
  {
    MimeTypeOfExtension(base, "jpg");
    assert base + "." + "jpg" == base + ".jpg";
    MimeTypeOfExtension(base, "jpeg");
    assert base + "." + "jpeg" == base + ".jpeg";
    JpegListed();
  }

  lemma JpegListed()
    ensures ToLower("jpg") == "jpg" && ToLower("jpeg") == "jpeg"
    ensures "jpg" in MimeTypes && "jpeg" in MimeTypes
    ensures MimeTypes["jpg"] == MimeTypes["jpeg"] == "image/jpeg"
  {
    ToLowerNoUpper("jpg");
    ToLowerNoUpper("jpeg");
  }

  /** An extension outside the table falls back to the octet stream. */
  lemma FallbackExample(base: string)
    ensures GetMimeType(base + ".tar") == OctetStream
  {
    MimeTypeOfExtension(base, "tar");
    assert base + "." + "tar" == base + ".tar";
    TarUnlisted();
  }

  lemma TarUnlisted()
    ensures ToLower("tar") == "tar" && "tar" !in MimeTypes
  {
    ToLowerNoUpper("tar");
  }

  /** A path without a dot is its own extension, lowered. */
  lemma DotlessExtension(filePath: string)
    requires '.' !in filePath
    ensures Extension(filePath) == ToLower(filePath)
    ensures GetMimeType(filePath) == if ToLower(filePath) in MimeTypes then MimeTypes[ToLower(filePath)] else OctetStream
  {
  }

  /** The extension of `<base>.<ext>`, for an `ext` without a dot, is the lowered `ext`. */
  lemma ExtensionOf(base: string, ext: string)
    requires '.' !in ext
    ensures Extension(base + "." + ext) == ToLower(ext)
  {
    var path := base + "." + ext;
    assert path[|path| - |ext|..] == ext;
    assert path[|path| - |ext| - 1] == '.';
    LastSegmentUnique(path, '.', ext);
  }

  /**
    The remote name: the `fileName` argument if given, else the path's last
    `/`-segment if it is not empty, else `uploaded-file`.
   */
  function RemoteName(fileName: string, filePath: string): (name: string)
    ensures name != ""
    ensures fileName != "" ==> name == fileName
    ensures fileName == "" && (filePath == "" || filePath[|filePath| - 1] == '/') ==> name == DefaultFileName
    ensures fileName == "" && filePath != "" && filePath[|filePath| - 1] != '/' ==>
      && '/' !in name && |name| <= |filePath| && filePath[|filePath| - |name|..] == name
      && (|name| == |filePath| || filePath[|filePath| - |name| - 1] == '/')
  {
    LastSegmentEmpty(filePath, '/');
    if fileName != "" then fileName
    else if LastSegment(filePath, '/') != "" then LastSegment(filePath, '/')
    else DefaultFileName
  }

  function UploadErrorText(message: string): string {
    "❌ Error uploading file: " + message
  }

  function ViewLinkLine(webViewLink: string): string {
    if webViewLink != "" then "View link: " + webViewLink else ""
  }

  function UploadedLine(fileName: string): string {
    "✅ Successfully uploaded file \"" + fileName + "\""
  }

  function FileIdLine(fileId: string): string {
    "File ID: " + fileId
  }

  /** The success message: name, id, the view link line (blank without a link) and the location. */
  function UploadedText(fileName: string, fileId: string, webViewLink: string, location: string): string {
    UploadedLine(fileName) + "\n" + FileIdLine(fileId) + "\n" + ViewLinkLine(webViewLink) + "\n" + location
  }

  /**
    The success message has exactly four lines, in order: the uploaded
    name, the file id, the view link (an empty line when there is none) and
    the location.
   */
  lemma UploadedTextLines(fileName: string, fileId: string, webViewLink: string, location: string)
    requires '\n' !in fileName && '\n' !in fileId && '\n' !in webViewLink && '\n' !in location
    ensures Split(UploadedText(fileName, fileId, webViewLink, location), '\n')
            == [UploadedLine(fileName), FileIdLine(fileId), ViewLinkLine(webViewLink), location]
  {
    var lines := [UploadedLine(fileName), FileIdLine(fileId), ViewLinkLine(webViewLink), location];
    assert Join(lines[3..], "\n") == location;
    assert Join(lines[2..], "\n") == ViewLinkLine(webViewLink) + "\n" + location;
    assert Join(lines[1..], "\n") == FileIdLine(fileId) + "\n" + (ViewLinkLine(webViewLink) + "\n" + location);
    assert Join(lines, "\n") == UploadedText(fileName, fileId, webViewLink, location);
    SplitJoin(lines, '\n');
  }

  /**
    The upload tool. A drive lookup failure is returned before the file is
    looked at; a missing file is reported without any upload; otherwise one
    `files.create` call is made and its outcome becomes the envelope.
   */
  method UploadFile(args: UploadArgs, drives: DrivesListResult, fileExists: bool, created: CreateResult)
    returns (run: UploadRun)
    ensures run.lookup == if args.driveName != "" then Some(DriveLookup(args.driveName)) else None
    ensures ResolveDrive(args.driveName, drives).Failed? ==>
      run.create.None? && run.response == ResolveDrive(args.driveName, drives).response
    ensures !ResolveDrive(args.driveName, drives).Failed? && !fileExists ==>
      run.create.None? && run.response == Reply("File not found: " + args.filePath, true)
    ensures !ResolveDrive(args.driveName, drives).Failed? && fileExists ==> run.create.Some?
    ensures run.create.Some? ==>
      var driveId := ScopeId(ResolveDrive(args.driveName, drives));
      var parentId := EffectiveParent(args.parentId, driveId);
      && run.create.value.requestBody.name == RemoteName(args.fileName, args.filePath)
      && run.create.value.requestBody.parents == (if parentId != "" then Some([parentId]) else None)
      && run.create.value.mediaMimeType == GetMimeType(args.filePath)
      && run.create.value.mediaBodyPath == args.filePath
      && run.create.value.fields == UploadFields
      && run.create.value.supportsAllDrives == (driveId != "")
      && run.create.value.driveId == (if driveId != "" then Some(driveId) else None)
    ensures run.create.Some? && created.CreateThrew? ==>
      run.response == Reply(UploadErrorText(created.message), true)
    ensures run.create.Some? && created.Created? ==>
      var driveId := ScopeId(ResolveDrive(args.driveName, drives));
      var parentId := EffectiveParent(args.parentId, driveId);
      run.response == Reply(UploadedText(created.name, created.id, created.webViewLink,
                                         LocationLine(driveId, args.driveName, parentId)), false)
    ensures |run.response.content| == 1
  {
    var parentId := args.parentId;
    var driveId := "";
    var lookup: Option<DrivesListRequest> := None;

    if args.driveName != "" {
      lookup := Some(DriveLookup(args.driveName));
      var resolution := ResolveDrive(args.driveName, drives);
      if resolution.Failed? {
        return UploadRun(lookup, None, resolution.response);
      }
      driveId := resolution.driveId;
      if parentId == "" {
        parentId := driveId;
      }
    }

    if !fileExists {
      return UploadRun(lookup, None, Reply("File not found: " + args.filePath, true));
    }

    var fileName := RemoteName(args.fileName, args.filePath);
    var mimeType := GetMimeType(args.filePath);

    var fileMetadata := UploadMetadata(fileName, None);
    if parentId != "" {
      fileMetadata := fileMetadata.(parents := Some([parentId]));
    }

    var createParams := UploadRequest(fileMetadata, mimeType, args.filePath, UploadFields, false, None);
    if driveId != "" {
      createParams := createParams.(supportsAllDrives := true, driveId := Some(driveId));
    }

    match created {
      case CreateThrew(message) =>
        run := UploadRun(lookup, Some(createParams), Reply(UploadErrorText(message), true));
      case Created(fileId, uploadedFileName, webViewLink) =>
        var location := LocationLine(driveId, args.driveName, parentId);
        run := UploadRun(lookup, Some(createParams),
                         Reply(UploadedText(uploadedFileName, fileId, webViewLink, location), false));
    }
  }
}
