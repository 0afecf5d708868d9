/**
  The `gdrive_create_folder` tool: resolve an optional shared drive, then
  create a folder with one `files.create` call whose metadata names the
  folder, marks it with the folder MIME type and gives its parent.
 */
module GDriveCreateFolder {
  import opened Strings
  import opened SharedDrive

  const FolderMimeType: string := "application/vnd.google-apps.folder"

  const FolderFields: string := "id, name, mimeType, parents"

  datatype CreateFolderArgs = CreateFolderArgs(folderName: string, parentId: string, driveName: string)

  /** The `requestBody` of the call: name, folder MIME type and, when set, the single parent. */
  datatype FolderMetadata = FolderMetadata(name: string, mimeType: string, parents: Option<seq<string>>)

  /** Parameters of the `files.create` call. */
  datatype FolderRequest = FolderRequest(
    requestBody: FolderMetadata, fields: string, supportsAllDrives: bool, driveId: Option<string>)

  /** The remote calls a folder creation made, and the envelope it returned. */
  datatype CreateFolderRun = CreateFolderRun(lookup: Option<DrivesListRequest>, create: Option<FolderRequest>, response: Response)

  function FolderErrorText(message: string): string {
    "❌ Error creating folder: " + message
  }

  function CreatedLine(folderName: string): string {
    "✅ Successfully created folder \"" + folderName + "\""
  }

  function FolderIdLine(folderId: string): string {
    "Folder ID: " + folderId
  }

  /** The success message: the created name, its id and the location. */
  function CreatedText(folderName: string, folderId: string, location: string): string {
    CreatedLine(folderName) + "\n" + FolderIdLine(folderId) + "\n" + location
  }

  /** The success message has exactly three lines: the created name, the folder id and the location. */
  lemma CreatedTextLines(folderName: string, folderId: string, location: string)
    requires '\n' !in folderName && '\n' !in folderId && '\n' !in location
    ensures Split(CreatedText(folderName, folderId, location), '\n')
            == [CreatedLine(folderName), FolderIdLine(folderId), location]
  {
    var lines := [CreatedLine(folderName), FolderIdLine(folderId), location];
    assert Join(lines[2..], "\n") == location;
    assert Join(lines[1..], "\n") == FolderIdLine(folderId) + "\n" + location;
    assert Join(lines, "\n") == CreatedText(folderName, folderId, location);
    SplitJoin(lines, '\n');
  }

  /**
    The create-folder tool. A drive lookup failure is returned before any
    folder is created; otherwise one `files.create` call is made and its
    outcome becomes the envelope.
   */
  method CreateFolder(args: CreateFolderArgs, drives: DrivesListResult, created: CreateResult)
    returns (run: CreateFolderRun)
    ensures run.lookup == if args.driveName != "" then Some(DriveLookup(args.driveName)) else None
    ensures ResolveDrive(args.driveName, drives).Failed? <==> run.create.None?
    ensures ResolveDrive(args.driveName, drives).Failed? ==>
      run.response == ResolveDrive(args.driveName, drives).response
    ensures run.create.Some? ==>
      var driveId := ScopeId(ResolveDrive(args.driveName, drives));
      var parentId := EffectiveParent(args.parentId, driveId);
      && run.create.value.requestBody.name == args.folderName
      && run.create.value.requestBody.mimeType == FolderMimeType
      && run.create.value.requestBody.parents == (if parentId != "" then Some([parentId]) else None)
      && run.create.value.fields == FolderFields
      && run.create.value.supportsAllDrives == (driveId != "")
      && run.create.value.driveId == (if driveId != "" then Some(driveId) else None)
    ensures run.create.Some? && created.CreateThrew? ==>
      run.response == Reply(FolderErrorText(created.message), true)
    ensures run.create.Some? && created.Created? ==>
      var driveId := ScopeId(ResolveDrive(args.driveName, drives));
      var parentId := EffectiveParent(args.parentId, driveId);
      run.response == Reply(CreatedText(created.name, created.id,
                                        LocationLine(driveId, args.driveName, parentId)), false)
    ensures |run.response.content| == 1
  {
    var parentId := args.parentId;
    var driveId := "";
    var lookup: Option<DrivesListRequest> := None;

    if args.driveName != "" {
      lookup := Some(DriveLookup(args.driveName));
      var resolution := ResolveDrive(args.driveName, drives);
      if resolution.Failed? {
        return CreateFolderRun(lookup, None, resolution.response);
      }
      driveId := resolution.driveId;
      if parentId == "" {
        parentId := driveId;
      }
    }

    var fileMetadata := FolderMetadata(args.folderName, FolderMimeType, None);
    if parentId != "" {
      fileMetadata := fileMetadata.(parents := Some([parentId]));
    }

    var createParams := FolderRequest(fileMetadata, FolderFields, false, None);
    if driveId != "" {
      createParams := createParams.(supportsAllDrives := true, driveId := Some(driveId));
    }

    match created {
      case CreateThrew(message) =>
        run := CreateFolderRun(lookup, Some(createParams), Reply(FolderErrorText(message), true));
      case Created(folderId, folderName, _) =>
        var location := LocationLine(driveId, args.driveName, parentId);
        run := CreateFolderRun(lookup, Some(createParams),
                               Reply(CreatedText(folderName, folderId, location), false));
    }
  }
}
