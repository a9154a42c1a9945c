/**
 * Task attachments. Upload needs a membership that may edit tasks, then
 * validates the file (not empty, at most the configured size, an extension
 * whose lower-case form is in the configured list), stores it on disk under a
 * random name and saves its row. Listing and download need any membership;
 * deletion needs the uploader or a member who may manage members. The disk is
 * the set of stored paths; whether a copy or a delete on it succeeds is left
 * open, and the random name comes in as a parameter.
 */
module FileService {
  import opened Common
  import opened Members
  import opened Tasks
  import opened Entities
  import opened StoreState
  import opened JavaStrings

  /**
   * The file properties: upload directory, size limit and the comma-separated
   * extension list. uploadDir stands for the directory as the service resolves
   * it at start-up: made absolute and normalized, which the model does not compute.
   */
  datatype FileConfig = FileConfig(uploadDir: string, maxSize: int, allowedTypes: string)

  /** The multipart upload as the service sees it: the client's file name, if any, and the size. */
  datatype UploadedFile = UploadedFile(originalName: Option<string>, size: nat)
  {
    predicate IsEmpty() { size == 0 }
  }

  /** The workspace of a task, through its project. */
  function TaskWorkspace(tasks: map<TaskId, Task>, projects: map<ProjectId, Project>, t: TaskId): WorkspaceId
  {
    if t in tasks && tasks[t].project in projects then projects[tasks[t].project].workspace else 0
  }

  /** getExtension: the text after the last '.', or "" for no name or a name without '.'. */
  function GetExtension(name: Option<string>): (r: string)
    ensures name.None? ==> r == ""
    ensures name.Some? && '.' !in name.value ==> r == ""
    ensures '.' !in r
    ensures name.Some? && '.' in name.value ==>
      exists k :: 0 <= k < |name.value| && name.value == name.value[..k] + "." + r
  {
    if name.None? then ""
    else match LastIndexOf(name.value, '.')
      case None => ""
      case Some(k) =>
        assert name.value == name.value[..k] + "." + name.value[k + 1..];
        name.value[k + 1..]
  }

  /** getAllowedTypeList: the configured list split at commas, nothing trimmed or lowered. */
  function AllowedTypeList(config: FileConfig): seq<string>
  {
    Split(config.allowedTypes, ',')
  }

  /** validateFile, in source order: empty, too large, extension not allowed. */
  function ValidateFile(file: UploadedFile, config: FileConfig): (r: Option<ErrorCode>)
    ensures file.IsEmpty() ==> r == Some(InvalidInput)
    ensures !file.IsEmpty() && file.size > config.maxSize ==> r == Some(FileSizeExceeded)
    ensures r.None? <==> (
      !file.IsEmpty() && file.size <= config.maxSize
      && ToLower(GetExtension(file.originalName)) in AllowedTypeList(config))
    ensures r.Some? ==> r.value in {InvalidInput, FileSizeExceeded, InvalidFileType}
  {
    if file.IsEmpty() then Some(InvalidInput)
    else if file.size > config.maxSize then Some(FileSizeExceeded)
    else if ToLower(GetExtension(file.originalName)) !in AllowedTypeList(config) then Some(InvalidFileType)
    else None
  }

  /** A list entry holding an upper-case letter matches no extension, since the extension is lowered first. */
  lemma UpperCaseEntryNeverMatches(ext: string, entry: string, i: nat)
    requires i < |entry| && 'A' <= entry[i] <= 'Z'
    ensures ToLower(ext) != entry
  {
    if |ToLower(ext)| == |entry| {
      assert ToLower(ext)[i] == LowerChar(ext[i]);
    }
  }

  /**
   * The list entries are not trimmed: an entry that starts with a blank, as
   * the second entry of "jpg, png" does, matches only an extension that
   * starts with the same blank.
   */
  lemma SpacedEntryNeedsSpacedExtension(ext: string, entry: string)
    requires entry != [] && entry[0] == ' ' && ToLower(ext) == entry
    ensures ext != [] && ext[0] == ' '
  {
    assert LowerChar(ext[0]) == ' ';
  }

  /** Whatever comes before the last '.', the extension is read back as written. */
  lemma ExtensionRoundTrip(base: string, ext: string)
    requires '.' !in ext
    ensures GetExtension(Some(base + "." + ext)) == ext
  {
    var name := base + "." + ext;
    assert name[|base|] == '.' && name[|base| + 1..] == ext;
  }

  /** Where an upload is copied: the random name and the extension, under the upload directory. */
  function StoredPath(file: UploadedFile, uuid: string, config: FileConfig): string
  {
    config.uploadDir + "/" + uuid + "." + GetExtension(file.originalName)
  }

  /** The row an upload saves: the extension as given, not lowered, is the file type. */
  function Attachment(id: FileId, file: UploadedFile, uuid: string, config: FileConfig, taskId: TaskId, uploader: UserId)
    : (a: FileAttachment)
    ensures a.id == id && a.originalName == file.originalName && a.fileSize == file.size
    ensures a.storedName == uuid + "." + GetExtension(file.originalName) && a.fileType == GetExtension(file.originalName)
    ensures a.filePath == config.uploadDir + "/" + a.storedName == StoredPath(file, uuid, config)
    ensures a.task == taskId && a.uploader == uploader
    ensures a.NotNullColumnsSet() <==> file.originalName.Some?
  {
    var ext := GetExtension(file.originalName);
    var stored := uuid + "." + ext;
    FileAttachment(id, file.originalName, stored, config.uploadDir + "/" + stored, ext, file.size, taskId, uploader)
  }

  /** The checks of uploadFile before the copy, in source order. */
  function UploadCheck(tasks: map<TaskId, Task>, projects: map<ProjectId, Project>, members: map<MemberId, WorkspaceMember>,
                       users: map<UserId, User>, userId: UserId, taskId: TaskId, file: UploadedFile, config: FileConfig)
    : (r: Option<ErrorCode>)
    requires UniquePairs(members)
    ensures taskId !in tasks ==> r == Some(TaskNotFound)
    ensures taskId in tasks ==>
      var g := Guard(members, TaskWorkspace(tasks, projects, taskId), userId, EditTasks, WorkspaceAccessDenied, TaskUpdateDenied);
      (g.Some? ==> r == g)
      && (g.None? ==> r == (if ValidateFile(file, config).Some? then ValidateFile(file, config)
                            else if userId !in users then Some(UserNotFound) else None))
  {
    if taskId !in tasks then Some(TaskNotFound)
    else
      var g := Guard(members, TaskWorkspace(tasks, projects, taskId), userId, EditTasks, WorkspaceAccessDenied, TaskUpdateDenied);
      if g.Some? then g
      else if ValidateFile(file, config).Some? then ValidateFile(file, config)
      else if userId !in users then Some(UserNotFound)
      else None
  }

  /**
   * uploadFile: after the checks the content is copied to the upload
   * directory; a failed copy answers FILE_UPLOAD_FAILED and saves nothing.
   * After a copy the row is saved, which the NOT NULL original name column
   * refuses for a file sent without a name (its empty extension passes the
   * type check when the configured list has an empty entry): the rollback
   * keeps no row, but the copied file stays on disk.
   */
  method UploadFile(db: Store, userId: UserId, taskId: TaskId, file: UploadedFile, uuid: string, config: FileConfig)
    returns (r: Result<FileAttachment>)
    requires db.Valid()
    modifies db`files, db`nextId, db`disk
    ensures db.Valid()
    ensures var c := UploadCheck(db.tasks, db.projects, db.members, db.users, userId, taskId, file, config);
      c.Some? ==> r == Err(c.value) && db.files == old(db.files) && db.disk == old(db.disk)
    ensures UploadCheck(db.tasks, db.projects, db.members, db.users, userId, taskId, file, config).None? ==>
      (file.originalName.None? ==> r.Err?)
      && (r.Err? ==>
            db.files == old(db.files)
            && ((r.error == FileUploadFailed && db.disk == old(db.disk))
                || (r.error == DataIntegrityViolation && file.originalName.None?
                    && db.disk == old(db.disk) + {StoredPath(file, uuid, config)})))
      && (r.Ok? ==>
            r.value == Attachment(r.value.id, file, uuid, config, taskId, userId) && r.value.id !in old(db.files)
            && db.files == old(db.files)[r.value.id := r.value]
            && db.disk == old(db.disk) + {StoredPath(file, uuid, config)})
  {
    var c := UploadCheck(db.tasks, db.projects, db.members, db.users, userId, taskId, file, config);
    if c.Some? { return Err(c.value); }
    r := CopyAndSave(db, userId, taskId, file, uuid, config);
  }

  /** The copy and the save of uploadFile, once the checks have passed. */
  method CopyAndSave(db: Store, userId: UserId, taskId: TaskId, file: UploadedFile, uuid: string, config: FileConfig)
    returns (r: Result<FileAttachment>)
    requires db.Valid() && taskId in db.tasks
    modifies db`files, db`nextId, db`disk
    ensures db.Valid()
    ensures file.originalName.None? ==> r.Err?
    ensures r.Err? ==>
      db.files == old(db.files)
      && ((r.error == FileUploadFailed && db.disk == old(db.disk))
          || (r.error == DataIntegrityViolation && file.originalName.None?
              && db.disk == old(db.disk) + {StoredPath(file, uuid, config)}))
    ensures r.Ok? ==>
      r.value == Attachment(r.value.id, file, uuid, config, taskId, userId) && r.value.id !in old(db.files)
      && db.files == old(db.files)[r.value.id := r.value]
      && db.disk == old(db.disk) + {StoredPath(file, uuid, config)}
  {
    var copied: bool :| true;
    if !copied {
      return Err(FileUploadFailed);
    }
    db.disk := db.disk + {StoredPath(file, uuid, config)};
    if file.originalName.None? {
      // The save refuses the row before any insert; the copied file stays.
      return Err(DataIntegrityViolation);
    }
    var id := db.NewId();
    var attachment := Attachment(id, file, uuid, config, taskId, userId);
    db.InsertFile(attachment);
    r := Ok(attachment);
  }

  /** The check of listing and download on a task: it exists, and the caller is a member of its workspace. */
  function TaskCheck(tasks: map<TaskId, Task>, projects: map<ProjectId, Project>, members: map<MemberId, WorkspaceMember>,
                     userId: UserId, taskId: TaskId): (r: Option<ErrorCode>)
    requires UniquePairs(members)
    ensures taskId !in tasks ==> r == Some(TaskNotFound)
    ensures taskId in tasks ==> (r.None? <==> exists k :: k in members && IsMembership(members[k], TaskWorkspace(tasks, projects, taskId), userId))
  {
    if taskId !in tasks then Some(TaskNotFound)
    else Guard(members, TaskWorkspace(tasks, projects, taskId), userId, AnyRole, WorkspaceAccessDenied, WorkspaceAccessDenied)
  }

  /**
   * getFile: for a member, exactly the task's attachments, newest first
   * (ordered by creation time, descending, which follows the order of their
   * keys).
   */
  method GetFiles(db: Store, userId: UserId, taskId: TaskId) returns (r: Result<seq<FileAttachment>>)
    requires db.Valid()
    ensures var c := TaskCheck(db.tasks, db.projects, db.members, userId, taskId);
      (c.Some? ==> r == Err(c.value)) && (c.None? ==> r.Ok?)
    ensures r.Ok? ==> forall f :: f in r.value <==> f in db.files.Values && f.task == taskId
    ensures r.Ok? ==> forall i, j :: 0 <= i < j < |r.value| ==> r.value[i].id > r.value[j].id
  {
    var c := TaskCheck(db.tasks, db.projects, db.members, userId, taskId);
    if c.Some? { return Err(c.value); }
    var keys := KeysInOrder(db.files, (f: FileAttachment) => f.task == taskId, db.nextId, true);
    var rows := RowsAt(db.files, keys);
    assert forall f :: f in db.files.Values && f.task == taskId ==> f in rows by {
      forall f | f in db.files.Values && f.task == taskId ensures f in rows {
        var k :| k in db.files && db.files[k] == f;
        var i :| 0 <= i < |keys| && keys[i] == k;
        assert rows[i] == f;
      }
    }
    r := Ok(rows);
  }

  /** The check on an existing file: it exists (FILE_NOT_FOUND), and the caller is a member of its task's workspace. */
  function FileCheck(files: map<FileId, FileAttachment>, tasks: map<TaskId, Task>, projects: map<ProjectId, Project>,
                     members: map<MemberId, WorkspaceMember>, userId: UserId, fileId: FileId): (r: Option<ErrorCode>)
    requires UniquePairs(members)
    ensures fileId !in files ==> r == Some(FileNotFound)
    ensures fileId in files ==>
      (r.None? <==> exists k :: k in members && IsMembership(members[k], TaskWorkspace(tasks, projects, files[fileId].task), userId))
  {
    if fileId !in files then Some(FileNotFound)
    else Guard(members, TaskWorkspace(tasks, projects, files[fileId].task), userId, AnyRole, WorkspaceAccessDenied, WorkspaceAccessDenied)
  }

  /** downloadFile: the stored path, when the file is still on disk; otherwise FILE_NOT_FOUND. */
  method DownloadFile(db: Store, userId: UserId, fileId: FileId) returns (r: Result<string>)
    requires db.Valid()
    ensures var c := FileCheck(db.files, db.tasks, db.projects, db.members, userId, fileId);
      (c.Some? ==> r == Err(c.value))
      && (c.None? && db.files[fileId].filePath in db.disk ==> r == Ok(db.files[fileId].filePath))
      && (c.None? && db.files[fileId].filePath !in db.disk ==> r == Err(FileNotFound))
  {
    var c := FileCheck(db.files, db.tasks, db.projects, db.members, userId, fileId);
    if c.Some? { return Err(c.value); }
    var path := db.files[fileId].filePath;
    if path in db.disk {
      r := Ok(path);
    } else {
      r := Err(FileNotFound);
    }
  }

  /** getOriginalFileName: the client's name of the file, which may be absent. */
  function OriginalFileName(files: map<FileId, FileAttachment>, fileId: FileId): (r: Result<Option<string>>)
    ensures fileId !in files <==> r == Err(FileNotFound)
    ensures fileId in files ==> r == Ok(files[fileId].originalName)
  {
    if fileId !in files then Err(FileNotFound) else Ok(files[fileId].originalName)
  }

  /** The checks of deleteFile: the file check, then the uploader or a member who may manage members (TASK_DELETE_DENIED). */
  function DeleteCheck(files: map<FileId, FileAttachment>, tasks: map<TaskId, Task>, projects: map<ProjectId, Project>,
                       members: map<MemberId, WorkspaceMember>, userId: UserId, fileId: FileId): (r: Option<ErrorCode>)
    requires UniquePairs(members)
    ensures fileId !in files ==> r == Some(FileNotFound)
    ensures r.None? <==> (
      fileId in files
      && exists k :: k in members && IsMembership(members[k], TaskWorkspace(tasks, projects, files[fileId].task), userId)
                     && (files[fileId].uploader == userId || members[k].CanManageMembers()))
  {
    if fileId !in files then Some(FileNotFound)
    else
      match MemberOrThrow(members, TaskWorkspace(tasks, projects, files[fileId].task), userId, WorkspaceAccessDenied)
        case Err(e) => Some(e)
        case Ok(m) => if files[fileId].uploader != userId && !m.CanManageMembers() then Some(TaskDeleteDenied) else None
  }

  /**
   * deleteFile: the disk delete may fail, which is only logged; the row is
   * removed either way.
   */
  method DeleteFile(db: Store, userId: UserId, fileId: FileId) returns (r: Option<ErrorCode>)
    requires db.Valid()
    modifies db`files, db`disk
    ensures db.Valid()
    ensures r == DeleteCheck(old(db.files), db.tasks, db.projects, db.members, userId, fileId)
    ensures r.Some? ==> db.files == old(db.files) && db.disk == old(db.disk)
    ensures r.None? ==> (
      db.files == Without(old(db.files), {fileId})
      && (db.disk == old(db.disk) - {old(db.files)[fileId].filePath} || db.disk == old(db.disk)))
  {
    r := DeleteCheck(db.files, db.tasks, db.projects, db.members, userId, fileId);
    if r.Some? { return; }
    var path := db.files[fileId].filePath;
    var deleted: bool :| true;
    if deleted {
      db.disk := db.disk - {path};
    }
    db.files := Without(db.files, {fileId});
  }
}
