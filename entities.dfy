/**
 * The plain records the services read and write: users, workspaces, projects,
 * labels, comments, file attachments and refresh tokens.
 */
module Entities {
  import opened Common
  import opened BaseEntity

  /** A user; the password hash is the value the password encoder produced. */
  datatype User = User(id: UserId, email: string, name: string, password: string)

  datatype Workspace = Workspace(id: WorkspaceId, name: string, description: Option<string>, owner: UserId, life: Lifecycle)
  {
    function UpdateInfo(newName: string, newDescription: Option<string>): (w: Workspace)
      ensures w.name == newName && w.description == newDescription
      ensures w.(name := name, description := description) == this
    {
      this.(name := newName, description := newDescription)
    }
  }

  datatype Project = Project(id: ProjectId, name: string, description: Option<string>, workspace: WorkspaceId, life: Lifecycle)
  {
    function UpdateInfo(newName: string, newDescription: Option<string>): (p: Project)
      ensures p.name == newName && p.description == newDescription
      ensures p.(name := name, description := description) == this
    {
      this.(name := newName, description := newDescription)
    }
  }

  datatype Label = Label(id: LabelId, name: string, color: string, workspace: WorkspaceId)
  {
    function Update(newName: string, newColor: string): (l: Label)
      ensures l.name == newName && l.color == newColor && l.(name := name, color := color) == this
    {
      this.(name := newName, color := newColor)
    }
  }

  datatype Comment = Comment(id: CommentId, task: TaskId, author: UserId, content: string)

  datatype FileAttachment = FileAttachment(
    id: FileId, originalName: Option<string>, storedName: string, filePath: string,
    fileType: string, fileSize: int, task: TaskId, uploader: UserId)
  {
    /** The original name column is declared NOT NULL: a row without one cannot be saved. */
    predicate NotNullColumnsSet() { originalName.Some? }
  }

  /** A stored refresh token of a user, with its expiry time. */
  datatype RefreshToken = RefreshToken(user: UserId, expiryDate: Time)
  {
    /** Expired once the clock is past the expiry date: at the date itself it still holds. */
    function IsExpired(now: Time): (r: bool)
      ensures now <= expiryDate ==> !r
      ensures now > expiryDate ==> r
    {
      now > expiryDate
    }
  }
}
