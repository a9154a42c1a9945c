/**
 * Shared vocabulary of the model: optional values, results carrying the
 * application's error codes, identifiers and the clock.
 */
module Common {

  datatype Option<T> = None | Some(value: T)

  /** The outcome of a service call: a value, or the error code its exception carries. */
  datatype Result<T> = Ok(value: T) | Err(error: ErrorCode)

  /**
   * The error codes the services throw. The first group is the enum as declared;
   * the second group is referenced by services but missing from the enum, and is
   * kept so that each call site keeps its own code; the last four stand for
   * exceptions that are not business errors (a message-only FORBIDDEN exception,
   * Java's IllegalArgumentException and ArrayIndexOutOfBoundsException, and the
   * database refusing a NULL in a NOT NULL column when the transaction commits).
   */
  datatype ErrorCode =
    | InternalServerError | InvalidInput | InvalidCredentials | InvalidToken | ExpiredToken
    | DuplicateEmail | UserNotFound
    | WorkspaceNotFound | WorkspaceAccessDenied | WorkspaceUpdateDenied | WorkspaceDeleteDenied
    | MemberNotFound | MemberAlreadyExists | MemberInviteDenied | MemberRemoveDenied
    | CannotAssignOwner | CannotRemoveOwner | EmailNotFound
    | ProjectNotFound | ProjectCreateDenied | ProjectUpdateDenied | ProjectDeleteDenied
    | TaskNotFound | TaskCreateDenied | TaskUpdateDenied | TaskDeleteDenied | TaskStatusChangeDenied
    | CommentNotFound | CommentCreateDenied | CommentUpdateDenied | CommentDeleteDenied
    | NotificationNotFound | NotificationAccessDenied
    | FileNotFound | FileUploadFailed | FileSizeExceeded | InvalidFileType | FileDeleteDenied
    // referenced, not declared
    | AccountLocked | AccessDenied | DuplicateLabelName | LabelNotFound
    | ChecklistItemNotFound | TokenExpired | InvalidPassword
    // not business errors
    | Forbidden | IllegalArgument | IndexOutOfBounds | DataIntegrityViolation

  type UserId = nat
  type WorkspaceId = nat
  type MemberId = nat
  type ProjectId = nat
  type TaskId = nat
  type CommentId = nat
  type ItemId = nat
  type LabelId = nat
  type FileId = nat

  /** A point on the server clock, in seconds. */
  type Time = int
  /** A calendar date (a due date), as a day number. */
  type Day = int

  const MINUTE: int := 60
  const DAY: int := 86400

  function Min(a: int, b: int): int { if a <= b then a else b }

  /**
   * The positions below upto whose element satisfies keep, highest first. For a
   * table kept in insertion order this is "ORDER BY createdAt DESC".
   */
  function NewestFirst<T>(xs: seq<T>, keep: T -> bool, upto: nat): (r: seq<nat>)
    requires upto <= |xs|
    ensures forall i :: 0 <= i < |r| ==> r[i] < upto && keep(xs[r[i]])
    ensures forall k :: 0 <= k < upto && keep(xs[k]) ==> k in r
    ensures forall i, j :: 0 <= i < j < |r| ==> r[i] > r[j]
  {
    if upto == 0 then []
    else if keep(xs[upto - 1]) then [upto - 1] + NewestFirst(xs, keep, upto - 1)
    else NewestFirst(xs, keep, upto - 1)
  }

  /** In a list without repeated elements each element occurs at most once. */
  lemma {:induction false} AtMostOnce<T>(s: seq<T>, x: T)
    requires forall i, j :: 0 <= i < j < |s| ==> s[i] != s[j]
    ensures multiset(s)[x] <= 1
  {
    if s != [] {
      var p := s[..|s| - 1];
      AtMostOnce(p, x);
      assert s == p + [s[|s| - 1]];
      if x == s[|s| - 1] { assert x !in p; }
    }
  }

  /** A sub-multiset of a list without repeats has no repeats either. */
  lemma NoRepeatsInSub<T>(rows: seq<T>, r: seq<T>)
    requires forall i, j :: 0 <= i < j < |rows| ==> rows[i] != rows[j]
    requires multiset(r) <= multiset(rows)
    ensures forall i, j :: 0 <= i < j < |r| ==> r[i] != r[j]
  {
    forall i, j | 0 <= i < j < |r| ensures r[i] != r[j] {
      AtMostOnce(rows, r[i]);
      RepeatCountsTwice(r, i, j);
    }
  }

  /** An element found at two positions occurs twice in the multiset. */
  lemma RepeatCountsTwice<T>(r: seq<T>, i: nat, j: nat)
    requires i < j < |r|
    ensures r[i] == r[j] ==> multiset(r)[r[i]] >= 2
  {
    assert r == r[..j] + r[j..];
    assert r[i] in r[..j] && r[j] in r[j..];
  }

  /**
   * A list drawn, as a sub-multiset, from rows whose keys are pairwise distinct
   * has pairwise distinct keys too: a finder never returns a row twice.
   */
  lemma DistinctKeysInSub<T>(rows: seq<T>, r: seq<T>, key: T -> nat)
    requires forall i, j :: 0 <= i < j < |rows| ==> key(rows[i]) != key(rows[j])
    requires multiset(r) <= multiset(rows)
    ensures forall i, j :: 0 <= i < j < |r| ==> key(r[i]) != key(r[j])
  {
    forall i, j | 0 <= i < j < |rows| ensures rows[i] != rows[j] {
      assert key(rows[i]) != key(rows[j]);
    }
    NoRepeatsInSub(rows, r);
    forall i, j | 0 <= i < j < |r| ensures key(r[i]) != key(r[j]) {
      assert r[i] in multiset(rows) && r[j] in multiset(rows);
      var p :| 0 <= p < |rows| && rows[p] == r[i];
      var q :| 0 <= q < |rows| && rows[q] == r[j];
      assert p != q;
    }
  }
}
