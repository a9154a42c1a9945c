/**
 * The audit and soft-delete columns every entity inherits: a creation time and
 * the pair (isDeleted, deletedAt) that delete() and restore() move together.
 */
module BaseEntity {
  import opened Common

  datatype Lifecycle = Lifecycle(createdAt: Time, isDeleted: bool, deletedAt: Option<Time>)
  {
    /** The flag and the timestamp agree. */
    predicate Consistent() { isDeleted <==> deletedAt.Some? }

    /** Soft delete: flagged, stamped with the current time. */
    function Delete(now: Time): (r: Lifecycle)
      ensures r.Consistent() && r.isDeleted && r.deletedAt == Some(now)
      ensures r.createdAt == createdAt
    {
      this.(isDeleted := true, deletedAt := Some(now))
    }

    /** Restore: the flag is cleared and the timestamp forgotten. */
    function Restore(): (r: Lifecycle)
      ensures r.Consistent() && !r.isDeleted
      ensures r.createdAt == createdAt
    {
      this.(isDeleted := false, deletedAt := None)
    }
  }

  /** A row as it is first saved: live, created now. */
  function Created(now: Time): (r: Lifecycle)
    ensures r.Consistent() && !r.isDeleted && r.createdAt == now
  {
    Lifecycle(now, false, None)
  }

  /** Restoring a deleted row gives back the live row it was. */
  lemma RestoreUndoesDelete(l: Lifecycle, now: Time)
    requires l.Consistent() && !l.isDeleted
    ensures l.Delete(now).Restore() == l
  {
  }

  /** Restoring a live row changes nothing, so restore is idempotent. */
  lemma RestoreIdempotent(l: Lifecycle)
    requires l.Consistent()
    ensures !l.isDeleted ==> l.Restore() == l
    ensures l.Restore().Restore() == l.Restore()
  {
  }

  /** Deleting twice keeps only the second timestamp. */
  lemma DeleteAgainRestamps(l: Lifecycle, first: Time, second: Time)
    ensures l.Delete(first).Delete(second) == l.Delete(second)
  {
  }
}
