/**
 * The project queries. The repository declares only findAllByWorkspaceId; the
 * trash view, the purge and the keyword search that the services call are
 * modelled on the matching task queries: the same filters over the project
 * table, the same ORDER BY clauses and the same 30-day window.
 */
module ProjectRepository {
  import opened Common
  import opened BaseEntity
  import opened Entities
  import opened JavaStrings

  datatype Order = CreatedAtDesc | DeletedAtDesc

  /** a may be listed before b; a missing deletion time sorts last in descending order, as NULL does. */
  predicate Precedes(o: Order, a: Project, b: Project)
  {
    match o
      case CreatedAtDesc => a.life.createdAt >= b.life.createdAt
      case DeletedAtDesc => b.life.deletedAt.None? || (a.life.deletedAt.Some? && a.life.deletedAt.value >= b.life.deletedAt.value)
  }

  predicate Sorted(o: Order, s: seq<Project>)
  {
    forall i, j :: 0 <= i < j < |s| ==> Precedes(o, s[i], s[j])
  }

  /** No id occurs twice: what the primary key guarantees of the table. */
  predicate DistinctIds(s: seq<Project>)
  {
    forall i, j :: 0 <= i < j < |s| ==> s[i].id != s[j].id
  }

  /** A query result that takes no row more often than the table has it repeats no id when the table repeats none. */
  lemma DistinctIdsInSub(rows: seq<Project>, r: seq<Project>)
    requires multiset(r) <= multiset(rows)
    ensures DistinctIds(rows) ==> DistinctIds(r)
  {
    if DistinctIds(rows) {
      DistinctKeysInSub(rows, r, (x: Project) => x.id);
    }
  }

  /** Each order is total: of two rows, one may come first. */
  lemma PrecedesTotal(o: Order, a: Project, b: Project)
    ensures Precedes(o, a, b) || Precedes(o, b, a)
  {
  }

  function Insert(o: Order, x: Project, s: seq<Project>): (r: seq<Project>)
    requires Sorted(o, s)
    ensures Sorted(o, r)
    ensures multiset(r) == multiset(s) + multiset{x}
    ensures forall y :: y in r ==> y == x || y in s
  {
    if s == [] then [x]
    else if Precedes(o, x, s[0]) then
      assert forall y :: y in s ==> Precedes(o, s[0], y) by {
        forall y | y in s ensures Precedes(o, s[0], y) { var j :| 0 <= j < |s| && s[j] == y; if j > 0 { } }
      }
      [x] + s
    else
      var rest := Insert(o, x, s[1..]);
      PrecedesTotal(o, x, s[0]);
      assert forall y :: y in rest ==> Precedes(o, s[0], y) by {
        forall y | y in rest ensures Precedes(o, s[0], y) {
          if y != x { var j :| 0 <= j < |s[1..]| && s[1..][j] == y; assert s[j + 1] == y; }
        }
      }
      assert s == [s[0]] + s[1..];
      [s[0]] + rest
  }

  /** The ORDER BY: a sorted permutation of the rows. */
  function SortBy(o: Order, s: seq<Project>): (r: seq<Project>)
    ensures Sorted(o, r)
    ensures multiset(r) == multiset(s)
  {
    if s == [] then [] else
      assert s == s[..|s| - 1] + [s[|s| - 1]];
      Insert(o, s[|s| - 1], SortBy(o, s[..|s| - 1]))
  }

  /** The WHERE clause: the rows that satisfy keep, in their original order. */
  function Select(rows: seq<Project>, keep: Project -> bool): (r: seq<Project>)
    ensures forall p :: p in r <==> p in rows && keep(p)
    ensures multiset(r) <= multiset(rows)
  {
    if rows == [] then []
    else
      var rest := Select(rows[..|rows| - 1], keep);
      var last := rows[|rows| - 1];
      assert rows == rows[..|rows| - 1] + [last];
      if keep(last) then rest + [last] else rest
  }

  /** Sorting neither adds nor drops a row. */
  lemma SortedSameRows(o: Order, s: seq<Project>)
    ensures forall p :: p in SortBy(o, s) <==> p in s
  {
    forall p ensures p in SortBy(o, s) <==> p in s {
      assert p in SortBy(o, s) <==> p in multiset(SortBy(o, s));
    }
  }

  /** findAllByWorkspaceId: the workspace's projects, deleted ones included, in table order. */
  function FindAllByWorkspaceId(rows: seq<Project>, ws: WorkspaceId): (r: seq<Project>)
    ensures forall p :: p in r <==> p in rows && p.workspace == ws
    ensures multiset(r) <= multiset(rows)
  {
    Select(rows, (p: Project) => p.workspace == ws)
  }

  /** The trash view: the workspace's soft-deleted projects, most recently deleted first. */
  function FindDeletedByWorkspaceId(rows: seq<Project>, ws: WorkspaceId): (r: seq<Project>)
    ensures forall p :: p in r <==> p in rows && p.workspace == ws && p.life.isDeleted
    ensures Sorted(DeletedAtDesc, r)
    ensures multiset(r) <= multiset(rows)
  {
    var hits := Select(rows, (p: Project) => p.workspace == ws && p.life.isDeleted);
    SortedSameRows(DeletedAtDesc, hits);
    SortBy(DeletedAtDesc, hits)
  }

  predicate KeywordMatches(p: Project, keyword: Option<string>)
  {
    keyword.None? || Contains(p.name, keyword.value)
    || (p.description.Some? && Contains(p.description.value, keyword.value))
  }

  /** The keyword search: the workspace's projects whose name or description contains the keyword, newest first. */
  function SearchProjects(rows: seq<Project>, ws: WorkspaceId, keyword: Option<string>): (r: seq<Project>)
    ensures forall p :: p in r <==> p in rows && p.workspace == ws && KeywordMatches(p, keyword)
    ensures Sorted(CreatedAtDesc, r)
    ensures multiset(r) <= multiset(rows)
  {
    var hits := Select(rows, (p: Project) => p.workspace == ws && KeywordMatches(p, keyword));
    SortedSameRows(CreatedAtDesc, hits);
    SortBy(CreatedAtDesc, hits)
  }

  /** The projects the purge removes: soft-deleted projects of the workspace deleted over 30 days before now. */
  predicate Purgeable(p: Project, ws: WorkspaceId, now: Time)
  {
    p.workspace == ws && p.life.isDeleted && p.life.deletedAt.Some? && p.life.deletedAt.value < now - 30 * DAY
  }

  function PurgeSet(projects: map<ProjectId, Project>, ws: WorkspaceId, now: Time): (r: set<ProjectId>)
    ensures forall k :: k in r <==> k in projects && Purgeable(projects[k], ws, now)
  {
    set k | k in projects && Purgeable(projects[k], ws, now)
  }
}
