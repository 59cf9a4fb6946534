/** `DatabaseStorage`: the users, files and shares tables held as maps from id
    to row, with the store's queries and updates. */
module Storage {
  import opened Wrappers
  import opened Schema
  import opened Listing

  /** One `{ id, name }` entry of a breadcrumb. */
  datatype Crumb = Crumb(id: Id, name: string)

  // ---------------------------------------------------------------------------
  // The WHERE clauses of the list queries

  /** getFiles: the user's non-trashed rows directly under `parentId` (`None`: the root). */
  predicate InFolder(r: FileRow, userId: Id, parentId: Option<Id>) {
    r.userId == userId && !r.isTrashed && r.parentId == parentId
  }

  /** getStarredFiles: the user's starred, non-trashed rows. */
  predicate StarredRow(r: FileRow, userId: Id) {
    r.userId == userId && r.isStarred && !r.isTrashed
  }

  /** getRecentFiles: the user's non-trashed files (no folders). */
  predicate RecentRow(r: FileRow, userId: Id) {
    r.userId == userId && !r.isTrashed && !r.isFolder
  }

  /** getTrashedFiles and emptyTrash: the user's trashed rows. */
  predicate TrashedRow(r: FileRow, userId: Id) {
    r.userId == userId && r.isTrashed
  }

  /** `r` lists, once each, exactly the rows of `files` that `pick` selects. */
  ghost predicate ListsExactly(r: seq<FileRow>, files: map<Id, FileRow>, pick: FileRow -> bool) {
    && (forall i :: 0 <= i < |r| ==> r[i].id in files && files[r[i].id] == r[i] && pick(r[i]))
    && (forall k :: k in files && pick(files[k]) ==> files[k] in r)
    && DistinctIds(r)
  }

  const DefaultRecentLimit: nat := 50

  // ---------------------------------------------------------------------------
  // Row updates made by the store's UPDATE statements

  /** moveToTrash's SET clause. */
  function TrashRow(r: FileRow, now: Timestamp): FileRow {
    r.(isTrashed := true, trashedAt := Some(now), updatedAt := now)
  }

  /** restoreFromTrash's SET clause. */
  function RestoreRow(r: FileRow, now: Timestamp): FileRow {
    r.(isTrashed := false, trashedAt := None, updatedAt := now)
  }

  /** The columns a PATCH may carry; `None` is a field absent from the body.
      `parentId` is `Some(None)` when the body moves the row to the root. */
  datatype FilePatch = FilePatch(name: Option<string>, isStarred: Option<bool>, parentId: Option<Option<Id>>)

  /** updateFile's SET clause: the given columns plus `updatedAt`. */
  function PatchRow(r: FileRow, p: FilePatch, now: Timestamp): FileRow {
    r.(name := p.name.GetOr(r.name),
       isStarred := p.isStarred.GetOr(r.isStarred),
       parentId := p.parentId.GetOr(r.parentId),
       updatedAt := now)
  }

  /** updateUserStorage's SET clause: `storageUsed + bytesChange`, never clamped. */
  function AddStorage(u: User, bytesChange: int, now: Timestamp): User {
    u.(storageUsed := u.storageUsed + bytesChange, updatedAt := now)
  }

  /** `planConfig?.storage || STORAGE_PLANS.free.storage`. */
  function PlanLimit(plan: string): int {
    var p := LookupPlan(plan);
    if p.Some? && p.value.storage != 0 then p.value.storage else FreePlan.storage
  }

  /** updateUserPlan's SET clause; an absent Stripe id leaves its column as it was. */
  function ChangePlan(u: User, plan: string, customer: Option<string>, subscription: Option<string>, now: Timestamp): User {
    u.(plan := plan,
       storageLimit := PlanLimit(plan),
       stripeCustomerId := if customer.Some? then customer else u.stripeCustomerId,
       stripeSubscriptionId := if subscription.Some? then subscription else u.stripeSubscriptionId,
       updatedAt := now)
  }

  /** The rows `emptyTrash` leaves: all but the user's trashed ones. */
  function WithoutTrash(files: map<Id, FileRow>, userId: Id): (m: map<Id, FileRow>)
    ensures forall k :: k in m <==> k in files && !TrashedRow(files[k], userId)
    ensures forall k :: k in m ==> m[k] == files[k]
  {
    map k | k in files && !TrashedRow(files[k], userId) :: files[k]
  }

  // ---------------------------------------------------------------------------
  // Properties of the row updates

  /** Trashing then restoring a live row gives it back with only `updatedAt` changed. */
  lemma TrashThenRestore(r: FileRow, t1: Timestamp, t2: Timestamp)
    requires !r.isTrashed && r.trashedAt.None?
    ensures RestoreRow(TrashRow(r, t1), t2) == r.(updatedAt := t2)
  {
  }

  /** Neither trash nor restore touches the parent link, the size, the star or the owner. */
  lemma TrashKeepsPlace(r: FileRow, now: Timestamp)
    ensures var t := TrashRow(r, now);
      t.parentId == r.parentId && t.size == r.size && t.isStarred == r.isStarred && t.userId == r.userId
    ensures var t := RestoreRow(r, now);
      t.parentId == r.parentId && t.size == r.size && t.isStarred == r.isStarred && t.userId == r.userId
  {
  }

  /** A PATCH changes exactly the columns present in it (and `updatedAt`). */
  lemma PatchOnlyGiven(r: FileRow, p: FilePatch, now: Timestamp)
    ensures var u := PatchRow(r, p, now);
      && (p.name.Some? ==> u.name == p.name.value) && (p.name.None? ==> u.name == r.name)
      && (p.isStarred.Some? ==> u.isStarred == p.isStarred.value) && (p.isStarred.None? ==> u.isStarred == r.isStarred)
      && (p.parentId.Some? ==> u.parentId == p.parentId.value) && (p.parentId.None? ==> u.parentId == r.parentId)
      && u.(name := r.name, isStarred := r.isStarred, parentId := r.parentId, updatedAt := r.updatedAt) == r
  {
  }

  /** The limit a plan change sets: the plan's storage, -1 for Enterprise, the free quota for an unknown plan. */
  lemma PlanLimitValues(plan: string)
    ensures plan in PlanKeys ==> PlanLimit(plan) == LookupPlan(plan).value.storage
    ensures plan !in PlanKeys ==> PlanLimit(plan) == FreePlan.storage
    ensures PlanLimit(plan) < 0 <==> plan == "enterprise"
    ensures plan == "enterprise" ==> PlanLimit(plan) == -1
  {
  }

  // ---------------------------------------------------------------------------
  // The parent walk of getFileBreadcrumb

  /** `while (currentId)` goes on and the row is found: the id is neither null nor empty and exists. */
  predicate Continues(files: map<Id, FileRow>, cur: Option<Id>) {
    cur.Some? && cur.value != "" && cur.value in files
  }

  /** Following parent links from `cur` stops within `n` steps. */
  ghost predicate ChainEnds(files: map<Id, FileRow>, cur: Option<Id>, n: nat)
    decreases n
  {
    !Continues(files, cur) || (n > 0 && ChainEnds(files, files[cur.value].parentId, n - 1))
  }

  /** A row that is its own parent makes the walk endless: no bound is ever enough. */
  lemma {:induction false} SelfParentNeverEnds(files: map<Id, FileRow>, id: Id, n: nat)
    requires id != "" && id in files && files[id].parentId == Some(id)
    ensures !ChainEnds(files, Some(id), n)
  {
    if n > 0 {
      SelfParentNeverEnds(files, id, n - 1);
    }
  }

  class DatabaseStorage {
    var users: map<Id, User>
    var files: map<Id, FileRow>
    var shares: map<Id, Share>

    /** Every row is stored under its own id. */
    ghost predicate Valid()
      reads this
    {
      && (forall k :: k in users ==> users[k].id == k)
      && (forall k :: k in files ==> files[k].id == k)
      && (forall k :: k in shares ==> shares[k].id == k)
    }

    constructor ()
      ensures Valid() && users == map[] && files == map[] && shares == map[]
    {
      users, files, shares := map[], map[], map[];
    }

    // -------------------------------------------------------------------------
    // Users

    method GetUser(id: Id) returns (r: Option<User>)
      ensures r.Some? <==> id in users
      ensures r.Some? ==> r.value == users[id]
    {
      r := if id in users then Some(users[id]) else None;
    }

    /** `storageUsed := storageUsed + bytesChange` on the one user, no clamping. */
    method UpdateUserStorage(userId: Id, bytesChange: int, now: Timestamp)
      requires Valid()
      modifies this
      ensures Valid() && files == old(files) && shares == old(shares)
      ensures userId in old(users) ==> users == old(users)[userId := AddStorage(old(users)[userId], bytesChange, now)]
      ensures userId !in old(users) ==> users == old(users)
    {
      if userId in users {
        users := users[userId := AddStorage(users[userId], bytesChange, now)];
      }
    }

    method UpdateUserPlan(userId: Id, plan: string, customer: Option<string>, subscription: Option<string>, now: Timestamp)
      returns (r: Option<User>)
      requires Valid()
      modifies this
      ensures Valid() && files == old(files) && shares == old(shares)
      ensures userId in old(users) ==>
        r == Some(ChangePlan(old(users)[userId], plan, customer, subscription, now)) && users == old(users)[userId := r.value]
      ensures userId !in old(users) ==> r.None? && users == old(users)
    {
      if userId in users {
        var u := ChangePlan(users[userId], plan, customer, subscription, now);
        users := users[userId := u];
        r := Some(u);
      } else {
        r := None;
      }
    }

    // -------------------------------------------------------------------------
    // Queries

    method GetFile(id: Id) returns (r: Option<FileRow>)
      ensures r.Some? <==> id in files
      ensures r.Some? ==> r.value == files[id]
    {
      r := if id in files then Some(files[id]) else None;
    }

    /** SELECT ... WHERE pick ORDER BY o: one of the listings the database may return. */
    method SelectOrdered(pick: FileRow -> bool, o: Order) returns (r: seq<FileRow>)
      requires Valid()
      ensures ListsExactly(r, files, pick) && Sorted(r, o)
    {
      r := [];
      var todo := files.Keys;
      while todo != {}
        invariant todo <= files.Keys
        invariant forall y :: y in r ==> y.id in files && files[y.id] == y && pick(y) && y.id !in todo
        invariant forall k :: k in files && k !in todo && pick(files[k]) ==> files[k] in r
        invariant DistinctIds(r) && Sorted(r, o)
        decreases todo
      {
        var k :| k in todo;
        if pick(files[k]) {
          InsertContents(r, files[k], o);
          InsertSorted(r, files[k], o);
          InsertDistinct(r, files[k], o);
          r := Insert(r, files[k], o);
        }
        todo := todo - {k};
      }
    }

    /** getFiles: the folder's live rows, folders first, then by name. */
    method GetFiles(userId: Id, parentId: Option<Id>) returns (r: seq<FileRow>)
      requires Valid()
      ensures ListsExactly(r, files, row => InFolder(row, userId, parentId))
      ensures Sorted(r, FoldersThenName)
    {
      r := SelectOrdered(row => InFolder(row, userId, parentId), FoldersThenName);
    }

    /** getStarredFiles: the starred live rows by name. */
    method GetStarredFiles(userId: Id) returns (r: seq<FileRow>)
      requires Valid()
      ensures ListsExactly(r, files, row => StarredRow(row, userId))
      ensures Sorted(r, ByName)
    {
      r := SelectOrdered(row => StarredRow(row, userId), ByName);
    }

    /** getTrashedFiles: the trashed rows, most recently trashed first. */
    method GetTrashedFiles(userId: Id) returns (r: seq<FileRow>)
      requires Valid()
      ensures ListsExactly(r, files, row => TrashedRow(row, userId))
      ensures Sorted(r, TrashedDesc)
    {
      r := SelectOrdered(row => TrashedRow(row, userId), TrashedDesc);
    }

    /** getRecentFiles: at most `limit` live files (50 when no limit is given),
        most recently updated first; a file is left out only when the list is
        full of files updated no earlier. */
    method GetRecentFiles(userId: Id, limit: Option<nat>) returns (r: seq<FileRow>)
      requires Valid()
      ensures |r| <= limit.GetOr(DefaultRecentLimit) && DistinctIds(r) && Sorted(r, UpdatedDesc)
      ensures forall i :: 0 <= i < |r| ==> r[i].id in files && files[r[i].id] == r[i] && RecentRow(r[i], userId)
      ensures forall k :: k in files && RecentRow(files[k], userId) && files[k] !in r ==>
        |r| == limit.GetOr(DefaultRecentLimit) && forall i :: 0 <= i < |r| ==> Before(UpdatedDesc, r[i], files[k])
    {
      var n := limit.GetOr(DefaultRecentLimit);
      var all := SelectOrdered(row => RecentRow(row, userId), UpdatedDesc);
      if |all| <= n {
        r := all;
      } else {
        r := all[..n];
        forall k | k in files && RecentRow(files[k], userId) && files[k] !in r
          ensures forall i :: 0 <= i < |r| ==> Before(UpdatedDesc, r[i], files[k])
        {
          var j :| 0 <= j < |all| && all[j] == files[k];
          assert j >= n;
          forall i | 0 <= i < |r| ensures Before(UpdatedDesc, r[i], files[k]) {
            assert r[i] == all[i];
          }
        }
      }
    }

    /** getShareByFileId: some share of the file, if there is one. */
    method GetShareByFileId(fileId: Id) returns (r: Option<Share>)
      requires Valid()
      ensures r.None? <==> forall k :: k in shares ==> shares[k].fileId != fileId
      ensures r.Some? ==> r.value.fileId == fileId && r.value.id in shares && shares[r.value.id] == r.value
    {
      if k :| k in shares && shares[k].fileId == fileId {
        r := Some(shares[k]);
      } else {
        r := None;
      }
    }

    /** getFileBreadcrumb: the chain of rows from the top down to `fileId`, found
        by walking parent links upward until the link is null or empty or its row
        is missing. The walk has no depth bound, so it is modelled only where the
        links from `fileId` end (`SelfParentNeverEnds` shows that they may not). */
    method GetFileBreadcrumb(fileId: Id) returns (crumbs: seq<Crumb>)
      requires Valid()
      requires exists n: nat :: ChainEnds(files, Some(fileId), n)
      ensures crumbs == [] <==> !Continues(files, Some(fileId))
      ensures crumbs != [] ==> crumbs[|crumbs| - 1] == Crumb(fileId, files[fileId].name)
      ensures forall i :: 0 <= i < |crumbs| ==> crumbs[i].id in files && crumbs[i].name == files[crumbs[i].id].name
      ensures forall i :: 0 <= i < |crumbs| - 1 ==> files[crumbs[i + 1].id].parentId == Some(crumbs[i].id)
      ensures crumbs != [] ==> !Continues(files, files[crumbs[0].id].parentId)
    {
      crumbs := [];
      var currentId: Option<Id> := Some(fileId);
      ghost var fuel: nat :| ChainEnds(files, currentId, fuel);
      while currentId.Some? && currentId.value != ""
        invariant ChainEnds(files, currentId, fuel)
        invariant crumbs == [] ==> currentId == Some(fileId)
        invariant forall i :: 0 <= i < |crumbs| ==> crumbs[i].id in files && crumbs[i].name == files[crumbs[i].id].name
        invariant crumbs != [] ==> fileId != "" && fileId in files && crumbs[|crumbs| - 1] == Crumb(fileId, files[fileId].name)
        invariant crumbs != [] ==> files[crumbs[0].id].parentId == currentId
        invariant forall i :: 0 <= i < |crumbs| - 1 ==> files[crumbs[i + 1].id].parentId == Some(crumbs[i].id)
        decreases fuel
      {
        var file := GetFile(currentId.value);
        if file.None? {
          break;
        }
        crumbs := [Crumb(file.value.id, file.value.name)] + crumbs;
        currentId := file.value.parentId;
        fuel := fuel - 1;
      }
    }

    // -------------------------------------------------------------------------
    // File updates

    /** createFile: insert the row with its column defaults; `id` is the fresh id the database generates. */
    method CreateFile(ins: FileInsert, id: Id, now: Timestamp) returns (created: FileRow)
      requires Valid() && id !in files
      modifies this
      ensures Valid() && users == old(users) && shares == old(shares)
      ensures created == NewFileRow(id, ins, now)
      ensures files == old(files)[id := created]
    {
      created := NewFileRow(id, ins, now);
      files := files[id := created];
    }

    /** updateFile: apply the patch to the row with that id, if any. */
    method UpdateFile(id: Id, patch: FilePatch, now: Timestamp) returns (updated: Option<FileRow>)
      requires Valid()
      modifies this
      ensures Valid() && users == old(users) && shares == old(shares)
      ensures id in old(files) ==> updated == Some(PatchRow(old(files)[id], patch, now)) && files == old(files)[id := updated.value]
      ensures id !in old(files) ==> updated.None? && files == old(files)
    {
      if id in files {
        var r := PatchRow(files[id], patch, now);
        files := files[id := r];
        updated := Some(r);
      } else {
        updated := None;
      }
    }

    method MoveToTrash(id: Id, now: Timestamp) returns (updated: Option<FileRow>)
      requires Valid()
      modifies this
      ensures Valid() && users == old(users) && shares == old(shares)
      ensures id in old(files) ==> updated == Some(TrashRow(old(files)[id], now)) && files == old(files)[id := updated.value]
      ensures id !in old(files) ==> updated.None? && files == old(files)
    {
      if id in files {
        var r := TrashRow(files[id], now);
        files := files[id := r];
        updated := Some(r);
      } else {
        updated := None;
      }
    }

    method RestoreFromTrash(id: Id, now: Timestamp) returns (updated: Option<FileRow>)
      requires Valid()
      modifies this
      ensures Valid() && users == old(users) && shares == old(shares)
      ensures id in old(files) ==> updated == Some(RestoreRow(old(files)[id], now)) && files == old(files)[id := updated.value]
      ensures id !in old(files) ==> updated.None? && files == old(files)
    {
      if id in files {
        var r := RestoreRow(files[id], now);
        files := files[id := r];
        updated := Some(r);
      } else {
        updated := None;
      }
    }

    /** deleteFilePermanently: remove the row; nothing cascades to children or shares. */
    method DeleteFilePermanently(id: Id)
      requires Valid()
      modifies this
      ensures Valid() && users == old(users) && shares == old(shares)
      ensures files == old(files) - {id}
    {
      files := files - {id};
    }

    /** emptyTrash: delete exactly the user's trashed rows. */
    method EmptyTrash(userId: Id)
      requires Valid()
      modifies this
      ensures Valid() && users == old(users) && shares == old(shares)
      ensures files == WithoutTrash(old(files), userId)
    {
      files := WithoutTrash(files, userId);
    }
  }
}
