/** The file routes: each handler checks its request against the store,
    answers with an outcome (the HTTP status and message) and, on success,
    changes the store. Every handler keeps each user's `storageUsed` equal to
    the sizes of the rows charged to them. */
module Routes {
  import opened Wrappers
  import opened Schema
  import opened Listing
  import opened Quota
  import opened Storage

  /** The response a handler sends; `Status` is its HTTP code. */
  datatype Outcome =
    | Ok
    | NoFilesUploaded
    | UserNotFound
    | QuotaExceeded
    | FileTooLarge(fileName: string, maxMiB: int)
    | FolderNameRequired
    | FileNotFound
    | NotAuthorized
    | AccessDenied
    | NotFoundOnDisk
  {
    function Status(): int {
      match this
      case Ok => 200
      case NoFilesUploaded | QuotaExceeded | FileTooLarge(_, _) | FolderNameRequired => 400
      case NotAuthorized | AccessDenied => 403
      case UserNotFound | FileNotFound | NotFoundOnDisk => 404
    }
  }

  /** One file of an upload batch as the multipart parser stored it. */
  datatype UploadedFile = UploadedFile(originalName: string, mimeType: string, size: nat, storedName: string)

  /** `value || null` on an optional string field of the request body. */
  function OrNull(v: Option<string>): (r: Option<Id>)
    ensures r.None? <==> v.None? || v.value == ""
    ensures r.Some? ==> r == v
  {
    if v.Some? && v.value != "" then v else None
  }

  // ---------------------------------------------------------------------------
  // The upload rule

  /** The batch total, `reduce((sum, f) => sum + f.size, 0)`. */
  function TotalSize(fs: seq<UploadedFile>): (t: int)
    ensures t >= 0
    ensures fs != [] ==> t >= fs[|fs| - 1].size
  {
    if fs == [] then 0 else TotalSize(fs[..|fs| - 1]) + fs[|fs| - 1].size
  }

  /** The first file of the batch larger than `max`, if any. */
  function FirstTooLarge(fs: seq<UploadedFile>, max: int): (r: Option<nat>)
    ensures r.None? <==> forall i :: 0 <= i < |fs| ==> fs[i].size <= max
    ensures r.Some? ==> r.value < |fs| && fs[r.value].size > max
    ensures r.Some? ==> forall j :: 0 <= j < r.value ==> fs[j].size <= max
  {
    if fs == [] then None
    else if fs[0].size > max then Some(0)
    else match FirstTooLarge(fs[1..], max)
      case None => None
      case Some(i) => Some(i + 1)
  }

  /** The quota test: a positive limit that the batch would pass. */
  predicate OverQuota(u: User, total: int) {
    u.storageLimit > 0 && u.storageUsed + total > u.storageLimit
  }

  /** What the upload handler answers for a non-empty batch of an existing user:
      the quota test first, then the per-file cap of the user's plan (the free
      plan's for an unknown one); `FileTooLarge` names the first file over the cap. */
  function UploadVerdict(u: User, fs: seq<UploadedFile>): (r: Outcome)
    ensures r == QuotaExceeded <==> OverQuota(u, TotalSize(fs))
    ensures r.FileTooLarge? <==>
      !OverQuota(u, TotalSize(fs)) && exists i :: 0 <= i < |fs| && fs[i].size > PlanOrFree(u.plan).maxFileSize
    ensures r.FileTooLarge? ==>
      exists i :: (&& 0 <= i < |fs| && fs[i].size > PlanOrFree(u.plan).maxFileSize
                   && r.fileName == fs[i].originalName && r.maxMiB * MiB == PlanOrFree(u.plan).maxFileSize
                   && forall j :: 0 <= j < i ==> fs[j].size <= PlanOrFree(u.plan).maxFileSize)
    ensures r == Ok <==> !OverQuota(u, TotalSize(fs)) && forall i :: 0 <= i < |fs| ==> fs[i].size <= PlanOrFree(u.plan).maxFileSize
    ensures r == Ok || r == QuotaExceeded || r.FileTooLarge?
  {
    var max := PlanOrFree(u.plan).maxFileSize;
    if OverQuota(u, TotalSize(fs)) then QuotaExceeded
    else match FirstTooLarge(fs, max)
      case Some(i) => FileTooLarge(fs[i].originalName, max / MiB)
      case None => Ok
  }

  /** A non-positive limit (Enterprise's -1) never rejects a batch for quota. */
  lemma NoLimitNoQuotaCheck(u: User, fs: seq<UploadedFile>)
    requires u.storageLimit <= 0
    ensures UploadVerdict(u, fs) != QuotaExceeded
  {
  }

  /** The insert for one uploaded file: a charged, non-folder row under the request's parent. */
  function UploadInsert(f: UploadedFile, userId: Id, parentId: Option<Id>): (ins: FileInsert)
    ensures ins.name == f.originalName && ins.mimeType == f.mimeType && ins.size == Some(f.size)
    ensures ins.userId == userId && ins.parentId == parentId && ins.isFolder == Some(false)
    ensures ins.url.Some? && ins.url.value == "/uploads/" + f.storedName
  {
    FileInsert(f.originalName, f.mimeType, Some(f.size), Some("/uploads/" + f.storedName), parentId, userId, Some(false))
  }

  /** Every uploaded row counts against its owner's quota with the file's size. */
  lemma UploadRowCharged(id: Id, f: UploadedFile, userId: Id, parentId: Option<Id>, now: Timestamp)
    ensures var r := NewFileRow(id, UploadInsert(f, userId, parentId), now);
      Charged(r) && Charge(r, userId) == f.size && forall uid :: uid != userId ==> Charge(r, uid) == 0
  {
    var url := "/uploads/" + f.storedName;
    assert url[0] == '/';
  }

  lemma TotalSizeStep(fs: seq<UploadedFile>, i: nat)
    requires i < |fs|
    ensures TotalSize(fs[..i + 1]) == TotalSize(fs[..i]) + fs[i].size
  {
    assert fs[..i + 1][..i] == fs[..i];
  }

  /** The handler's per-file loop: the first file over the plan's cap. */
  method FindTooLarge(fs: seq<UploadedFile>, max: int) returns (r: Option<nat>)
    ensures r == FirstTooLarge(fs, max)
  {
    var i := 0;
    while i < |fs|
      invariant 0 <= i <= |fs|
      invariant forall j :: 0 <= j < i ==> fs[j].size <= max
    {
      if fs[i].size > max {
        return Some(i);
      }
      i := i + 1;
    }
    return None;
  }

  /** One insert of the upload loop keeps the key set: the old rows and the ids used so far. */
  lemma UploadStepKeys(files0: map<Id, FileRow>, before: map<Id, FileRow>, ids: seq<Id>, i: nat, row: FileRow)
    requires i < |ids|
    requires forall k :: k in before <==> k in files0 || k in ids[..i]
    requires forall k :: k in files0 ==> before[k] == files0[k]
    requires ids[i] !in files0
    ensures forall k :: k in before[ids[i] := row] <==> k in files0 || k in ids[..i + 1]
    ensures forall k :: k in files0 ==> before[ids[i] := row][k] == files0[k]
  {
    assert ids[..i + 1] == ids[..i] + [ids[i]];
  }

  /** One insert of the upload loop keeps the rows created so far and adds the new one. */
  lemma UploadStepRows(before: map<Id, FileRow>, ids: seq<Id>, fs: seq<UploadedFile>, created: seq<FileRow>, i: nat,
                       userId: Id, parentId: Option<Id>, now: Timestamp)
    requires i < |ids| == |fs| && |created| == i
    requires ids[i] !in ids[..i]
    requires forall j :: 0 <= j < i ==>
      ids[j] in before && created[j] == NewFileRow(ids[j], UploadInsert(fs[j], userId, parentId), now) && before[ids[j]] == created[j]
    ensures var row := NewFileRow(ids[i], UploadInsert(fs[i], userId, parentId), now);
      var after, c := before[ids[i] := row], created + [row];
      forall j :: 0 <= j < i + 1 ==>
        ids[j] in after && c[j] == NewFileRow(ids[j], UploadInsert(fs[j], userId, parentId), now) && after[ids[j]] == c[j]
  {
    var row := NewFileRow(ids[i], UploadInsert(fs[i], userId, parentId), now);
    forall j | 0 <= j < i ensures ids[j] != ids[i] {
      assert ids[j] == ids[..i][j];
    }
  }

  /** One insert of the upload loop raises the owner's usage sum by that file's size. */
  lemma UploadStepUsage(files0: map<Id, FileRow>, before: map<Id, FileRow>, ids: seq<Id>, fs: seq<UploadedFile>, i: nat,
                        userId: Id, parentId: Option<Id>, now: Timestamp)
    requires i < |ids| == |fs| && ids[i] !in before
    requires forall uid :: UsedBy(before, uid) == UsedBy(files0, uid) + (if uid == userId then TotalSize(fs[..i]) else 0)
    ensures var row := NewFileRow(ids[i], UploadInsert(fs[i], userId, parentId), now);
      forall uid :: UsedBy(before[ids[i] := row], uid) == UsedBy(files0, uid) + (if uid == userId then TotalSize(fs[..i + 1]) else 0)
  {
    var row := NewFileRow(ids[i], UploadInsert(fs[i], userId, parentId), now);
    forall uid ensures UsedBy(before[ids[i] := row], uid) == UsedBy(files0, uid) + (if uid == userId then TotalSize(fs[..i + 1]) else 0) {
      UsedByInsert(before, ids[i], row, uid);
      UploadRowCharged(ids[i], fs[i], userId, parentId, now);
      TotalSizeStep(fs, i);
    }
  }

  /** The handler's insert loop: one row per file, in batch order. */
  method CreateUploadedRows(s: DatabaseStorage, userId: Id, parentId: Option<Id>, fs: seq<UploadedFile>,
                            ids: seq<Id>, now: Timestamp)
    returns (created: seq<FileRow>)
    requires s.Valid() && |ids| == |fs|
    requires forall i :: 0 <= i < |ids| ==> ids[i] !in s.files
    requires forall i, j :: 0 <= i < j < |ids| ==> ids[i] != ids[j]
    modifies s
    ensures s.Valid() && s.users == old(s.users) && s.shares == old(s.shares)
    ensures |created| == |fs|
    ensures forall k :: k in s.files <==> k in old(s.files) || k in ids
    ensures forall k :: k in old(s.files) ==> s.files[k] == old(s.files)[k]
    ensures forall i :: 0 <= i < |fs| ==>
      ids[i] in s.files && created[i] == NewFileRow(ids[i], UploadInsert(fs[i], userId, parentId), now) && s.files[ids[i]] == created[i]
    ensures forall uid :: UsedBy(s.files, uid) == UsedBy(old(s.files), uid) + (if uid == userId then TotalSize(fs) else 0)
  {
    created := [];
    ghost var files0 := s.files;
    var i := 0;
    assert fs[..0] == [];
    while i < |fs|
      invariant 0 <= i <= |fs| && |created| == i
      invariant s.Valid() && s.users == old(s.users) && s.shares == old(s.shares) && files0 == old(s.files)
      invariant forall k :: k in s.files <==> k in files0 || k in ids[..i]
      invariant forall k :: k in files0 ==> s.files[k] == files0[k]
      invariant forall j :: 0 <= j < i ==>
        ids[j] in s.files && created[j] == NewFileRow(ids[j], UploadInsert(fs[j], userId, parentId), now) && s.files[ids[j]] == created[j]
      invariant forall uid :: UsedBy(s.files, uid) == UsedBy(files0, uid) + (if uid == userId then TotalSize(fs[..i]) else 0)
    {
      assert ids[i] !in ids[..i];
      ghost var before := s.files;
      UploadStepKeys(files0, before, ids, i, NewFileRow(ids[i], UploadInsert(fs[i], userId, parentId), now));
      UploadStepRows(before, ids, fs, created, i, userId, parentId, now);
      UploadStepUsage(files0, before, ids, fs, i, userId, parentId, now);
      var row := s.CreateFile(UploadInsert(fs[i], userId, parentId), ids[i], now);
      created := created + [row];
      i := i + 1;
    }
    assert fs[..|fs|] == fs && ids[..|fs|] == ids;
  }

  /** The accepted branch of the upload handler: insert the rows, then raise
      the owner's usage once by the batch total. */
  method CommitUpload(s: DatabaseStorage, userId: Id, parentId: Option<Id>, fs: seq<UploadedFile>,
                      ids: seq<Id>, now: Timestamp)
    returns (created: seq<FileRow>)
    requires s.Valid() && QuotaConsistent(s.users, s.files) && userId in s.users
    requires |ids| == |fs|
    requires forall i :: 0 <= i < |ids| ==> ids[i] !in s.files
    requires forall i, j :: 0 <= i < j < |ids| ==> ids[i] != ids[j]
    modifies s
    ensures s.Valid() && QuotaConsistent(s.users, s.files) && s.shares == old(s.shares)
    ensures |created| == |fs|
    ensures forall i :: 0 <= i < |fs| ==>
      created[i] == NewFileRow(ids[i], UploadInsert(fs[i], userId, parentId), now)
      && ids[i] in s.files && s.files[ids[i]] == created[i]
    ensures forall k :: k in s.files <==> k in old(s.files) || k in ids
    ensures forall k :: k in old(s.files) ==> s.files[k] == old(s.files)[k]
    ensures s.users == old(s.users)[userId := AddStorage(old(s.users)[userId], TotalSize(fs), now)]
  {
    ghost var users0, files0 := s.users, s.files;
    created := CreateUploadedRows(s, userId, parentId, fs, ids, now);
    QuotaShift(users0, files0, s.files, userId, TotalSize(fs), now);
    s.UpdateUserStorage(userId, TotalSize(fs), now);
  }

  // ---------------------------------------------------------------------------
  // Handlers

  /** Moving one user's usage sum by `delta` and their `storageUsed` by the same
      amount keeps the quota invariant. */
  lemma QuotaShift(users: map<Id, User>, files0: map<Id, FileRow>, files1: map<Id, FileRow>,
                   userId: Id, delta: int, now: Timestamp)
    requires QuotaConsistent(users, files0)
    requires forall uid :: UsedBy(files1, uid) == UsedBy(files0, uid) + (if uid == userId then delta else 0)
    ensures userId in users ==> QuotaConsistent(users[userId := AddStorage(users[userId], delta, now)], files1)
    ensures userId !in users ==> QuotaConsistent(users, files1)
  {
  }

  /** POST /api/files/upload. `ids` are the ids the database gives the new rows. */
  method Upload(s: DatabaseStorage, userId: Id, parentField: Option<string>, fs: seq<UploadedFile>,
                ids: seq<Id>, now: Timestamp)
    returns (out: Outcome, created: seq<FileRow>)
    requires s.Valid() && QuotaConsistent(s.users, s.files)
    requires |ids| == |fs|
    requires forall i :: 0 <= i < |ids| ==> ids[i] !in s.files
    requires forall i, j :: 0 <= i < j < |ids| ==> ids[i] != ids[j]
    modifies s
    ensures s.Valid() && QuotaConsistent(s.users, s.files) && s.shares == old(s.shares)
    ensures fs == [] ==> out == NoFilesUploaded
    ensures fs != [] && userId !in old(s.users) ==> out == UserNotFound
    ensures fs != [] && userId in old(s.users) ==> out == UploadVerdict(old(s.users)[userId], fs)
    ensures out != Ok ==> created == [] && s.files == old(s.files) && s.users == old(s.users)
    ensures out == Ok ==>
      && |created| == |fs|
      && (forall i :: 0 <= i < |fs| ==>
            created[i] == NewFileRow(ids[i], UploadInsert(fs[i], userId, OrNull(parentField)), now)
            && ids[i] in s.files && s.files[ids[i]] == created[i])
      && (forall k :: k in s.files <==> k in old(s.files) || k in ids)
      && (forall k :: k in old(s.files) ==> s.files[k] == old(s.files)[k])
      && s.users == old(s.users)[userId := AddStorage(old(s.users)[userId], TotalSize(fs), now)]
  {
    created := [];
    var parentId := OrNull(parentField);
    if |fs| == 0 {
      return NoFilesUploaded, [];
    }
    var user := s.GetUser(userId);
    if user.None? {
      return UserNotFound, [];
    }
    var u := user.value;
    var totalSize := TotalSize(fs);
    var plan := PlanOrFree(u.plan);
    if u.storageLimit > 0 && u.storageUsed + totalSize > u.storageLimit {
      return QuotaExceeded, [];
    }
    var tooLarge := FindTooLarge(fs, plan.maxFileSize);
    if tooLarge.Some? {
      return FileTooLarge(fs[tooLarge.value].originalName, plan.maxFileSize / MiB), [];
    }
    created := CommitUpload(s, userId, parentId, fs, ids, now);
    out := Ok;
  }

  /** The insert for a new folder: size 0, type "folder", no url. */
  function FolderInsert(name: string, userId: Id, parentId: Option<Id>): (ins: FileInsert)
    ensures ins.name == name && ins.mimeType == "folder" && ins.size == Some(0) && ins.url.None?
    ensures ins.userId == userId && ins.parentId == parentId && ins.isFolder == Some(true)
  {
    FileInsert(name, "folder", Some(0), None, parentId, userId, Some(true))
  }

  /** POST /api/files/folder. `name` is `None` when the body's name is missing or not a string. */
  method CreateFolder(s: DatabaseStorage, userId: Id, name: Option<string>, parentField: Option<string>,
                      id: Id, now: Timestamp)
    returns (out: Outcome, folder: Option<FileRow>)
    requires s.Valid() && QuotaConsistent(s.users, s.files) && id !in s.files
    modifies s
    ensures s.Valid() && QuotaConsistent(s.users, s.files)
    ensures s.users == old(s.users) && s.shares == old(s.shares)
    ensures out == FolderNameRequired <==> name.None? || name.value == ""
    ensures out == FolderNameRequired ==> folder.None? && s.files == old(s.files)
    ensures out != FolderNameRequired ==>
      && out == Ok && name.Some?
      && folder == Some(NewFileRow(id, FolderInsert(name.value, userId, OrNull(parentField)), now))
      && s.files == old(s.files)[id := folder.value]
  {
    if name.None? || name.value == "" {
      return FolderNameRequired, None;
    }
    ghost var before := s.files;
    var row := s.CreateFile(FolderInsert(name.value, userId, OrNull(parentField)), id, now);
    forall uid ensures UsedBy(s.files, uid) == UsedBy(before, uid) {
      UsedByInsert(before, id, row, uid);
    }
    out, folder := Ok, Some(row);
  }

  /** The ownership guard of the single-file routes: 404 for an unknown id, 403 for another user's row. */
  function Authorize(files: map<Id, FileRow>, userId: Id, id: Id): (r: Outcome)
    ensures r == Ok || r == FileNotFound || r == NotAuthorized
    ensures r == FileNotFound <==> id !in files
    ensures r == NotAuthorized <==> id in files && files[id].userId != userId
    ensures r == Ok <==> id in files && files[id].userId == userId
  {
    if id !in files then FileNotFound
    else if files[id].userId != userId then NotAuthorized
    else Ok
  }

  /** PATCH /api/files/:id: apply the fields present in the body, unvalidated. */
  method Patch(s: DatabaseStorage, userId: Id, id: Id, patch: FilePatch, now: Timestamp)
    returns (out: Outcome, updated: Option<FileRow>)
    requires s.Valid() && QuotaConsistent(s.users, s.files)
    modifies s
    ensures s.Valid() && QuotaConsistent(s.users, s.files)
    ensures s.users == old(s.users) && s.shares == old(s.shares)
    ensures out == Authorize(old(s.files), userId, id)
    ensures out != Ok ==> updated.None? && s.files == old(s.files)
    ensures out == Ok ==> updated == Some(PatchRow(old(s.files)[id], patch, now)) && s.files == old(s.files)[id := updated.value]
  {
    var file := s.GetFile(id);
    if file.None? {
      return FileNotFound, None;
    }
    if file.value.userId != userId {
      return NotAuthorized, None;
    }
    ghost var before := s.files;
    updated := s.UpdateFile(id, patch, now);
    UsedByUpdateSameCharge(before, id, updated.value);
    out := Ok;
  }

  /** DELETE /api/files/:id: move the row to the trash; it stays charged. */
  method Trash(s: DatabaseStorage, userId: Id, id: Id, now: Timestamp)
    returns (out: Outcome, updated: Option<FileRow>)
    requires s.Valid() && QuotaConsistent(s.users, s.files)
    modifies s
    ensures s.Valid() && QuotaConsistent(s.users, s.files)
    ensures s.users == old(s.users) && s.shares == old(s.shares)
    ensures out == Authorize(old(s.files), userId, id)
    ensures out != Ok ==> updated.None? && s.files == old(s.files)
    ensures out == Ok ==> updated == Some(TrashRow(old(s.files)[id], now)) && s.files == old(s.files)[id := updated.value]
  {
    var file := s.GetFile(id);
    if file.None? {
      return FileNotFound, None;
    }
    if file.value.userId != userId {
      return NotAuthorized, None;
    }
    ghost var before := s.files;
    updated := s.MoveToTrash(id, now);
    UsedByUpdateSameCharge(before, id, updated.value);
    out := Ok;
  }

  /** POST /api/files/:id/restore. */
  method Restore(s: DatabaseStorage, userId: Id, id: Id, now: Timestamp)
    returns (out: Outcome, updated: Option<FileRow>)
    requires s.Valid() && QuotaConsistent(s.users, s.files)
    modifies s
    ensures s.Valid() && QuotaConsistent(s.users, s.files)
    ensures s.users == old(s.users) && s.shares == old(s.shares)
    ensures out == Authorize(old(s.files), userId, id)
    ensures out != Ok ==> updated.None? && s.files == old(s.files)
    ensures out == Ok ==> updated == Some(RestoreRow(old(s.files)[id], now)) && s.files == old(s.files)[id := updated.value]
  {
    var file := s.GetFile(id);
    if file.None? {
      return FileNotFound, None;
    }
    if file.value.userId != userId {
      return NotAuthorized, None;
    }
    ghost var before := s.files;
    updated := s.RestoreFromTrash(id, now);
    UsedByUpdateSameCharge(before, id, updated.value);
    out := Ok;
  }

  /** DELETE /api/files/:id/permanent: release a charged row's size, then delete the row. */
  method DeletePermanently(s: DatabaseStorage, userId: Id, id: Id, now: Timestamp)
    returns (out: Outcome)
    requires s.Valid() && QuotaConsistent(s.users, s.files)
    modifies s
    ensures s.Valid() && QuotaConsistent(s.users, s.files) && s.shares == old(s.shares)
    ensures out == Authorize(old(s.files), userId, id)
    ensures out != Ok ==> s.files == old(s.files) && s.users == old(s.users)
    ensures out == Ok ==> s.files == old(s.files) - {id}
    ensures out == Ok && Charged(old(s.files)[id]) && userId in old(s.users) ==>
      s.users == old(s.users)[userId := AddStorage(old(s.users)[userId], -old(s.files)[id].size, now)]
    ensures out == Ok && !(Charged(old(s.files)[id]) && userId in old(s.users)) ==> s.users == old(s.users)
  {
    var file := s.GetFile(id);
    if file.None? {
      return FileNotFound;
    }
    if file.value.userId != userId {
      return NotAuthorized;
    }
    ghost var before, users0 := s.files, s.users;
    var charged := file.value.url.Some? && file.value.url.value != "" && !file.value.isFolder;
    if charged {
      s.UpdateUserStorage(userId, -file.value.size, now);
    }
    s.DeleteFilePermanently(id);
    ghost var delta := if charged then -file.value.size else 0;
    forall uid ensures UsedBy(s.files, uid) == UsedBy(before, uid) + (if uid == userId then delta else 0) {
      UsedByRemove(before, id, uid);
    }
    if charged {
      QuotaShift(users0, before, s.files, userId, delta, now);
    }
    out := Ok;
  }

  /** The handler's summing loop over the trashed rows: the sizes of those with a url that are not folders. */
  method SumCharged(rows: seq<FileRow>) returns (total: int)
    ensures total == ChargedTotal(rows)
  {
    total := 0;
    var i := 0;
    while i < |rows|
      invariant 0 <= i <= |rows|
      invariant total == ChargedTotal(rows[..i])
    {
      var file := rows[i];
      assert rows[..i + 1][..i] == rows[..i];
      if file.url.Some? && file.url.value != "" && !file.isFolder {
        total := total + file.size;
      }
      i := i + 1;
    }
    assert rows[..|rows|] == rows;
  }

  /** Deleting exactly the listed trashed rows lowers their owner's usage by their charged sizes and no one else's. */
  lemma EmptyTrashReleases(files: map<Id, FileRow>, userId: Id, trashed: seq<FileRow>)
    requires forall k :: k in files ==> files[k].id == k
    requires ListsExactly(trashed, files, row => TrashedRow(row, userId))
    ensures forall uid :: UsedBy(WithoutTrash(files, userId), uid) == UsedBy(files, uid) + (if uid == userId then -ChargedTotal(trashed) else 0)
  {
    assert WithoutTrash(files, userId) == files - IdSet(trashed) by {
      forall k ensures k in WithoutTrash(files, userId) <==> k in files - IdSet(trashed) {
        if k in files && TrashedRow(files[k], userId) {
          var j :| 0 <= j < |trashed| && trashed[j] == files[k];
          assert trashed[j].id == k;
        }
      }
    }
    forall uid ensures UsedBy(WithoutTrash(files, userId), uid) == UsedBy(files, uid) + (if uid == userId then -ChargedTotal(trashed) else 0) {
      UsedByRemoveRows(files, trashed, uid);
      if uid == userId {
        ChargeSumOwned(trashed, userId);
      } else {
        ChargeSumOthers(trashed, userId, uid);
      }
    }
  }

  /** DELETE /api/files/trash/empty: delete the user's trashed rows and release
      what the charged ones among them used. */
  method EmptyTrash(s: DatabaseStorage, userId: Id, now: Timestamp)
    returns (out: Outcome, freed: int)
    requires s.Valid() && QuotaConsistent(s.users, s.files)
    modifies s
    ensures s.Valid() && QuotaConsistent(s.users, s.files) && s.shares == old(s.shares)
    ensures out == Ok
    ensures s.files == WithoutTrash(old(s.files), userId)
    ensures freed == UsedBy(old(s.files), userId) - UsedBy(s.files, userId)
    ensures userId in old(s.users) ==> s.users == old(s.users)[userId := AddStorage(old(s.users)[userId], -freed, now)]
    ensures userId !in old(s.users) ==> s.users == old(s.users)
  {
    var trashed := s.GetTrashedFiles(userId);
    ghost var before, users0 := s.files, s.users;
    var totalSize := SumCharged(trashed);
    s.EmptyTrash(userId);
    EmptyTrashReleases(before, userId, trashed);
    QuotaShift(users0, before, s.files, userId, -totalSize, now);
    s.UpdateUserStorage(userId, -totalSize, now);
    out, freed := Ok, totalSize;
  }

  /** A share lets `userId` download: a link share (`sharedWithId` null or
      empty) or one made for that user. Expiry and password play no part. */
  predicate ShareAdmits(sh: Share, userId: Id) {
    sh.sharedWithId.None? || sh.sharedWithId.value == "" || sh.sharedWithId.value == userId
  }

  /** GET /api/files/:id/download. `onDisk` is whether the stored file exists.
      Nothing is changed, since the activity log is not modelled. */
  method Download(s: DatabaseStorage, userId: Id, id: Id, onDisk: bool) returns (out: Outcome, file: Option<FileRow>)
    requires s.Valid()
    ensures out == Ok || out == FileNotFound || out == AccessDenied || out == NotFoundOnDisk
    ensures out == FileNotFound <==> (id !in s.files || !HasUrl(s.files[id]))
    ensures out == NotFoundOnDisk ==> !onDisk
    ensures id in s.files && HasUrl(s.files[id]) ==>
      out == AccessDenied || out == (if onDisk then Ok else NotFoundOnDisk)
    ensures out == Ok ==> file == Some(s.files[id]) && onDisk
    ensures out == Ok ==>
      || s.files[id].userId == userId
      || exists k :: k in s.shares && s.shares[k].fileId == id && ShareAdmits(s.shares[k], userId)
    ensures id in s.files && HasUrl(s.files[id]) && s.files[id].userId == userId ==>
      out == (if onDisk then Ok else NotFoundOnDisk)
    ensures (&& id in s.files && HasUrl(s.files[id]) && s.files[id].userId != userId
             && forall k :: k in s.shares && s.shares[k].fileId == id ==> !ShareAdmits(s.shares[k], userId)) ==>
      out == AccessDenied
    ensures (&& id in s.files && HasUrl(s.files[id]) && s.files[id].userId != userId
             && (exists k :: k in s.shares && s.shares[k].fileId == id)
             && forall k :: k in s.shares && s.shares[k].fileId == id ==> ShareAdmits(s.shares[k], userId)) ==>
      out == (if onDisk then Ok else NotFoundOnDisk)
  {
    file := s.GetFile(id);
    if file.None? || file.value.url.None? || file.value.url.value == "" {
      return FileNotFound, file;
    }
    if file.value.userId != userId {
      var share := s.GetShareByFileId(file.value.id);
      if share.None? || (share.value.sharedWithId.Some? && share.value.sharedWithId.value != "" && share.value.sharedWithId.value != userId) {
        return AccessDenied, file;
      }
    }
    if !onDisk {
      return NotFoundOnDisk, file;
    }
    out := Ok;
  }
}
