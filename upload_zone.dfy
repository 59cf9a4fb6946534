/** The upload panel's list of uploads: files over the size cap are listed as
    errors at once, the rest are listed as uploading, handed to `onUpload`
    together, then marked completed or failed. */
module UploadZone {
  import opened Wrappers

  /** A file picked in the browser. */
  datatype LocalFile = LocalFile(name: string, size: int)

  datatype Status = Pending | Uploading | Completed | Failed

  /** Why an entry failed: over the cap (the message names the cap), or `onUpload` threw. */
  datatype UploadError = ExceedsMaximum(maxFileSize: int) | UploadFailed

  datatype UploadEntry = UploadEntry(id: string, file: LocalFile, progress: int, status: Status, error: Option<UploadError>)

  /** `maxFileSize && file.size > maxFileSize`: an undefined or zero cap rejects nothing. */
  predicate TooLarge(f: LocalFile, maxFileSize: Option<int>) {
    maxFileSize.Some? && maxFileSize.value != 0 && f.size > maxFileSize.value
  }

  function ErrorEntry(id: string, f: LocalFile, maxFileSize: int): UploadEntry {
    UploadEntry(id, f, 0, Failed, Some(ExceedsMaximum(maxFileSize)))
  }

  function UploadingEntry(id: string, f: LocalFile): UploadEntry {
    UploadEntry(id, f, 0, Uploading, None)
  }

  /** The files that go to `onUpload`, in the order picked. */
  function Accepted(files: seq<LocalFile>, maxFileSize: Option<int>): seq<LocalFile> {
    if files == [] then []
    else Accepted(files[..|files| - 1], maxFileSize)
         + (if TooLarge(files[|files| - 1], maxFileSize) then [] else [files[|files| - 1]])
  }

  /** The error entries listed for the files over the cap, in the order picked;
      `ids[i]` is the id drawn for `files[i]`. */
  function RejectedEntries(files: seq<LocalFile>, ids: seq<string>, maxFileSize: Option<int>): seq<UploadEntry>
    requires |ids| == |files|
  {
    if files == [] then []
    else
      var n := |files| - 1;
      RejectedEntries(files[..n], ids[..n], maxFileSize)
      + (if TooLarge(files[n], maxFileSize) then [ErrorEntry(ids[n], files[n], maxFileSize.value)] else [])
  }

  /** The uploading entries listed for the accepted files, in the order picked. */
  function UploadingEntries(files: seq<LocalFile>, ids: seq<string>, maxFileSize: Option<int>): seq<UploadEntry>
    requires |ids| == |files|
  {
    if files == [] then []
    else
      var n := |files| - 1;
      UploadingEntries(files[..n], ids[..n], maxFileSize)
      + (if TooLarge(files[n], maxFileSize) then [] else [UploadingEntry(ids[n], files[n])])
  }

  /** The accepted files are exactly the picked files within the cap. */
  lemma {:induction false} AcceptedWithinCap(files: seq<LocalFile>, maxFileSize: Option<int>)
    ensures forall f :: f in Accepted(files, maxFileSize) <==> f in files && !TooLarge(f, maxFileSize)
  {
    if files != [] {
      var n := |files| - 1;
      AcceptedWithinCap(files[..n], maxFileSize);
      assert files == files[..n] + [files[n]];
    }
  }

  /** Every file over the cap gets an error entry, failed at progress 0, and no other file does. */
  lemma {:induction false} RejectedOverCap(files: seq<LocalFile>, ids: seq<string>, maxFileSize: Option<int>)
    requires |ids| == |files|
    ensures var rej := RejectedEntries(files, ids, maxFileSize);
      && (forall e :: e in rej ==> e.file in files && TooLarge(e.file, maxFileSize) && e.status == Failed && e.progress == 0)
      && (forall f :: f in files && TooLarge(f, maxFileSize) ==> exists e :: e in rej && e.file == f)
  {
    if files != [] {
      var n := |files| - 1;
      RejectedOverCap(files[..n], ids[..n], maxFileSize);
      assert files == files[..n] + [files[n]];
      var rej := RejectedEntries(files, ids, maxFileSize);
      forall f | f in files && TooLarge(f, maxFileSize) ensures exists e :: e in rej && e.file == f {
        if f != files[n] {
          assert f in files[..n];
        } else {
          assert rej[|rej| - 1].file == f;
        }
      }
    }
  }

  /** Each picked file lands on exactly one side, and the uploading entries
      follow the accepted files one for one, uploading at progress 0. */
  lemma {:induction false} PartitionCounts(files: seq<LocalFile>, ids: seq<string>, maxFileSize: Option<int>)
    requires |ids| == |files|
    ensures var acc := Accepted(files, maxFileSize);
      var up := UploadingEntries(files, ids, maxFileSize);
      && |acc| + |RejectedEntries(files, ids, maxFileSize)| == |files| && |up| == |acc|
      && (forall i :: 0 <= i < |up| ==> up[i].file == acc[i] && up[i].status == Uploading && up[i].progress == 0)
  {
    if files != [] {
      var n := |files| - 1;
      PartitionCounts(files[..n], ids[..n], maxFileSize);
    }
  }

  /** Without a positive cap every file is accepted. */
  lemma {:induction false} NoCapAcceptsAll(files: seq<LocalFile>, ids: seq<string>, maxFileSize: Option<int>)
    requires |ids| == |files|
    requires maxFileSize.None? || maxFileSize.value == 0
    ensures Accepted(files, maxFileSize) == files
    ensures RejectedEntries(files, ids, maxFileSize) == []
  {
    if files != [] {
      var n := |files| - 1;
      NoCapAcceptsAll(files[..n], ids[..n], maxFileSize);
      assert files == files[..n] + [files[n]];
    }
  }

  /** One more picked file extends each side of the partition by at most that file's entry. */
  lemma PartitionStep(files: seq<LocalFile>, ids: seq<string>, maxFileSize: Option<int>, i: nat)
    requires |ids| == |files| && i < |files|
    ensures Accepted(files[..i + 1], maxFileSize)
      == Accepted(files[..i], maxFileSize) + (if TooLarge(files[i], maxFileSize) then [] else [files[i]])
    ensures RejectedEntries(files[..i + 1], ids[..i + 1], maxFileSize)
      == RejectedEntries(files[..i], ids[..i], maxFileSize)
         + (if TooLarge(files[i], maxFileSize) then [ErrorEntry(ids[i], files[i], maxFileSize.value)] else [])
    ensures UploadingEntries(files[..i + 1], ids[..i + 1], maxFileSize)
      == UploadingEntries(files[..i], ids[..i], maxFileSize)
         + (if TooLarge(files[i], maxFileSize) then [] else [UploadingEntry(ids[i], files[i])])
  {
    assert files[..i + 1][..i] == files[..i] && ids[..i + 1][..i] == ids[..i];
  }

  /** The entry after `onUpload` settles: completed at 100, or failed with "Upload failed". */
  function Settled(e: UploadEntry, succeeded: bool): UploadEntry {
    if succeeded then e.(progress := 100, status := Completed) else e.(status := Failed, error := Some(UploadFailed))
  }

  /** `prev.map(u => newUploads.some(n => n.id === u.id) ? settled : u)`. */
  function SettleAll(entries: seq<UploadEntry>, batch: set<string>, succeeded: bool): (r: seq<UploadEntry>)
    ensures |r| == |entries|
    ensures forall i :: 0 <= i < |entries| ==>
      r[i] == (if entries[i].id in batch then Settled(entries[i], succeeded) else entries[i])
  {
    if entries == [] then []
    else [if entries[0].id in batch then Settled(entries[0], succeeded) else entries[0]]
         + SettleAll(entries[1..], batch, succeeded)
  }

  /** removeUpload's filter: every entry but those with the id, in order. */
  function WithoutUpload(entries: seq<UploadEntry>, id: string): (r: seq<UploadEntry>)
    ensures |r| <= |entries|
  {
    if entries == [] then []
    else (if entries[0].id != id then [entries[0]] else []) + WithoutUpload(entries[1..], id)
  }

  /** clearCompleted's filter: every entry not completed, in order. */
  function WithoutCompleted(entries: seq<UploadEntry>): (r: seq<UploadEntry>)
    ensures |r| <= |entries|
  {
    if entries == [] then []
    else (if entries[0].status != Completed then [entries[0]] else []) + WithoutCompleted(entries[1..])
  }

  /** removeUpload keeps exactly the entries with another id, and is the
      identity when no entry has that id. */
  lemma {:induction false} WithoutUploadKeeps(entries: seq<UploadEntry>, id: string)
    ensures forall e :: e in WithoutUpload(entries, id) <==> e in entries && e.id != id
    ensures (forall e :: e in entries ==> e.id != id) ==> WithoutUpload(entries, id) == entries
    decreases |entries|
  {
    if entries != [] {
      WithoutUploadKeeps(entries[1..], id);
      assert entries == [entries[0]] + entries[1..];
    }
  }

  /** clearCompleted keeps exactly the entries not completed, and is the
      identity when none is completed. */
  lemma {:induction false} WithoutCompletedKeeps(entries: seq<UploadEntry>)
    ensures forall e :: e in WithoutCompleted(entries) <==> e in entries && e.status != Completed
    ensures (forall e :: e in entries ==> e.status != Completed) ==> WithoutCompleted(entries) == entries
    decreases |entries|
  {
    if entries != [] {
      WithoutCompletedKeeps(entries[1..]);
      assert entries == [entries[0]] + entries[1..];
    }
  }

  /** removeUpload filters entry by entry: nothing from nothing, a single entry
      kept exactly when its id differs, and a concatenation filtered piecewise,
      so the kept entries stay in their order with their repetitions. */
  lemma {:induction false} WithoutUploadSplit(a: seq<UploadEntry>, b: seq<UploadEntry>, id: string)
    ensures WithoutUpload(a + b, id) == WithoutUpload(a, id) + WithoutUpload(b, id)
    decreases |a|
  {
    if a == [] {
      assert a + b == b;
    } else {
      var h := if a[0].id != id then [a[0]] else [];
      var x, y := WithoutUpload(a[1..], id), WithoutUpload(b, id);
      assert (a + b)[0] == a[0] && (a + b)[1..] == a[1..] + b;
      assert WithoutUpload(a + b, id) == h + WithoutUpload(a[1..] + b, id);
      WithoutUploadSplit(a[1..], b, id);
      assert WithoutUpload(a, id) == h + x;
      assert h + (x + y) == (h + x) + y;
    }
  }

  /** The base cases of removeUpload's filter: nothing from nothing, and a
      single entry kept exactly when its id differs. */
  lemma WithoutUploadBase(e: UploadEntry, id: string)
    ensures WithoutUpload([], id) == []
    ensures WithoutUpload([e], id) == (if e.id != id then [e] else [])
  {
    assert [e][1..] == [];
  }

  /** clearCompleted filters entry by entry in the same way. */
  lemma {:induction false} WithoutCompletedSplit(a: seq<UploadEntry>, b: seq<UploadEntry>)
    ensures WithoutCompleted(a + b) == WithoutCompleted(a) + WithoutCompleted(b)
    decreases |a|
  {
    if a == [] {
      assert a + b == b;
    } else {
      var h := if a[0].status != Completed then [a[0]] else [];
      var x, y := WithoutCompleted(a[1..]), WithoutCompleted(b);
      assert (a + b)[0] == a[0] && (a + b)[1..] == a[1..] + b;
      assert WithoutCompleted(a + b) == h + WithoutCompleted(a[1..] + b);
      WithoutCompletedSplit(a[1..], b);
      assert WithoutCompleted(a) == h + x;
      assert h + (x + y) == (h + x) + y;
    }
  }

  /** The base cases of clearCompleted's filter. */
  lemma WithoutCompletedBase(e: UploadEntry)
    ensures WithoutCompleted([]) == []
    ensures WithoutCompleted([e]) == (if e.status != Completed then [e] else [])
  {
    assert [e][1..] == [];
  }

  /** Clearing completed entries twice is clearing them once. */
  lemma ClearIdempotent(entries: seq<UploadEntry>)
    ensures WithoutCompleted(WithoutCompleted(entries)) == WithoutCompleted(entries)
  {
    WithoutCompletedKeeps(entries);
    WithoutCompletedKeeps(WithoutCompleted(entries));
  }

  function IdSet(entries: seq<UploadEntry>): set<string> {
    set i | 0 <= i < |entries| :: entries[i].id
  }

  class UploadPanel {
    var uploads: seq<UploadEntry>
    var isUploading: bool

    constructor ()
      ensures uploads == [] && !isUploading
    {
      uploads, isUploading := [], false;
    }

    /** processFiles up to the awaited `onUpload`: returns the accepted files
        (the argument to `onUpload`, empty when it is not called) and the ids of
        their entries. `fileList` is `None` for a null list; `ids` are the
        random ids drawn, one per picked file. */
    method ProcessFiles(fileList: Option<seq<LocalFile>>, disabled: bool, maxFileSize: Option<int>, ids: seq<string>)
      returns (batch: seq<LocalFile>, batchIds: set<string>)
      requires fileList.Some? ==> |ids| == |fileList.value|
      modifies this
      ensures fileList.None? || disabled ==> batch == [] && batchIds == {} && uploads == old(uploads) && isUploading == old(isUploading)
      ensures fileList.Some? && !disabled ==>
        && batch == Accepted(fileList.value, maxFileSize)
        && uploads == old(uploads) + RejectedEntries(fileList.value, ids, maxFileSize) + UploadingEntries(fileList.value, ids, maxFileSize)
        && batchIds == IdSet(UploadingEntries(fileList.value, ids, maxFileSize))
        && isUploading == (batch != [] || old(isUploading))
    {
      if fileList.None? || disabled {
        return [], {};
      }
      var files := fileList.value;
      var valid: seq<LocalFile> := [];
      var newUploads: seq<UploadEntry> := [];
      var i := 0;
      while i < |files|
        invariant 0 <= i <= |files|
        invariant valid == Accepted(files[..i], maxFileSize)
        invariant newUploads == UploadingEntries(files[..i], ids[..i], maxFileSize)
        invariant uploads == old(uploads) + RejectedEntries(files[..i], ids[..i], maxFileSize)
        invariant isUploading == old(isUploading)
      {
        PartitionStep(files, ids, maxFileSize, i);
        var file := files[i];
        if maxFileSize.Some? && maxFileSize.value != 0 && file.size > maxFileSize.value {
          assert old(uploads) + RejectedEntries(files[..i + 1], ids[..i + 1], maxFileSize)
            == uploads + [ErrorEntry(ids[i], file, maxFileSize.value)];
          uploads := uploads + [ErrorEntry(ids[i], file, maxFileSize.value)];
        } else {
          valid := valid + [file];
          newUploads := newUploads + [UploadingEntry(ids[i], file)];
        }
        i := i + 1;
      }
      assert files[..|files|] == files && ids[..|files|] == ids;
      batch, batchIds := valid, {};
      if |valid| > 0 {
        uploads := uploads + newUploads;
        isUploading := true;
        batchIds := IdSet(newUploads);
      } else {
        PartitionCounts(files, ids, maxFileSize);
      }
    }

    /** processFiles after `onUpload` settles: the batch's entries, wherever
        they now are, become completed or failed; then the panel is idle. */
    method SettleUpload(batchIds: set<string>, succeeded: bool)
      modifies this
      ensures uploads == SettleAll(old(uploads), batchIds, succeeded)
      ensures !isUploading
    {
      uploads := SettleAll(uploads, batchIds, succeeded);
      isUploading := false;
    }

    method RemoveUpload(id: string)
      modifies this
      ensures uploads == WithoutUpload(old(uploads), id) && isUploading == old(isUploading)
    {
      uploads := WithoutUpload(uploads, id);
    }

    method ClearCompleted()
      modifies this
      ensures uploads == WithoutCompleted(old(uploads)) && isUploading == old(isUploading)
    {
      uploads := WithoutCompleted(uploads);
    }
  }
}
