# Cloud file storage: a Dafny model of the storage core

This project models the core of a cloud file store: a web application where each
user uploads files, arranges them in folders, stars them, moves them to the
trash and restores them, deletes them for good, and downloads their own files or
files shared with them. Each user works within the storage quota of their plan.

The model has three layers.

- **The database store** (`storage.dfy`). The class `DatabaseStorage` holds the
  `users`, `files` and `shares` tables as maps from id to row. It has the
  store's queries: the folder listing, starred, recent and trashed files, the
  breadcrumb and the share lookup. It also has the store's updates: the usage
  change, the plan change, and file create, update, trash, restore, delete and
  empty-trash. Each query is proved to list exactly the rows its WHERE clause
  selects, once each, in its ORDER BY order.
- **The HTTP handlers** (`routes.dfy`). Upload, create folder, PATCH, trash,
  restore, permanent delete, empty trash and download are methods over a
  `DatabaseStorage`. Each returns an `Outcome`, the HTTP status and message it
  answers with. Every handler that changes the store is proved to keep the
  quota invariant `Quota.QuotaConsistent`: each user's `storageUsed` equals the
  total `size` of that user's rows that have a non-empty `url` and are not
  folders. Trashed rows still count (`quota.dfy`).
- **The front-end logic.** This covers:
  - the storage percentage, its colour classes and the relative-date buckets
    (`formatters.dfy`);
  - the MIME-type icon chain (`file_icon.dfy`);
  - the upload panel's queue (`upload_zone.dfy`);
  - the Drive page's filter, folders-first sort, sort toggle and selection
    (`drive.dfy`);
  - the rename and new-folder dialogs (`rename_dialog.dfy`,
    `create_folder_dialog.dfy`).

Supporting modules:

- `schema.dfy`: the row types, the plan table and the column defaults.
- `listing.dfy`: the ORDER BY orders and sorted insertion.
- `text.dfy`: the JavaScript string operations the code uses and the name
  collation.
- `wrappers.dfy`: `Option`.

Ids and clock readings are parameters: the new rows' ids, `now`, and the
upload panel's random ids. So is whatever the code awaits from outside:
- whether the stored file exists on disk;
- whether `onUpload`, `onRename` or `onCreate` succeeds.

The model follows the code's quirks as written:
- The quota test is `storageLimit > 0 && storageUsed + total > storageLimit`,
  so a limit of 0 or -1 never rejects (`Routes.NoLimitNoQuotaCheck`).
- `storageUsed` is never clamped.
- PATCH validates nothing.
- Download ignores a share's expiry and password.
- JavaScript truthiness is kept:
  - an empty `url` is not charged;
  - an empty `parentId` ends the breadcrumb walk;
  - an empty `sharedWithId` is a link share;
  - a zero `maxFileSize` in the upload panel rejects nothing.

Three observations follow from the proofs:
- PATCH may set a row's `parentId` to the row's own id. The breadcrumb walk
  from that row never stops (`Storage.SelfParentNeverEnds`). This is why
  `GetFileBreadcrumb` requires that the parent chain ends.
- Every Office Open XML type contains "document", so Excel and PowerPoint
  files get the document icon (`FileIcon.OfficeOpenXmlIsDocument`).
- `text/html` and `text/javascript` never get the code icon
  (`FileIcon.TextIsNeverCode`).

These are behaviours of the code as written, and the model keeps them.

Where the design description and the code differ, the code is followed.
- The folder route accepts a whitespace-only name; only the dialog trims.
- The breadcrumb also stops at a missing row.

## Model

| member | source | states |
|---|---|---|
| Schema.LookupPlan | schema.ts:147-184 | `STORAGE_PLANS[key]` is defined exactly for the four plan keys and is one of the four plans |
| Schema.PlanOrFree | routes.ts:139 | an unknown plan key falls back to the free plan; a known key gives its own plan |
| Schema.PlanStorageValues | schema.ts:151-180 | storage is 5·2^30, 100·2^30, 2^40 and -1 bytes; the per-file caps are 100 MiB, 500 MiB, 2 GiB and 10 GiB |
| Schema.PlanCaps | schema.ts:147-184 | every finite plan caps single files below its whole quota; Enterprise is the only plan with negative storage, and that value is -1 |
| Schema.DefaultUser | schema.ts:24-26 | a new user row has nothing used |
| Schema.DefaultUserIsFree | schema.ts:24-26 | a new user is on the free plan with the free plan's 5368709120-byte limit |
| Schema.NewFileRow | schema.ts:34-46 | an inserted file row keeps the given id, owner, parent, name, type and url; it is not starred or trashed and has no trash time |
| Schema.NewFileRowDefaults | schema.ts:38-43 | size defaults to 0 and `isFolder` to false; given values are kept |
| Schema.NewShareRow | schema.ts:56-65 | an inserted share keeps its file, owner, recipient, password and expiry |
| Schema.NewShareDefaults | schema.ts:61-65 | a share inserted without those columns is a "link" share with "view" permission and 0 downloads |
| Text.Lower | FileIcon.tsx:36 | lower-casing maps each character on its own, keeps the length, and leaves no upper-case letter |
| Text.LowerIdempotent | Drive.tsx:161-163 | lower-casing twice is lower-casing once |
| Text.ContainsIff | FileIcon.tsx:59-95 | `includes` holds exactly when some window of the string spells the pattern |
| Text.ContainsAt | Drive.tsx:163 | a window at any index is enough for `includes` |
| Text.Trim | RenameDialog.tsx:36 | the result is the slice of the input left once a leading and a trailing run of spaces are cut, and it neither starts nor ends with a space, so it is the input with all its leading and trailing spaces removed; it is empty exactly for an all-space input |
| Text.TrimIdempotent | RenameDialog.tsx:41-50 | trimming twice is trimming once |
| Text.LastIndexOf | RenameDialog.tsx:91 | the result is the last index holding the character, or -1 when there is none |
| Text.NameLeTotal | storage.ts:122 | any two names are comparable under the collation |
| Text.NameLeTransitive | storage.ts:136 | the collation is transitive |
| Text.NameLeAntisymmetric | Drive.tsx:173 | names that collate both ways are equal |
| Text.NameCompare | Drive.tsx:173 | `localeCompare` is zero exactly for equal names and negative exactly when the first collates before the second |
| Listing.BeforeTotal | storage.ts:122 | every ORDER BY order ranks any two rows |
| Listing.BeforeTransitive | storage.ts:164 | every ORDER BY order is transitive |
| Listing.InsertContents | storage.ts:106-123 | sorted insertion adds exactly the one row |
| Listing.SortedCons | storage.ts:136 | a listing with a row in front is sorted iff the row may precede the rest and the rest is sorted |
| Listing.InsertSorted | storage.ts:106-165 | inserting into a sorted listing keeps it sorted |
| Listing.InsertDistinct | storage.ts:106-165 | inserting a row with a new id keeps the ids distinct |
| Quota.UsedByRemove | routes.ts:359 | any row can be taken out of a user's usage sum first |
| Quota.UsedByInsert | storage.ts:177-180 | inserting a row adds exactly its charge to each user's usage |
| Quota.UsedByUpdate | storage.ts:182-189 | replacing a row changes usage by the new charge minus the old |
| Quota.UsedByUpdateSameCharge | storage.ts:191-215 | replacing a row by one with the same owner, size, url and folder flag leaves everyone's usage unchanged |
| Quota.UsedByRemoveRows | storage.ts:221-230 | deleting distinct rows of the table lowers each user's usage by what those rows charged them |
| Quota.ChargeSumOthers | routes.ts:371-382 | rows owned by one user charge nobody else |
| Storage.WithoutTrash | storage.ts:221-230 | what emptyTrash leaves: every row except the user's trashed ones, each unchanged |
| Storage.TrashThenRestore | storage.ts:191-215 | trashing then restoring a live row gives back the row with only `updatedAt` changed |
| Storage.TrashKeepsPlace | storage.ts:191-215 | neither trash nor restore changes the parent, size, star or owner |
| Storage.PatchOnlyGiven | storage.ts:182-189 | updateFile changes exactly the columns provided, plus `updatedAt` |
| Storage.PlanLimitValues | storage.ts:84-98 | a plan change sets the plan's storage, or the free quota for an unknown plan; the limit is negative exactly for Enterprise, where it is -1 |
| Storage.SelfParentNeverEnds | storage.ts:236-245 | a row that is its own parent makes the breadcrumb walk endless: no step bound suffices |
| Storage.DatabaseStorage.constructor | storage.ts:52 | the store starts with empty, well-keyed tables |
| Storage.DatabaseStorage.GetUser | storage.ts:54-57 | the user row with that id, or none when there is no such row |
| Storage.DatabaseStorage.UpdateUserStorage | storage.ts:74-82 | the one user's `storageUsed` becomes `storageUsed + bytesChange`, unclamped; no other row changes, and an unknown id changes nothing |
| Storage.DatabaseStorage.UpdateUserPlan | storage.ts:84-98 | the user gets the plan and its limit; absent Stripe ids leave their columns; only that row changes, and an unknown id returns none |
| Storage.DatabaseStorage.GetFile | storage.ts:101-104 | the row with that id, or none |
| Storage.DatabaseStorage.SelectOrdered | storage.ts:106-165 | a SELECT lists exactly the rows its predicate picks, once each, in the requested order |
| Storage.DatabaseStorage.GetFiles | storage.ts:106-123 | exactly the user's non-trashed rows with that parent (none: the root), folders first, then by name |
| Storage.DatabaseStorage.GetStarredFiles | storage.ts:125-137 | exactly the user's starred, non-trashed rows, by name |
| Storage.DatabaseStorage.GetRecentFiles | storage.ts:139-152 | at most `limit` of the user's non-trashed non-folders, with 50 when no limit is given; the rows are distinct and newest first, and a row is left out only when the list is full of rows updated no earlier |
| Storage.DatabaseStorage.GetTrashedFiles | storage.ts:154-165 | exactly the user's trashed rows, most recently trashed first (no trash time first) |
| Storage.DatabaseStorage.GetShareByFileId | storage.ts:256-259 | some share of the file when one exists, and none exactly when no share names the file |
| Storage.DatabaseStorage.GetFileBreadcrumb | storage.ts:232-248 | when the parent chain ends, a root-first chain whose last entry is the file and where each entry is the parent of the next; the first entry's parent is null, empty or missing; the list is empty iff the id is empty or unknown |
| Storage.DatabaseStorage.CreateFile | storage.ts:177-180 | inserts exactly the defaulted row under its fresh id |
| Storage.DatabaseStorage.UpdateFile | storage.ts:182-189 | the row gets the patch and a new `updatedAt`; nothing else changes |
| Storage.DatabaseStorage.MoveToTrash | storage.ts:191-202 | the row becomes trashed, with trash time and `updatedAt` now; nothing else changes |
| Storage.DatabaseStorage.RestoreFromTrash | storage.ts:204-215 | the row is no longer trashed and has no trash time; nothing else changes |
| Storage.DatabaseStorage.DeleteFilePermanently | storage.ts:217-219 | exactly that row is removed; its children and shares stay |
| Storage.DatabaseStorage.EmptyTrash | storage.ts:221-230 | exactly the user's trashed rows are deleted; every other row is unchanged |
| Routes.OrNull | routes.ts:125 | absent and empty values become null; other values are kept |
| Routes.TotalSize | routes.ts:138 | the batch total is non-negative and at least the last file's size |
| Routes.TotalSizeStep | routes.ts:138 | the total of one more file adds exactly that file's size |
| Routes.FirstTooLarge | routes.ts:148-155 | the index of the first file over the cap, or none exactly when all fit |
| Routes.UploadVerdict | routes.ts:138-155 | quota-exceeded iff the limit is positive and the batch would pass it; otherwise too-large iff some file passes the plan cap (free for an unknown plan), naming the first such file and the cap in MiB; otherwise accepted |
| Routes.NoLimitNoQuotaCheck | routes.ts:141 | a limit of 0 or -1 never rejects a batch for quota |
| Routes.UploadInsert | routes.ts:158-166 | each uploaded file becomes a non-folder insert with its name, type, size, "/uploads/" url, the request's parent and owner |
| Routes.UploadRowCharged | routes.ts:157-180 | every uploaded row is charged, to its owner only, exactly its size |
| Routes.FindTooLarge | routes.ts:148-155 | the per-file loop finds the first file over the cap |
| Routes.CreateUploadedRows | routes.ts:157-177 | one row per file in batch order; the owner's usage sum grows by the batch total and nobody else's changes |
| Routes.Upload | routes.ts:122-187 | no files, unknown user, quota and size rejections create no rows and change no usage; a success creates one row per file under the parent and raises `storageUsed` once by the batch total; the quota invariant is kept |
| Routes.FolderInsert | routes.ts:199-206 | a folder insert has type "folder", size 0, no url and the folder flag |
| Routes.CreateFolder | routes.ts:190-220 | a missing, non-string or empty name is rejected with nothing changed; otherwise exactly the folder row is added, usage unchanged |
| Routes.Authorize | routes.ts:242-248 | 404 exactly for an unknown id, 403 exactly for another user's row, otherwise allowed |
| Routes.Patch | routes.ts:237-273 | 404 and 403 change nothing; otherwise the row gets exactly the provided fields, unvalidated; usage is unchanged |
| Routes.Trash | routes.ts:276-303 | 404 and 403 change nothing; otherwise the row is trashed and stays charged |
| Routes.Restore | routes.ts:306-333 | 404 and 403 change nothing; otherwise the row is restored |
| Routes.DeletePermanently | routes.ts:336-365 | 404 and 403 change nothing; otherwise the row is deleted and its owner's usage drops by its size exactly when it has a url and is not a folder; the quota invariant is kept |
| Routes.SumCharged | routes.ts:371-382 | the loop adds up exactly the charged sizes of the trashed rows |
| Routes.EmptyTrashReleases | routes.ts:371-385 | deleting the listed trashed rows lowers their owner's usage sum by their charged total and nobody else's |
| Routes.EmptyTrash | routes.ts:368-392 | the user's trashed rows are deleted and `storageUsed` drops by exactly what they were charged; the quota invariant is kept |
| Routes.Download | routes.ts:395-431 | "File not found" exactly for an unknown or url-less row; for any other row the answer is 403 or, when access is granted, 200 if the stored file exists and "File not found on disk" if not; the owner is always admitted; another user is admitted only through a share that is a link share or made for them, regardless of expiry or password, and when every share of the file admits them or none does the answer is fixed |
| Formatters.StoragePercentage | formatters.ts:42-45 | 0 when the total is not positive; otherwise the exact quotient `used/total*100` rounded half up and capped at 100, in [0, 100] for non-negative usage |
| Formatters.PercentageMonotone | formatters.ts:44 | more usage never shows a smaller percentage |
| Formatters.PercentageEnds | formatters.ts:42-45 | no usage shows 0 and a full quota shows 100 |
| Formatters.StorageColor | formatters.ts:47-51 | red iff at least 95, amber iff in [80, 95), emerald iff below 80 |
| Formatters.StorageBarColor | formatters.ts:53-57 | the same thresholds, with `bg-primary` below 80 |
| Formatters.ColorsAgree | formatters.ts:47-57 | the text colour and the bar colour always show the same level |
| Formatters.FormatDate | formatters.ts:11-32 | blank iff no date; "just now" iff the difference is under a minute, negative included; each of minutes, hours and days ago lies within its bounds; the calendar date from 7 days on |
| Formatters.DateBuckets | formatters.ts:18-25 | the buckets are exclusive and cover every difference in order |
| FileIcon.IconFor | FileIcon.tsx:29-101 | a folder gets the folder icon; a file is classified on its lower-cased type |
| FileIcon.ClassifyIsFirstMatch | FileIcon.tsx:39-100 | the if-chain equals the first match along image, video, audio, pdf, document, spreadsheet, presentation, archive, code |
| FileIcon.FirstMatchIsFirst | FileIcon.tsx:39-100 | the first match is an icon whose test passes and no earlier test passes; the generic icon comes exactly when no test passes |
| FileIcon.IconIsFirstMatch | FileIcon.tsx:36-100 | every file gets the icon of the first test its lower-cased type passes, and the generic icon exactly when none passes |
| FileIcon.FolderWins | FileIcon.tsx:32-34 | the folder flag wins over any type |
| FileIcon.CaseInsensitive | FileIcon.tsx:36 | classification ignores case |
| FileIcon.ContainsHasChar | FileIcon.tsx:59-95 | a string containing a pattern contains each of the pattern's characters |
| FileIcon.TextIsNeverCode | FileIcon.tsx:59-63 | a type containing "text/" is an image, video, audio or document, never code |
| FileIcon.DocumentWins | FileIcon.tsx:59-73 | any type containing "document" outside the media prefixes is a document, never a spreadsheet or presentation |
| FileIcon.OfficeOpenXmlIsDocument | FileIcon.tsx:59-73 | every Office Open XML type, spreadsheets and presentations included, gets the document icon |
| UploadZone.AcceptedWithinCap | UploadZone.tsx:44-56 | the files passed on are exactly the picked files within the cap |
| UploadZone.RejectedOverCap | UploadZone.tsx:44-52 | every file over the cap gets a failed error entry at progress 0, and no other file does |
| UploadZone.PartitionCounts | UploadZone.tsx:44-66 | each picked file lands on exactly one side; the uploading entries follow the accepted files one for one, at progress 0 |
| UploadZone.NoCapAcceptsAll | UploadZone.tsx:45 | an undefined or zero cap accepts every file |
| UploadZone.SettleAll | UploadZone.tsx:71-81 | exactly the batch's entries become completed at 100 or failed with "Upload failed"; the others stay |
| UploadZone.WithoutUploadKeeps | UploadZone.tsx:99-101 | removeUpload's filter keeps exactly the entries with another id, and changes nothing when no entry has that id |
| UploadZone.WithoutUploadBase | UploadZone.tsx:99-101 | the filter of no entries is empty, and a single entry is kept exactly when its id differs |
| UploadZone.WithoutUploadSplit | UploadZone.tsx:99-101 | the filter of a concatenation is the concatenation of the filters, so the kept entries keep their order and their repetitions |
| UploadZone.WithoutCompletedKeeps | UploadZone.tsx:103-105 | clearCompleted's filter keeps exactly the entries not completed, and changes nothing when none is completed |
| UploadZone.WithoutCompletedBase | UploadZone.tsx:103-105 | the filter of no entries is empty, and a single entry is kept exactly when it is not completed |
| UploadZone.WithoutCompletedSplit | UploadZone.tsx:103-105 | the filter of a concatenation is the concatenation of the filters, so the kept entries keep their order and their repetitions |
| UploadZone.ClearIdempotent | UploadZone.tsx:103-105 | clearing twice is clearing once |
| UploadZone.UploadPanel.constructor | UploadZone.tsx:38 | the panel starts with no uploads and not uploading |
| UploadZone.UploadPanel.ProcessFiles | UploadZone.tsx:38-67 | a null list or a disabled zone changes nothing; otherwise error entries for oversize files, then uploading entries for the rest, appended; the accepted files are passed on, and uploading starts iff there is one |
| UploadZone.UploadPanel.SettleUpload | UploadZone.tsx:69-84 | the batch's entries settle and the panel is no longer uploading |
| UploadZone.UploadPanel.RemoveUpload | UploadZone.tsx:99-101 | the list becomes `WithoutUpload` of the old list (exactly the entries with another id, in order, by the lemmas above) and nothing else changes |
| UploadZone.UploadPanel.ClearCompleted | UploadZone.tsx:103-105 | the list becomes `WithoutCompleted` of the old list (exactly the entries not completed, in order, by the lemmas above) and nothing else changes |
| Drive.Filtered | Drive.tsx:161-164 | an empty query keeps the list; otherwise exactly the rows whose lower-cased name contains the lower-cased query, each matching row as often as it occurs in the input |
| Drive.FilterMatching | Drive.tsx:163 | the filter never lengthens the list |
| Drive.FilterKeeps | Drive.tsx:163 | the filter keeps exactly the matching rows |
| Drive.FilterMultiset | Drive.tsx:163 | each matching row is kept as often as it occurs, and every other row is dropped |
| Drive.FilterSplit | Drive.tsx:163 | the filter of a concatenation is the concatenation of the filters, so the kept rows keep their order |
| Drive.FilterBase | Drive.tsx:163 | the filter of no rows is empty, and a single row is kept exactly when it matches |
| Drive.EmptyQueryKeepsAll | Drive.tsx:161-163 | an empty query matches every name |
| Drive.FolderBeforeFile | Drive.tsx:169-170 | a folder compares before a file whatever the column and direction |
| Drive.DescReversesAsc | Drive.tsx:172-180 | within one kind, descending is ascending negated |
| Drive.CompareAntisymmetric | Drive.tsx:167-181 | the comparator's sign flips with its arguments |
| Drive.LeTotal | Drive.tsx:167-181 | any two rows are ordered by the comparator |
| Drive.LeTransitive | Drive.tsx:167-181 | the comparator's order is transitive |
| Drive.FoldersFirst | Drive.tsx:169-170 | in a sorted listing no file precedes a folder |
| Drive.SinkStep | Drive.tsx:167 | one swap of the insertion step keeps the step's invariant |
| Drive.SinkEnd | Drive.tsx:167 | a finished step leaves a longer sorted prefix |
| Drive.SinkInto | Drive.tsx:167 | one pass extends the sorted prefix by one and permutes the array |
| Drive.SortFiles | Drive.tsx:167-181 | the array ends sorted by the comparator and is a permutation of its old contents |
| Drive.FilteredFiles | Drive.tsx:157-184 | a fresh array holding the filtered rows, each matching row as often as it occurs in the listing, sorted by the comparator |
| Drive.NextSort | Drive.tsx:201-208 | the same column toggles the direction; another column starts ascending |
| Drive.SortTwiceRestores | Drive.tsx:201-208 | clicking the same column twice restores the sort |
| Drive.IdsOf | Drive.tsx:224 | the id set of a listing |
| Drive.DriveView.constructor | Drive.tsx:201-228 | the view starts on name ascending with nothing selected |
| Drive.DriveView.HandleSort | Drive.tsx:201-208 | the new column and direction are `NextSort` of the old; the selection stays |
| Drive.DriveView.HandleSelect | Drive.tsx:210-220 | adds or removes exactly that id |
| Drive.DriveView.HandleSelectAll | Drive.tsx:222-228 | selects exactly the ids of the shown rows (the memoised filtered listing, which the caller passes), or none |
| RenameDialog.SubmitDisabled | RenameDialog.tsx:114 | the button is disabled iff loading or the name is blank |
| RenameDialog.FocusSelection | RenameDialog.tsx:89-97 | a non-folder whose last dot is past index 0 selects up to that dot; otherwise the whole value |
| RenameDialog.RenameForm.constructor | RenameDialog.tsx:23-25 | the form starts empty, idle and without an error |
| RenameDialog.RenameForm.Opened | RenameDialog.tsx:27-31 | opening on a file copies its name into the field |
| RenameDialog.RenameForm.Edit | RenameDialog.tsx:84-87 | typing sets the name and clears the error |
| RenameDialog.RenameForm.HandleSubmit | RenameDialog.tsx:33-57 | a blank name sets "Name is required" and renames nothing; an unchanged trimmed name closes without renaming; otherwise renames to the trimmed name, closing on success and setting "Failed to rename" on failure |
| RenameDialog.RenameForm.HandleOpenChange | RenameDialog.tsx:59-64 | closing clears the error and keeps the name; the open state is passed on |
| RenameDialog.RenameIsTrimmed | RenameDialog.tsx:50 | the name sent is non-empty and already trimmed |
| RenameDialog.EnabledNeverBlank | RenameDialog.tsx:36-39 | with the button enabled the blank-name error cannot fire |
| CreateFolderDialog.SubmitDisabled | CreateFolderDialog.tsx:93 | the button is disabled iff loading or the name is blank |
| CreateFolderDialog.FolderForm.constructor | CreateFolderDialog.tsx:21-23 | the form starts empty, idle and without an error |
| CreateFolderDialog.FolderForm.Edit | CreateFolderDialog.tsx:71-74 | typing sets the name and clears the error |
| CreateFolderDialog.FolderForm.HandleSubmit | CreateFolderDialog.tsx:25-45 | a blank name sets "Folder name is required" and creates nothing; otherwise creates with the trimmed name; success resets the name and closes, failure sets "Failed to create folder" and stays open |
| CreateFolderDialog.FolderForm.HandleOpenChange | CreateFolderDialog.tsx:47-53 | closing resets both the name and the error; the open state is passed on |
| CreateFolderDialog.EnabledNeverBlank | CreateFolderDialog.tsx:28-31 | with the button enabled the blank-name error cannot fire |

## Left out

- Formatters.StoragePercentage: the double-precision quotient `used / total * 100` is modelled as an exact rational, so where the floating-point product falls just below .5 the source rounds down and the model rounds up; for example 29 of 200 gives 14 in the source and 15 here, and 23 of 40 gives 57 and 58. The range, monotonicity and end-point lemmas are stated for the exact value.
- Disk and upload-parser I/O. Writing, unlinking and existence checks of stored files are not modelled. Download takes the existence check as a parameter.
- The upload parser's 500 MB and 10-file limits (routes.ts:27-32, 121). These are enforced before the handler runs.
- Express routing, authentication and sessions. The caller's id is a parameter.
- The 500 "Failed to ..." answers of every handler. These come from exceptions thrown by the database or the disk.
- Stripe, checkout and portal routes. These are placeholders.
- Drizzle's SQL building. Each query is modelled by what it selects and in what order.
- Concurrency and atomicity. Each handler runs its steps one after another, alone. Empty trash reads, deletes and updates in separate statements, and the model claims no atomicity.
- The activity log: `createActivity` and `getRecentActivities`. It is an append-only audit trail, and the handlers' answers do not depend on it.
- The other store operations: `upsertUser`, `getSharedFiles`, `getShare`, `createShare` and `deleteShare`. They are not part of the modelled core.
- `GET /api/files/:id`. This handler is not part of the modelled core.
- Floating point and locale output: `formatFileSize`, `formatCurrency` and the date text of `formatDate`. `toLocaleDateString` becomes a `CalendarDate` label. The oversize message's formatted cap becomes `FileTooLarge(fileName, maxMiB)`, where `maxMiB` times 1 MiB is the plan's cap; this is the source's `maxFileSize / 1024 / 1024` exactly, since every finite cap is a whole number of MiB.
- `localeCompare` and the database collation. Both are modelled as one order: lexicographic on code points (`Text.NameLe`).
- `toLowerCase`. It is modelled on ASCII letters only.
- `trim`. It removes ASCII whitespace, no-break space and byte-order mark, but not the other Unicode spaces.
- Drive.SortFiles: it is an insertion sort. Its result is sorted and a permutation, as `Array.prototype.sort` promises. The stability of the engine's sort is not stated.
- Drive.FilteredFiles: `new Date(x.updatedAt || 0)` is taken as the stored millisecond value. A missing or unparsable date is not modelled.
- Storage.DatabaseStorage.SelectOrdered: SQL leaves the order of ORDER BY ties unspecified. The model returns one listing and characterises every listing the database may give.
- Storage.DatabaseStorage.GetFileBreadcrumb: it requires that the parent chain from the file ends. The source loops forever on a cycle, and `Storage.SelfParentNeverEnds` shows that a cycle can exist.
- Storage.DatabaseStorage.GetShareByFileId: the query takes the first of the file's shares, in an order SQL leaves open. The model returns some share of the file, without saying which.
- Request bodies whose fields have the wrong JSON type, such as a PATCH `name` that is not a string or a null `isStarred`. PATCH fields are modelled as absent or of their column's type.
- The asynchronous split of `processFiles`. It is two methods: `ProcessFiles` up to the awaited `onUpload`, and `SettleUpload` after it. The dialogs take the awaited outcome as a parameter.
- Rendering-only components and the ShareDialog stub.
- `Shared.tsx` and `Recent.tsx`. Shared's filter and sort are Drive's. Recent's sort drops folders-first and is not modelled separately.
