/** Row shapes of the `users`, `files` and `shares` tables, their column
    defaults, and the table of storage plans. */
module Schema {
  import opened Wrappers

  type Id = string

  /** Milliseconds since the epoch, as `Date.getTime()` gives them. */
  type Timestamp = int

  /** A row of `users`. Name, e-mail and picture columns carry no behaviour here. */
  datatype User = User(
    id: Id,
    plan: string,
    storageUsed: int,
    storageLimit: int,
    stripeCustomerId: Option<string>,
    stripeSubscriptionId: Option<string>,
    createdAt: Timestamp,
    updatedAt: Timestamp)

  /** A row of `files`: a file or, when `isFolder`, a folder. */
  datatype FileRow = FileRow(
    id: Id,
    name: string,
    mimeType: string,
    size: int,
    url: Option<string>,
    thumbnailUrl: Option<string>,
    parentId: Option<Id>,
    userId: Id,
    isFolder: bool,
    isStarred: bool,
    isTrashed: bool,
    trashedAt: Option<Timestamp>,
    createdAt: Timestamp,
    updatedAt: Timestamp)

  /** A row of `shares`. `sharedWithId == None` is a link share. */
  datatype Share = Share(
    id: Id,
    fileId: Id,
    ownerId: Id,
    sharedWithId: Option<Id>,
    shareType: string,
    permission: string,
    password: Option<string>,
    expiresAt: Option<Timestamp>,
    downloadCount: int,
    createdAt: Timestamp)

  // ---------------------------------------------------------------------------
  // Storage plans

  const MiB: int := 1024 * 1024
  const GiB: int := 1024 * MiB

  /** One entry of STORAGE_PLANS; the display strings, feature lists and colours are left out. */
  datatype PlanConfig = PlanConfig(name: string, price: int, storage: int, maxFileSize: int)

  const FreePlan: PlanConfig := PlanConfig("Free", 0, 5 * GiB, 100 * MiB)
  const ProPlan: PlanConfig := PlanConfig("Pro", 29900, 100 * GiB, 500 * MiB)
  const BusinessPlan: PlanConfig := PlanConfig("Business", 99900, 1024 * GiB, 2 * GiB)
  /** `storage == -1` is the "unlimited" sentinel. */
  const EnterprisePlan: PlanConfig := PlanConfig("Enterprise", 0, -1, 10 * GiB)

  const PlanKeys: set<string> := {"free", "pro", "business", "enterprise"}

  /** `STORAGE_PLANS[key]`: defined for the four plan keys only. */
  function LookupPlan(key: string): (r: Option<PlanConfig>)
    ensures r.Some? <==> key in PlanKeys
    ensures r.Some? ==> r.value in {FreePlan, ProPlan, BusinessPlan, EnterprisePlan}
  {
    if key == "free" then Some(FreePlan)
    else if key == "pro" then Some(ProPlan)
    else if key == "business" then Some(BusinessPlan)
    else if key == "enterprise" then Some(EnterprisePlan)
    else None
  }

  /** `STORAGE_PLANS[key] || STORAGE_PLANS.free`, as the upload handler picks a plan. */
  function PlanOrFree(key: string): (r: PlanConfig)
    ensures key !in PlanKeys ==> r == FreePlan
    ensures key in PlanKeys ==> Some(r) == LookupPlan(key)
  {
    LookupPlan(key).GetOr(FreePlan)
  }

  lemma PlanStorageValues()
    ensures FreePlan.storage == 5 * 1073741824 && ProPlan.storage == 100 * 1073741824
    ensures BusinessPlan.storage == 1099511627776 && EnterprisePlan.storage == -1
    ensures FreePlan.maxFileSize == 104857600 && ProPlan.maxFileSize == 524288000
    ensures BusinessPlan.maxFileSize == 2147483648 && EnterprisePlan.maxFileSize == 10737418240
  {
  }

  /** Every plan with finite storage caps single files below the whole quota;
      Enterprise is the only plan with a negative (unlimited) storage value. */
  lemma PlanCaps(key: string)
    requires key in PlanKeys
    ensures var p := LookupPlan(key).value;
      && (p.storage >= 0 ==> 0 < p.maxFileSize < p.storage)
      && (p.storage < 0 <==> key == "enterprise")
      && (p.storage < 0 ==> p.storage == -1)
  {
  }

  // ---------------------------------------------------------------------------
  // Column defaults

  /** The `users` row created with every defaulted column left to its default. */
  function DefaultUser(id: Id, now: Timestamp): (u: User)
    ensures u.id == id && u.storageUsed == 0
  {
    User(id, "free", 0, 5368709120, None, None, now, now)
  }

  /** A new user starts on the free plan with the free plan's quota and nothing used. */
  lemma DefaultUserIsFree(id: Id, now: Timestamp)
    ensures var u := DefaultUser(id, now);
      u.plan == "free" && u.storageLimit == FreePlan.storage && u.storageUsed == 0
  {
  }

  /** The columns an insert into `files` supplies; `None` means "use the default". */
  datatype FileInsert = FileInsert(
    name: string,
    mimeType: string,
    size: Option<int>,
    url: Option<string>,
    parentId: Option<Id>,
    userId: Id,
    isFolder: Option<bool>)

  /** The `files` row an insert creates: `size` 0, `isFolder`, `isStarred`,
      `isTrashed` false and no `trashedAt` unless supplied. */
  function NewFileRow(id: Id, ins: FileInsert, now: Timestamp): (r: FileRow)
    ensures r.id == id && r.userId == ins.userId && r.parentId == ins.parentId
    ensures r.name == ins.name && r.mimeType == ins.mimeType && r.url == ins.url
    ensures !r.isStarred && !r.isTrashed && r.trashedAt.None? && r.thumbnailUrl.None?
    ensures r.updatedAt == now && r.createdAt == now
  {
    FileRow(id, ins.name, ins.mimeType, ins.size.GetOr(0), ins.url, None, ins.parentId,
            ins.userId, ins.isFolder.GetOr(false), false, false, None, now, now)
  }

  lemma NewFileRowDefaults(id: Id, ins: FileInsert, now: Timestamp)
    ensures ins.size.None? ==> NewFileRow(id, ins, now).size == 0
    ensures ins.size.Some? ==> NewFileRow(id, ins, now).size == ins.size.value
    ensures ins.isFolder.None? ==> !NewFileRow(id, ins, now).isFolder
    ensures ins.isFolder.Some? ==> NewFileRow(id, ins, now).isFolder == ins.isFolder.value
  {
  }

  /** The columns an insert into `shares` supplies; `None` means "use the default". */
  datatype ShareInsert = ShareInsert(
    fileId: Id,
    ownerId: Id,
    sharedWithId: Option<Id>,
    shareType: Option<string>,
    permission: Option<string>,
    password: Option<string>,
    expiresAt: Option<Timestamp>,
    downloadCount: Option<int>)

  /** The `shares` row an insert creates. */
  function NewShareRow(id: Id, ins: ShareInsert, now: Timestamp): (s: Share)
    ensures s.id == id && s.fileId == ins.fileId && s.ownerId == ins.ownerId
    ensures s.sharedWithId == ins.sharedWithId && s.password == ins.password
    ensures s.expiresAt == ins.expiresAt && s.createdAt == now
  {
    Share(id, ins.fileId, ins.ownerId, ins.sharedWithId, ins.shareType.GetOr("link"),
          ins.permission.GetOr("view"), ins.password, ins.expiresAt, ins.downloadCount.GetOr(0), now)
  }

  /** A share inserted without type, permission or count is a view-only link share never downloaded. */
  lemma NewShareDefaults(id: Id, ins: ShareInsert, now: Timestamp)
    requires ins.shareType.None? && ins.permission.None? && ins.downloadCount.None?
    ensures var s := NewShareRow(id, ins, now);
      s.shareType == "link" && s.permission == "view" && s.downloadCount == 0
  {
  }
}
