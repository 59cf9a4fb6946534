/** Quota accounting: which rows a user's `storageUsed` is meant to add up,
    and how that sum moves when rows are inserted, updated or deleted. */
module Quota {
  import opened Wrappers
  import opened Schema
  import opened Listing

  /** A row whose size the handlers charge to its owner: it has a (non-empty)
      `url` and is not a folder, the test `file.url && !file.isFolder`. Trashed
      rows are charged too. */
  predicate Charged(r: FileRow) {
    HasUrl(r) && !r.isFolder
  }

  /** `file.url` is truthy: present and not empty. */
  predicate HasUrl(r: FileRow) {
    r.url.Some? && r.url.value != ""
  }

  /** What row `r` adds to user `uid`'s usage. */
  function Charge(r: FileRow, uid: Id): int {
    if r.userId == uid && Charged(r) then r.size else 0
  }

  ghost function AnyKey(m: map<Id, FileRow>): Id
    requires m != map[]
  {
    var k :| k in m; k
  }

  /** Sum of `Charge(_, uid)` over every row of the table. */
  ghost function UsedBy(m: map<Id, FileRow>, uid: Id): int
    decreases |m.Keys|
  {
    if m == map[] then 0
    else
      var k := AnyKey(m);
      assert (m - {k}).Keys == m.Keys - {k};
      Charge(m[k], uid) + UsedBy(m - {k}, uid)
  }

  /** The quota invariant: every user's `storageUsed` is the size of the rows charged to them. */
  ghost predicate QuotaConsistent(users: map<Id, User>, files: map<Id, FileRow>) {
    forall uid :: uid in users ==> users[uid].storageUsed == UsedBy(files, uid)
  }

  /** Any row can be taken out of the sum first. */
  lemma {:induction false} UsedByRemove(m: map<Id, FileRow>, k: Id, uid: Id)
    requires k in m
    ensures UsedBy(m, uid) == Charge(m[k], uid) + UsedBy(m - {k}, uid)
    decreases |m.Keys|
  {
    var j := AnyKey(m);
    if j != k {
      var mj := m - {j};
      var mk := m - {k};
      assert mj.Keys == m.Keys - {j};
      assert mk.Keys == m.Keys - {k};
      UsedByRemove(mj, k, uid);
      UsedByRemove(mk, j, uid);
      assert mj - {k} == mk - {j};
    }
  }

  lemma UsedByInsert(m: map<Id, FileRow>, k: Id, r: FileRow, uid: Id)
    requires k !in m
    ensures UsedBy(m[k := r], uid) == UsedBy(m, uid) + Charge(r, uid)
  {
    UsedByRemove(m[k := r], k, uid);
    assert m[k := r] - {k} == m;
  }

  lemma UsedByUpdate(m: map<Id, FileRow>, k: Id, r: FileRow, uid: Id)
    requires k in m
    ensures UsedBy(m[k := r], uid) == UsedBy(m, uid) - Charge(m[k], uid) + Charge(r, uid)
  {
    UsedByRemove(m, k, uid);
    UsedByRemove(m[k := r], k, uid);
    assert m[k := r] - {k} == m - {k};
  }

  /** Replacing a row by one charged the same leaves every user's usage alone. */
  lemma UsedByUpdateSameCharge(m: map<Id, FileRow>, k: Id, r: FileRow)
    requires k in m
    requires r.userId == m[k].userId && r.size == m[k].size && r.url == m[k].url && r.isFolder == m[k].isFolder
    ensures forall uid :: UsedBy(m[k := r], uid) == UsedBy(m, uid)
  {
    forall uid ensures UsedBy(m[k := r], uid) == UsedBy(m, uid) {
      UsedByUpdate(m, k, r, uid);
    }
  }

  /** Sum of `Charge(_, uid)` over a list of rows. */
  function ChargeSum(rows: seq<FileRow>, uid: Id): int {
    if rows == [] then 0 else ChargeSum(rows[..|rows| - 1], uid) + Charge(rows[|rows| - 1], uid)
  }

  function IdSet(rows: seq<FileRow>): set<Id> {
    set i | 0 <= i < |rows| :: rows[i].id
  }

  /** Deleting a list of distinct rows of the table lowers each user's usage by what those rows charged them. */
  lemma {:induction false} UsedByRemoveRows(m: map<Id, FileRow>, rows: seq<FileRow>, uid: Id)
    requires DistinctIds(rows)
    requires forall i :: 0 <= i < |rows| ==> rows[i].id in m && m[rows[i].id] == rows[i]
    ensures UsedBy(m, uid) == UsedBy(m - IdSet(rows), uid) + ChargeSum(rows, uid)
    decreases |rows|
  {
    if rows != [] {
      var front := rows[..|rows| - 1];
      var x := rows[|rows| - 1];
      UsedByRemoveRows(m, front, uid);
      var rest := m - IdSet(front);
      assert x.id !in IdSet(front);
      UsedByRemove(rest, x.id, uid);
      assert rest - {x.id} == m - IdSet(rows) by {
        assert IdSet(rows) == IdSet(front) + {x.id};
      }
    } else {
      assert m - IdSet(rows) == m;
    }
  }

  /** Sum of the charged sizes of a list of rows, whoever owns them. */
  function ChargedTotal(rows: seq<FileRow>): int {
    if rows == [] then 0
    else ChargedTotal(rows[..|rows| - 1]) + (if Charged(rows[|rows| - 1]) then rows[|rows| - 1].size else 0)
  }

  /** For rows all owned by `owner`, what they charge `owner` is their charged total. */
  lemma {:induction false} ChargeSumOwned(rows: seq<FileRow>, owner: Id)
    requires forall i :: 0 <= i < |rows| ==> rows[i].userId == owner
    ensures ChargeSum(rows, owner) == ChargedTotal(rows)
    decreases |rows|
  {
    if rows != [] {
      ChargeSumOwned(rows[..|rows| - 1], owner);
    }
  }

  /** Rows all owned by `owner` charge nobody else. */
  lemma {:induction false} ChargeSumOthers(rows: seq<FileRow>, owner: Id, uid: Id)
    requires forall i :: 0 <= i < |rows| ==> rows[i].userId == owner
    requires uid != owner
    ensures ChargeSum(rows, uid) == 0
    decreases |rows|
  {
    if rows != [] {
      ChargeSumOthers(rows[..|rows| - 1], owner, uid);
    }
  }
}
