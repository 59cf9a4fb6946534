/** The orders the store's list queries ask the database for (their ORDER BY
    clauses), and sorted insertion, which produces a listing in such an order. */
module Listing {
  import opened Wrappers
  import opened Text
  import opened Schema

  datatype Order =
    | FoldersThenName   // ORDER BY is_folder DESC, name
    | ByName            // ORDER BY name
    | UpdatedDesc       // ORDER BY updated_at DESC
    | TrashedDesc       // ORDER BY trashed_at DESC (PostgreSQL puts NULLs first)

  /** `a` may be listed before `b`. */
  predicate Before(o: Order, a: FileRow, b: FileRow) {
    match o
    case FoldersThenName =>
      (a.isFolder && !b.isFolder) || (a.isFolder == b.isFolder && NameLe(a.name, b.name))
    case ByName => NameLe(a.name, b.name)
    case UpdatedDesc => a.updatedAt >= b.updatedAt
    case TrashedDesc => a.trashedAt.None? || (b.trashedAt.Some? && a.trashedAt.value >= b.trashedAt.value)
  }

  lemma BeforeTotal(o: Order, a: FileRow, b: FileRow)
    ensures Before(o, a, b) || Before(o, b, a)
  {
    NameLeTotal(a.name, b.name);
  }

  lemma BeforeTransitive(o: Order, a: FileRow, b: FileRow, c: FileRow)
    requires Before(o, a, b) && Before(o, b, c)
    ensures Before(o, a, c)
  {
    match o
    case FoldersThenName =>
      if a.isFolder == b.isFolder == c.isFolder {
        NameLeTransitive(a.name, b.name, c.name);
      }
    case ByName => NameLeTransitive(a.name, b.name, c.name);
    case UpdatedDesc =>
    case TrashedDesc =>
  }

  predicate Sorted(r: seq<FileRow>, o: Order) {
    forall i, j :: 0 <= i < j < |r| ==> Before(o, r[i], r[j])
  }

  /** No row appears twice: ids are pairwise different. */
  predicate DistinctIds(r: seq<FileRow>) {
    forall i, j :: 0 <= i < j < |r| ==> r[i].id != r[j].id
  }

  /** `x` placed after every row that may precede it. */
  function Insert(s: seq<FileRow>, x: FileRow, o: Order): seq<FileRow> {
    if s == [] then [x]
    else if Before(o, x, s[0]) then [x] + s
    else [s[0]] + Insert(s[1..], x, o)
  }

  lemma {:induction false} InsertContents(s: seq<FileRow>, x: FileRow, o: Order)
    ensures |Insert(s, x, o)| == |s| + 1
    ensures forall y :: y in Insert(s, x, o) <==> y == x || y in s
  {
    if s != [] && !Before(o, x, s[0]) {
      InsertContents(s[1..], x, o);
    }
  }

  /** `a` may precede every row of `s`. */
  predicate PrecedesAll(o: Order, a: FileRow, s: seq<FileRow>) {
    forall y :: y in s ==> Before(o, a, y)
  }

  lemma SortedCons(o: Order, a: FileRow, s: seq<FileRow>)
    ensures Sorted([a] + s, o) <==> PrecedesAll(o, a, s) && Sorted(s, o)
  {
    var r := [a] + s;
    if PrecedesAll(o, a, s) && Sorted(s, o) {
      forall i, j | 0 <= i < j < |r| ensures Before(o, r[i], r[j]) {
        if i == 0 { assert r[j] == s[j - 1] && s[j - 1] in s; } else { assert r[i] == s[i - 1] && r[j] == s[j - 1]; }
      }
    }
    if Sorted(r, o) {
      forall y | y in s ensures Before(o, a, y) {
        var k :| 0 <= k < |s| && s[k] == y;
        assert r[0] == a && r[k + 1] == y;
        assert Before(o, r[0], r[k + 1]);
      }
      forall i, j | 0 <= i < j < |s| ensures Before(o, s[i], s[j]) {
        assert r[i + 1] == s[i] && r[j + 1] == s[j];
      }
    }
  }

  /** Inserting into a sorted listing keeps it sorted. */
  lemma {:induction false} InsertSorted(s: seq<FileRow>, x: FileRow, o: Order)
    requires Sorted(s, o)
    ensures Sorted(Insert(s, x, o), o)
  {
    if s == [] {
    } else if Before(o, x, s[0]) {
      forall y | y in s ensures Before(o, x, y) {
        if y != s[0] {
          var k :| 0 <= k < |s| && s[k] == y;
          BeforeTransitive(o, x, s[0], y);
        }
      }
      SortedCons(o, x, s);
    } else {
      assert s == [s[0]] + s[1..];
      SortedCons(o, s[0], s[1..]);
      BeforeTotal(o, x, s[0]);
      InsertSorted(s[1..], x, o);
      InsertContents(s[1..], x, o);
      SortedCons(o, s[0], Insert(s[1..], x, o));
    }
  }

  /** Putting a row before rows with other ids keeps the ids distinct. */
  lemma ConsDistinct(h: FileRow, t: seq<FileRow>)
    requires DistinctIds(t)
    requires forall y :: y in t ==> y.id != h.id
    ensures DistinctIds([h] + t)
  {
    var r := [h] + t;
    forall i, j | 0 <= i < j < |r| ensures r[i].id != r[j].id {
      if i == 0 { assert r[j] == t[j - 1]; } else { assert r[i] == t[i - 1] && r[j] == t[j - 1]; }
    }
  }

  /** Inserting a row whose id is new keeps the ids distinct. */
  lemma {:induction false} InsertDistinct(s: seq<FileRow>, x: FileRow, o: Order)
    requires DistinctIds(s)
    requires forall y :: y in s ==> y.id != x.id
    ensures DistinctIds(Insert(s, x, o))
  {
    if s == [] {
    } else if Before(o, x, s[0]) {
      ConsDistinct(x, s);
    } else {
      var tail := s[1..];
      assert s == [s[0]] + tail;
      forall i, j | 0 <= i < j < |tail| ensures tail[i].id != tail[j].id {
        assert tail[i] == s[i + 1] && tail[j] == s[j + 1];
      }
      forall y | y in tail ensures y.id != s[0].id {
        var k :| 0 <= k < |tail| && tail[k] == y;
        assert s[k + 1] == y;
      }
      InsertDistinct(tail, x, o);
      InsertContents(tail, x, o);
      ConsDistinct(s[0], Insert(tail, x, o));
    }
  }
}
