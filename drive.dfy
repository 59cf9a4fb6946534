/** The Drive page's view state: the search filter and sort applied to the
    folder listing, the sort toggle, and the selection. */
module Drive {
  import opened Wrappers
  import opened Text
  import opened Schema

  datatype SortField = ByName | BySize | ByUpdatedAt
  datatype SortOrder = Asc | Desc

  /** The search test: the lower-cased name contains the lower-cased query. */
  predicate MatchesQuery(f: FileRow, query: string) {
    Contains(Lower(f.name), Lower(query))
  }

  /** The search step of filteredFiles: an empty query keeps the list as is. */
  function Filtered(files: seq<FileRow>, query: string): (r: seq<FileRow>)
    ensures query == "" ==> r == files
    ensures query != "" ==> forall f :: f in r <==> f in files && MatchesQuery(f, query)
    ensures forall f :: (multiset(r)[f] ==
      if query == "" || MatchesQuery(f, query) then multiset(files)[f] else 0)
    ensures |r| <= |files|
  {
    if query == "" then files
    else FilterKeeps(files, query); FilterMultiset(files, query); FilterMatching(files, query)
  }

  /** `files.filter(...)` with the search test, row by row. */
  function FilterMatching(files: seq<FileRow>, query: string): (r: seq<FileRow>)
    ensures |r| <= |files|
  {
    if files == [] then []
    else (if MatchesQuery(files[0], query) then [files[0]] else []) + FilterMatching(files[1..], query)
  }

  /** The filter keeps exactly the matching rows. */
  lemma {:induction false} FilterKeeps(files: seq<FileRow>, query: string)
    ensures forall f :: f in FilterMatching(files, query) <==> f in files && MatchesQuery(f, query)
    decreases |files|
  {
    if files != [] {
      FilterKeeps(files[1..], query);
      assert files == [files[0]] + files[1..];
    }
  }

  /** The filter keeps every matching row as often as it occurs and drops every other row. */
  lemma {:induction false} FilterMultiset(files: seq<FileRow>, query: string)
    ensures forall f :: (multiset(FilterMatching(files, query))[f] ==
      if MatchesQuery(f, query) then multiset(files)[f] else 0)
    decreases |files|
  {
    if files != [] {
      FilterMultiset(files[1..], query);
      assert files == [files[0]] + files[1..];
    }
  }

  /** The filter works row by row: nothing from nothing, one row kept exactly
      when it matches, and a concatenation filtered piecewise, so the kept rows
      stay in their order. */
  lemma {:induction false} FilterSplit(a: seq<FileRow>, b: seq<FileRow>, query: string)
    ensures FilterMatching(a + b, query) == FilterMatching(a, query) + FilterMatching(b, query)
    decreases |a|
  {
    if a == [] {
      assert a + b == b;
    } else {
      var h := if MatchesQuery(a[0], query) then [a[0]] else [];
      var x, y := FilterMatching(a[1..], query), FilterMatching(b, query);
      assert (a + b)[0] == a[0] && (a + b)[1..] == a[1..] + b;
      assert FilterMatching(a + b, query) == h + FilterMatching(a[1..] + b, query);
      FilterSplit(a[1..], b, query);
      assert FilterMatching(a, query) == h + x;
      assert h + (x + y) == (h + x) + y;
    }
  }

  /** The base cases of the filter. */
  lemma FilterBase(f: FileRow, query: string)
    ensures FilterMatching([], query) == []
    ensures FilterMatching([f], query) == (if MatchesQuery(f, query) then [f] else [])
  {
    assert [f][1..] == [];
  }

  /** An empty lower-cased query is contained in every name, so the filter would keep everything anyway. */
  lemma EmptyQueryKeepsAll(files: seq<FileRow>)
    ensures forall f :: f in files ==> MatchesQuery(f, "")
  {
    forall f | f in files ensures MatchesQuery(f, "") {
      assert WindowAt(Lower(f.name), "", 0);
      ContainsAt(Lower(f.name), "", 0);
    }
  }

  /** The comparison of one sort column, in ascending order. Names use the
      collation order, sizes and update times their difference. */
  function FieldCompare(a: FileRow, b: FileRow, field: SortField): int {
    match field
    case ByName => NameCompare(a.name, b.name)
    case BySize => a.size - b.size
    case ByUpdatedAt => a.updatedAt - b.updatedAt
  }

  /** The comparator passed to sort: folders before files, then the column, negated for `Desc`. */
  function Compare(a: FileRow, b: FileRow, field: SortField, order: SortOrder): int {
    if a.isFolder && !b.isFolder then -1
    else if !a.isFolder && b.isFolder then 1
    else
      var c := FieldCompare(a, b, field);
      if order == Asc then c else -c
  }

  /** `a` may come before `b`. */
  predicate Le(a: FileRow, b: FileRow, field: SortField, order: SortOrder) {
    Compare(a, b, field, order) <= 0
  }

  /** A folder comes before a file whatever the column and direction. */
  lemma FolderBeforeFile(a: FileRow, b: FileRow, field: SortField, order: SortOrder)
    requires a.isFolder && !b.isFolder
    ensures Compare(a, b, field, order) < 0 && Compare(b, a, field, order) > 0
  {
  }

  /** Within one kind, descending is ascending negated. */
  lemma DescReversesAsc(a: FileRow, b: FileRow, field: SortField)
    requires a.isFolder == b.isFolder
    ensures Compare(a, b, field, Desc) == -Compare(a, b, field, Asc)
  {
  }

  /** The comparator is consistent: its sign flips with its arguments. */
  lemma CompareAntisymmetric(a: FileRow, b: FileRow, field: SortField, order: SortOrder)
    ensures Compare(a, b, field, order) < 0 <==> Compare(b, a, field, order) > 0
    ensures Compare(a, b, field, order) == 0 <==> Compare(b, a, field, order) == 0
  {
  }

  lemma LeTotal(a: FileRow, b: FileRow, field: SortField, order: SortOrder)
    ensures Le(a, b, field, order) || Le(b, a, field, order)
  {
    CompareAntisymmetric(a, b, field, order);
  }

  lemma LeTransitive(a: FileRow, b: FileRow, c: FileRow, field: SortField, order: SortOrder)
    requires Le(a, b, field, order) && Le(b, c, field, order)
    ensures Le(a, c, field, order)
  {
    if a.isFolder == b.isFolder && b.isFolder == c.isFolder && field == ByName {
      if order == Asc {
        if a.name != b.name && b.name != c.name {
          NameLeTransitive(a.name, b.name, c.name);
        }
        if a.name != c.name && NameLe(c.name, a.name) {
          if a.name == b.name {
            NameLeAntisymmetric(a.name, c.name);
          } else if b.name == c.name {
            NameLeAntisymmetric(a.name, c.name);
          } else {
            NameLeTransitive(a.name, b.name, c.name);
            NameLeAntisymmetric(a.name, c.name);
          }
        }
      } else {
        if a.name != b.name && b.name != c.name {
          NameLeTransitive(c.name, b.name, a.name);
        }
        if a.name != c.name && NameLe(a.name, c.name) {
          if a.name == b.name {
            NameLeAntisymmetric(a.name, c.name);
          } else if b.name == c.name {
            NameLeAntisymmetric(a.name, c.name);
          } else {
            NameLeTransitive(c.name, b.name, a.name);
            NameLeAntisymmetric(a.name, c.name);
          }
        }
      }
    }
  }

  predicate SortedPrefix(s: seq<FileRow>, n: nat, field: SortField, order: SortOrder)
    requires n <= |s|
  {
    forall k, l :: 0 <= k < l < n ==> Le(s[k], s[l], field, order)
  }

  predicate SortedBy(s: seq<FileRow>, field: SortField, order: SortOrder) {
    SortedPrefix(s, |s|, field, order)
  }

  /** In a sorted listing no file comes before a folder. */
  lemma FoldersFirst(s: seq<FileRow>, field: SortField, order: SortOrder)
    requires SortedBy(s, field, order)
    ensures forall i, j :: 0 <= i < j < |s| && s[j].isFolder ==> s[i].isFolder
  {
  }

  /** The state of one insertion step: element `j` is on its way down from `i`;
      the parts before and after it are sorted and in order with each other and with it. */
  ghost predicate Sinking(s: seq<FileRow>, j: nat, i: nat, field: SortField, order: SortOrder)
    requires j <= i < |s|
  {
    && (forall k, l :: 0 <= k < l < j ==> Le(s[k], s[l], field, order))
    && (forall k, l :: j < k < l <= i ==> Le(s[k], s[l], field, order))
    && (forall k, l :: 0 <= k < j && j < l <= i ==> Le(s[k], s[l], field, order))
    && (forall l :: j < l <= i ==> Le(s[j], s[l], field, order))
  }

  lemma SinkStep(s: seq<FileRow>, j: nat, i: nat, field: SortField, order: SortOrder)
    requires 0 < j <= i < |s| && Sinking(s, j, i, field, order)
    requires !Le(s[j - 1], s[j], field, order)
    ensures Sinking(s[j - 1 := s[j]][j := s[j - 1]], j - 1, i, field, order)
  {
    var t := s[j - 1 := s[j]][j := s[j - 1]];
    CompareAntisymmetric(s[j - 1], s[j], field, order);
    forall l | j - 1 < l <= i ensures Le(t[j - 1], t[l], field, order) {
      if l > j {
        assert t[l] == s[l];
      }
    }
  }

  lemma SinkStart(s: seq<FileRow>, i: nat, field: SortField, order: SortOrder)
    requires i < |s| && SortedPrefix(s, i, field, order)
    ensures Sinking(s, i, i, field, order)
  {
  }

  lemma SinkEnd(s: seq<FileRow>, j: nat, i: nat, field: SortField, order: SortOrder)
    requires j <= i < |s| && Sinking(s, j, i, field, order)
    requires j == 0 || Le(s[j - 1], s[j], field, order)
    ensures SortedPrefix(s, i + 1, field, order)
  {
    forall k, l | 0 <= k < l < i + 1 ensures Le(s[k], s[l], field, order) {
      if l == j && k < j - 1 {
        LeTransitive(s[k], s[j - 1], s[j], field, order);
      }
    }
  }

  lemma SwapKeepsMultiset(s: seq<FileRow>, j: nat)
    requires 0 < j < |s|
    ensures multiset(s[j - 1 := s[j]][j := s[j - 1]]) == multiset(s)
  {
  }

  /** Exchange `a[j - 1]` and `a[j]`. */
  method Swap(a: array<FileRow>, j: nat)
    requires 0 < j < a.Length
    modifies a
    ensures a[..] == old(a[..])[j - 1 := old(a[..])[j]][j := old(a[..])[j - 1]]
  {
    a[j - 1], a[j] := a[j], a[j - 1];
  }

  /** One pass of insertion sort: move `a[i]` down into the sorted prefix `a[..i]`. */
  method SinkInto(a: array<FileRow>, i: nat, field: SortField, order: SortOrder)
    requires i < a.Length && SortedPrefix(a[..], i, field, order)
    modifies a
    ensures SortedPrefix(a[..], i + 1, field, order)
    ensures multiset(a[..]) == multiset(old(a[..]))
  {
    var j := i;
    SinkStart(a[..], i, field, order);
    while j > 0 && Compare(a[j - 1], a[j], field, order) > 0
      invariant 0 <= j <= i
      invariant Sinking(a[..], j, i, field, order)
      invariant multiset(a[..]) == multiset(old(a[..]))
      decreases j
    {
      ghost var s := a[..];
      SinkStep(s, j, i, field, order);
      SwapKeepsMultiset(s, j);
      Swap(a, j);
      j := j - 1;
    }
    SinkEnd(a[..], j, i, field, order);
  }

  /** `result.sort(comparator)`, in place; an insertion sort stands in for the engine's algorithm. */
  method SortFiles(a: array<FileRow>, field: SortField, order: SortOrder)
    modifies a
    ensures SortedBy(a[..], field, order)
    ensures multiset(a[..]) == multiset(old(a[..]))
  {
    var i := 0;
    while i < a.Length
      invariant 0 <= i <= a.Length
      invariant SortedPrefix(a[..], i, field, order)
      invariant multiset(a[..]) == multiset(old(a[..]))
    {
      SinkInto(a, i, field, order);
      i := i + 1;
    }
  }

  /** filteredFiles: a copy of the listing, filtered by the query, then sorted in place. */
  method FilteredFiles(files: seq<FileRow>, query: string, field: SortField, order: SortOrder)
    returns (result: array<FileRow>)
    ensures fresh(result)
    ensures multiset(result[..]) == multiset(Filtered(files, query))
    ensures forall f :: (multiset(result[..])[f] ==
      if query == "" || MatchesQuery(f, query) then multiset(files)[f] else 0)
    ensures SortedBy(result[..], field, order)
  {
    var r := Filtered(files, query);
    result := new FileRow[|r|](k requires 0 <= k < |r| => r[k]);
    assert result[..] == r;
    SortFiles(result, field, order);
  }

  /** handleSort's new column and direction: the same column toggles the
      direction, another column starts ascending. */
  function NextSort(field: SortField, order: SortOrder, clicked: SortField): (r: (SortField, SortOrder))
    ensures r.0 == clicked
    ensures clicked == field ==> r.1 != order
    ensures clicked != field ==> r.1 == Asc
  {
    if field == clicked then (field, if order == Asc then Desc else Asc) else (clicked, Asc)
  }

  /** Clicking the same column twice restores the sort. */
  lemma SortTwiceRestores(field: SortField, order: SortOrder)
    ensures var r := NextSort(field, order, field); NextSort(r.0, r.1, field) == (field, order)
  {
  }

  function IdsOf(files: seq<FileRow>): (ids: set<Id>)
    ensures forall id :: id in ids <==> exists i :: 0 <= i < |files| && files[i].id == id
  {
    set i | 0 <= i < |files| :: files[i].id
  }

  class DriveView {
    var sortField: SortField
    var sortOrder: SortOrder
    var selectedIds: set<Id>

    constructor ()
      ensures sortField == ByName && sortOrder == Asc && selectedIds == {}
    {
      sortField, sortOrder, selectedIds := ByName, Asc, {};
    }

    method HandleSort(clicked: SortField)
      modifies this
      ensures (sortField, sortOrder) == NextSort(old(sortField), old(sortOrder), clicked)
      ensures selectedIds == old(selectedIds)
    {
      if sortField == clicked {
        sortOrder := if sortOrder == Asc then Desc else Asc;
      } else {
        sortField := clicked;
        sortOrder := Asc;
      }
    }

    /** handleSelect: add or remove one id, keeping the rest of the selection. */
    method HandleSelect(id: Id, selected: bool)
      modifies this
      ensures selected ==> selectedIds == old(selectedIds) + {id}
      ensures !selected ==> selectedIds == old(selectedIds) - {id}
      ensures sortField == old(sortField) && sortOrder == old(sortOrder)
    {
      var next := selectedIds;
      if selected {
        next := next + {id};
      } else {
        next := next - {id};
      }
      selectedIds := next;
    }

    /** handleSelectAll over the rows currently shown: the caller passes the
        contents of the memoised listing, `FilteredFiles(files, query, sortField, sortOrder)[..]`. */
    method HandleSelectAll(shown: seq<FileRow>, selected: bool)
      modifies this
      ensures selected ==> selectedIds == IdsOf(shown)
      ensures !selected ==> selectedIds == {}
      ensures sortField == old(sortField) && sortOrder == old(sortOrder)
    {
      selectedIds := if selected then IdsOf(shown) else {};
    }
  }
}
