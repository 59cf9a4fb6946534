/** The string operations the system relies on: JavaScript's `toLowerCase`,
    `startsWith`, `includes`, `trim` and `lastIndexOf`, and the order in which
    names are collated (by the database's ORDER BY and by `localeCompare`). */
module Text {

  /** Upper-case letters; `toLowerCase` is modelled on the ASCII range only. */
  predicate IsUpper(c: char) { 'A' <= c <= 'Z' }

  function LowerChar(c: char): (r: char)
    ensures !IsUpper(r)
    ensures IsUpper(c) ==> r as int == c as int + 32
    ensures !IsUpper(c) ==> r == c
  {
    if IsUpper(c) then (c as int + 32) as char else c
  }

  /** `s.toLowerCase()`: every character mapped on its own. */
  function Lower(s: string): (r: string)
    ensures |r| == |s|
    ensures forall i :: 0 <= i < |s| ==> r[i] == LowerChar(s[i])
    ensures forall i :: 0 <= i < |r| ==> !IsUpper(r[i])
  {
    if s == [] then [] else [LowerChar(s[0])] + Lower(s[1..])
  }

  lemma LowerIdempotent(s: string)
    ensures Lower(Lower(s)) == Lower(s)
  {
    assert forall i :: 0 <= i < |s| ==> Lower(Lower(s))[i] == Lower(s)[i];
  }

  /** `s.startsWith(p)`. */
  predicate StartsWith(s: string, p: string) {
    |p| <= |s| && s[..|p|] == p
  }

  /** `s.includes(p)`: some window of `s` spells `p`. */
  predicate Contains(s: string, p: string)
    decreases |s|
  {
    if |s| < |p| then false
    else if s[..|p|] == p then true
    else Contains(s[1..], p)
  }

  /** `p` is spelled by the window of `s` that starts at index `i`. */
  predicate WindowAt(s: string, p: string, i: nat) {
    i + |p| <= |s| && s[i..i + |p|] == p
  }

  /** A window at index `i` that spells `p` is enough for `Contains`. */
  lemma {:induction false} ContainsAt(s: string, p: string, i: nat)
    requires WindowAt(s, p, i)
    ensures Contains(s, p)
    decreases i
  {
    if s[..|p|] != p {
      assert i > 0;
      assert s[1..][i - 1..i - 1 + |p|] == s[i..i + |p|];
      ContainsAt(s[1..], p, i - 1);
    }
  }

  /** `Contains` finds exactly the windows that spell `p`. */
  lemma {:induction false} ContainsIff(s: string, p: string)
    ensures Contains(s, p) <==> exists i: nat :: WindowAt(s, p, i)
    decreases |s|
  {
    if |s| >= |p| {
      if s[..|p|] == p {
        assert WindowAt(s, p, 0);
      } else {
        ContainsIff(s[1..], p);
        if Contains(s, p) {
          var i: nat :| WindowAt(s[1..], p, i);
          assert s[1..][i..i + |p|] == s[i + 1..i + 1 + |p|];
          assert WindowAt(s, p, i + 1);
        } else {
          forall i: nat | WindowAt(s, p, i)
            ensures false
          {
            ContainsAt(s, p, i);
          }
        }
      }
    } else {
      forall i: nat | WindowAt(s, p, i)
        ensures false
      {
      }
    }
  }

  /** The characters `String.prototype.trim` removes, as far as this model goes. */
  predicate IsSpace(c: char) {
    c == ' ' || c == '\t' || c == '\n' || c == '\r' || c == '\U{B}' || c == '\U{C}'
    || c == '\U{A0}' || c == '\U{FEFF}'
  }

  predicate IsBlank(s: string) {
    forall i :: 0 <= i < |s| ==> IsSpace(s[i])
  }

  /** Index of the first non-space character at or after `i`, or `|s|`. */
  function SkipSpaces(s: string, i: nat): (j: nat)
    requires i <= |s|
    ensures i <= j <= |s|
    ensures forall k :: i <= k < j ==> IsSpace(s[k])
    ensures j < |s| ==> !IsSpace(s[j])
    decreases |s| - i
  {
    if i < |s| && IsSpace(s[i]) then SkipSpaces(s, i + 1) else i
  }

  /** End of `s[lo..j]` once its trailing spaces are dropped. */
  function DropTrailing(s: string, lo: nat, j: nat): (e: nat)
    requires lo <= j <= |s|
    ensures lo <= e <= j
    ensures forall k :: e <= k < j ==> IsSpace(s[k])
    ensures e > lo ==> !IsSpace(s[e - 1])
    decreases j
  {
    if j > lo && IsSpace(s[j - 1]) then DropTrailing(s, lo, j - 1) else j
  }

  /** `s.trim()`: the slice of `s` left once leading and trailing spaces go. */
  function Trim(s: string): (r: string)
    ensures IsBlank(s) <==> r == []
    ensures r != [] ==> !IsSpace(r[0]) && !IsSpace(r[|r| - 1])
    ensures |r| <= |s|
    ensures exists i, e :: (0 <= i <= e <= |s| && r == s[i..e]
      && (forall k :: 0 <= k < i ==> IsSpace(s[k])) && (forall k :: e <= k < |s| ==> IsSpace(s[k])))
  {
    var i := SkipSpaces(s, 0);
    var e := DropTrailing(s, i, |s|);
    assert i == e ==> IsBlank(s) by {
      if i == e {
        forall k | 0 <= k < |s| ensures IsSpace(s[k]) {
          if k >= e {} else {}
        }
      }
    }
    s[i..e]
  }

  /** Trimming twice is trimming once. */
  lemma TrimIdempotent(s: string)
    ensures Trim(Trim(s)) == Trim(s)
  {
    var t := Trim(s);
    if t != [] {
      assert SkipSpaces(t, 0) == 0;
      assert DropTrailing(t, 0, |t|) == |t|;
    }
  }

  /** `s.lastIndexOf(c)`: the last index holding `c`, or -1. */
  function LastIndexOf(s: string, c: char): (r: int)
    ensures -1 <= r < |s|
    ensures r >= 0 ==> s[r] == c && forall k :: r < k < |s| ==> s[k] != c
    ensures r == -1 ==> forall k :: 0 <= k < |s| ==> s[k] != c
  {
    if s == [] then -1
    else if s[|s| - 1] == c then |s| - 1
    else LastIndexOf(s[..|s| - 1], c)
  }

  /** Collation of names: lexicographic order on code points. It stands in for
      the database collation behind `ORDER BY name` and for `localeCompare`. */
  predicate NameLe(a: string, b: string) {
    if a == [] then true
    else if b == [] then false
    else if a[0] != b[0] then a[0] < b[0]
    else NameLe(a[1..], b[1..])
  }

  lemma {:induction false} NameLeTotal(a: string, b: string)
    ensures NameLe(a, b) || NameLe(b, a)
  {
    if a != [] && b != [] && a[0] == b[0] {
      NameLeTotal(a[1..], b[1..]);
    }
  }

  lemma {:induction false} NameLeTransitive(a: string, b: string, c: string)
    requires NameLe(a, b) && NameLe(b, c)
    ensures NameLe(a, c)
  {
    if a != [] && b != [] && c != [] && a[0] == b[0] && b[0] == c[0] {
      NameLeTransitive(a[1..], b[1..], c[1..]);
    }
  }

  lemma {:induction false} NameLeAntisymmetric(a: string, b: string)
    requires NameLe(a, b) && NameLe(b, a)
    ensures a == b
  {
    if a != [] && b != [] {
      NameLeAntisymmetric(a[1..], b[1..]);
      assert a == [a[0]] + a[1..] && b == [b[0]] + b[1..];
    }
  }

  /** `a.localeCompare(b)` under the collation above: negative, zero or positive. */
  function NameCompare(a: string, b: string): (r: int)
    ensures r == 0 <==> a == b
    ensures r < 0 <==> a != b && NameLe(a, b)
    ensures r > 0 <==> a != b && NameLe(b, a)
  {
    NameLeTotal(a, b);
    assert a != b && NameLe(a, b) ==> !NameLe(b, a) by {
      if a != b && NameLe(a, b) && NameLe(b, a) { NameLeAntisymmetric(a, b); }
    }
    if a == b then 0 else if NameLe(a, b) then -1 else 1
  }
}
