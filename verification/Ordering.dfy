/** Text order, stable sorting, and the fact that a duplicate-free sorted list is
    determined by its elements.  `sorted`, `list.sort` and SQL's ORDER BY are all this. */
module Ordering {

  // ---------------------------------------------------------------- text

  /** Text compares code point by code point; a proper prefix comes first. */
  predicate TextLe(a: string, b: string) {
    a == [] || (b != [] && (a[0] < b[0] || (a[0] == b[0] && TextLe(a[1..], b[1..]))))
  }

  predicate TextLt(a: string, b: string) {
    a != b && TextLe(a, b)
  }

  lemma {:induction false} TextLeTotal(a: string, b: string)
    ensures TextLe(a, a)
    ensures TextLe(a, b) || TextLe(b, a)
  {
    if a != [] {
      TextLeTotal(a[1..], if b == [] then b else b[1..]);
    }
  }

  lemma {:induction false} TextLeAntisymmetric(a: string, b: string)
    requires TextLe(a, b) && TextLe(b, a)
    ensures a == b
  {
    if a != [] {
      TextLeAntisymmetric(a[1..], b[1..]);
      assert a == [a[0]] + a[1..] && b == [b[0]] + b[1..];
    }
  }

  lemma {:induction false} TextLeTransitive(a: string, b: string, c: string)
    requires TextLe(a, b) && TextLe(b, c)
    ensures TextLe(a, c)
  {
    if a != [] && a[0] == b[0] == c[0] {
      TextLeTransitive(a[1..], b[1..], c[1..]);
    }
  }

  lemma TextLeIsTotalOrder()
    ensures TotalPreorder(TextLe)
    ensures forall a, b :: TextLe(a, b) && TextLe(b, a) ==> a == b
  {
    forall a, b ensures TextLe(a, a) && (TextLe(a, b) || TextLe(b, a)) {
      TextLeTotal(a, b);
    }
    forall a, b | TextLe(a, b) && TextLe(b, a) ensures a == b {
      TextLeAntisymmetric(a, b);
    }
    forall a, b, c | TextLe(a, b) && TextLe(b, c) ensures TextLe(a, c) {
      TextLeTransitive(a, b, c);
    }
  }

  /** A proper beginning comes first; otherwise the first character that differs decides. */
  lemma {:induction false} TextOrder(common: string, a: string, b: string)
    ensures TextLe(common, common + a)
    ensures a != "" && b != "" && a[0] < b[0] ==> TextLt(common + a, common + b) && !TextLe(common + b, common + a)
  {
    if common != "" {
      assert (common + a)[1..] == common[1..] + a && (common + b)[1..] == common[1..] + b;
      TextOrder(common[1..], a, b);
    } else {
      assert common + a == a && common + b == b;
    }
  }

  /** The first separator of a joined text ends its head, if the head has none. */
  lemma HeadBefore(sep: char, a: string, b: string, x: string, y: string)
    requires sep !in a && sep !in b && a + [sep] + x == b + [sep] + y
    ensures a == b && x == y
  {
    var s, t := a + [sep] + x, b + [sep] + y;
    assert s[|a|] == sep && t[|b|] == sep;
    assert forall i :: 0 <= i < |a| ==> s[i] == a[i] != sep;
    assert forall i :: 0 <= i < |b| ==> t[i] == b[i] != sep;
    assert s[..|a|] == a && t[..|b|] == b;
    assert s[|a| + 1..] == x && t[|b| + 1..] == y;
  }

  // ---------------------------------------------------------------- orders and lists

  ghost predicate TotalPreorder<T(!new)>(le: (T, T) -> bool) {
    && (forall x :: le(x, x))
    && (forall x, y :: le(x, y) || le(y, x))
    && (forall x, y, z :: le(x, y) && le(y, z) ==> le(x, z))
  }

  ghost predicate Sorted<T>(s: seq<T>, le: (T, T) -> bool) {
    forall i, j :: 0 <= i < j < |s| ==> le(s[i], s[j])
  }

  ghost predicate NoDuplicates<T>(s: seq<T>) {
    forall i, j :: 0 <= i < j < |s| ==> s[i] != s[j]
  }

  lemma NoDuplicatesConcat<T>(a: seq<T>, b: seq<T>)
    requires NoDuplicates(a) && NoDuplicates(b) && Elements(a) !! Elements(b)
    ensures NoDuplicates(a + b)
    ensures Elements(a + b) == Elements(a) + Elements(b)
  {
    forall i, j | 0 <= i < j < |a + b| ensures (a + b)[i] != (a + b)[j] {
      if i < |a| <= j {
        assert a[i] in Elements(a) && b[j - |a|] in Elements(b);
      }
    }
  }

  function Elements<T>(s: seq<T>): set<T> {
    set x | x in s
  }

  lemma {:induction false} DistinctCount<T>(s: seq<T>)
    requires NoDuplicates(s)
    ensures |Elements(s)| == |s|
  {
    if s != [] {
      DistinctCount(s[1..]);
      assert Elements(s) == {s[0]} + Elements(s[1..]);
    }
  }

  function Filter<T(!new)>(s: seq<T>, keep: T -> bool): (r: seq<T>)
    ensures forall x :: x in r <==> x in s && keep(x)
  {
    if s == [] then [] else
      (if keep(s[0]) then [s[0]] else []) + Filter(s[1..], keep)
  }

  lemma {:induction false} FilterSplits<T(!new)>(a: seq<T>, b: seq<T>, keep: T -> bool)
    ensures Filter(a + b, keep) == Filter(a, keep) + Filter(b, keep)
  {
    if a == [] {
      assert a + b == b;
    } else {
      assert (a + b)[1..] == a[1..] + b;
      FilterSplits(a[1..], b, keep);
    }
  }

  /** A filtered list keeps the relative order of what it keeps. */
  lemma {:induction false} FilterKeepsOrder<T(!new)>(s: seq<T>, keep: T -> bool, le: (T, T) -> bool)
    ensures Sorted(s, le) ==> Sorted(Filter(s, keep), le)
    ensures NoDuplicates(s) ==> NoDuplicates(Filter(s, keep))
  {
    if s != [] {
      FilterKeepsOrder(s[1..], keep, le);
      var rest := Filter(s[1..], keep);
      forall x | x in rest
        ensures Sorted(s, le) ==> le(s[0], x)
        ensures NoDuplicates(s) ==> s[0] != x
      {
        var i :| 0 <= i < |s[1..]| && s[1..][i] == x;
        assert s[i + 1] == x;
      }
      assert Sorted(s, le) ==> Sorted(s[1..], le);
      assert NoDuplicates(s) ==> NoDuplicates(s[1..]);
    }
  }

  // ---------------------------------------------------------------- stable sort

  function Insert<T>(x: T, s: seq<T>, le: (T, T) -> bool): (r: seq<T>)
    ensures multiset(r) == multiset(s) + multiset{x}
  {
    if s == [] || le(x, s[0]) then [x] + s
    else
      assert s == [s[0]] + s[1..];
      [s[0]] + Insert(x, s[1..], le)
  }

  /** A stable sort: an item goes before the later items it ties with. */
  function Sort<T>(s: seq<T>, le: (T, T) -> bool): (r: seq<T>)
    ensures multiset(r) == multiset(s)
    ensures |r| == |s|
  {
    if s == [] then [] else
      assert s == [s[0]] + s[1..];
      var r := Insert(s[0], Sort(s[1..], le), le);
      MultisetSize(r, s);
      r
  }

  lemma RemoveMembers<T>(s: seq<T>, k: nat)
    requires k < |s|
    ensures multiset(s[..k] + s[k + 1..]) == multiset(s) - multiset{s[k]}
  {
    assert s == s[..k] + [s[k]] + s[k + 1..];
  }

  lemma MultisetSize<T>(a: seq<T>, b: seq<T>)
    requires multiset(a) == multiset(b)
    ensures |a| == |b|
  {
    assert |a| == |multiset(a)| && |b| == |multiset(b)|;
  }

  lemma {:induction false} InsertSorts<T(!new)>(x: T, s: seq<T>, le: (T, T) -> bool)
    requires TotalPreorder(le) && Sorted(s, le)
    ensures Sorted(Insert(x, s, le), le)
  {
    if s != [] && !le(x, s[0]) {
      InsertSorts(x, s[1..], le);
      var rest := Insert(x, s[1..], le);
      forall y | y in rest ensures le(s[0], y) {
        assert y in multiset(rest);
        assert y == x || y in s[1..];
      }
    }
  }

  lemma {:induction false} SortSorts<T(!new)>(s: seq<T>, le: (T, T) -> bool)
    requires TotalPreorder(le)
    ensures Sorted(Sort(s, le), le)
  {
    if s != [] {
      SortSorts(s[1..], le);
      InsertSorts(s[0], Sort(s[1..], le), le);
    }
  }

  lemma SameMultisetSameMembers<T>(a: seq<T>, b: seq<T>)
    requires multiset(a) == multiset(b)
    ensures forall x :: x in a <==> x in b
    ensures Elements(a) == Elements(b)
    ensures NoDuplicates(a) ==> NoDuplicates(b)
  {
    forall x ensures x in a <==> x in b {
      assert x in a <==> x in multiset(a);
      assert x in b <==> x in multiset(b);
    }
    if NoDuplicates(a) {
      forall i, j | 0 <= i < j < |b| ensures b[i] != b[j] {
        if b[i] == b[j] {
          assert b == b[..j] + [b[j]] + b[j + 1..];
          assert b[i] in b[..j];
          assert multiset(b)[b[j]] >= 2;
          NoDuplicatesCounts(a, b[j]);
        }
      }
    }
  }

  lemma {:induction false} NoDuplicatesCounts<T>(a: seq<T>, x: T)
    requires NoDuplicates(a)
    ensures multiset(a)[x] <= 1
  {
    if a != [] {
      NoDuplicatesCounts(a[1..], x);
      assert a == [a[0]] + a[1..];
      if x == a[0] { assert x !in a[1..]; }
    }
  }

  lemma {:induction false} FilterOfInsert<T(!new)>(x: T, s: seq<T>, le: (T, T) -> bool, keep: T -> bool)
    ensures |Filter(Insert(x, s, le), keep)| == |Filter(s, keep)| + (if keep(x) then 1 else 0)
  {
    if s == [] || le(x, s[0]) {
      FilterSplits([x], s, keep);
    } else {
      FilterOfInsert(x, s[1..], le, keep);
    }
  }

  /** Sorting changes no count. */
  lemma {:induction false} FilterOfSort<T(!new)>(s: seq<T>, le: (T, T) -> bool, keep: T -> bool)
    ensures |Filter(Sort(s, le), keep)| == |Filter(s, keep)|
  {
    if s != [] {
      FilterOfSort(s[1..], le, keep);
      FilterOfInsert(s[0], Sort(s[1..], le), le, keep);
    }
  }

  /** Where `le` ties nothing but equals, the sorted list is fixed by what is in it and how often. */
  lemma {:induction false} SortOfPermutation<T(!new)>(a: seq<T>, b: seq<T>, le: (T, T) -> bool)
    requires multiset(a) == multiset(b) && TotalPreorder(le)
    requires forall x, y :: le(x, y) && le(y, x) ==> x == y
    ensures Sort(a, le) == Sort(b, le)
  {
    SortSorts(a, le);
    SortSorts(b, le);
    SortedIsFixed(Sort(a, le), Sort(b, le), le);
  }

  lemma {:induction false} SortedIsFixed<T(!new)>(a: seq<T>, b: seq<T>, le: (T, T) -> bool)
    requires multiset(a) == multiset(b) && Sorted(a, le) && Sorted(b, le)
    requires TotalPreorder(le) && forall x, y :: le(x, y) && le(y, x) ==> x == y
    ensures a == b
  {
    MultisetSize(a, b);
    if a != [] {
      SameHead(a, b, le);
      SameTail(a, b);
      SortedIsFixed(a[1..], b[1..], le);
      assert a == [a[0]] + a[1..] && b == [b[0]] + b[1..];
    }
  }

  lemma SameHead<T(!new)>(a: seq<T>, b: seq<T>, le: (T, T) -> bool)
    requires multiset(a) == multiset(b) && Sorted(a, le) && Sorted(b, le) && a != [] && b != []
    requires forall x, y :: le(x, y) && le(y, x) ==> x == y
    ensures a[0] == b[0]
  {
    SameMultisetSameMembers(a, b);
    assert a[0] in a && b[0] in b;
    FirstIsLeast(a, b[0], le);
    FirstIsLeast(b, a[0], le);
  }

  lemma SameTail<T>(a: seq<T>, b: seq<T>)
    requires multiset(a) == multiset(b) && a != [] && b != [] && a[0] == b[0]
    ensures multiset(a[1..]) == multiset(b[1..])
  {
    assert a == [a[0]] + a[1..] && b == [b[0]] + b[1..];
    assert multiset(a) == multiset{a[0]} + multiset(a[1..]);
    assert multiset(b) == multiset{b[0]} + multiset(b[1..]);
    assert multiset(a[1..]) == multiset(a) - multiset{a[0]};
  }

  /** Sorting keeps the members, and keeps them distinct. */
  lemma SortFacts<T(!new)>(s: seq<T>, le: (T, T) -> bool)
    requires TotalPreorder(le)
    ensures Sorted(Sort(s, le), le)
    ensures forall x :: x in Sort(s, le) <==> x in s
    ensures NoDuplicates(s) ==> NoDuplicates(Sort(s, le))
  {
    SortSorts(s, le);
    SameMultisetSameMembers(s, Sort(s, le));
  }

  lemma FirstIsLeast<T>(s: seq<T>, x: T, le: (T, T) -> bool)
    requires Sorted(s, le) && x in s
    ensures x == s[0] || le(s[0], x)
  {
  }

  /** Where `le` never ties two members, the sorted list is fixed by its members alone. */
  lemma {:induction false} SortedListIsUnique<T>(a: seq<T>, b: seq<T>, le: (T, T) -> bool)
    requires Sorted(a, le) && Sorted(b, le)
    requires NoDuplicates(a) && NoDuplicates(b)
    requires forall x :: x in a <==> x in b
    requires forall x, y :: x in a && y in a && le(x, y) && le(y, x) ==> x == y
    ensures a == b
  {
    assert a != [] ==> a[0] in b;
    assert b != [] ==> b[0] in a;
    if a != [] {
      FirstIsLeast(a, b[0], le);
      FirstIsLeast(b, a[0], le);
      assert a[0] == b[0];
      forall x ensures x in a[1..] <==> x in b[1..] {
        assert x in a <==> x == a[0] || x in a[1..];
        assert x in b <==> x == b[0] || x in b[1..];
        assert a[0] !in a[1..] && b[0] !in b[1..];
      }
      SortedListIsUnique(a[1..], b[1..], le);
      assert a == [a[0]] + a[1..] && b == [b[0]] + b[1..];
    }
  }
}
