/**
 * Sorting with any total order, lists without duplicates, and the byte-wise order of strings that
 * comparison in Go and the default collation of SQLite share.  A stable sort stands for the library's.
 */
module Ordering {

  ghost predicate TotalOrder<T(!new)>(le: (T, T) -> bool) {
    && (forall a, b :: le(a, b) || le(b, a))
    && (forall a, b, c :: le(a, b) && le(b, c) ==> le(a, c))
  }

  ghost predicate SortedBy<T>(s: seq<T>, le: (T, T) -> bool) {
    forall i, j | 0 <= i < j < |s| :: le(s[i], s[j])
  }

  function Insert<T>(x: T, s: seq<T>, le: (T, T) -> bool): seq<T> {
    if s == [] then [x]
    else if le(x, s[0]) then [x] + s
    else [s[0]] + Insert(x, s[1..], le)
  }

  /** A stable sort. */
  function Sort<T>(s: seq<T>, le: (T, T) -> bool): seq<T> {
    if s == [] then [] else Insert(s[0], Sort(s[1..], le), le)
  }

  ghost predicate Below<T>(x: T, s: seq<T>, le: (T, T) -> bool) {
    forall i | 0 <= i < |s| :: le(x, s[i])
  }

  lemma PrependSorted<T>(x: T, s: seq<T>, le: (T, T) -> bool)
    requires SortedBy(s, le) && Below(x, s, le)
    ensures SortedBy([x] + s, le)
  {
  }

  lemma BelowSorted<T(!new)>(x: T, s: seq<T>, le: (T, T) -> bool)
    requires TotalOrder(le) && SortedBy(s, le) && s != [] && le(x, s[0])
    ensures Below(x, s, le)
  {
    forall i | 0 <= i < |s|
      ensures le(x, s[i])
    {
      assert i > 0 ==> le(s[0], s[i]);
    }
  }

  lemma {:induction false} InsertKeepsBelow<T>(x: T, s: seq<T>, le: (T, T) -> bool, y: T)
    requires Below(y, s, le) && le(y, x)
    ensures Below(y, Insert(x, s, le), le)
  {
    if s != [] && !le(x, s[0]) {
      InsertKeepsBelow(x, s[1..], le, y);
    }
  }

  lemma {:induction false} InsertAdds<T>(x: T, s: seq<T>, le: (T, T) -> bool)
    ensures multiset(Insert(x, s, le)) == multiset(s) + multiset{x}
  {
    if s != [] && !le(x, s[0]) {
      InsertAdds(x, s[1..], le);
      assert s == [s[0]] + s[1..];
    }
  }

  lemma {:induction false} InsertSorts<T(!new)>(x: T, s: seq<T>, le: (T, T) -> bool)
    requires TotalOrder(le) && SortedBy(s, le)
    ensures SortedBy(Insert(x, s, le), le)
  {
    if s != [] {
      if le(x, s[0]) {
        BelowSorted(x, s, le);
        PrependSorted(x, s, le);
      } else {
        InsertSorts(x, s[1..], le);
        InsertKeepsBelow(x, s[1..], le, s[0]);
        PrependSorted(s[0], Insert(x, s[1..], le), le);
      }
    }
  }

  lemma {:induction false} SortSorts<T(!new)>(s: seq<T>, le: (T, T) -> bool)
    requires TotalOrder(le)
    ensures SortedBy(Sort(s, le), le) && multiset(Sort(s, le)) == multiset(s) && |Sort(s, le)| == |s|
  {
    if s != [] {
      SortSorts(s[1..], le);
      InsertSorts(s[0], Sort(s[1..], le), le);
      InsertAdds(s[0], Sort(s[1..], le), le);
      assert s == [s[0]] + s[1..];
    }
    assert |Sort(s, le)| == |multiset(Sort(s, le))|;
  }

  ghost predicate NoTies<T>(s: seq<T>, le: (T, T) -> bool) {
    forall i, j | 0 <= i < |s| && 0 <= j < |s| && le(s[i], s[j]) && le(s[j], s[i]) :: s[i] == s[j]
  }

  /** Sorting forgets the original order: equal contents without ties sort to the same list. */
  lemma {:induction false} SortedIsUnique<T>(a: seq<T>, b: seq<T>, le: (T, T) -> bool)
    requires NoTies(a, le) && SortedBy(a, le) && SortedBy(b, le) && multiset(a) == multiset(b)
    ensures a == b
    decreases |a|
  {
    SameLength(a, b);
    if a != [] {
      SameHead(a, b, le);
      assert a == [a[0]] + a[1..] && b == [b[0]] + b[1..];
      assert multiset(a[1..]) == multiset(a) - multiset{a[0]} && multiset(b[1..]) == multiset(b) - multiset{b[0]};
      SortedIsUnique(a[1..], b[1..], le);
    }
  }

  lemma SameLength<T>(a: seq<T>, b: seq<T>)
    requires multiset(a) == multiset(b)
    ensures |a| == |b|
  {
    assert |multiset(a)| == |a| && |multiset(b)| == |b|;
  }

  lemma SameHead<T>(a: seq<T>, b: seq<T>, le: (T, T) -> bool)
    requires NoTies(a, le) && SortedBy(a, le) && SortedBy(b, le) && multiset(a) == multiset(b) && |a| == |b| > 0
    ensures a[0] == b[0]
  {
    assert a[0] in multiset(b) && b[0] in multiset(a);
    var i :| 0 <= i < |a| && a[i] == b[0];
    var j :| 0 <= j < |b| && b[j] == a[0];
    if i > 0 && j > 0 {
      assert le(a[0], a[i]) && le(b[0], b[j]);
    }
  }

  ghost predicate NoDuplicates<T>(s: seq<T>) {
    forall i, j | 0 <= i < j < |s| :: s[i] != s[j]
  }

  /** Lists without duplicates are equal as multisets as soon as they have the same elements. */
  lemma {:induction false} DistinctIsItsSet<T>(s: seq<T>)
    requires NoDuplicates(s)
    ensures multiset(s) == multiset(set x | x in s) && |s| == |set x | x in s|
  {
    if s != [] {
      var n := |s| - 1;
      DistinctIsItsSet(s[..n]);
      assert s == s[..n] + [s[n]];
      assert (set x | x in s) == (set x | x in s[..n]) + {s[n]};
    }
  }

  lemma OccursOnce<T>(s: seq<T>, i: nat, j: nat)
    requires i < j < |s| && multiset(s)[s[i]] <= 1
    ensures s[i] != s[j]
  {
    assert s == s[..i] + [s[i]] + s[i + 1..j] + [s[j]] + s[j + 1..];
  }

  /** A permutation of a list without duplicates has the same elements and no duplicates. */
  lemma PermutationIsDistinct<T>(a: seq<T>, b: seq<T>)
    requires NoDuplicates(a) && multiset(a) == multiset(b)
    ensures NoDuplicates(b) && forall x {:trigger x in a} {:trigger x in b} :: x in a <==> x in b
  {
    forall x
      ensures x in a <==> x in b
    {
      assert x in multiset(a) <==> x in multiset(b);
    }
    DistinctIsItsSet(a);
    forall i, j | 0 <= i < j < |b|
      ensures b[i] != b[j]
    {
      OccursOnce(b, i, j);
    }
  }

  /** Strings compare character by character; a proper prefix comes first. */
  predicate StringLE(a: string, b: string) {
    if a == [] then true
    else if b == [] then false
    else if a[0] != b[0] then a[0] < b[0]
    else StringLE(a[1..], b[1..])
  }

  predicate StringLT(a: string, b: string) {
    a != b && StringLE(a, b)
  }

  lemma StringLTIff(a: string, b: string)
    ensures StringLT(a, b) <==> !StringLE(b, a)
  {
    StringIsTotal(a, b);
    if StringLE(a, b) && StringLE(b, a) {
      StringIsAntisymmetric(a, b);
    }
  }

  lemma {:induction false} StringIsTotal(a: string, b: string)
    ensures StringLE(a, b) || StringLE(b, a)
  {
    if a != [] && b != [] {
      StringIsTotal(a[1..], b[1..]);
    }
  }

  lemma {:induction false} StringIsAntisymmetric(a: string, b: string)
    requires StringLE(a, b) && StringLE(b, a)
    ensures a == b
  {
    if a != [] {
      StringIsAntisymmetric(a[1..], b[1..]);
      assert a == [a[0]] + a[1..] && b == [b[0]] + b[1..];
    }
  }

  lemma {:induction false} StringIsTransitive(a: string, b: string, c: string)
    requires StringLE(a, b) && StringLE(b, c)
    ensures StringLE(a, c)
  {
    if a != [] && a[0] == b[0] == c[0] {
      StringIsTransitive(a[1..], b[1..], c[1..]);
    }
  }

  lemma StringOrder()
    ensures TotalOrder(StringLE)
    ensures forall a, b :: StringLE(a, b) && StringLE(b, a) ==> a == b
  {
    forall a, b
      ensures StringLE(a, b) || StringLE(b, a)
    {
      StringIsTotal(a, b);
    }
    forall a, b | StringLE(a, b) && StringLE(b, a)
      ensures a == b
    {
      StringIsAntisymmetric(a, b);
    }
    forall a, b, c | StringLE(a, b) && StringLE(b, c)
      ensures StringLE(a, c)
    {
      StringIsTransitive(a, b, c);
    }
  }

  /** The first difference decides, and it is in favour of a. */
  predicate SmallerAt(a: string, b: string, n: nat) {
    n < |a| && n < |b| && a[..n] == b[..n] && a[n] < b[n]
  }

  /** One string comes before another as its beginning, or by the smaller character where they first differ. */
  lemma {:induction false} StringLEIff(a: string, b: string)
    ensures StringLE(a, b) <==> a <= b || exists n: nat :: SmallerAt(a, b, n)
  {
    if a != [] && b != [] {
      if a[0] == b[0] {
        StringLEIff(a[1..], b[1..]);
        assert a == [a[0]] + a[1..] && b == [b[0]] + b[1..];
        forall n: nat
          ensures SmallerAt(a[1..], b[1..], n) <==> SmallerAt(a, b, n + 1)
        {
          SmallerShifts(a, b, n);
        }
        assert !SmallerAt(a, b, 0);
        if n: nat :| SmallerAt(a, b, n) {
          assert n > 0 && SmallerAt(a[1..], b[1..], n - 1);
        }
      } else if a[0] < b[0] {
        assert SmallerAt(a, b, 0);
      }
    }
  }

  lemma SmallerShifts(a: string, b: string, n: nat)
    requires a != [] && b != [] && a[0] == b[0]
    ensures SmallerAt(a[1..], b[1..], n) <==> SmallerAt(a, b, n + 1)
  {
    if n + 1 < |a| && n + 1 < |b| {
      assert a[..n + 1] == [a[0]] + a[1..][..n];
      assert b[..n + 1] == [b[0]] + b[1..][..n];
    }
  }

  /** The first difference settles the comparison. */
  lemma {:induction false} FirstDifferenceDecides(a: string, c: char, x: string, d: char, y: string)
    requires c < d
    ensures StringLE(a + [c] + x, a + [d] + y) && !StringLE(a + [d] + y, a + [c] + x)
  {
    if a != [] {
      FirstDifferenceDecides(a[1..], c, x, d, y);
      assert (a + [c] + x)[1..] == a[1..] + [c] + x && (a + [d] + y)[1..] == a[1..] + [d] + y;
    }
  }

  /** Dates written year first compare as days. */
  lemma DatesCompare(a: string, b: string)
    requires a == "2024-05-01" && b == "2024-05-02"
    ensures StringLE(a, b) && !StringLE(b, a)
  {
    FirstDifferenceDecides("2024-05-0", '1', [], '2', []);
    assert a == "2024-05-0" + ['1'] + [] && b == "2024-05-0" + ['2'] + [];
  }
}
