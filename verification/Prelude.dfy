/** Optional values, the byte-wise string order, and the theory of sorting with a
    comparator: what an unstable sort promises and when that promise fixes its result. */
module Prelude {

  datatype Option<+T> = None | Some(value: T)

  /** The order Go's `<` puts on strings; a character stands for one byte. */
  predicate StringLess(a: string, b: string) {
    if b == [] then false
    else if a == [] then true
    else a[0] < b[0] || (a[0] == b[0] && StringLess(a[1..], b[1..]))
  }

  lemma StringLessIrreflexive(a: string)
    ensures !StringLess(a, a)
  {
    if a != [] { StringLessIrreflexive(a[1..]); }
  }

  lemma {:induction false} StringLessTransitive(a: string, b: string, c: string)
    requires StringLess(a, b) && StringLess(b, c)
    ensures StringLess(a, c)
  {
    if a != [] && a[0] == b[0] && b[0] == c[0] {
      StringLessTransitive(a[1..], b[1..], c[1..]);
    }
  }

  lemma {:induction false} StringLessTotal(a: string, b: string)
    ensures a == b || StringLess(a, b) || StringLess(b, a)
  {
    if a != [] && b != [] && a[0] == b[0] {
      StringLessTotal(a[1..], b[1..]);
      assert a == [a[0]] + a[1..] && b == [b[0]] + b[1..];
    }
  }

  /** k is the first position in which the texts differ, and a is smaller there. */
  predicate LessAt(a: string, b: string, k: nat) { k < |a| && k < |b| && a[..k] == b[..k] && a[k] < b[k] }

  lemma LessAtNext(a: string, b: string, k: nat)
    requires a != [] && b != [] && a[0] == b[0]
    ensures LessAt(a, b, k + 1) <==> LessAt(a[1..], b[1..], k)
  {
    if k < |a| - 1 && k < |b| - 1 {
      assert a[..k + 1] == [a[0]] + a[1..][..k] && b[..k + 1] == [b[0]] + b[1..][..k];
      assert a[1..][..k] == a[..k + 1][1..] && b[1..][..k] == b[..k + 1][1..];
    }
  }

  /** A proper prefix comes before, and otherwise the first difference decides. */
  lemma {:induction false} StringLessIff(a: string, b: string)
    ensures StringLess(a, b) <==> a < b || exists k: nat :: LessAt(a, b, k)
  {
    if a != [] && b != [] && a[0] == b[0] {
      hide LessAt;
      StringLessIff(a[1..], b[1..]);
      assert a < b <==> a[1..] < b[1..] by { assert a == [a[0]] + a[1..] && b == [b[0]] + b[1..]; }
      NotLessAtStart(a, b);
      if k: nat :| LessAt(a, b, k) { LessAtNext(a, b, k - 1); }
      if k: nat :| LessAt(a[1..], b[1..], k) { LessAtNext(a, b, k); }
    } else if a != [] && b != [] {
      assert LessAt(a, b, 0) <==> a[0] < b[0];
    }
  }

  lemma NotLessAtStart(a: string, b: string)
    requires a != [] && b != [] && a[0] == b[0]
    ensures !LessAt(a, b, 0)
  {
  }

  /** A strict order in which any two different values are comparable. */
  ghost predicate StrictTotalOrder<T(!new)>(less: (T, T) -> bool) {
    && (forall x :: !less(x, x))
    && (forall x, y, z :: less(x, y) && less(y, z) ==> less(x, z))
    && (forall x, y :: x == y || less(x, y) || less(y, x))
  }

  lemma StringOrder()
    ensures StrictTotalOrder(StringLess)
  {
    forall x { StringLessIrreflexive(x); }
    forall x, y, z | StringLess(x, y) && StringLess(y, z) ensures StringLess(x, z) {
      StringLessTransitive(x, y, z);
    }
    forall x, y ensures x == y || StringLess(x, y) || StringLess(y, x) {
      StringLessTotal(x, y);
    }
  }

  /** What a comparator must be for a sort to mean anything: a strict partial order in
      which being incomparable is transitive. */
  ghost predicate StrictWeakOrder<T(!new)>(less: (T, T) -> bool) {
    && (forall x :: !less(x, x))
    && (forall x, y, z :: less(x, y) && less(y, z) ==> less(x, z))
    && (forall x, y, z :: less(x, z) ==> less(x, y) || less(y, z))
  }

  predicate Sorted<T>(less: (T, T) -> bool, s: seq<T>) {
    forall i, j :: 0 <= i < j < |s| ==> !less(s[j], s[i])
  }

  predicate StrictlySorted<T>(less: (T, T) -> bool, s: seq<T>) {
    forall i, j :: 0 <= i < j < |s| ==> less(s[i], s[j])
  }

  /** What a sort, stable or not, promises: the same elements, in order. */
  ghost predicate IsSortOf<T>(less: (T, T) -> bool, input: seq<T>, output: seq<T>) {
    multiset(input) == multiset(output) && Sorted(less, output)
  }

  lemma SortOfMembers<T>(less: (T, T) -> bool, input: seq<T>, output: seq<T>)
    requires IsSortOf(less, input, output)
    ensures |input| == |output|
    ensures forall x :: x in input <==> x in output
  {
    assert |multiset(input)| == |multiset(output)|;
    forall x ensures x in input <==> x in output {
      assert x in input <==> x in multiset(input);
      assert x in output <==> x in multiset(output);
    }
  }

  function Insert<T>(less: (T, T) -> bool, x: T, s: seq<T>): (r: seq<T>)
    ensures multiset(r) == multiset(s) + multiset{x}
  {
    if s == [] || !less(s[0], x) then [x] + s
    else
      assert s == [s[0]] + s[1..];
      [s[0]] + Insert(less, x, s[1..])
  }

  lemma {:induction false} InsertKeepsSorted<T(!new)>(less: (T, T) -> bool, x: T, s: seq<T>)
    requires StrictWeakOrder(less) && Sorted(less, s)
    ensures Sorted(less, Insert(less, x, s))
  {
    if s == [] {
    } else if !less(s[0], x) {
      forall k | 0 <= k < |s| ensures !less(s[k], x) {
        assert !less(s[k], s[0]) && !less(s[0], x);
      }
    } else {
      var rest := Insert(less, x, s[1..]);
      InsertKeepsSorted(less, x, s[1..]);
      forall k | 0 <= k < |rest| ensures !less(rest[k], s[0]) {
        assert rest[k] in multiset(rest);
        assert rest[k] == x || rest[k] in s[1..];
      }
    }
  }

  /** One particular sorted permutation; shows that there always is one. */
  function InsertionSort<T>(less: (T, T) -> bool, s: seq<T>): (r: seq<T>)
    ensures multiset(r) == multiset(s)
  {
    if s == [] then []
    else
      assert s == [s[0]] + s[1..];
      Insert(less, s[0], InsertionSort(less, s[1..]))
  }

  lemma {:induction false} InsertionSortSorts<T(!new)>(less: (T, T) -> bool, s: seq<T>)
    requires StrictWeakOrder(less)
    ensures IsSortOf(less, s, InsertionSort(less, s))
  {
    if s != [] {
      InsertionSortSorts(less, s[1..]);
      InsertKeepsSorted(less, s[0], InsertionSort(less, s[1..]));
    }
  }

  /** sort.Slice and slices.Sort: callers learn only that the result is some sorted
      permutation, never which one. */
  method SortSlice<T(!new)>(less: (T, T) -> bool, s: seq<T>) returns (r: seq<T>)
    requires StrictWeakOrder(less)
    ensures IsSortOf(less, s, r)
  {
    InsertionSortSorts(less, s);
    r := InsertionSort(less, s);
  }

  /** Elements the comparator cannot tell apart are the same element. */
  ghost predicate TiesAreEqual<T>(less: (T, T) -> bool, s: seq<T>) {
    forall x, y :: x in s && y in s && !less(x, y) && !less(y, x) ==> x == y
  }

  lemma TieIsEqual<T>(less: (T, T) -> bool, s: seq<T>, i: nat, j: nat)
    requires TiesAreEqual(less, s) && i < |s| && j < |s| && !less(s[i], s[j]) && !less(s[j], s[i])
    ensures s[i] == s[j]
  {
    assert s[i] in s && s[j] in s;
  }

  lemma HeadsAgree<T>(less: (T, T) -> bool, a: seq<T>, b: seq<T>)
    requires multiset(a) == multiset(b) && Sorted(less, a) && Sorted(less, b)
    requires TiesAreEqual(less, a) && a != [] && b != [] && !less(a[0], a[0]) && !less(b[0], b[0])
    ensures a[0] == b[0]
  {
    assert a[0] in multiset(b) && b[0] in multiset(a);
    var i :| 0 <= i < |a| && a[i] == b[0];
    var j :| 0 <= j < |b| && b[j] == a[0];
    assert !less(a[i], a[0]) && !less(b[j], b[0]);
  }

  lemma TailKeepsOrder<T>(less: (T, T) -> bool, s: seq<T>)
    requires Sorted(less, s) && s != []
    ensures Sorted(less, s[1..]) && (TiesAreEqual(less, s) ==> TiesAreEqual(less, s[1..]))
  {
    assert forall x :: x in s[1..] ==> x in s;
  }

  lemma {:induction false} SortedPermutationUnique<T(!new)>(less: (T, T) -> bool, a: seq<T>, b: seq<T>)
    requires StrictWeakOrder(less)
    requires multiset(a) == multiset(b) && Sorted(less, a) && Sorted(less, b)
    requires TiesAreEqual(less, a)
    ensures a == b
  {
    hide Sorted, TiesAreEqual;
    assert |a| == |multiset(a)| == |multiset(b)| == |b|;
    if a != [] {
      HeadsAgree(less, a, b);
      assert a == [a[0]] + a[1..] && b == [b[0]] + b[1..];
      assert multiset(a[1..]) == multiset(a) - multiset{a[0]} == multiset(b[1..]);
      TailKeepsOrder(less, a);
      TailKeepsOrder(less, b);
      SortedPermutationUnique(less, a[1..], b[1..]);
    }
  }

  lemma WithoutMultiset<T>(s: seq<T>, i: nat)
    requires i < |s|
    ensures multiset(s[..i] + s[i + 1..]) == multiset(s) - multiset{s[i]}
  {
    assert s == s[..i] + [s[i]] + s[i + 1..];
  }

  lemma SwapIsPermutation<T>(a: seq<T>, i: nat, j: nat)
    requires i < j < |a|
    ensures multiset(a[i := a[j]][j := a[i]]) == multiset(a)
  {
    var x, y := a[i], a[j];
    var b := a[i := y][j := x];
    var p, q, r := a[..i], a[i + 1..j], a[j + 1..];
    assert a == p + [x] + q + [y] + r;
    assert b == p + [y] + q + [x] + r;
    assert multiset(a) == multiset(p) + multiset{x} + multiset(q) + multiset{y} + multiset(r);
    assert multiset(b) == multiset(p) + multiset{y} + multiset(q) + multiset{x} + multiset(r);
  }

  /** Exchanging two tied elements of a sorted list leaves it a sorted permutation. */
  lemma SwappingTies<T(!new)>(less: (T, T) -> bool, a: seq<T>, i: nat, j: nat)
    requires StrictWeakOrder(less) && Sorted(less, a)
    requires i < j < |a| && !less(a[i], a[j])
    ensures IsSortOf(less, a, a[i := a[j]][j := a[i]])
  {
    var b := a[i := a[j]][j := a[i]];
    SwapIsPermutation(a, i, j);
    forall m, n | 0 <= m < n < |b| ensures !less(b[n], b[m]) {
      if n == j && i < m < j {
        assert !less(a[i], a[j]) && !less(a[j], a[m]);
      } else if m == i && i < n < j {
        assert !less(a[n], a[i]) && !less(a[i], a[j]);
      }
    }
  }

  /** Two different tied elements can come out in either order. */
  lemma TiesLeaveAChoice<T(!new)>(less: (T, T) -> bool, s: seq<T>, x: T, y: T) returns (a: seq<T>, b: seq<T>)
    requires StrictWeakOrder(less)
    requires x in s && y in s && !less(x, y) && !less(y, x) && x != y
    ensures IsSortOf(less, s, a) && IsSortOf(less, s, b) && a != b
  {
    a := InsertionSort(less, s);
    InsertionSortSorts(less, s);
    SortOfMembers(less, s, a);
    var i :| 0 <= i < |a| && a[i] == x;
    var j :| 0 <= j < |a| && a[j] == y;
    if j < i { i, j := j, i; }
    SwappingTies(less, a, i, j);
    b := a[i := a[j]][j := a[i]];
    assert b[i] != a[i];
  }

  /** The result of an unstable sort is the same however it breaks ties if and only if
      tied elements of the input are equal. */
  lemma SortDeterminedIff<T(!new)>(less: (T, T) -> bool, s: seq<T>)
    requires StrictWeakOrder(less)
    ensures (forall a, b :: IsSortOf(less, s, a) && IsSortOf(less, s, b) ==> a == b)
       <==> TiesAreEqual(less, s)
  {
    if TiesAreEqual(less, s) {
      forall a, b | IsSortOf(less, s, a) && IsSortOf(less, s, b) ensures a == b {
        SortOfMembers(less, s, a);
        assert TiesAreEqual(less, a);
        SortedPermutationUnique(less, a, b);
      }
    } else {
      var x, y :| x in s && y in s && !less(x, y) && !less(y, x) && x != y;
      var a, b := TiesLeaveAChoice(less, s, x, y);
    }
  }

  /** strings.TrimPrefix. */
  function TrimPrefix(s: string, prefix: string): string { if prefix <= s then s[|prefix|..] else s }

  // ---------- enumerating sets and mapping lists ----------

  /** order lists every member of s exactly once: one run of a loop over a map's keys. */
  ghost predicate Enumerates<T>(order: seq<T>, s: set<T>) {
    && (forall i, j :: 0 <= i < j < |order| ==> order[i] != order[j])
    && (forall x :: x in order ==> x in s)
    && (forall x :: x in s ==> x in order)
  }

  lemma {:induction false} EnumerationMultiset<T>(order: seq<T>, s: set<T>)
    requires Enumerates(order, s)
    ensures multiset(order) == multiset(s)
  {
    if order != [] {
      var n := |order| - 1;
      assert order == order[..n] + [order[n]];
      assert forall x :: x in order[..n] <==> x in s - {order[n]};
      EnumerationMultiset(order[..n], s - {order[n]});
      assert s == s - {order[n]} + {order[n]};
    } else {
      assert s == {} by { assert forall x :: x !in s; }
    }
  }

  ghost function EnumerationOf<T(!new)>(s: set<T>): (order: seq<T>)
    ensures Enumerates(order, s)
  {
    if s == {} then [] else
      var x :| x in s;
      EnumerationOf(s - {x}) + [x]
  }

  function Map<A, B>(f: A -> B, s: seq<A>): (r: seq<B>)
    ensures |r| == |s| && forall i :: 0 <= i < |s| ==> r[i] == f(s[i])
  {
    seq(|s|, i requires 0 <= i < |s| => f(s[i]))
  }

  lemma {:induction false} MapPermutation<A, B>(f: A -> B, a: seq<A>, b: seq<A>)
    requires multiset(a) == multiset(b)
    ensures multiset(Map(f, a)) == multiset(Map(f, b))
  {
    if a == [] {
      assert |b| == |multiset(b)| == 0;
    } else {
      var i := FindHead(a, b);
      MapPermutation(f, a[1..], b[..i] + b[i + 1..]);
      MapWithout(f, b, i);
      assert Map(f, a) == [f(a[0])] + Map(f, a[1..]);
    }
  }

  lemma FindHead<T>(a: seq<T>, b: seq<T>) returns (i: nat)
    requires a != [] && multiset(a) == multiset(b)
    ensures i < |b| && b[i] == a[0]
    ensures multiset(a[1..]) == multiset(b[..i] + b[i + 1..])
  {
    assert a[0] in multiset(b);
    i :| 0 <= i < |b| && b[i] == a[0];
    WithoutMultiset(b, i);
    assert a == [a[0]] + a[1..];
  }

  lemma FindLast<T>(a: seq<T>, b: seq<T>) returns (i: nat)
    requires a != [] && multiset(a) == multiset(b)
    ensures i < |b| && b[i] == a[|a| - 1]
    ensures multiset(a[..|a| - 1]) == multiset(b[..i] + b[i + 1..])
  {
    var last := a[|a| - 1];
    assert last in multiset(b);
    i :| 0 <= i < |b| && b[i] == last;
    WithoutMultiset(b, i);
    assert a == a[..|a| - 1] + [last];
  }

  lemma MapWithout<A, B>(f: A -> B, s: seq<A>, i: nat)
    requires i < |s|
    ensures multiset(Map(f, s)) == multiset(Map(f, s[..i] + s[i + 1..])) + multiset{f(s[i])}
  {
    var m := Map(f, s);
    assert m == m[..i] + [f(s[i])] + m[i + 1..];
    assert Map(f, s[..i] + s[i + 1..]) == m[..i] + m[i + 1..];
  }

  lemma SameMembersBothEmpty<T(!new)>(a: seq<T>, b: seq<T>)
    requires forall x :: x in a <==> x in b
    ensures a == [] <==> b == []
  {
    if a != [] { assert a[0] in a; }
    if b != [] { assert b[0] in b; }
  }

  /** A strictly sorted list is determined by its set of members. */
  lemma {:induction false} StrictlySortedUnique<T(!new)>(less: (T, T) -> bool, a: seq<T>, b: seq<T>)
    requires StrictWeakOrder(less) && StrictlySorted(less, a) && StrictlySorted(less, b)
    requires forall x :: x in a <==> x in b
    ensures a == b
  {
    SameMembersBothEmpty(a, b);
    if a != [] {
      assert a[0] in b && b[0] in a;
      assert a[0] == b[0];
      assert a == [a[0]] + a[1..] && b == [b[0]] + b[1..];
      forall x ensures x in a[1..] <==> x in b[1..] {
        assert x in a <==> x == a[0] || x in a[1..];
        assert x in b <==> x == b[0] || x in b[1..];
        assert a[0] !in a[1..] && b[0] !in b[1..];
      }
      StrictlySortedUnique(less, a[1..], b[1..]);
    }
  }

  lemma TotalOrderTies<T(!new)>(less: (T, T) -> bool, s: seq<T>)
    requires StrictTotalOrder(less)
    ensures TiesAreEqual(less, s)
  {
  }

  lemma TotalIsWeak<T(!new)>(less: (T, T) -> bool)
    requires StrictTotalOrder(less)
    ensures StrictWeakOrder(less)
  {
    forall x, y, z | less(x, z) ensures less(x, y) || less(y, z) {
      assert x == y || less(x, y) || less(y, x);
    }
  }

  lemma StringOrderIsWeak()
    ensures StrictWeakOrder(StringLess)
  {
    StringOrder();
    TotalIsWeak(StringLess);
  }

  lemma TotalSortUnique<T(!new)>(less: (T, T) -> bool, s: seq<T>, a: seq<T>, b: seq<T>)
    requires StrictTotalOrder(less) && IsSortOf(less, s, a) && IsSortOf(less, s, b)
    ensures a == b
  {
    TotalIsWeak(less);
    TotalOrderTies(less, a);
    SortedPermutationUnique(less, a, b);
  }

  /** Sorting strings has one result. */
  lemma StringSortUnique(s: seq<string>, sorted: seq<string>)
    requires IsSortOf(StringLess, s, sorted)
    ensures sorted == InsertionSort(StringLess, s)
  {
    StringOrder();
    TotalIsWeak(StringLess);
    InsertionSortSorts(StringLess, s);
    TotalSortUnique(StringLess, s, sorted, InsertionSort(StringLess, s));
  }

  /** Comparing by a totally ordered key is a weak order that ties exactly on equal keys. */
  lemma KeyOrder<T(!new), K(!new)>(less: (T, T) -> bool, key: T -> K, keyLess: (K, K) -> bool)
    requires StrictTotalOrder(keyLess)
    requires forall x, y :: less(x, y) <==> keyLess(key(x), key(y))
    ensures StrictWeakOrder(less)
    ensures forall x, y :: !less(x, y) && !less(y, x) <==> key(x) == key(y)
  {
    TotalIsWeak(keyLess);
    forall x, y, z | less(x, z) ensures less(x, y) || less(y, z) {
      assert keyLess(key(x), key(y)) || keyLess(key(y), key(z));
    }
    forall x, y ensures !less(x, y) && !less(y, x) <==> key(x) == key(y) {
      assert key(x) == key(y) || keyLess(key(x), key(y)) || keyLess(key(y), key(x));
    }
  }

  /** The members of a finite set of strings in increasing order. */
  ghost function SortedSet(s: set<string>): (r: seq<string>)
    ensures StrictlySorted(StringLess, r)
    ensures forall x :: x in r <==> x in s
  {
    var order := EnumerationOf(s);
    StringOrder();
    TotalIsWeak(StringLess);
    InsertionSortSorts(StringLess, order);
    SortedDistinct(StringLess, order, InsertionSort(StringLess, order), s);
    InsertionSort(StringLess, order)
  }

  lemma OccursTwice<T>(s: seq<T>, i: nat, j: nat)
    requires i < j < |s| && s[i] == s[j]
    ensures multiset(s)[s[i]] >= 2
  {
    assert s == s[..i] + [s[i]] + s[i + 1..j] + [s[j]] + s[j + 1..];
  }

  /** Sorting a list without repetitions leaves no ties. */
  lemma SortedDistinct<T(!new)>(less: (T, T) -> bool, s: seq<T>, r: seq<T>, members: set<T>)
    requires StrictTotalOrder(less)
    requires Enumerates(s, members) && IsSortOf(less, s, r)
    ensures StrictlySorted(less, r)
    ensures forall x :: x in r <==> x in members
  {
    EnumerationMultiset(s, members);
    SortOfMembers(less, s, r);
    forall i, j | 0 <= i < j < |r| ensures less(r[i], r[j]) {
      assert multiset(r)[r[i]] <= 1;
      assert r[i] != r[j] by { if r[i] == r[j] { OccursTwice(r, i, j); } }
    }
  }

  lemma SortedStrings(s: seq<string>, r: seq<string>, members: set<string>)
    requires Enumerates(s, members) && IsSortOf(StringLess, s, r)
    ensures r == SortedSet(members)
  {
    StringOrder();
    TotalIsWeak(StringLess);
    SortedDistinct(StringLess, s, r, members);
    StrictlySortedUnique(StringLess, r, SortedSet(members));
  }
}
