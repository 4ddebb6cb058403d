/** Byte-wise lexicographic order of `std::string`, duplicate-free sequences, and the ordered containers built on them.
    A `char` stands for one byte. Sorting is stated by order and multiset alone, as `std::sort` leaves the order of
    equals open; sets and map keys are visited in ascending order. */
module Orders {

  // ----- strings under operator< -----

  predicate Lt(a: string, b: string) {
    b != [] && (a == [] || a[0] < b[0] || (a[0] == b[0] && Lt(a[1..], b[1..])))
  }

  lemma {:induction false} LtIrreflexive(a: string)
    ensures !Lt(a, a)
  {
    if a != [] { LtIrreflexive(a[1..]); }
  }

  lemma {:induction false} LtTransitive(a: string, b: string, c: string)
    requires Lt(a, b) && Lt(b, c)
    ensures Lt(a, c)
  {
    if a != [] && a[0] == b[0] == c[0] { LtTransitive(a[1..], b[1..], c[1..]); }
  }

  lemma {:induction false} LtTotal(a: string, b: string)
    ensures a == b || Lt(a, b) || Lt(b, a)
  {
    if a != [] && b != [] && a[0] == b[0] {
      LtTotal(a[1..], b[1..]);
      assert a == [a[0]] + a[1..] && b == [b[0]] + b[1..];
    }
  }

  lemma LtAsymmetric(a: string, b: string)
    requires Lt(a, b)
    ensures !Lt(b, a) && a != b
  {
    LtIrreflexive(a);
    if Lt(b, a) { LtTransitive(a, b, a); }
  }

  /** The strings agree up to here, where the first ends or has the smaller character. */
  ghost predicate FirstDiffers(a: string, b: string, k: nat) {
    k <= |a| && k < |b| && a[..k] == b[..k] && (k == |a| || a[k] < b[k])
  }

  /** Lexicographic order: a proper prefix, or smaller at the first difference. */
  lemma {:induction false} LtIff(a: string, b: string)
    ensures Lt(a, b) <==> exists k: nat :: FirstDiffers(a, b, k)
  {
    if b != [] {
      if a == [] || a[0] < b[0] {
        assert FirstDiffers(a, b, 0);
      } else {
        LtIff(a[1..], b[1..]);
        if k: nat :| FirstDiffers(a[1..], b[1..], k) && a[0] == b[0] {
          assert a[..k + 1] == [a[0]] + a[1..][..k] && b[..k + 1] == [b[0]] + b[1..][..k];
          assert FirstDiffers(a, b, k + 1);
        }
        if k: nat :| FirstDiffers(a, b, k) {
          assert k > 0 && a[..k][0] == a[0] && b[..k][0] == b[0];
          assert a[1..][..k - 1] == a[..k][1..] && b[1..][..k - 1] == b[..k][1..];
          assert FirstDiffers(a[1..], b[1..], k - 1);
        }
      }
    }
  }

  // ----- sequences as sets -----

  ghost function Elems<T>(s: seq<T>): set<T> {
    set x | x in s
  }

  ghost predicate NoDup<T>(s: seq<T>) {
    forall i, j :: 0 <= i < j < |s| ==> s[i] != s[j]
  }

  lemma {:induction false} NoDupSize<T>(s: seq<T>)
    requires NoDup(s)
    ensures |Elems(s)| == |s|
  {
    if s != [] {
      var n := |s| - 1;
      NoDupSize(s[..n]);
      assert s == s[..n] + [s[n]];
      assert Elems(s) == Elems(s[..n]) + {s[n]};
    }
  }

  lemma {:induction false} SubsetSize<T>(a: set<T>, b: set<T>)
    requires a <= b
    ensures |a| <= |b|
    ensures |a| == |b| ==> a == b
  {
    assert b == a + (b - a);
    assert |b| == |a| + |b - a|;
  }

  /** More steps than values: some value repeats. */
  lemma Pigeonhole<T>(s: seq<T>, values: set<T>) returns (i: nat, j: nat)
    requires Elems(s) <= values && |s| > |values|
    ensures i < j < |s| && s[i] == s[j]
  {
    if NoDup(s) {
      NoDupSize(s);
      SubsetSize(Elems(s), values);
      assert false;
    }
    i, j :| i < j < |s| && s[i] == s[j];
  }

  // ----- std::find / std::remove on a vector -----

  function Without<T(==,!new)>(s: seq<T>, x: T): (r: seq<T>)
    ensures x !in r
    ensures forall y :: y in r <==> y in s && y != x
  {
    if s == [] then []
    else if s[0] == x then Without(s[1..], x)
    else [s[0]] + Without(s[1..], x)
  }

  lemma {:induction false} WithoutNoDup<T(!new)>(s: seq<T>, x: T)
    requires NoDup(s)
    ensures NoDup(Without(s, x))
    ensures |Without(s, x)| == if x in s then |s| - 1 else |s|
  {
    if s != [] {
      assert s == [s[0]] + s[1..];
      WithoutNoDup(s[1..], x);
      if s[0] == x {
        assert x !in s[1..];
      } else {
        assert s[0] !in Without(s[1..], x);
      }
    }
  }

  lemma {:induction false} WithoutAbsent<T(!new)>(s: seq<T>, x: T)
    requires x !in s
    ensures Without(s, x) == s
  {
    if s != [] {
      WithoutAbsent(s[1..], x);
      assert s == [s[0]] + s[1..];
    }
  }

  lemma {:induction false} WithoutAt<T(!new)>(s: seq<T>, i: nat)
    requires NoDup(s) && i < |s|
    ensures Without(s, s[i]) == s[..i] + s[i + 1..]
  {
    if i == 0 {
      assert s == [s[0]] + s[1..];
      WithoutAbsent(s[1..], s[0]);
      assert s[..0] + s[1..] == s[1..];
    } else {
      assert s[1..][i - 1] == s[i] && s[0] != s[i];
      WithoutAt(s[1..], i - 1);
      assert s[..i] + s[i + 1..] == [s[0]] + (s[1..][..i - 1] + s[1..][i..]);
    }
  }

  // ----- ascending sequences: what iterating std::set / std::map yields -----

  ghost predicate Ascending(s: seq<string>) {
    forall i, j :: 0 <= i < j < |s| ==> Lt(s[i], s[j])
  }

  lemma AscendingNoDup(s: seq<string>)
    requires Ascending(s)
    ensures NoDup(s)
  {
    forall i, j | 0 <= i < j < |s| ensures s[i] != s[j] {
      LtIrreflexive(s[i]);
    }
  }

  /** A set has exactly one ascending listing, so sorting hides the iteration order of hash containers. */
  lemma {:induction false} AscendingUnique(s: seq<string>, t: seq<string>)
    requires Ascending(s) && Ascending(t) && Elems(s) == Elems(t)
    ensures s == t
  {
    assert forall x :: x in s <==> x in Elems(s);
    assert forall x :: x in t <==> x in Elems(t);
    assert t != [] ==> t[0] in t;
    if s != [] {
      assert s[0] in t && t[0] in s;
      if s[0] != t[0] {
        var i :| 0 <= i < |t| && t[i] == s[0];
        var j :| 0 <= j < |s| && s[j] == t[0];
        assert Lt(t[0], s[0]) && Lt(s[0], t[0]);
        LtAsymmetric(t[0], s[0]);
      }
      AscendingNoDup(s);
      AscendingNoDup(t);
      forall x ensures x in s[1..] <==> x in t[1..] {
        assert x in s <==> x in t by { assert x in Elems(s) <==> x in Elems(t); }
        if x in s[1..] { assert x != s[0]; assert x in t; }
        if x in t[1..] { assert x != t[0]; assert x in s; }
      }
      assert Elems(s[1..]) == Elems(t[1..]);
      AscendingUnique(s[1..], t[1..]);
      assert s == [s[0]] + s[1..] && t == [t[0]] + t[1..];
    }
  }

  ghost predicate IsLeast(m: string, s: set<string>) {
    m in s && forall x :: x in s && x != m ==> Lt(m, x)
  }

  /** `*set.begin()`. */
  method Least(s: set<string>) returns (m: string)
    requires s != {}
    ensures IsLeast(m, s)
  {
    m :| m in s;
    var todo := s - {m};
    while todo != {}
      invariant todo <= s && m in s && m !in todo
      invariant forall x :: x in s - todo && x != m ==> Lt(m, x)
      decreases todo
    {
      var x :| x in todo;
      todo := todo - {x};
      if Lt(x, m) {
        forall y | y in s - todo && y != x ensures Lt(x, y) {
          if y != m { LtTransitive(x, m, y); }
        }
        m := x;
      } else {
        LtTotal(x, m);
      }
    }
  }

  /** In-order traversal of a `std::set` (or of the keys of a `std::map`). */
  method InOrder(s: set<string>) returns (r: seq<string>)
    ensures Ascending(r) && NoDup(r) && Elems(r) == s
  {
    r := [];
    var todo := s;
    while todo != {}
      invariant todo <= s && Elems(r) == s - todo
      invariant Ascending(r)
      invariant forall x, y :: x in r && y in todo ==> Lt(x, y)
      decreases todo
    {
      var m := Least(todo);
      assert forall x :: x in r ==> Lt(x, m);
      assert Elems(r + [m]) == Elems(r) + {m};
      r := r + [m];
      todo := todo - {m};
    }
    AscendingNoDup(r);
  }

  lemma PrefixElems<T>(s: seq<T>, i: nat)
    requires i < |s|
    ensures Elems(s[..i + 1]) == Elems(s[..i]) + {s[i]}
  {
    assert s[..i + 1] == s[..i] + [s[i]];
  }

  // ----- std::sort -----

  /** What a comparator must satisfy. */
  ghost predicate Comparator<T(!new)>(less: (T, T) -> bool) {
    && (forall x, y :: less(x, y) ==> !less(y, x))
    && (forall x, y, z :: less(x, y) && less(y, z) ==> less(x, z))
  }

  ghost predicate SortedBy<T>(less: (T, T) -> bool, s: seq<T>) {
    forall i, j :: 0 <= i < j < |s| ==> !less(s[j], s[i])
  }

  /** Inserts behind every element that is not greater. */
  method InsertSorted<T(!new)>(s: seq<T>, x: T, less: (T, T) -> bool) returns (r: seq<T>)
    requires Comparator(less) && SortedBy(less, s)
    ensures SortedBy(less, r) && multiset(r) == multiset(s) + multiset{x}
  {
    var k := 0;
    while k < |s| && !less(x, s[k])
      invariant 0 <= k <= |s|
      invariant forall i :: 0 <= i < k ==> !less(x, s[i])
    {
      k := k + 1;
    }
    r := s[..k] + [x] + s[k..];
    InsertIsPermutation(s, k, x);
  }

  /** The order among elements the comparator does not separate is left open. */
  method Sort<T(!new)>(s: seq<T>, less: (T, T) -> bool) returns (r: seq<T>)
    requires Comparator(less)
    ensures SortedBy(less, r) && multiset(r) == multiset(s)
  {
    r := [];
    for i := 0 to |s|
      invariant SortedBy(less, r) && multiset(r) == multiset(s[..i])
    {
      r := InsertSorted(r, s[i], less);
      assert s[..i + 1] == s[..i] + [s[i]];
    }
    assert s[..|s|] == s;
  }

  lemma LtComparator()
    ensures Comparator(Lt)
  {
    forall x, y | Lt(x, y) ensures !Lt(y, x) { LtAsymmetric(x, y); }
    forall x, y, z | Lt(x, y) && Lt(y, z) ensures Lt(x, z) { LtTransitive(x, y, z); }
  }

  method SortStrings(s: seq<string>) returns (r: seq<string>)
    ensures SortedBy(Lt, r) && multiset(r) == multiset(s)
  {
    LtComparator();
    r := Sort(s, Lt);
  }

  lemma InsertIsPermutation<T>(s: seq<T>, k: nat, x: T)
    requires k <= |s|
    ensures multiset(s[..k] + [x] + s[k..]) == multiset(s) + multiset{x}
  {
    assert s == s[..k] + s[k..];
  }

  // ----- std::unique -----

  /** Drops each element that equals its predecessor. */
  function Unique<T(==)>(s: seq<T>): (r: seq<T>) {
    if |s| <= 1 then s
    else if s[|s| - 1] == s[|s| - 2] then Unique(s[..|s| - 1])
    else Unique(s[..|s| - 1]) + [s[|s| - 1]]
  }

  ghost predicate StrictlySorted<T>(less: (T, T) -> bool, s: seq<T>) {
    forall i, j :: 0 <= i < j < |s| ==> less(s[i], s[j])
  }

  /** A strictly sorted list is determined by its elements. */
  lemma {:induction false} StrictUnique<T(!new)>(less: (T, T) -> bool, s: seq<T>, t: seq<T>)
    requires Comparator(less) && StrictlySorted(less, s) && StrictlySorted(less, t) && forall x :: x in s <==> x in t
    ensures s == t
  {
    HasFirst(s);
    HasFirst(t);
    if s != [] {
      StrictFirst(less, s, t[0]);
      StrictFirst(less, t, s[0]);
      forall x ensures x in s[1..] <==> x in t[1..] {
        StrictRest(less, s, x);
        StrictRest(less, t, x);
      }
      StrictUnique(less, s[1..], t[1..]);
    }
  }

  lemma HasFirst<T>(s: seq<T>)
    ensures s != [] ==> s[0] in s
  {
  }

  lemma StrictFirst<T(!new)>(less: (T, T) -> bool, s: seq<T>, x: T)
    requires StrictlySorted(less, s) && x in s
    ensures x == s[0] || less(s[0], x)
  {
  }

  lemma StrictRest<T(!new)>(less: (T, T) -> bool, s: seq<T>, x: T)
    requires Comparator(less) && StrictlySorted(less, s) && s != []
    ensures x in s[1..] <==> x in s && x != s[0]
  {
    if x in s[1..] {
      var i :| 0 <= i < |s[1..]| && s[1..][i] == x;
      assert less(s[0], s[i + 1]);
    }
    if x in s && x != s[0] {
      var i :| 0 <= i < |s| && s[i] == x;
      assert s[1..][i - 1] == x;
    }
  }

  /** On a sorted sequence that leaves each element once, in strictly ascending order. */
  lemma {:induction false} UniqueSorted<T(!new)>(less: (T, T) -> bool, s: seq<T>)
    requires Comparator(less) && SortedBy(less, s)
    requires forall x, y :: x in s && y in s && x != y ==> less(x, y) || less(y, x)
    ensures StrictlySorted(less, Unique(s)) && Elems(Unique(s)) == Elems(s)
    ensures s != [] ==> Unique(s) != [] && Unique(s)[|Unique(s)| - 1] == s[|s| - 1]
  {
    if |s| > 1 {
      var n := |s| - 1;
      var front := s[..n];
      UniqueSorted(less, front);
      assert s == front + [s[n]];
      assert Elems(s) == Elems(front) + {s[n]};
      var u := Unique(front);
      if s[n] == s[n - 1] {
        assert s[n] in front;
      } else {
        forall i | 0 <= i < |u| ensures less(u[i], s[n]) {
          assert less(s[n - 1], s[n]);
          if i < |u| - 1 { assert less(u[i], u[|u| - 1]); }
        }
      }
    }
  }

  /** Sorted, without repeats. */
  method SortUnique(s: seq<string>) returns (r: seq<string>)
    ensures Ascending(r) && Elems(r) == Elems(s)
  {
    var sorted := SortStrings(s);
    LtComparator();
    forall x, y | x in sorted && y in sorted && x != y ensures Lt(x, y) || Lt(y, x) { LtTotal(x, y); }
    UniqueSorted(Lt, sorted);
    MultisetElems(sorted, s);
    r := Unique(sorted);
  }

  lemma MultisetElems<T(!new)>(s: seq<T>, t: seq<T>)
    requires multiset(s) == multiset(t)
    ensures Elems(s) == Elems(t) && |s| == |t|
  {
    forall x ensures x in s <==> x in t {
      assert x in s <==> x in multiset(s);
      assert x in t <==> x in multiset(t);
    }
    assert |multiset(s)| == |s| && |multiset(t)| == |t|;
  }

  lemma PermutationNoDup<T(!new)>(s: seq<T>, t: seq<T>)
    requires NoDup(s) && multiset(s) == multiset(t)
    ensures NoDup(t)
  {
    MultisetElems(s, t);
    NoDupSize(s);
    if i, j :| 0 <= i < j < |t| && t[i] == t[j] {
      assert t == t[..j] + [t[j]] + t[j + 1..];
      assert multiset(t)[t[j]] >= 2;
      NoDupMultiplicity(s, t[j]);
    }
  }

  lemma {:induction false} NoDupMultiplicity<T>(s: seq<T>, x: T)
    requires NoDup(s)
    ensures multiset(s)[x] <= 1
  {
    if s != [] {
      NoDupMultiplicity(s[1..], x);
      assert s == [s[0]] + s[1..];
      if s[0] == x { assert x !in s[1..]; assert x !in multiset(s[1..]); }
    }
  }

  lemma SortedNoDupAscends(s: seq<string>)
    requires SortedBy(Lt, s) && NoDup(s)
    ensures Ascending(s)
  {
    forall i, j | 0 <= i < j < |s| ensures Lt(s[i], s[j]) {
      LtTotal(s[i], s[j]);
    }
  }

  // ----- images of sequences -----

  function Mapped<A, B>(f: A -> B, s: seq<A>): (r: seq<B>)
    ensures |r| == |s| && forall i :: 0 <= i < |r| ==> r[i] == f(s[i])
  {
    seq(|s|, i requires 0 <= i < |s| => f(s[i]))
  }

  function RemoveAt<T>(s: seq<T>, j: nat): (r: seq<T>)
    requires j < |s|
    ensures |r| == |s| - 1
  {
    s[..j] + s[j + 1..]
  }

  lemma MappedWithout<A, B>(f: A -> B, s: seq<A>, j: nat)
    requires j < |s|
    ensures multiset(RemoveAt(s, j)) == multiset(s) - multiset{s[j]}
    ensures multiset(Mapped(f, s)) == multiset(Mapped(f, RemoveAt(s, j))) + multiset{f(s[j])}
  {
    assert s == s[..j] + [s[j]] + s[j + 1..];
    var m := Mapped(f, s);
    assert m == m[..j] + [m[j]] + m[j + 1..];
    assert Mapped(f, RemoveAt(s, j)) == m[..j] + m[j + 1..];
  }

  lemma Occurs<T>(s: seq<T>, t: seq<T>) returns (j: nat)
    requires multiset(s) == multiset(t) && s != []
    ensures j < |t| && t[j] == s[0]
  {
    assert s[0] in multiset(s);
    assert s[0] in multiset(t);
    j :| 0 <= j < |t| && t[j] == s[0];
  }

  /** Permuting the arguments permutes the images. */
  lemma {:induction false} MappedBag<A, B>(f: A -> B, s: seq<A>, t: seq<A>)
    requires multiset(s) == multiset(t)
    ensures multiset(Mapped(f, s)) == multiset(Mapped(f, t))
    decreases |s|
  {
    hide Mapped, RemoveAt;
    assert |multiset(s)| == |s| && |multiset(t)| == |t|;
    if s == [] {
      assert t == [];
    } else {
      var j := Occurs(s, t);
      MappedWithout(f, s, 0);
      MappedWithout(f, t, j);
      MappedBag(f, RemoveAt(s, 0), RemoveAt(t, j));
    }
  }

  // ----- erase(remove_if(...)) -----

  function Filter<T(!new)>(keep: T -> bool, s: seq<T>): (r: seq<T>)
    ensures forall x :: x in r <==> x in s && keep(x)
  {
    if s == [] then [] else (if keep(s[0]) then [s[0]] else []) + Filter(keep, s[1..])
  }

  /** One stands before the other somewhere in the list. */
  ghost predicate Precede<T>(s: seq<T>, x: T, y: T) {
    exists a, b :: 0 <= a < b < |s| && s[a] == x && s[b] == y
  }

  lemma PrecedeMore<T>(s: seq<T>, x: T, y: T)
    requires s != []
    ensures Precede(s[1..], x, y) ==> Precede(s, x, y)
    ensures y in s[1..] ==> Precede(s, s[0], y)
  {
    if Precede(s[1..], x, y) {
      var a, b :| 0 <= a < b < |s| - 1 && s[1..][a] == x && s[1..][b] == y;
      assert s[a + 1] == x && s[b + 1] == y;
    }
    if y in s[1..] {
      var b :| 0 < b < |s| && s[b] == y;
    }
  }

  /** What was kept is in its old order. */
  lemma {:induction false} FilterOrder<T(!new)>(keep: T -> bool, s: seq<T>, i: nat, j: nat)
    requires i < j < |Filter(keep, s)|
    ensures Precede(s, Filter(keep, s)[i], Filter(keep, s)[j])
  {
    hide Precede;
    var rest, n := Filter(keep, s[1..]), if keep(s[0]) then 1 else 0;
    var y := rest[j - n];
    if i < n {
      PrecedeMore(s, s[0], y);
    } else {
      FilterOrder(keep, s[1..], i - n, j - n);
      PrecedeMore(s, rest[i - n], y);
    }
  }

  /** What was kept, as often as before. */
  lemma {:induction false} FilterBag<T(!new)>(keep: T -> bool, s: seq<T>, x: T)
    ensures multiset(Filter(keep, s))[x] == if keep(x) then multiset(s)[x] else 0
  {
    if s != [] {
      FilterBag(keep, s[1..], x);
      assert s == [s[0]] + s[1..];
    }
  }

  lemma {:induction false} FilterSorted<T(!new)>(keep: T -> bool, s: seq<T>, less: (T, T) -> bool)
    ensures StrictlySorted(less, s) ==> StrictlySorted(less, Filter(keep, s))
    ensures SortedBy(less, s) ==> SortedBy(less, Filter(keep, s))
  {
    if s != [] {
      FilterSorted(keep, s[1..], less);
      var rest := Filter(keep, s[1..]);
      forall i | 0 <= i < |rest| ensures exists j :: 0 < j < |s| && s[j] == rest[i] {
        assert rest[i] in s[1..];
        var j :| 0 <= j < |s[1..]| && s[1..][j] == rest[i];
        assert s[j + 1] == rest[i];
      }
    }
  }
}
