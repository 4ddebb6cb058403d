/** `ultra::diff::SymbolDiff::compare`: symbols of one name are sorted on both sides and matched pairwise. */
module SymbolDiffs {
  import opened Orders
  import opened Decimals
  import opened Symbols

  datatype ChangeType = Added | Removed | Modified {
    function Code(): nat {
      match this
      case Added => 0
      case Removed => 1
      case Modified => 2
    }
  }

  datatype SymbolDelta = SymbolDelta(symbolName: string, changeType: ChangeType, oldRecord: SymbolRecord,
                                     newRecord: SymbolRecord)

  /** All of a record that the comparison looks at. */
  datatype Key = Key(name: string, symbolType: SymbolType, visibility: Visibility, signature: string)

  function KeyOf(r: SymbolRecord): Key {
    Key(r.name, r.symbolType, r.visibility, r.signature)
  }

  predicate RecordLess(a: SymbolRecord, b: SymbolRecord) {
    if a.symbolType != b.symbolType then a.symbolType.Code() < b.symbolType.Code()
    else if a.visibility != b.visibility then a.visibility.Code() < b.visibility.Code()
    else Lt(a.signature, b.signature)
  }

  predicate StructurallyEqual(a: SymbolRecord, b: SymbolRecord) {
    a.symbolType == b.symbolType && a.visibility == b.visibility && a.signature == b.signature
  }

  predicate DeltaLess(a: SymbolDelta, b: SymbolDelta) {
    if a.symbolName != b.symbolName then Lt(a.symbolName, b.symbolName)
    else a.changeType.Code() < b.changeType.Code()
  }

  lemma Comparators()
    ensures Comparator(RecordLess) && Comparator(DeltaLess)
  {
    LtComparator();
  }

  function Keys(rs: seq<SymbolRecord>): (r: seq<Key>)
    ensures |r| == |rs| && forall i :: 0 <= i < |r| ==> r[i] == KeyOf(rs[i])
  {
    Mapped(KeyOf, rs)
  }

  // ----- the reference: one sorted list of keys per name -----

  /** The keys of one name, in their given order. */
  function Group(keys: seq<Key>, name: string): seq<Key> {
    if keys == [] then []
    else Group(keys[..|keys| - 1], name) + if keys[|keys| - 1].name == name then [keys[|keys| - 1]] else []
  }

  predicate KeyLess(a: Key, b: Key) {
    if a.symbolType != b.symbolType then a.symbolType.Code() < b.symbolType.Code()
    else if a.visibility != b.visibility then a.visibility.Code() < b.visibility.Code()
    else Lt(a.signature, b.signature)
  }

  /** A permutation of the group in the sorted order. */
  ghost predicate Arranged(sorted: seq<Key>, group: seq<Key>) {
    SortedBy(KeyLess, sorted) && multiset(sorted) == multiset(group)
  }

  datatype KeyDelta = KeyDelta(name: string, changeType: ChangeType, oldKey: Option<Key>, newKey: Option<Key>)

  /** What the two lists report at their ends: a surplus key, a pair that differs, or nothing. */
  function AtEnd(name: string, a: seq<Key>, b: seq<Key>): seq<KeyDelta>
    requires a != [] || b != []
  {
    if |a| > |b| then [KeyDelta(name, Removed, Some(a[|a| - 1]), None)]
    else if |b| > |a| then [KeyDelta(name, Added, None, Some(b[|b| - 1]))]
    else if a[|a| - 1] == b[|b| - 1] then []
    else [KeyDelta(name, Modified, Some(a[|a| - 1]), Some(b[|b| - 1]))]
  }

  /** The list without its end, unless the other one is longer. */
  function Shorter(a: seq<Key>, b: seq<Key>): seq<Key>
    requires a != [] || b != []
  {
    if |a| >= |b| then a[..|a| - 1] else a
  }

  /** Pairs that differ, then what is left over on either side. */
  function PairUp(name: string, a: seq<Key>, b: seq<Key>): seq<KeyDelta>
    decreases |a| + |b|
  {
    if a == [] && b == [] then [] else PairUp(name, Shorter(a, b), Shorter(b, a)) + AtEnd(name, a, b)
  }

  function Swapped(d: KeyDelta): KeyDelta {
    KeyDelta(d.name, match d.changeType case Added => Removed case Removed => Added case Modified => Modified, d.newKey,
      d.oldKey)
  }

  function AllSwapped(ds: seq<KeyDelta>): (r: seq<KeyDelta>)
    ensures |r| == |ds| && forall i :: 0 <= i < |r| ==> r[i] == Swapped(ds[i])
  {
    Mapped(Swapped, ds)
  }

  function OldKeys(ds: seq<KeyDelta>): seq<Key> {
    if ds == [] then []
    else OldKeys(ds[..|ds| - 1]) + if ds[|ds| - 1].oldKey.Some? then [ds[|ds| - 1].oldKey.value] else []
  }

  function NewKeys(ds: seq<KeyDelta>): seq<Key> {
    if ds == [] then []
    else NewKeys(ds[..|ds| - 1]) + if ds[|ds| - 1].newKey.Some? then [ds[|ds| - 1].newKey.value] else []
  }

  /** How often one kind of change occurs. */
  function Count(ds: seq<KeyDelta>, t: ChangeType): nat {
    if ds == [] then 0 else Count(ds[..|ds| - 1], t) + if ds[|ds| - 1].changeType == t then 1 else 0
  }

  lemma Snoc(ds: seq<KeyDelta>, d: KeyDelta)
    ensures OldKeys(ds + [d]) == OldKeys(ds) + if d.oldKey.Some? then [d.oldKey.value] else []
    ensures NewKeys(ds + [d]) == NewKeys(ds) + if d.newKey.Some? then [d.newKey.value] else []
    ensures forall t :: Count(ds + [d], t) == Count(ds, t) + if d.changeType == t then 1 else 0
  {
    assert (ds + [d])[..|ds|] == ds;
  }

  lemma LastOut<T>(s: seq<T>)
    requires s != []
    ensures s == s[..|s| - 1] + [s[|s| - 1]] && multiset(s) == multiset(s[..|s| - 1]) + multiset{s[|s| - 1]}
  {
    assert s == s[..|s| - 1] + [s[|s| - 1]];
  }

  function Part(k: Option<Key>): multiset<Key> {
    if k.Some? then multiset{k.value} else multiset{}
  }

  /** The end of the lists, accounted for. */
  lemma EndBalance(name: string, a: seq<Key>, b: seq<Key>)
    requires a != [] || b != []
    ensures AtEnd(name, a, b) == [] ==>
      && a != [] && b != [] && a[|a| - 1] == b[|b| - 1]
      && multiset(a) == multiset(Shorter(a, b)) + multiset{a[|a| - 1]}
      && multiset(b) == multiset(Shorter(b, a)) + multiset{a[|a| - 1]}
    ensures AtEnd(name, a, b) != [] ==>
      && |AtEnd(name, a, b)| == 1
      && multiset(a) == multiset(Shorter(a, b)) + Part(AtEnd(name, a, b)[0].oldKey)
      && multiset(b) == multiset(Shorter(b, a)) + Part(AtEnd(name, a, b)[0].newKey)
  {
    if |a| >= |b| { LastOut(a); }
    if |b| >= |a| { LastOut(b); }
  }

  lemma SnocBags(ds: seq<KeyDelta>, d: KeyDelta)
    ensures multiset(OldKeys(ds + [d])) == multiset(OldKeys(ds)) + Part(d.oldKey)
    ensures multiset(NewKeys(ds + [d])) == multiset(NewKeys(ds)) + Part(d.newKey)
  {
    Snoc(ds, d);
  }

  lemma PairUpNothing(name: string)
    ensures PairUp(name, [], []) == []
  {
  }

  lemma PairUpStep(name: string, a: seq<Key>, b: seq<Key>)
    requires a != [] || b != []
    ensures PairUp(name, a, b) == PairUp(name, Shorter(a, b), Shorter(b, a)) + AtEnd(name, a, b)
    ensures |Shorter(a, b)| + |Shorter(b, a)| < |a| + |b|
  {
  }

  /** Per name: the keys that stay plus the old sides are the old keys, plus the new sides the new keys. */
  lemma {:induction false} PairUpBalance(name: string, a: seq<Key>, b: seq<Key>) returns (kept: multiset<Key>)
    ensures multiset(a) == kept + multiset(OldKeys(PairUp(name, a, b)))
    ensures multiset(b) == kept + multiset(NewKeys(PairUp(name, a, b)))
    decreases |a| + |b|
  {
    hide *;
    NoDeltas();
    if a == [] && b == [] {
      PairUpNothing(name);
      kept := multiset{};
    } else {
      var a', b', end := Shorter(a, b), Shorter(b, a), AtEnd(name, a, b);
      var front := PairUp(name, a', b');
      PairUpStep(name, a, b);
      kept := PairUpBalance(name, a', b');
      EndBalance(name, a, b);
      if end == [] {
        assert front + end == front;
        kept := kept + multiset{a[|a| - 1]};
      } else {
        assert end == [end[0]];
        SnocBags(front, end[0]);
      }
    }
  }

  /** The surplus side alone has removals or additions, just as many as its surplus; and nothing is reported only for
      equal lists. */
  lemma {:induction false} PairUpCounts(name: string, a: seq<Key>, b: seq<Key>)
    ensures Count(PairUp(name, a, b), Removed) == if |a| > |b| then |a| - |b| else 0
    ensures Count(PairUp(name, a, b), Added) == if |b| > |a| then |b| - |a| else 0
    ensures PairUp(name, a, b) == [] <==> a == b
    ensures forall d :: d in PairUp(name, a, b) ==> d.name == name
    decreases |a| + |b|
  {
    hide OldKeys, NewKeys, Count;
    NoDeltas();
    if a != [] || b != [] {
      var front := PairUp(name, Shorter(a, b), Shorter(b, a));
      PairUpCounts(name, Shorter(a, b), Shorter(b, a));
      if AtEnd(name, a, b) == [] {
        assert front + [] == front;
        LastOut(a);
        LastOut(b);
      } else {
        Snoc(front, AtEnd(name, a, b)[0]);
      }
    }
  }

  lemma NoDeltas()
    ensures OldKeys([]) == [] && NewKeys([]) == [] && forall t :: Count([], t) == 0
  {
  }

  lemma {:induction false} PairUpMirrors(name: string, a: seq<Key>, b: seq<Key>)
    ensures PairUp(name, b, a) == AllSwapped(PairUp(name, a, b))
    decreases |a| + |b|
  {
    if a != [] || b != [] {
      PairUpMirrors(name, Shorter(a, b), Shorter(b, a));
      assert AtEnd(name, b, a) == AllSwapped(AtEnd(name, a, b));
    }
  }

  lemma KeyLessTotal(a: Key, b: Key)
    requires a.name == b.name && !KeyLess(a, b) && !KeyLess(b, a)
    ensures a == b
  {
    LtTotal(a.signature, b.signature);
  }

  lemma KeyLessComparator()
    ensures Comparator(KeyLess)
  {
    LtComparator();
  }

  lemma SortedLast(s: seq<Key>, k: Key)
    requires SortedBy(KeyLess, s) && k in s
    ensures !KeyLess(s[|s| - 1], k)
  {
    hide KeyLess;
    var i :| 0 <= i < |s| && s[i] == k;
    if i == |s| - 1 { KeyLessComparator(); }
  }

  lemma SameElements(s: seq<Key>, t: seq<Key>, k: Key)
    requires multiset(s) == multiset(t)
    ensures k in s <==> k in t
  {
    assert k in s <==> k in multiset(s);
    assert k in t <==> k in multiset(t);
  }

  lemma SameLast(s: seq<Key>, t: seq<Key>, name: string)
    requires SortedBy(KeyLess, s) && SortedBy(KeyLess, t) && multiset(s) == multiset(t) && s != []
    requires forall k :: k in s ==> k.name == name
    ensures t != [] && s[|s| - 1] == t[|t| - 1]
  {
    hide KeyLess, SortedBy;
    MultisetElems(s, t);
    var x, y := s[|s| - 1], t[|t| - 1];
    SameElements(s, t, x);
    SameElements(s, t, y);
    SortedLast(s, y);
    SortedLast(t, x);
    KeyLessTotal(x, y);
  }

  lemma FrontSorted(s: seq<Key>)
    requires SortedBy(KeyLess, s) && s != []
    ensures SortedBy(KeyLess, s[..|s| - 1]) && multiset(s[..|s| - 1]) == multiset(s) - multiset{s[|s| - 1]}
  {
    hide KeyLess;
    LastOut(s);
  }

  /** Within one name the order separates different keys, so the sorted list is unique. */
  lemma {:induction false} ArrangedUnique(s: seq<Key>, t: seq<Key>, name: string)
    requires SortedBy(KeyLess, s) && SortedBy(KeyLess, t) && multiset(s) == multiset(t)
    requires forall k :: k in s ==> k.name == name
    ensures s == t
  {
    hide *;
    MultisetElems(s, t);
    if s != [] {
      var n := |s| - 1;
      SameLast(s, t, name);
      FrontSorted(s);
      FrontSorted(t);
      ArrangedUnique(s[..n], t[..n], name);
      assert s == s[..n] + [s[n]] && t == t[..n] + [t[n]];
    }
  }

  // ----- the whole comparison -----

  function InsertKey(s: seq<Key>, k: Key): seq<Key> {
    if s == [] then [k] else if KeyLess(k, s[0]) then [k] + s else [s[0]] + InsertKey(s[1..], k)
  }

  function SortKeys(s: seq<Key>): seq<Key> {
    if s == [] then [] else InsertKey(SortKeys(s[..|s| - 1]), s[|s| - 1])
  }

  lemma {:induction false} InsertKeySorts(s: seq<Key>, k: Key)
    requires SortedBy(KeyLess, s)
    ensures SortedBy(KeyLess, InsertKey(s, k)) && multiset(InsertKey(s, k)) == multiset(s) + multiset{k}
  {
    KeyLessComparator();
    hide KeyLess;
    if s != [] {
      assert s == [s[0]] + s[1..];
      if KeyLess(k, s[0]) {
        forall j | 0 <= j < |s| ensures !KeyLess(s[j], k) {
          assert j > 0 ==> !KeyLess(s[j], s[0]);
        }
      } else {
        InsertKeySorts(s[1..], k);
        var r := InsertKey(s[1..], k);
        forall i | 0 <= i < |r| ensures !KeyLess(r[i], s[0]) {
          assert r[i] in multiset(r);
          if r[i] != k {
            assert r[i] in s[1..];
          }
        }
      }
    }
  }

  lemma {:induction false} SortKeysArranges(s: seq<Key>)
    ensures Arranged(SortKeys(s), s)
  {
    if s != [] {
      SortKeysArranges(s[..|s| - 1]);
      InsertKeySorts(SortKeys(s[..|s| - 1]), s[|s| - 1]);
      LastOut(s);
    }
  }

  function SortedGroup(keys: seq<Key>, name: string): seq<Key> {
    SortKeys(Group(keys, name))
  }

  /** The deltas of all names, name after name. */
  function Reference(a: seq<Key>, b: seq<Key>, names: seq<string>): seq<KeyDelta> {
    if names == [] then []
    else
      var n := names[|names| - 1];
      Reference(a, b, names[..|names| - 1]) + PairUp(n, SortedGroup(a, n), SortedGroup(b, n))
  }

  /** The names on either side, once each, in order. */
  ghost predicate Covers(names: seq<string>, a: seq<Key>, b: seq<Key>) {
    Ascending(names) && forall n :: n in names <==> exists k :: (k in a || k in b) && k.name == n
  }

  // ----- what the reference says -----

  lemma {:induction false} GroupBag(keys: seq<Key>, name: string, k: Key)
    ensures multiset(Group(keys, name))[k] == if k.name == name then multiset(keys)[k] else 0
    ensures forall x :: x in Group(keys, name) ==> x.name == name && x in keys
  {
    if keys != [] {
      LastOut(keys);
      GroupBag(keys[..|keys| - 1], name, k);
    }
  }

  lemma SortedGroupBag(keys: seq<Key>, name: string, k: Key)
    ensures multiset(SortedGroup(keys, name))[k] == if k.name == name then multiset(keys)[k] else 0
    ensures forall x :: x in SortedGroup(keys, name) ==> x.name == name
    ensures SortedBy(KeyLess, SortedGroup(keys, name)) && |SortedGroup(keys, name)| == |Group(keys, name)|
  {
    hide KeyLess;
    GroupBag(keys, name, k);
    SortKeysArranges(Group(keys, name));
    MultisetElems(SortedGroup(keys, name), Group(keys, name));
    forall x | x in SortedGroup(keys, name) ensures x.name == name {
      SameElements(SortedGroup(keys, name), Group(keys, name), x);
    }
  }

  lemma {:induction false} OldKeysJoin(ds: seq<KeyDelta>, es: seq<KeyDelta>)
    ensures OldKeys(ds + es) == OldKeys(ds) + OldKeys(es) && NewKeys(ds + es) == NewKeys(ds) + NewKeys(es)
  {
    if es == [] {
      assert ds + es == ds;
    } else {
      assert (ds + es)[..|ds| + |es| - 1] == ds + es[..|es| - 1];
      OldKeysJoin(ds, es[..|es| - 1]);
    }
  }

  function At(a: seq<Key>, b: seq<Key>, name: string): seq<KeyDelta> {
    PairUp(name, SortedGroup(a, name), SortedGroup(b, name))
  }

  lemma ReferenceStep(a: seq<Key>, b: seq<Key>, names: seq<string>)
    requires names != []
    ensures Reference(a, b, names) == Reference(a, b, names[..|names| - 1]) + At(a, b, names[|names| - 1])
  {
  }

  lemma {:induction false} ReferenceEmpty(a: seq<Key>, b: seq<Key>, names: seq<string>)
    ensures Reference(a, b, names) == [] <==> forall n :: n in names ==> SortedGroup(a, n) == SortedGroup(b, n)
  {
    hide SortedGroup, PairUp, Count;
    if names != [] {
      var n := names[|names| - 1];
      ReferenceEmpty(a, b, names[..|names| - 1]);
      PairUpCounts(n, SortedGroup(a, n), SortedGroup(b, n));
      assert names == names[..|names| - 1] + [n];
    }
  }

  lemma SameGroups(a: seq<Key>, b: seq<Key>, n: string)
    requires multiset(a) == multiset(b)
    ensures SortedGroup(a, n) == SortedGroup(b, n)
  {
    hide SortedGroup, KeyLess;
    forall k ensures multiset(SortedGroup(a, n))[k] == multiset(SortedGroup(b, n))[k] {
      SortedGroupBag(a, n, k);
      SortedGroupBag(b, n, k);
    }
    assert multiset(SortedGroup(a, n)) == multiset(SortedGroup(b, n));
    SortedGroupBag(a, n, Key(n, UnknownType, UnknownVisibility, ""));
    SortedGroupBag(b, n, Key(n, UnknownType, UnknownVisibility, ""));
    ArrangedUnique(SortedGroup(a, n), SortedGroup(b, n), n);
  }

  /** Nothing is reported exactly when both sides have the same keys, as often. */
  lemma NothingReported(a: seq<Key>, b: seq<Key>, names: seq<string>)
    requires Covers(names, a, b)
    ensures Reference(a, b, names) == [] <==> multiset(a) == multiset(b)
  {
    hide SortedGroup, Reference;
    ReferenceEmpty(a, b, names);
    if multiset(a) == multiset(b) {
      forall n | n in names ensures SortedGroup(a, n) == SortedGroup(b, n) { SameGroups(a, b, n); }
    }
    if Reference(a, b, names) == [] {
      forall k ensures multiset(a)[k] == multiset(b)[k] {
        SortedGroupBag(a, k.name, k);
        SortedGroupBag(b, k.name, k);
        CoversKey(names, a, b, k);
      }
      assert multiset(a) == multiset(b);
    }
  }

  lemma CoversKey(names: seq<string>, a: seq<Key>, b: seq<Key>, k: Key)
    requires Covers(names, a, b)
    ensures k.name !in names ==> multiset(a)[k] == 0 && multiset(b)[k] == 0
  {
    if k in multiset(a) { assert k in a; }
    if k in multiset(b) { assert k in b; }
  }

  /** The sides reported for one name carry that name. */
  lemma SidesAt(a: seq<Key>, b: seq<Key>, n: string, k: Key)
    ensures multiset(OldKeys(At(a, b, n)))[k] <= (if k.name == n then multiset(a)[k] else 0)
    ensures multiset(NewKeys(At(a, b, n)))[k] <= (if k.name == n then multiset(b)[k] else 0)
    ensures k.name == n ==>
      multiset(a)[k] + multiset(NewKeys(At(a, b, n)))[k] == multiset(b)[k] + multiset(OldKeys(At(a, b, n)))[k]
  {
    hide SortedGroup, PairUp, OldKeys, NewKeys;
    SortedGroupBag(a, n, k);
    SortedGroupBag(b, n, k);
    var kept := PairUpBalance(n, SortedGroup(a, n), SortedGroup(b, n));
  }

  lemma {:induction false} SidesOf(a: seq<Key>, b: seq<Key>, names: seq<string>, k: Key)
    requires NoDup(names)
    ensures multiset(OldKeys(Reference(a, b, names)))[k] ==
      (if k.name in names then multiset(OldKeys(At(a, b, k.name)))[k] else 0)
    ensures multiset(NewKeys(Reference(a, b, names)))[k] ==
      (if k.name in names then multiset(NewKeys(At(a, b, k.name)))[k] else 0)
  {
    hide At, OldKeys, NewKeys, Reference;
    if names == [] {
      ReferenceNothing(a, b);
    } else {
      var front, n := names[..|names| - 1], names[|names| - 1];
      SidesOf(a, b, front, k);
      ReferenceStep(a, b, names);
      OldKeysJoin(Reference(a, b, front), At(a, b, n));
      SidesAt(a, b, n, k);
      assert names == front + [n] && n !in front;
    }
  }

  lemma ReferenceNothing(a: seq<Key>, b: seq<Key>)
    ensures Reference(a, b, []) == [] && OldKeys([]) == [] && NewKeys([]) == []
  {
  }

  /** Conservation: the old keys with the new sides added are the new keys with the old sides added, and each key is
      reported no more often than it occurs. */
  lemma ReferenceBalanced(a: seq<Key>, b: seq<Key>, names: seq<string>)
    requires Covers(names, a, b)
    ensures var ds := Reference(a, b, names);
      && multiset(a) + multiset(NewKeys(ds)) == multiset(b) + multiset(OldKeys(ds))
      && multiset(OldKeys(ds)) <= multiset(a) && multiset(NewKeys(ds)) <= multiset(b)
  {
    hide At, OldKeys, NewKeys, Reference;
    AscendingNoDup(names);
    var ds := Reference(a, b, names);
    forall k ensures multiset(a)[k] + multiset(NewKeys(ds))[k] == multiset(b)[k] + multiset(OldKeys(ds))[k]
      && multiset(OldKeys(ds))[k] <= multiset(a)[k] && multiset(NewKeys(ds))[k] <= multiset(b)[k]
    {
      CoversKey(names, a, b, k);
      SidesOf(a, b, names, k);
      SidesAt(a, b, k.name, k);
    }
  }

  /** How often one name has one kind of change. */
  function CountOf(ds: seq<KeyDelta>, name: string, t: ChangeType): nat {
    if ds == [] then 0
    else CountOf(ds[..|ds| - 1], name, t) + if ds[|ds| - 1].name == name && ds[|ds| - 1].changeType == t then 1 else 0
  }

  lemma {:induction false} CountOfJoin(ds: seq<KeyDelta>, es: seq<KeyDelta>, name: string, t: ChangeType)
    ensures CountOf(ds + es, name, t) == CountOf(ds, name, t) + CountOf(es, name, t)
    ensures (forall e :: e in es ==> e.name != name) ==> CountOf(es, name, t) == 0
    ensures (forall e :: e in es ==> e.name == name) ==> CountOf(es, name, t) == Count(es, t)
  {
    if es == [] {
      assert ds + es == ds;
    } else {
      assert (ds + es)[..|ds| + |es| - 1] == ds + es[..|es| - 1];
      CountOfJoin(ds, es[..|es| - 1], name, t);
    }
  }

  function Surplus(m: nat, n: nat): nat {
    if m > n then m - n else 0
  }

  /** Per name: as many removals as the old side has more symbols, as many additions as the new side has more. */
  lemma {:induction false} ReferenceSurpluses(a: seq<Key>, b: seq<Key>, names: seq<string>, name: string)
    requires NoDup(names)
    ensures name in names ==>
      && CountOf(Reference(a, b, names), name, Removed) == Surplus(|Group(a, name)|, |Group(b, name)|)
      && CountOf(Reference(a, b, names), name, Added) == Surplus(|Group(b, name)|, |Group(a, name)|)
    ensures name !in names ==>
      CountOf(Reference(a, b, names), name, Removed) == 0 && CountOf(Reference(a, b, names), name, Added) == 0
  {
    hide CountOf, Count, Reference, PairUp, SortedGroup, KeyLess, Group;
    if names == [] {
      ReferenceNothing(a, b);
      NothingCounted(name);
    } else {
      var front, n := names[..|names| - 1], names[|names| - 1];
      assert names == front + [n] && n !in front;
      ReferenceSurpluses(a, b, front, name);
      ReferenceStep(a, b, names);
      CountOfJoin(Reference(a, b, front), At(a, b, n), name, Removed);
      CountOfJoin(Reference(a, b, front), At(a, b, n), name, Added);
      PairUpCounts(n, SortedGroup(a, n), SortedGroup(b, n));
      SortedGroupBag(a, n, Key(n, UnknownType, UnknownVisibility, ""));
      SortedGroupBag(b, n, Key(n, UnknownType, UnknownVisibility, ""));
    }
  }

  lemma NothingCounted(name: string)
    ensures CountOf([], name, Removed) == 0 && CountOf([], name, Added) == 0
  {
  }

  /** Swapping the arguments swaps additions with removals and the two sides of every modification. */
  lemma {:induction false} Mirrored(a: seq<Key>, b: seq<Key>, names: seq<string>)
    ensures Reference(b, a, names) == AllSwapped(Reference(a, b, names))
  {
    hide At, Reference;
    if names == [] {
      ReferenceNothing(a, b);
      ReferenceNothing(b, a);
    } else {
      var n := names[|names| - 1];
      Mirrored(a, b, names[..|names| - 1]);
      ReferenceStep(a, b, names);
      ReferenceStep(b, a, names);
      assert At(b, a, n) ==
        AllSwapped(At(a, b, n)) by { PairUpMirrors(n, SortedGroup(a, n), SortedGroup(b, n)); AtIs(a, b, n); AtIs(b, a,
        n); }
    }
  }

  lemma AtIs(a: seq<Key>, b: seq<Key>, n: string)
    ensures At(a, b, n) == PairUp(n, SortedGroup(a, n), SortedGroup(b, n))
  {
  }

  // ----- the method -----

  function KeyDeltaOf(d: SymbolDelta): KeyDelta {
    KeyDelta(d.symbolName, d.changeType,
             if d.changeType == Added then None else Some(KeyOf(d.oldRecord)),
             if d.changeType == Removed then None else Some(KeyOf(d.newRecord)))
  }

  function KeyDeltas(ds: seq<SymbolDelta>): (r: seq<KeyDelta>)
    ensures |r| == |ds| && forall i :: 0 <= i < |r| ==> r[i] == KeyDeltaOf(ds[i])
  {
    Mapped(KeyDeltaOf, ds)
  }

  /** Each side is a record of the input with that name, or the empty record where a side is missing. */
  ghost predicate Sourced(d: SymbolDelta, oldSymbols: seq<SymbolRecord>, newSymbols: seq<SymbolRecord>) {
    && (if d.changeType == Added then d.oldRecord == NO_SYMBOL
      else d.oldRecord in oldSymbols && d.oldRecord.name == d.symbolName)
    && (if d.changeType == Removed then d.newRecord == NO_SYMBOL
      else d.newRecord in newSymbols && d.newRecord.name == d.symbolName)
  }

  /** Up to the order among deltas of one name and kind, the reference for these inputs. */
  ghost predicate Compares(oldSymbols: seq<SymbolRecord>, newSymbols: seq<SymbolRecord>, deltas: seq<SymbolDelta>) {
    && SortedBy(DeltaLess, deltas)
    && (forall d :: d in deltas ==> Sourced(d, oldSymbols, newSymbols))
    && exists names :: Covers(names, Keys(oldSymbols), Keys(newSymbols))
         && multiset(KeyDeltas(deltas)) == multiset(Reference(Keys(oldSymbols), Keys(newSymbols), names))
  }

  /** Groups records by name, each group in the given order. */
  method GroupByName(symbols: seq<SymbolRecord>) returns (grouped: map<string, seq<SymbolRecord>>)
    ensures Groups(grouped, symbols)
  {
    grouped := map[];
    var i := 0;
    while i < |symbols|
      invariant 0 <= i <= |symbols|
      invariant Groups(grouped, symbols[..i])
    {
      var s := symbols[i];
      GroupsStep(grouped, symbols, i);
      grouped := grouped[s.name := (if s.name in grouped then grouped[s.name] else []) + [s]];
      i := i + 1;
    }
    assert symbols[..i] == symbols;
  }

  /** The records of one name, in their given order. */
  function GroupRecords(symbols: seq<SymbolRecord>, name: string): seq<SymbolRecord> {
    if symbols == [] then []
    else GroupRecords(symbols[..|symbols| - 1], name) + if symbols[|symbols| - 1].name == name then
      [symbols[|symbols| - 1]] else []
  }

  ghost predicate Groups(grouped: map<string, seq<SymbolRecord>>, symbols: seq<SymbolRecord>) {
    forall n :: if n in grouped then grouped[n] == GroupRecords(symbols, n) != [] else GroupRecords(symbols, n) == []
  }

  lemma {:induction false} GroupRecordsAre(symbols: seq<SymbolRecord>, name: string)
    ensures Keys(GroupRecords(symbols, name)) == Group(Keys(symbols), name)
    ensures forall r :: r in GroupRecords(symbols, name) <==> r in symbols && r.name == name
  {
    if symbols != [] {
      var front, s := symbols[..|symbols| - 1], symbols[|symbols| - 1];
      GroupRecordsAre(front, name);
      assert Keys(symbols)[..|front|] == Keys(front);
      assert symbols == front + [s];
      assert GroupRecords(symbols, name) == GroupRecords(front, name) + if s.name == name then [s] else [];
    }
  }

  lemma GroupsStep(grouped: map<string, seq<SymbolRecord>>, symbols: seq<SymbolRecord>, i: nat)
    requires i < |symbols| && Groups(grouped, symbols[..i])
    ensures var s := symbols[i];
      Groups(grouped[s.name := (if s.name in grouped then grouped[s.name] else []) + [s]], symbols[..i + 1])
  {
    var s := symbols[i];
    forall n ensures GroupRecords(symbols[..i + 1], n) == GroupRecords(symbols[..i], n) + if s.name == n then [s]
      else [] {
      assert symbols[..i + 1][..i] == symbols[..i];
    }
    hide GroupRecords;
  }

  lemma PairUpPair(name: string, a: seq<Key>, b: seq<Key>, x: Key, y: Key)
    requires |a| == |b|
    ensures PairUp(name, a + [x], b + [y])
         == PairUp(name, a, b) + if x == y then [] else [KeyDelta(name, Modified, Some(x), Some(y))]
  {
    assert (a + [x])[..|a|] == a && (b + [y])[..|b|] == b;
    PairUpStep(name, a + [x], b + [y]);
  }

  lemma PairUpSurplus(name: string, a: seq<Key>, b: seq<Key>, x: Key)
    ensures |a| >= |b| ==> PairUp(name, a + [x], b) == PairUp(name, a, b) + [KeyDelta(name, Removed, Some(x), None)]
    ensures |b| >= |a| ==> PairUp(name, a, b + [x]) == PairUp(name, a, b) + [KeyDelta(name, Added, None, Some(x))]
  {
    assert (a + [x])[..|a|] == a && (b + [x])[..|b|] == b;
    if |a| >= |b| { PairUpStep(name, a + [x], b); }
    if |b| >= |a| { PairUpStep(name, a, b + [x]); }
  }

  lemma KeysNext(rs: seq<SymbolRecord>, i: nat)
    requires i < |rs|
    ensures Keys(rs[..i + 1]) == Keys(rs[..i]) + [KeyOf(rs[i])] && Keys(rs[..0]) == []
  {
  }

  lemma DeltasNext(ds: seq<SymbolDelta>, d: SymbolDelta)
    ensures KeyDeltas(ds + [d]) == KeyDeltas(ds) + [KeyDeltaOf(d)]
  {
  }

  /** Three loops: the pairs, the old surplus, the new surplus. */
  method PairDeltas(name: string, oldVec: seq<SymbolRecord>, newVec: seq<SymbolRecord>)
    returns (deltas: seq<SymbolDelta>)
    requires forall r :: r in oldVec || r in newVec ==> r.name == name
    ensures KeyDeltas(deltas) == PairUp(name, Keys(oldVec), Keys(newVec))
    ensures forall d :: d in deltas ==> Sourced(d, oldVec, newVec) && d.symbolName == name
  {
    hide PairUp;
    deltas := [];
    var minSize := if |oldVec| < |newVec| then |oldVec| else |newVec|;
    PairUpNothing(name);
    assert Keys(oldVec[..0]) == [] && Keys(newVec[..0]) == [];
    var i := 0;
    while i < minSize
      invariant 0 <= i <= minSize
      invariant KeyDeltas(deltas) == PairUp(name, Keys(oldVec[..i]), Keys(newVec[..i]))
      invariant forall d :: d in deltas ==> Sourced(d, oldVec, newVec) && d.symbolName == name
    {
      KeysNext(oldVec, i);
      KeysNext(newVec, i);
      PairUpPair(name, Keys(oldVec[..i]), Keys(newVec[..i]), KeyOf(oldVec[i]), KeyOf(newVec[i]));
      if !StructurallyEqual(oldVec[i], newVec[i]) {
        DeltasNext(deltas, SymbolDelta(name, Modified, oldVec[i], newVec[i]));
        deltas := deltas + [SymbolDelta(name, Modified, oldVec[i], newVec[i])];
      }
      i := i + 1;
    }
    while i < |oldVec|
      invariant minSize <= i <= |oldVec|
      invariant KeyDeltas(deltas) == PairUp(name, Keys(oldVec[..i]), Keys(newVec[..minSize]))
      invariant forall d :: d in deltas ==> Sourced(d, oldVec, newVec) && d.symbolName == name
    {
      KeysNext(oldVec, i);
      PairUpSurplus(name, Keys(oldVec[..i]), Keys(newVec[..minSize]), KeyOf(oldVec[i]));
      DeltasNext(deltas, SymbolDelta(name, Removed, oldVec[i], NO_SYMBOL));
      deltas := deltas + [SymbolDelta(name, Removed, oldVec[i], NO_SYMBOL)];
      i := i + 1;
    }
    assert oldVec[..i] == oldVec;
    i := minSize;
    while i < |newVec|
      invariant minSize <= i <= |newVec|
      invariant KeyDeltas(deltas) == PairUp(name, Keys(oldVec), Keys(newVec[..i]))
      invariant forall d :: d in deltas ==> Sourced(d, oldVec, newVec) && d.symbolName == name
    {
      KeysNext(newVec, i);
      PairUpSurplus(name, Keys(oldVec), Keys(newVec[..i]), KeyOf(newVec[i]));
      DeltasNext(deltas, SymbolDelta(name, Added, NO_SYMBOL, newVec[i]));
      deltas := deltas + [SymbolDelta(name, Added, NO_SYMBOL, newVec[i])];
      i := i + 1;
    }
    assert newVec[..i] == newVec;
  }

  method SortGroups(grouped: map<string, seq<SymbolRecord>>, symbols: seq<SymbolRecord>)
    returns (sorted: map<string, seq<SymbolRecord>>)
    requires Groups(grouped, symbols)
    ensures SortedGroups(sorted, symbols, grouped.Keys) && sorted.Keys == grouped.Keys
  {
    hide *;
    var names := InOrder(grouped.Keys);
    sorted := map[];
    assert names[..0] == [];
    NoneSorted(symbols);
    var i := 0;
    while i < |names|
      invariant 0 <= i <= |names|
      invariant sorted.Keys == Elems(names[..i]) && SortedGroups(sorted, symbols, Elems(names[..i]))
    {
      NextListed(names, grouped.Keys, i);
      Comparators();
      var v := Sort(grouped[names[i]], RecordLess);
      SortedRecords(grouped, symbols, names[i], v);
      SortedNext(sorted, symbols, Elems(names[..i]), names[i], v);
      sorted := sorted[names[i] := v];
      i := i + 1;
    }
    assert names[..i] == names;
  }

  lemma NoneSorted(symbols: seq<SymbolRecord>)
    ensures SortedGroups(map[], symbols, Elems([])) && Elems<string>([]) == {}
  {
  }

  lemma NextListed(names: seq<string>, all: set<string>, i: nat)
    requires Elems(names) == all && i < |names|
    ensures names[i] in all && Elems(names[..i + 1]) == Elems(names[..i]) + {names[i]}
  {
    assert names[i] in Elems(names);
    PrefixElems(names, i);
  }

  lemma SortedNext(sorted: map<string, seq<SymbolRecord>>, symbols: seq<SymbolRecord>, done: set<string>, n: string,
                   v: seq<SymbolRecord>)
    requires SortedGroups(sorted, symbols, done) && Keys(v) == SortedGroup(Keys(symbols), n)
    requires forall r :: r in v ==> r in symbols && r.name == n
    ensures SortedGroups(sorted[n := v], symbols, done + {n})
  {
    hide SortedGroup, Keys;
  }

  ghost predicate SortedGroups(sorted: map<string, seq<SymbolRecord>>, symbols: seq<SymbolRecord>, names: set<string>) {
    forall n :: n in names && n in sorted ==>
      && Keys(sorted[n]) == SortedGroup(Keys(symbols), n)
      && forall r :: r in sorted[n] ==> r in symbols && r.name == n
  }

  /** However the records of one name are arranged, their sorted keys are the same. */
  lemma SortedRecords(grouped: map<string, seq<SymbolRecord>>, symbols: seq<SymbolRecord>, n: string,
                      v: seq<SymbolRecord>)
    requires Groups(grouped, symbols) && n in grouped
    requires SortedBy(RecordLess, v) && multiset(v) == multiset(grouped[n])
    ensures Keys(v) == SortedGroup(Keys(symbols), n)
    ensures forall r :: r in v ==> r in symbols && r.name == n
  {
    GroupRecordsAre(symbols, n);
    forall r | r in v ensures r in symbols && r.name == n {
      assert r in multiset(v);
      assert r in grouped[n];
    }
    var keys := Keys(v);
    MappedBag(KeyOf, v, grouped[n]);
    forall i, j | 0 <= i < j < |keys| ensures !KeyLess(keys[j], keys[i]) {
      assert !RecordLess(v[j], v[i]);
    }
    hide KeyLess, RecordLess, Group;
    SortKeysArranges(Group(Keys(symbols), n));
    ArrangedUnique(keys, SortedGroup(Keys(symbols), n), n);
  }

  method Compare(oldSymbols: seq<SymbolRecord>, newSymbols: seq<SymbolRecord>) returns (deltas: seq<SymbolDelta>)
    ensures Compares(oldSymbols, newSymbols, deltas)
  {
    hide *;
    var oldGrouped := GroupByName(oldSymbols);
    var newGrouped := GroupByName(newSymbols);
    var oldSorted := SortGroups(oldGrouped, oldSymbols);
    var newSorted := SortGroups(newGrouped, newSymbols);
    var allNames := InOrder(oldSorted.Keys + newSorted.Keys);
    GroupsCover(oldGrouped, newGrouped, oldSymbols, newSymbols, allNames);
    ghost var a, b := Keys(oldSymbols), Keys(newSymbols);
    deltas := [];
    NoneYet(a, b, allNames);
    var i := 0;
    while i < |allNames|
      invariant 0 <= i <= |allNames|
      invariant KeyDeltas(deltas) == Reference(a, b, allNames[..i])
      invariant forall d :: d in deltas ==> Sourced(d, oldSymbols, newSymbols)
    {
      var name := allNames[i];
      GroupFor(oldGrouped, oldSorted, oldSymbols, name);
      GroupFor(newGrouped, newSorted, newSymbols, name);
      var oldVec := if name in oldSorted then oldSorted[name] else [];
      var newVec := if name in newSorted then newSorted[name] else [];
      var more := PairDeltas(name, oldVec, newVec);
      NextName(deltas, more, a, b, allNames, i);
      SourcedWider(more, oldVec, newVec, oldSymbols, newSymbols);
      deltas := deltas + more;
      i := i + 1;
    }
    assert allNames[..i] == allNames;
    Comparators();
    var sorted := Sort(deltas, DeltaLess);
    Compared(oldSymbols, newSymbols, allNames, deltas, sorted);
    deltas := sorted;
  }

  lemma NoneYet(a: seq<Key>, b: seq<Key>, names: seq<string>)
    ensures KeyDeltas([]) == Reference(a, b, names[..0])
  {
  }

  lemma NextName(ds: seq<SymbolDelta>, more: seq<SymbolDelta>, a: seq<Key>, b: seq<Key>, names: seq<string>, i: nat)
    requires i < |names| && KeyDeltas(ds) == Reference(a, b, names[..i])
    requires KeyDeltas(more) == PairUp(names[i], SortedGroup(a, names[i]), SortedGroup(b, names[i]))
    ensures KeyDeltas(ds + more) == Reference(a, b, names[..i + 1])
  {
    hide SortedGroup, PairUp, Reference;
    assert names[..i + 1][..i] == names[..i];
    ReferenceStep(a, b, names[..i + 1]);
    assert KeyDeltas(ds + more) == KeyDeltas(ds) + KeyDeltas(more);
  }

  lemma GroupsCover(oldGrouped: map<string, seq<SymbolRecord>>, newGrouped: map<string, seq<SymbolRecord>>,
                    oldSymbols: seq<SymbolRecord>, newSymbols: seq<SymbolRecord>, names: seq<string>)
    requires Groups(oldGrouped, oldSymbols) && Groups(newGrouped, newSymbols)
    requires Ascending(names) && Elems(names) == oldGrouped.Keys + newGrouped.Keys
    ensures Covers(names, Keys(oldSymbols), Keys(newSymbols))
  {
    hide Ascending;
    forall n ensures n in names <==> exists k :: (k in Keys(oldSymbols) || k in Keys(newSymbols)) && k.name == n {
      NamePresent(oldGrouped, oldSymbols, n);
      NamePresent(newGrouped, newSymbols, n);
      assert n in names <==> n in Elems(names);
    }
  }

  lemma NamePresent(grouped: map<string, seq<SymbolRecord>>, symbols: seq<SymbolRecord>, n: string)
    requires Groups(grouped, symbols)
    ensures n in grouped <==> exists k :: k in Keys(symbols) && k.name == n
  {
    hide Group, KeyOf;
    GroupRecordsAre(symbols, n);
    hide GroupRecords;
    if n in grouped {
      var r := grouped[n][0];
      assert r in symbols && r.name == n;
      var i :| 0 <= i < |symbols| && symbols[i] == r;
      NameKept(r);
      assert Keys(symbols)[i].name == n;
    }
    if k :| k in Keys(symbols) && k.name == n {
      var i :| 0 <= i < |symbols| && Keys(symbols)[i] == k;
      NameKept(symbols[i]);
      assert symbols[i] in GroupRecords(symbols, n);
    }
  }

  lemma NameKept(r: SymbolRecord)
    ensures KeyOf(r).name == r.name
  {
  }

  lemma GroupFor(grouped: map<string, seq<SymbolRecord>>, sorted: map<string, seq<SymbolRecord>>,
                 symbols: seq<SymbolRecord>, n: string)
    requires Groups(grouped, symbols) && sorted.Keys == grouped.Keys && SortedGroups(sorted, symbols, grouped.Keys)
    ensures var v := if n in sorted then sorted[n] else [];
      Keys(v) == SortedGroup(Keys(symbols), n) && forall r :: r in v ==> r in symbols && r.name == n
  {
    if n !in sorted {
      GroupRecordsAre(symbols, n);
      assert Group(Keys(symbols), n) == Keys([]) == [];
    }
  }

  lemma SourcedWider(ds: seq<SymbolDelta>, oldVec: seq<SymbolRecord>, newVec: seq<SymbolRecord>,
                     oldSymbols: seq<SymbolRecord>, newSymbols: seq<SymbolRecord>)
    requires forall d :: d in ds ==> Sourced(d, oldVec, newVec)
    requires (forall r :: r in oldVec ==> r in oldSymbols) && (forall r :: r in newVec ==> r in newSymbols)
    ensures forall d :: d in ds ==> Sourced(d, oldSymbols, newSymbols)
  {
  }

  lemma Compared(oldSymbols: seq<SymbolRecord>, newSymbols: seq<SymbolRecord>, names: seq<string>, ds: seq<SymbolDelta>,
                 sorted: seq<SymbolDelta>)
    requires Covers(names, Keys(oldSymbols), Keys(newSymbols))
      && KeyDeltas(ds) == Reference(Keys(oldSymbols), Keys(newSymbols), names)
    requires forall d :: d in ds ==> Sourced(d, oldSymbols, newSymbols)
    requires SortedBy(DeltaLess, sorted) && multiset(sorted) == multiset(ds)
    ensures Compares(oldSymbols, newSymbols, sorted)
  {
    hide Sourced, Reference, Covers, DeltaLess;
    MappedBag(KeyDeltaOf, sorted, ds);
    forall d | d in sorted ensures Sourced(d, oldSymbols, newSymbols) {
      assert d in multiset(sorted);
      assert d in ds;
    }
  }

  // ----- what a comparison tells -----

  /** The comparison is silent exactly when both sides have the same symbols up to ids and positions. */
  lemma SilentIffSame(oldSymbols: seq<SymbolRecord>, newSymbols: seq<SymbolRecord>, deltas: seq<SymbolDelta>)
    requires Compares(oldSymbols, newSymbols, deltas)
    ensures deltas == [] <==> multiset(Keys(oldSymbols)) == multiset(Keys(newSymbols))
  {
    hide Covers, Reference, DeltaLess, Sourced;
    var a, b := Keys(oldSymbols), Keys(newSymbols);
    var names :| Covers(names, a, b) && multiset(KeyDeltas(deltas)) == multiset(Reference(a, b, names));
    NothingReported(a, b, names);
    assert |multiset(KeyDeltas(deltas))| == |deltas| && |multiset(Reference(a, b, names))| == |Reference(a, b, names)|;
  }

  /** Comparing the other way round reports the same changes, mirrored. */
  lemma SwapMirrors(oldSymbols: seq<SymbolRecord>, newSymbols: seq<SymbolRecord>, deltas: seq<SymbolDelta>,
                    back: seq<SymbolDelta>)
    requires Compares(oldSymbols, newSymbols, deltas) && Compares(newSymbols, oldSymbols, back)
    ensures multiset(KeyDeltas(back)) == multiset(AllSwapped(KeyDeltas(deltas)))
  {
    hide Reference, DeltaLess, Sourced;
    var a, b := Keys(oldSymbols), Keys(newSymbols);
    var names :| Covers(names, a, b) && multiset(KeyDeltas(deltas)) == multiset(Reference(a, b, names));
    var names' :| Covers(names', b, a) && multiset(KeyDeltas(back)) == multiset(Reference(b, a, names'));
    SameCover(a, b, names, names');
    Mirrored(a, b, names);
    MappedBag(Swapped, KeyDeltas(deltas), Reference(a, b, names));
  }

  // ----- conservation -----

  lemma DeltaOut(ds: seq<KeyDelta>, j: nat, name: string)
    requires j < |ds|
    ensures multiset(RemoveAt(ds, j)) == multiset(ds) - multiset{ds[j]}
    ensures multiset(OldKeys(ds)) == multiset(OldKeys(RemoveAt(ds, j))) + multiset(OldKeys([ds[j]]))
    ensures multiset(NewKeys(ds)) == multiset(NewKeys(RemoveAt(ds, j))) + multiset(NewKeys([ds[j]]))
    ensures CountOf(ds, name, Removed) == CountOf(RemoveAt(ds, j), name, Removed) + CountOf([ds[j]], name, Removed)
    ensures CountOf(ds, name, Added) == CountOf(RemoveAt(ds, j), name, Added) + CountOf([ds[j]], name, Added)
  {
    hide OldKeys, NewKeys, CountOf, Count;
    var x, front, rest := [ds[j]], ds[..j], ds[j + 1..];
    assert ds == front + x + rest;
    OldKeysJoin(front, x);
    OldKeysJoin(front + x, rest);
    OldKeysJoin(front, rest);
    forall t: ChangeType ensures CountOf(ds, name, t) == CountOf(front + rest, name, t) + CountOf(x, name, t) {
      CountOfJoin(front, x, name, t);
      CountOfJoin(front + x, rest, name, t);
      CountOfJoin(front, rest, name, t);
    }
  }

  /** The sides and the counts of deltas do not depend on their order. */
  lemma {:induction false} OrderLeavesSides(ds: seq<KeyDelta>, es: seq<KeyDelta>, name: string)
    requires multiset(ds) == multiset(es)
    ensures multiset(OldKeys(ds)) == multiset(OldKeys(es)) && multiset(NewKeys(ds)) == multiset(NewKeys(es))
    ensures CountOf(ds, name, Removed) == CountOf(es, name, Removed)
      && CountOf(ds, name, Added) == CountOf(es, name, Added)
    decreases |ds|
  {
    hide OldKeys, NewKeys, CountOf, RemoveAt;
    assert |multiset(ds)| == |ds| && |multiset(es)| == |es|;
    if ds == [] {
      assert es == [];
    } else {
      var j := Occurs(ds, es);
      DeltaOut(ds, 0, name);
      DeltaOut(es, j, name);
      OrderLeavesSides(RemoveAt(ds, 0), RemoveAt(es, j), name);
    }
  }

  /** The old symbols with the new sides of all deltas are the new symbols with the old sides, and no symbol is reported
      more often than it occurs. */
  lemma Balanced(oldSymbols: seq<SymbolRecord>, newSymbols: seq<SymbolRecord>, deltas: seq<SymbolDelta>)
    requires Compares(oldSymbols, newSymbols, deltas)
    ensures var a, b, ds := multiset(Keys(oldSymbols)), multiset(Keys(newSymbols)), KeyDeltas(deltas);
      && a + multiset(NewKeys(ds)) == b + multiset(OldKeys(ds))
      && multiset(OldKeys(ds)) <= a && multiset(NewKeys(ds)) <= b
  {
    hide Covers, Reference, DeltaLess, Sourced, OldKeys, NewKeys, CountOf;
    var a, b := Keys(oldSymbols), Keys(newSymbols);
    var names :| Covers(names, a, b) && multiset(KeyDeltas(deltas)) == multiset(Reference(a, b, names));
    ReferenceBalanced(a, b, names);
    OrderLeavesSides(KeyDeltas(deltas), Reference(a, b, names), "");
  }

  /** Per name there are as many removals as the old side has more symbols, and as many additions as the new side
      has more. So the old side without its removals and the new side without its additions are both as long as
      the shorter side. */
  lemma Surpluses(oldSymbols: seq<SymbolRecord>, newSymbols: seq<SymbolRecord>, deltas: seq<SymbolDelta>, name: string)
    requires Compares(oldSymbols, newSymbols, deltas)
    ensures var m, n, ds := |Group(Keys(oldSymbols), name)|, |Group(Keys(newSymbols), name)|, KeyDeltas(deltas);
      && CountOf(ds, name, Removed) == Surplus(m, n) && CountOf(ds, name, Added) == Surplus(n, m)
      && m - CountOf(ds, name, Removed) == n - CountOf(ds, name, Added) == if m < n then m else n
  {
    hide Reference, DeltaLess, Sourced, OldKeys, NewKeys, CountOf, Group, Ascending;
    var a, b := Keys(oldSymbols), Keys(newSymbols);
    var names :| Covers(names, a, b) && multiset(KeyDeltas(deltas)) == multiset(Reference(a, b, names));
    AscendingNoDup(names);
    ReferenceSurpluses(a, b, names, name);
    OrderLeavesSides(KeyDeltas(deltas), Reference(a, b, names), name);
    if name !in names {
      NoGroup(a, name);
      NoGroup(b, name);
    }
  }

  lemma {:induction false} NoGroup(keys: seq<Key>, name: string)
    requires forall k :: k in keys ==> k.name != name
    ensures Group(keys, name) == []
  {
    if keys != [] {
      NoGroup(keys[..|keys| - 1], name);
      assert keys[|keys| - 1] in keys;
    }
  }

  lemma SameCover(a: seq<Key>, b: seq<Key>, names: seq<string>, names': seq<string>)
    requires Covers(names, a, b) && Covers(names', b, a)
    ensures names == names'
  {
    hide Ascending;
    assert forall n :: n in names <==> n in names';
    assert Elems(names) == Elems(names');
    AscendingUnique(names, names');
  }

  // ----- the same in terms of records -----

  /** How many records have this name, type, visibility and signature. */
  ghost function Number(rs: seq<SymbolRecord>, name: string, t: SymbolType, v: Visibility, signature: string): nat {
    if rs == [] then 0
    else
      var r := rs[|rs| - 1];
      var counts := r.name == name && r.symbolType == t && r.visibility == v && r.signature == signature;
      Number(rs[..|rs| - 1], name, t, v, signature) + if counts then 1 else 0
  }

  lemma {:induction false} NumberIs(rs: seq<SymbolRecord>, name: string, t: SymbolType, v: Visibility,
                                    signature: string)
    ensures Number(rs, name, t, v, signature) == multiset(Keys(rs))[Key(name, t, v, signature)]
  {
    if rs != [] {
      NumberIs(rs[..|rs| - 1], name, t, v, signature);
      assert Keys(rs) == Keys(rs[..|rs| - 1]) + [KeyOf(rs[|rs| - 1])];
    }
  }

  ghost predicate EquallyMany(a: seq<SymbolRecord>, b: seq<SymbolRecord>) {
    forall name, t, v, signature :: Number(a, name, t, v, signature) == Number(b, name, t, v, signature)
  }

  lemma EquallyManyIff(a: seq<SymbolRecord>, b: seq<SymbolRecord>)
    ensures EquallyMany(a, b) <==> multiset(Keys(a)) == multiset(Keys(b))
  {
    hide Keys, Number;
    forall k: Key ensures Number(a, k.name, k.symbolType, k.visibility, k.signature) == multiset(Keys(a))[k]
        && Number(b, k.name, k.symbolType, k.visibility, k.signature) == multiset(Keys(b))[k] {
      NumberIs(a, k.name, k.symbolType, k.visibility, k.signature);
      NumberIs(b, k.name, k.symbolType, k.visibility, k.signature);
      assert k == Key(k.name, k.symbolType, k.visibility, k.signature);
    }
    if multiset(Keys(a)) == multiset(Keys(b)) {
      forall name, t, v, signature ensures Number(a, name, t, v, signature) == Number(b, name, t, v, signature) {
        NumberIs(a, name, t, v, signature);
        NumberIs(b, name, t, v, signature);
      }
    }
  }

  /** Nothing is reported exactly when both sides have equally many symbols of each name, type, visibility and
      signature; ids, files and lines do not count. */
  lemma SilentIffEquallyMany(oldSymbols: seq<SymbolRecord>, newSymbols: seq<SymbolRecord>, deltas: seq<SymbolDelta>)
    requires Compares(oldSymbols, newSymbols, deltas)
    ensures deltas == [] <==> EquallyMany(oldSymbols, newSymbols)
  {
    hide Compares, Keys, EquallyMany;
    SilentIffSame(oldSymbols, newSymbols, deltas);
    EquallyManyIff(oldSymbols, newSymbols);
  }

  /** The report is ordered by name, and for one name additions come before removals and these before modifications. */
  lemma ReportOrder(oldSymbols: seq<SymbolRecord>, newSymbols: seq<SymbolRecord>, deltas: seq<SymbolDelta>, i: nat,
                    j: nat)
    requires Compares(oldSymbols, newSymbols, deltas) && i < j < |deltas|
    ensures deltas[i].symbolName == deltas[j].symbolName || Lt(deltas[i].symbolName, deltas[j].symbolName)
    ensures deltas[i].symbolName == deltas[j].symbolName ==>
      && (deltas[j].changeType.Added? ==> deltas[i].changeType.Added?)
      && (deltas[i].changeType.Modified? ==> deltas[j].changeType.Modified?)
  {
    hide Covers, Reference, Sourced;
    assert !DeltaLess(deltas[j], deltas[i]);
    LtTotal(deltas[i].symbolName, deltas[j].symbolName);
  }

  /** The keys of one name are sorted by the number of the type, then of the visibility, then by the signature. */
  lemma KeyOrder(a: Key, b: Key)
    ensures KeyLess(a, b) <==>
      || (exists i, j :: 0 <= i < j < 7 && TYPES[i] == a.symbolType && TYPES[j] == b.symbolType)
      || (a.symbolType == b.symbolType && exists i, j ::
        0 <= i < j < 5 && VISIBILITIES[i] == a.visibility && VISIBILITIES[j] == b.visibility)
      || (a.symbolType == b.symbolType && a.visibility == b.visibility && Lt(a.signature, b.signature))
  {
    CodesIndex(a.symbolType, a.visibility);
    CodesIndex(b.symbolType, b.visibility);
    forall i | 0 <= i < 7 ensures TYPES[i].Code() == i {
    }
    forall i | 0 <= i < 5 ensures VISIBILITIES[i].Code() == i {
    }
  }

  /** What the lists report at one position: a pair that differs, or what only one of them has. */
  ghost function ReportedAt(name: string, a: seq<Key>, b: seq<Key>, i: nat): Option<KeyDelta> {
    if i < |a| && i < |b| then
      if a[i] == b[i] then None else Some(KeyDelta(name, Modified, Some(a[i]), Some(b[i])))
    else if i < |a| then Some(KeyDelta(name, Removed, Some(a[i]), None))
    else if i < |b| then Some(KeyDelta(name, Added, None, Some(b[i])))
    else None
  }

  ghost function Positions(name: string, a: seq<Key>, b: seq<Key>, n: nat, d: KeyDelta): nat {
    if n == 0 then 0 else Positions(name, a, b, n - 1, d) + if ReportedAt(name, a, b, n - 1) == Some(d) then 1 else 0
  }

  lemma {:induction false} PositionsAgree(name: string, a: seq<Key>, b: seq<Key>, a': seq<Key>, b': seq<Key>, n: nat,
                                          d: KeyDelta)
    requires forall i: nat :: i < n ==> ReportedAt(name, a, b, i) == ReportedAt(name, a', b', i)
    ensures Positions(name, a, b, n, d) == Positions(name, a', b', n, d)
  {
    hide ReportedAt;
    if n > 0 { PositionsAgree(name, a, b, a', b', n - 1, d); }
  }

  ghost function Longer(a: seq<Key>, b: seq<Key>): nat {
    if |a| >= |b| then |a| else |b|
  }

  lemma PositionsStep(name: string, a: seq<Key>, b: seq<Key>, n: nat, d: KeyDelta)
    ensures Positions(name, a, b, 0, d) == 0
    ensures Positions(name, a, b, n + 1, d) ==
      Positions(name, a, b, n, d) + if ReportedAt(name, a, b, n) == Some(d) then 1 else 0
  {
    hide ReportedAt;
  }

  lemma ShorterAgree(name: string, a: seq<Key>, b: seq<Key>, i: nat)
    requires (a != [] || b != []) && i < Longer(a, b) - 1
    ensures ReportedAt(name, Shorter(a, b), Shorter(b, a), i) == ReportedAt(name, a, b, i)
  {
  }

  lemma EndReported(name: string, a: seq<Key>, b: seq<Key>, d: KeyDelta)
    requires a != [] || b != []
    ensures Longer(Shorter(a, b), Shorter(b, a)) == Longer(a, b) - 1
    ensures multiset(AtEnd(name, a, b))[d] == if ReportedAt(name, a, b, Longer(a, b) - 1) == Some(d) then 1 else 0
  {
  }

  /** The last position is reported at the end, and the others as for the lists without it. */
  lemma PositionsShorter(name: string, a: seq<Key>, b: seq<Key>, d: KeyDelta)
    requires a != [] || b != []
    ensures Positions(name, a, b, Longer(a, b), d) == multiset(AtEnd(name, a, b))[d] +
      Positions(name, Shorter(a, b), Shorter(b, a), Longer(Shorter(a, b), Shorter(b, a)), d)
  {
    hide *;
    EndReported(name, a, b, d);
    var shorter, shorter' := Shorter(a, b), Shorter(b, a);
    var n := Longer(shorter, shorter');
    forall i: nat | i < n ensures ReportedAt(name, shorter, shorter', i) == ReportedAt(name, a, b, i) {
      ShorterAgree(name, a, b, i);
    }
    PositionsAgree(name, shorter, shorter', a, b, n, d);
    PositionsStep(name, a, b, n, d);
  }

  /** Two sorted lists of one name report what stands at their positions, as often as it stands there. */
  lemma {:induction false} PairUpPositions(name: string, a: seq<Key>, b: seq<Key>, d: KeyDelta)
    ensures multiset(PairUp(name, a, b))[d] == Positions(name, a, b, Longer(a, b), d)
    decreases |a| + |b|
  {
    if a == [] && b == [] {
      PositionsStep(name, a, b, 0, d);
    } else {
      hide *;
      PairUpStep(name, a, b);
      PairUpPositions(name, Shorter(a, b), Shorter(b, a), d);
      PositionsShorter(name, a, b, d);
    }
  }

  /** The keys of the records of this name, each as often as there are such records, in order. */
  ghost predicate Lined(keys: seq<Key>, rs: seq<SymbolRecord>, name: string) {
    && SortedBy(KeyLess, keys) && (forall k :: k in keys ==> k.name == name)
    && forall t, v, signature :: multiset(keys)[Key(name, t, v, signature)] == Number(rs, name, t, v, signature)
  }

  lemma GroupLined(rs: seq<SymbolRecord>, name: string)
    ensures Lined(SortedGroup(Keys(rs), name), rs, name)
  {
    hide SortedGroup, Keys, KeyLess, Number;
    SortedGroupBag(Keys(rs), name, Key(name, UnknownType, UnknownVisibility, ""));
    forall t, v, signature
      ensures multiset(SortedGroup(Keys(rs), name))[Key(name, t, v, signature)] == Number(rs, name, t, v, signature) {
      SortedGroupBag(Keys(rs), name, Key(name, t, v, signature));
      NumberIs(rs, name, t, v, signature);
    }
  }

  lemma {:induction false} PositionsNamed(name: string, a: seq<Key>, b: seq<Key>, n: nat, d: KeyDelta)
    ensures d.name != name ==> Positions(name, a, b, n, d) == 0
  {
    if n > 0 { PositionsNamed(name, a, b, n - 1, d); }
  }

  lemma {:induction false} ReferenceOfName(a: seq<Key>, b: seq<Key>, names: seq<string>, d: KeyDelta)
    requires NoDup(names)
    ensures multiset(Reference(a, b, names))[d] == if d.name in names then multiset(At(a, b, d.name))[d] else 0
  {
    ReferenceNone(a, b);
    hide Reference, At;
    if names != [] {
      var n := names[|names| - 1];
      ReferenceStep(a, b, names);
      ReferenceOfName(a, b, names[..|names| - 1], d);
      AtNamed(a, b, n, d);
      assert names == names[..|names| - 1] + [n] && n !in names[..|names| - 1];
    }
  }

  lemma ReferenceNone(a: seq<Key>, b: seq<Key>)
    ensures Reference(a, b, []) == []
  {
  }

  lemma AtNamed(a: seq<Key>, b: seq<Key>, name: string, d: KeyDelta)
    ensures d.name != name ==> multiset(At(a, b, name))[d] == 0
  {
    hide SortedGroup, PairUp, Positions;
    var x, y := SortedGroup(a, name), SortedGroup(b, name);
    PairUpPositions(name, x, y, d);
    PositionsNamed(name, x, y, Longer(x, y), d);
  }

  /** What the report says of this name is what stands at the positions of these lists, as often. */
  ghost predicate HoldsPositions(deltas: seq<SymbolDelta>, name: string, a: seq<Key>, b: seq<Key>) {
    forall d: KeyDelta :: d.name == name ==> multiset(KeyDeltas(deltas))[d] == Positions(name, a, b, Longer(a, b), d)
  }

  /** Name by name: with the records of either side in order, the report holds what stands at the same positions and
      differs, and what only the longer side has. */
  lemma ReportedByPosition(oldSymbols: seq<SymbolRecord>, newSymbols: seq<SymbolRecord>, deltas: seq<SymbolDelta>,
                           name: string)
    requires Compares(oldSymbols, newSymbols, deltas)
    ensures exists a, b ::
      Lined(a, oldSymbols, name) && Lined(b, newSymbols, name) && HoldsPositions(deltas, name, a, b)
  {
    hide Lined, Positions, KeyDeltas, SortedGroup, Compares, Keys;
    var a, b := SortedGroup(Keys(oldSymbols), name), SortedGroup(Keys(newSymbols), name);
    GroupLined(oldSymbols, name);
    GroupLined(newSymbols, name);
    forall d: KeyDelta | d.name == name
      ensures multiset(KeyDeltas(deltas))[d] == Positions(name, a, b, Longer(a, b), d) {
      CountedByPosition(oldSymbols, newSymbols, deltas, d);
    }
  }

  lemma CountedByPosition(oldSymbols: seq<SymbolRecord>, newSymbols: seq<SymbolRecord>, deltas: seq<SymbolDelta>,
                          d: KeyDelta)
    requires Compares(oldSymbols, newSymbols, deltas)
    ensures var a, b := SortedGroup(Keys(oldSymbols), d.name), SortedGroup(Keys(newSymbols), d.name);
      multiset(KeyDeltas(deltas))[d] == Positions(d.name, a, b, Longer(a, b), d)
  {
    hide DeltaLess, Sourced, SortedGroup, KeyDeltas, Keys, Reference, PairUp, Positions, Covers;
    var x, y := Keys(oldSymbols), Keys(newSymbols);
    var names :| Covers(names, x, y) && multiset(KeyDeltas(deltas)) == multiset(Reference(x, y, names));
    CoversOnce(names, x, y);
    ReferenceOfName(x, y, names, d);
    AtIs(x, y, d.name);
    var a, b := SortedGroup(x, d.name), SortedGroup(y, d.name);
    PairUpPositions(d.name, a, b, d);
    if d.name !in names {
      Uncovered(names, x, y, d.name);
      assert PairUp(d.name, a, b) == [] by { NothingPaired(d.name); }
    }
  }

  lemma NothingPaired(name: string)
    ensures PairUp(name, [], []) == []
  {
  }

  lemma CoversOnce(names: seq<string>, a: seq<Key>, b: seq<Key>)
    requires Covers(names, a, b)
    ensures NoDup(names)
  {
    AscendingNoDup(names);
  }

  lemma Uncovered(names: seq<string>, a: seq<Key>, b: seq<Key>, name: string)
    requires Covers(names, a, b) && name !in names
    ensures SortedGroup(a, name) == [] && SortedGroup(b, name) == []
  {
    NoGroup(a, name);
    NoGroup(b, name);
  }
}
