/** `ultra::intelligence::BranchPersistence`: one file per branch and one for counters and recency. Files are records
    here; their text form is not modelled. */
module BranchFiles {
  import opened Orders
  import opened Decimals
  import opened Branches
  import opened BranchStores

  // ----- what a file holds -----

  function StatusText(s: BranchState): string {
    match s
    case Active => "Active"
    case Suspended => "Suspended"
    case Merged => "Merged"
    case Archived => "Archived"
    case RolledBack => "RolledBack"
    case Unknown => "Unknown"
  }

  function StatusOf(text: string): BranchState {
    if text == "Active" then Active
    else if text == "Suspended" then Suspended
    else if text == "Merged" then Merged
    else if text == "Archived" then Archived
    else if text == "RolledBack" then RolledBack
    else Unknown
  }

  lemma StatusRoundTrip(s: BranchState)
    ensures StatusOf(StatusText(s)) == s
  {
  }

  /** The names in the files; any other text is read as an unknown status. */
  lemma StatusNames(text: string)
    ensures StatusText(Active) == "Active" && StatusText(Suspended) == "Suspended" && StatusText(Merged) == "Merged"
    ensures StatusText(Archived) == "Archived" && StatusText(RolledBack) == "RolledBack"
    ensures (forall s :: s != Unknown ==> text != StatusText(s)) ==> StatusOf(text) == Unknown
  {
    if StatusOf(text) != Unknown {
      assert text == StatusText(StatusOf(text));
    }
  }

  /** Only one of the two parent fields is stored. */
  datatype Record = Record(
    branchId: string, parentId: string, goal: string, currentExecutionNodeId: string, subBranches: seq<string>,
    memorySnapshotId: string, dependencyReferences: seq<string>, confidence: Confidence, status: string,
    isOverlayResident: bool, creationSequence: nat, lastMutationSequence: nat)

  datatype File = Metadata(idCounter: nat, globalSequence: nat, lruOrder: seq<string>) | BranchFile(record: Record)
    | Unreadable

  type Files = map<string, File>

  const METADATA := "metadata.json"

  function FileOf(id: string): string {
    id + ".json"
  }

  lemma FileOfInjective(a: string, b: string)
    requires FileOf(a) == FileOf(b)
    ensures a == b
  {
    assert a == FileOf(a)[..|FileOf(a)| - 5] && b == FileOf(b)[..|FileOf(b)| - 5];
  }

  /** Both lists are stored sorted. */
  ghost predicate RecordOf(b: Branch, r: Record) {
    && SortedBy(Lt, r.subBranches) && multiset(r.subBranches) == multiset(b.subBranches)
    && SortedBy(Lt, r.dependencyReferences) && multiset(r.dependencyReferences) == multiset(b.dependencyReferences)
    && r == Record(b.branchId, b.parentId, b.goal, b.currentExecutionNodeId, r.subBranches, b.memorySnapshotId,
                   r.dependencyReferences, b.confidence, StatusText(b.status), b.isOverlayResident, b.creationSequence,
                   b.lastMutationSequence)
  }

  function BranchOf(r: Record): Branch {
    Branch(r.branchId, r.parentId, r.parentId, r.goal, r.currentExecutionNodeId, r.subBranches, r.memorySnapshotId,
           r.dependencyReferences, r.confidence, StatusOf(r.status), r.isOverlayResident, r.creationSequence,
           r.lastMutationSequence)
  }

  /** As it is inserted: never resident. */
  function Inserted(r: Record): Branch {
    Normalize(BranchOf(r)).(isOverlayResident := false)
  }

  // ----- saving -----

  function MetadataOf(s: StoreState): File {
    Metadata(s.idCounter, s.globalSequence, s.lru)
  }

  /** Metadata first, then the branches `done` so far; a branch named like the metadata file overwrites it. */
  ghost predicate Saved(d: Files, s: StoreState, done: set<string>, d': Files) {
    && (forall n :: n in d' <==> n in d || n == METADATA || exists id :: id in done && n == FileOf(id))
    && (forall id :: id in done && id in s.branches ==>
         FileOf(id) in d' && d'[FileOf(id)].BranchFile? && RecordOf(s.branches[id], d'[FileOf(id)].record))
    && ("metadata" !in done ==> METADATA in d' && d'[METADATA] == MetadataOf(s))
    && (forall n :: n in d && n != METADATA && (forall id :: id in done ==> n != FileOf(id)) ==>
      n in d' && d'[n] == d[n])
  }

  /** What a failed save leaves: no directory, an empty one, or the metadata and the files of some branches,
      each whole. */
  ghost predicate SavedPartly(before: Option<Files>, s: StoreState, after: Option<Files>) {
    || after == before
    || (before.None? && after == Some(map[]))
    || (after.Some? && exists done: set<string> ::
          done <= s.branches.Keys && Saved(Existing(before), s, done, after.value))
  }

  function Existing(files: Option<Files>): Files {
    if files.Some? then files.value else map[]
  }

  lemma PartlySaved(before: Option<Files>, s: StoreState, done: set<string>, files: Files)
    requires done <= s.branches.Keys && Saved(Existing(before), s, done, files)
    ensures SavedPartly(before, s, Some(files))
  {
    hide Saved;
  }

  lemma NothingSaved(before: Option<Files>, s: StoreState)
    ensures SavedPartly(before, s, before) && SavedPartly(before, s, Some(Existing(before)))
  {
  }

  lemma SavedStart(d: Files, s: StoreState)
    ensures Saved(d, s, {}, d[METADATA := MetadataOf(s)])
  {
  }

  lemma SavedStep(d: Files, s: StoreState, done: set<string>, d': Files, id: string, r: Record)
    requires Saved(d, s, done, d') && id in s.branches && RecordOf(s.branches[id], r)
    ensures Saved(d, s, done + {id}, d'[FileOf(id) := BranchFile(r)])
  {
    hide RecordOf;
    var d'' := d'[FileOf(id) := BranchFile(r)];
    forall x | x in done + {id} && x in s.branches
      ensures FileOf(x) in d'' && d''[FileOf(x)].BranchFile? && RecordOf(s.branches[x], d''[FileOf(x)].record) {
      if FileOf(x) == FileOf(id) { FileOfInjective(x, id); }
    }
    if FileOf(id) == METADATA {
      assert FileOf("metadata") == METADATA;
      FileOfInjective(id, "metadata");
    }
    forall n ensures n in d'' <==> n in d || n == METADATA || exists x :: x in done + {id} && n == FileOf(x) {
      if n == FileOf(id) { assert id in done + {id}; }
      if x :| x in done && n == FileOf(x) { assert x in done + {id}; }
    }
    forall n | n in d && n != METADATA && (forall x :: x in done + {id} ==> n != FileOf(x))
      ensures n in d'' && d''[n] == d[n] {
      assert id in done + {id};
      assert forall x :: x in done ==> x in done + {id};
    }
  }

  /** The directory of branch files, if it exists. */
  class BranchDirectory {
    var files: Option<Files>

    constructor ()
      ensures files == None
    {
      files := None;
    }
  }

  /** Any write may fail; files already written then stay. */
  method Save(dir: BranchDirectory, store: BranchStore) returns (ok: bool)
    requires store.Valid()
    modifies dir
    ensures ok ==>
      dir.files.Some? && Saved(Existing(old(dir.files)), store.Abs(), store.Abs().branches.Keys, dir.files.value)
    ensures SavedPartly(old(dir.files), store.Abs(), dir.files)
  {
    hide *;
    var branches := store.GetAll();
    ghost var s, before := store.Abs(), dir.files;
    NothingSaved(before, s);
    var created: bool := *;
    if dir.files.None? && !created {
      return false;
    }
    var start := Existing(dir.files);
    dir.files := Some(start);
    var metadataWritten: bool := *;
    if !metadataWritten {
      return false;
    }
    var lru := store.GetLruOrder();
    AbsParts(store);
    var files := start[METADATA := Metadata(store.idCounter, store.globalSequence, lru)];
    MetadataIs(s, Metadata(store.idCounter, store.globalSequence, lru));
    SavedStart(start, s);
    dir.files := Some(files);
    IdsDone(branches, s.branches, 0);
    PartlySaved(before, s, {}, files);
    var i := 0;
    while i < |branches|
      invariant 0 <= i <= |branches| && Elems(IdsOf(branches[..i])) <= s.branches.Keys
      invariant SavedPartly(before, s, Some(files))
      invariant Saved(start, s, Elems(IdsOf(branches[..i])), files) && dir.files == Some(files)
    {
      var b := branches[i];
      IdsDone(branches, s.branches, i);
      var subs := SortStrings(b.subBranches);
      var dependencies := SortStrings(b.dependencyReferences);
      var r := Record(b.branchId, b.parentId, b.goal, b.currentExecutionNodeId, subs, b.memorySnapshotId, dependencies,
                      b.confidence, StatusText(b.status), b.isOverlayResident, b.creationSequence,
                      b.lastMutationSequence);
      RecordMade(b, r);
      SavedStep(start, s, Elems(IdsOf(branches[..i])), files, b.branchId, r);
      var written: bool := *;
      if !written {
        return false;
      }
      files := files[FileOf(b.branchId) := BranchFile(r)];
      dir.files := Some(files);
      PartlySaved(before, s, Elems(IdsOf(branches[..i + 1])), files);
      i := i + 1;
    }
    AllIdsDone(branches, s.branches, i);
    return true;
  }

  lemma AbsParts(store: BranchStore)
    ensures store.Abs() == StoreState(store.Contents(), Ids(store.lruOrder), store.globalSequence, store.idCounter)
  {
  }

  lemma MetadataIs(s: StoreState, f: File)
    requires f == Metadata(s.idCounter, s.globalSequence, s.lru)
    ensures f == MetadataOf(s)
  {
  }

  lemma RecordMade(b: Branch, r: Record)
    requires SortedBy(Lt, r.subBranches) && multiset(r.subBranches) == multiset(b.subBranches)
    requires SortedBy(Lt, r.dependencyReferences)
      && multiset(r.dependencyReferences) == multiset(b.dependencyReferences)
    requires r == Record(b.branchId, b.parentId, b.goal, b.currentExecutionNodeId, r.subBranches, b.memorySnapshotId,
                         r.dependencyReferences, b.confidence, StatusText(b.status), b.isOverlayResident,
                         b.creationSequence, b.lastMutationSequence)
    ensures RecordOf(b, r)
  {
  }

  lemma IdsDone(bs: seq<Branch>, branches: map<string, Branch>, i: nat)
    requires Lists(bs, branches, branches.Keys)
    ensures Elems(IdsOf(bs[..0])) == {}
    ensures i < |bs| ==>
      && bs[i].branchId in branches && bs[i] == branches[bs[i].branchId]
      && Elems(IdsOf(bs[..i + 1])) == Elems(IdsOf(bs[..i])) + {bs[i].branchId}
  {
    if i < |bs| {
      assert bs[i] in bs;
      assert IdsOf(bs[..i + 1]) == IdsOf(bs[..i]) + [bs[i].branchId];
      ElemsSnoc(IdsOf(bs[..i]), bs[i].branchId);
    }
  }

  lemma AllIdsDone(bs: seq<Branch>, branches: map<string, Branch>, i: nat)
    requires Lists(bs, branches, branches.Keys) && i == |bs|
    ensures Elems(IdsOf(bs[..i])) == branches.Keys
  {
    assert bs[..i] == bs;
  }

  // ----- loading -----

  /** The extension of the name is `.json`; a name that is nothing but `.json` has no extension. */
  predicate JsonName(n: string) {
    |n| > 5 && n[|n| - 5..] == ".json"
  }

  /** Exactly the names with something before the extension. */
  lemma JsonNameIff(n: string)
    ensures JsonName(n) <==> exists stem :: stem != "" && n == FileOf(stem)
    ensures forall stem: string :: FileOf(stem) == stem + ".json"
  {
    if JsonName(n) {
      var stem := n[..|n| - 5];
      assert n == stem + n[|n| - 5..] == FileOf(stem);
    }
  }

  /** The file of this name is loaded as the branch of this id; the id is the one inside the file. */
  ghost predicate Carries(d: Files, n: string, id: string) {
    n in d && JsonName(n) && n != METADATA && d[n].BranchFile? && d[n].record.branchId == id
  }

  /** Of several files that carry one id the last by name counts. */
  ghost predicate LastCarrier(d: Files, n: string, id: string) {
    Carries(d, n, id) && forall m :: Carries(d, m, id) ==> m == n || Lt(m, n)
  }

  function MetaLru(d: Files): seq<string> {
    if METADATA in d && d[METADATA].Metadata? then d[METADATA].lruOrder else []
  }

  function Known(ids: set<string>): string -> bool {
    (id: string) => id in ids
  }

  /** The saved order as far as its ids exist, then the other ids in order. */
  ghost predicate Relisted(saved: seq<string>, ids: set<string>, lru: seq<string>) {
    exists missing :: Ascending(missing) && Elems(missing) == ids - Elems(saved)
      && lru == Filter(Known(ids), saved) + missing
  }

  ghost predicate BranchesLoaded(d: Files, branches: map<string, Branch>) {
    && (forall n, id :: Carries(d, n, id) ==> id in branches)
    && (forall id :: id in branches ==> exists n :: LastCarrier(d, n, id) && branches[id] == Inserted(d[n].record))
  }

  ghost predicate Loaded(d: Files, before: StoreState, s: StoreState) {
    && BranchesLoaded(d, s.branches)
    && (if METADATA in d && d[METADATA].Metadata?
        then s.idCounter == d[METADATA].idCounter && s.globalSequence == d[METADATA].globalSequence
        else s.idCounter == before.idCounter && s.globalSequence == before.globalSequence)
    && Relisted(MetaLru(d), s.branches.Keys, s.lru)
  }

  ghost predicate LastAmong(d: Files, names: seq<string>, n: string, id: string) {
    n in names && Carries(d, n, id) && forall m :: m in names && Carries(d, m, id) ==> m == n || Lt(m, n)
  }

  /** The branch files among the first names have been inserted. */
  ghost predicate LoadedSoFar(d: Files, names: seq<string>, branches: map<string, Branch>) {
    && (forall n, id :: n in names && Carries(d, n, id) ==> id in branches)
    && (forall id :: id in branches ==> exists n :: LastAmong(d, names, n, id) && branches[id] == Inserted(d[n].record))
  }

  lemma LoadStep(d: Files, names: seq<string>, i: nat, branches: map<string, Branch>)
    requires i < |names| && names[i] in d && Ascending(names) && LoadedSoFar(d, names[..i], branches)
    ensures if !JsonName(names[i]) || names[i] == METADATA || !d[names[i]].BranchFile? then
      LoadedSoFar(d, names[..i + 1], branches)
            else LoadedSoFar(d, names[..i + 1], branches[d[names[i]].record.branchId := Inserted(d[names[i]].record)])
  {
    hide Inserted;
    var last, before, now := names[i], names[..i], names[..i + 1];
    assert now == before + [last];
    assert forall n :: n in now <==> n in before || n == last;
    assert forall n :: n in before ==> Lt(n, last);
    var carried := JsonName(last) && last != METADATA && d[last].BranchFile?;
    var id0 := if carried then d[last].record.branchId else "";
    var branches' := if carried then branches[id0 := Inserted(d[last].record)] else branches;
    forall id | id in branches' ensures exists n :: LastAmong(d, now, n, id) && branches'[id] == Inserted(d[n].record) {
      if carried && id == id0 {
        assert LastAmong(d, now, last, id);
      } else {
        var n :| LastAmong(d, before, n, id) && branches[id] == Inserted(d[n].record);
        assert LastAmong(d, now, n, id);
      }
    }
  }

  lemma LoadStart(d: Files)
    ensures LoadedSoFar(d, [], map[])
  {
  }

  lemma InsertedFields(r: Record)
    ensures Inserted(r).branchId == r.branchId && !Inserted(r).isOverlayResident
    ensures Inserted(r) == Normalize(BranchOf(r)).(isOverlayResident := false) && BranchOf(r).branchId == r.branchId
  {
    NormalizeKeeps(BranchOf(r));
  }

  /** Nothing loaded is resident, so the recency list stays empty until it is set. */
  lemma NoResidents(s: StoreState)
    requires Consistent(s, false) && s.lru == []
    ensures Residents(s.branches) == {}
  {
  }

  lemma ReadyToList(store: BranchStore)
    requires store.Valid() && !store.loaded && store.Abs().lru == []
    ensures Residents(store.Contents()) == {} && store.Contents() == store.Abs().branches
  {
    NoResidents(store.Abs());
  }

  method Load(dir: BranchDirectory, store: BranchStore) returns (ok: bool)
    requires store.Valid()
    modifies store
    ensures ok <==> dir.files.Some?
    ensures !ok ==> store.Abs() == old(store.Abs()) && store.Valid()
    ensures ok ==> Loaded(dir.files.value, old(store.Abs()), store.Abs())
    ensures ok ==> (store.Valid() <==> NoDup(store.Abs().lru))
  {
    hide *;
    if dir.files.None? {
      return false;
    }
    var d := dir.files.value;
    store.Clear();
    if METADATA in d && d[METADATA].Metadata? {
      store.SetCounters(d[METADATA].globalSequence, d[METADATA].idCounter);
    }
    ghost var counters := store.Abs();
    var names := InOrder(d.Keys);
    assert names[..0] == [];
    LoadStart(d);
    var i := 0;
    while i < |names|
      invariant 0 <= i <= |names| && store.Valid() && !store.loaded
      invariant LoadedSoFar(d, names[..i], store.Abs().branches)
      invariant store.Abs() == counters.(branches := store.Abs().branches) && store.Abs().lru == []
    {
      NameKnown(names, d, i);
      LoadStep(d, names, i, store.Abs().branches);
      ReadyToList(store);
      if JsonName(names[i]) && names[i] != METADATA && d[names[i]].BranchFile? {
        InsertedFields(d[names[i]].record);
        NotResident(store, d[names[i]].record.branchId);
        store.InsertLoaded(BranchOf(d[names[i]].record));
      }
      i := i + 1;
    }
    assert names[..i] == names;
    ReadyToList(store);
    AllLoaded(d, names, store.Abs().branches);
    var finalLru := RebuildLru(store, MetaLru(d));
    RelistedElems(MetaLru(d), store.Abs().branches.Keys, finalLru);
    store.SetLruOrder(finalLru);
    LoadedAll(d, old(store.Abs()), store.Abs());
    AbsParts(store);
    return true;
  }

  lemma NameKnown(names: seq<string>, d: Files, i: nat)
    requires Elems(names) == d.Keys && i < |names|
    ensures names[i] in d
  {
    assert names[i] in Elems(names);
  }

  lemma NotResident(store: BranchStore, id: string)
    requires store.Valid() && Residents(store.Contents()) == {}
    ensures id !in store.overlay
  {
    OverlayIsResidents(store.base, store.overlay);
  }

  lemma AllLoaded(d: Files, names: seq<string>, branches: map<string, Branch>)
    requires Elems(names) == d.Keys && LoadedSoFar(d, names, branches)
    ensures BranchesLoaded(d, branches)
  {
    hide Inserted;
    assert forall n :: n in names <==> n in Elems(names);
    forall id | id in branches ensures exists n :: LastCarrier(d, n, id) && branches[id] == Inserted(d[n].record) {
      var n :| LastAmong(d, names, n, id) && branches[id] == Inserted(d[n].record);
      assert LastCarrier(d, n, id);
    }
  }

  lemma LoadedAll(d: Files, before: StoreState, s: StoreState)
    requires BranchesLoaded(d, s.branches)
    requires s.idCounter == if METADATA in d && d[METADATA].Metadata? then d[METADATA].idCounter else before.idCounter
    requires s.globalSequence == if METADATA in d && d[METADATA].Metadata? then d[METADATA].globalSequence
      else before.globalSequence
    requires Relisted(MetaLru(d), s.branches.Keys, s.lru)
    ensures Loaded(d, before, s)
  {
    hide BranchesLoaded, Relisted;
  }

  /** The relisted ids are exactly the existing ones. */
  lemma RelistedElems(saved: seq<string>, ids: set<string>, lru: seq<string>)
    ensures Relisted(saved, ids, lru) ==> Elems(lru) == ids
  {
    if Relisted(saved, ids, lru) {
      var missing :| Ascending(missing) && Elems(missing) == ids - Elems(saved)
        && lru == Filter(Known(ids), saved) + missing;
      forall x ensures x in lru <==> x in ids {
        assert x in lru <==> x in Filter(Known(ids), saved) || x in missing;
        assert x in missing <==> x in Elems(missing);
        assert x in saved <==> x in Elems(saved);
      }
    }
  }

  /** First the ids of the saved order, in that order, then those it lacks, in the order of the alphabet. */
  lemma RelistedOrder(saved: seq<string>, ids: set<string>, lru: seq<string>, i: nat, j: nat)
    requires Relisted(saved, ids, lru) && i < j < |lru|
    ensures lru[j] in saved ==> Precede(saved, lru[i], lru[j])
    ensures lru[i] !in saved ==> lru[j] !in saved && Lt(lru[i], lru[j])
  {
    hide Precede, Lt;
    var missing :| Ascending(missing) && Elems(missing) == ids - Elems(saved)
      && lru == Filter(Known(ids), saved) + missing;
    assert forall x :: (x in missing <==> x in Elems(missing)) && (x in saved <==> x in Elems(saved));
    var kept := Filter(Known(ids), saved);
    if j < |kept| {
      FilterOrder(Known(ids), saved, i, j);
    } else {
      assert lru[j] == missing[j - |kept|];
    }
  }

  method RebuildLru(store: BranchStore, metaLru: seq<string>) returns (finalLru: seq<string>)
    requires store.Valid()
    ensures Relisted(metaLru, store.Abs().branches.Keys, finalLru)
  {
    hide *;
    var allIds := store.BranchIdSnapshot();
    AbsParts(store);
    ghost var ids := store.Abs().branches.Keys;
    KnownSame(metaLru, allIds, ids);
    finalLru := Filter(Known(set x | x in allIds), metaLru);
    var missing: seq<string> := [];
    assert allIds[..0] == [];
    var i := 0;
    while i < |allIds|
      invariant 0 <= i <= |allIds|
      invariant forall x :: x in missing <==> x in allIds[..i] && x !in finalLru
    {
      assert allIds[..i + 1] == allIds[..i] + [allIds[i]];
      if allIds[i] !in finalLru {
        missing := missing + [allIds[i]];
      }
      i := i + 1;
    }
    assert allIds[..i] == allIds;
    var sorted := SortUnique(missing);
    MissingAre(metaLru, ids, missing, sorted);
    finalLru := finalLru + sorted;
  }

  lemma KnownSame(metaLru: seq<string>, allIds: seq<string>, ids: set<string>)
    requires Elems(allIds) == ids
    ensures Filter(Known(set x | x in allIds), metaLru) == Filter(Known(ids), metaLru)
    ensures forall x :: x in allIds <==> x in ids
  {
    assert forall x :: x in allIds <==> x in Elems(allIds);
    assert (set x | x in allIds) == ids;
  }

  lemma MissingAre(metaLru: seq<string>, ids: set<string>, missing: seq<string>, sorted: seq<string>)
    requires forall x :: x in missing <==> x in ids && x !in Filter(Known(ids), metaLru)
    requires Ascending(sorted) && Elems(sorted) == Elems(missing)
    ensures Relisted(metaLru, ids, Filter(Known(ids), metaLru) + sorted)
  {
    hide Ascending;
    forall x ensures x in Elems(sorted) <==> x in ids - Elems(metaLru) {
      assert x in Elems(missing) <==> x in missing;
      assert x in metaLru <==> x in Elems(metaLru);
    }
    assert Elems(sorted) == ids - Elems(metaLru);
  }

  // ----- the round trip -----

  /** What saving and loading changes: the record is no longer resident, its second parent field repeats the first, and
      its two lists are sorted. */
  ghost predicate Restored(b: Branch, b': Branch) {
    && b' == b.(parentBranchId := b.parentId, isOverlayResident := false,
                subBranches := b'.subBranches, dependencyReferences := b'.dependencyReferences)
    && SortedBy(Lt, b'.subBranches) && multiset(b'.subBranches) == multiset(b.subBranches)
    && SortedBy(Lt, b'.dependencyReferences) && multiset(b'.dependencyReferences) == multiset(b.dependencyReferences)
  }

  lemma RecordRestored(b: Branch, r: Record)
    requires RecordOf(b, r)
    ensures Restored(b, Inserted(r)) && r.branchId == b.branchId
  {
    StatusRoundTrip(b.status);
  }

  /** A branch file left from before: of a branch that is not in the store, so that saving does not write over it. */
  ghost predicate Leftover(d: Files, s: StoreState, n: string, id: string) {
    Carries(d, n, id) && forall x :: x in s.branches ==> n != FileOf(x)
  }

  /** Saving leaves a directory that holds the saved branches, each under its name, except one whose file name is that
      of the metadata and one whose file name has no extension; and besides them what was left from before. */
  lemma SavedHolds(d: Files, s: StoreState, d': Files, loaded: bool)
    requires Consistent(s, loaded) && Saved(d, s, s.branches.Keys, d')
    ensures forall n, id :: Carries(d', n, id) <==>
      (id in s.branches && id != "metadata" && id != "" && n == FileOf(id)) || Leftover(d, s, n, id)
    ensures forall id :: id in s.branches ==>
      FileOf(id) in d' && d'[FileOf(id)].BranchFile? && RecordOf(s.branches[id], d'[FileOf(id)].record)
    ensures forall n, id :: Leftover(d, s, n, id) ==> n in d' && d'[n] == d[n]
  {
    hide RecordOf, Residents;
    assert FileOf("metadata") == METADATA;
    forall id | id in s.branches ensures d'[FileOf(id)].record.branchId == id {
      RecordId(s.branches[id], d'[FileOf(id)].record);
    }
    forall n, id ensures Carries(d', n, id) <==>
      (id in s.branches && id != "metadata" && id != "" && n == FileOf(id)) || Leftover(d, s, n, id)
    {
      JsonFile(id);
      if FileOf(id) == METADATA { FileOfInjective(id, "metadata"); }
      if x :| x in s.branches.Keys && n == FileOf(x) {
        assert d'[FileOf(x)].record.branchId == x;
      }
    }
  }

  lemma JsonFile(id: string)
    ensures JsonName(FileOf(id)) <==> id != ""
  {
  }

  lemma RecordId(b: Branch, r: Record)
    requires RecordOf(b, r)
    ensures r.branchId == b.branchId
  {
  }

  /** After a restart exactly these branches are there: all that were saved, but for one named like the metadata file
      and one with an empty id, and all that files were left of. */
  lemma SaveThenLoad(s: StoreState, loaded: bool, d: Files, d': Files, before: StoreState, s': StoreState)
    requires Consistent(s, loaded) && Saved(d, s, s.branches.Keys, d') && Loaded(d', before, s')
    ensures forall id :: id in s'.branches <==>
      (id in s.branches && id != "metadata" && id != "") || exists n :: Leftover(d, s, n, id)
    ensures if "metadata" in s.branches
      then s'.idCounter == before.idCounter && s'.globalSequence == before.globalSequence
      else s'.idCounter == s.idCounter && s'.globalSequence == s.globalSequence
    ensures "metadata" !in s.branches && "" !in s.branches ==>
      NoDup(s'.lru) && exists missing ::
        Ascending(missing) && Elems(missing) == s'.branches.Keys - Elems(s.lru) && s'.lru == s.lru + missing
  {
    hide *;
    BranchesBack(s, loaded, d, d', before, s');
    CountersBack(s, d, d', before, s');
    if "metadata" !in s.branches && "" !in s.branches {
      assert s.branches.Keys <= s'.branches.Keys;
      RelistedAfterSave(s, loaded, s'.branches.Keys, s'.lru);
    }
  }

  lemma BranchesBack(s: StoreState, loaded: bool, d: Files, d': Files, before: StoreState, s': StoreState)
    requires Consistent(s, loaded) && Saved(d, s, s.branches.Keys, d') && Loaded(d', before, s')
    ensures forall id :: id in s'.branches <==>
      (id in s.branches && id != "metadata" && id != "") || exists n :: Leftover(d, s, n, id)
  {
    hide RecordOf, Inserted, Relisted, Consistent, Saved, Leftover;
    SavedHolds(d, s, d', loaded);
    forall id ensures id in s'.branches <==>
      (id in s.branches && id != "metadata" && id != "") || exists n :: Leftover(d, s, n, id)
    {
      if id in s.branches && id != "metadata" && id != "" {
        assert Carries(d', FileOf(id), id);
      }
      if n :| Leftover(d, s, n, id) {
        assert Carries(d', n, id);
      }
    }
  }

  /** A saved branch comes back as it was, unless a file left from before claims its id and is later by name: then what
      that file holds comes back in its place. */
  lemma SavedComesBack(s: StoreState, loaded: bool, d: Files, d': Files, before: StoreState, s': StoreState, id: string)
    requires Consistent(s, loaded) && Saved(d, s, s.branches.Keys, d') && Loaded(d', before, s')
    requires id in s.branches && id != "metadata" && id != ""
    ensures id in s'.branches
    ensures if forall n :: Leftover(d, s, n, id) ==> Lt(n, FileOf(id)) then Restored(s.branches[id], s'.branches[id])
      else exists n :: Leftover(d, s, n, id) && Lt(FileOf(id), n) && s'.branches[id] == Inserted(d[n].record)
  {
    hide RecordOf, Restored, Inserted, Relisted, Consistent, Saved, Lt, FileOf;
    SavedHolds(d, s, d', loaded);
    LtComparator();
    assert Carries(d', FileOf(id), id);
    var n :| LastCarrier(d', n, id) && s'.branches[id] == Inserted(d'[n].record);
    if n == FileOf(id) {
      RecordRestored(s.branches[id], d'[n].record);
    }
  }

  const TWO_LOST := StoreState(
    map["" := NO_BRANCH.(isOverlayResident := false),
        "metadata" := NO_BRANCH.(branchId := "metadata", isOverlayResident := false)], [], 2, 0)

  lemma TwoLostConsistent()
    ensures Consistent(TWO_LOST, false)
  {
    assert Residents(TWO_LOST.branches) == {};
  }

  lemma NothingLeft(s: StoreState)
    ensures forall n, id :: !Leftover(map[], s, n, id)
  {
  }

  /** A concrete store of two branches, loaded from files with these ids, of which neither comes back. */
  lemma TwoBranchesLost(d': Files, before: StoreState, s': StoreState)
    requires Saved(map[], TWO_LOST, TWO_LOST.branches.Keys, d') && Loaded(d', before, s')
    ensures s'.branches == map[]
  {
    TwoLostConsistent();
    hide Saved, Loaded, Leftover, Consistent;
    NothingLeft(TWO_LOST);
    SaveThenLoad(TWO_LOST, false, map[], d', before, s');
    assert forall id :: id in TWO_LOST.branches ==> id == "" || id == "metadata";
    assert s'.branches.Keys == {};
  }

  lemma CountersBack(s: StoreState, d: Files, d': Files, before: StoreState, s': StoreState)
    requires Saved(d, s, s.branches.Keys, d') && Loaded(d', before, s')
    ensures "metadata" !in s.branches ==>
      s'.idCounter == s.idCounter && s'.globalSequence == s.globalSequence && Relisted(s.lru, s'.branches.Keys, s'.lru)
    ensures "metadata" in s.branches ==> s'.idCounter == before.idCounter && s'.globalSequence == before.globalSequence
  {
    hide RecordOf, Relisted, BranchesLoaded;
    assert FileOf("metadata") == METADATA;
  }

  lemma RelistedAfterSave(s: StoreState, loaded: bool, ids: set<string>, lru: seq<string>)
    requires Consistent(s, loaded) && s.branches.Keys <= ids && Relisted(s.lru, ids, lru)
    ensures NoDup(lru) && exists missing ::
      Ascending(missing) && Elems(missing) == ids - Elems(s.lru) && lru == s.lru + missing
  {
    var missing :| Ascending(missing) && Elems(missing) == ids - Elems(s.lru)
      && lru == Filter(Known(ids), s.lru) + missing;
    forall x | x in s.lru ensures x in ids { assert x in Elems(s.lru); }
    KeepAll(Known(ids), s.lru);
    AscendingNoDup(missing);
    forall i, j | 0 <= i < j < |lru| ensures lru[i] != lru[j] {
      if i < |s.lru| <= j {
        assert lru[i] in s.lru && lru[j] in missing;
        assert lru[i] in Elems(s.lru) && lru[j] in Elems(missing);
      }
    }
  }

  lemma {:induction false} KeepAll(keep: string -> bool, s: seq<string>)
    requires forall x :: x in s ==> keep(x)
    ensures Filter(keep, s) == s
  {
    if s != [] { KeepAll(keep, s[1..]); }
  }

  /** A concrete removed branch that comes back: its file is still there when the store without it is saved. */
  lemma RemovedComesBack(d': Files, before: StoreState, s': StoreState)
    requires var d := map[FileOf("a") := BranchFile(LONE_RECORD)];
      Saved(d, StoreState(map[], [], 1, 0), {}, d') && Loaded(d', before, s')
    ensures "a" in s'.branches
  {
    var d := map[FileOf("a") := BranchFile(LONE_RECORD)];
    var s := StoreState(map[], [], 1, 0);
    hide Saved, Loaded;
    assert FileOf("metadata") == METADATA;
    JsonFile("a");
    if FileOf("a") == METADATA { FileOfInjective("a", "metadata"); }
    assert Leftover(d, s, FileOf("a"), "a");
    assert Residents(s.branches) == {};
    SaveThenLoad(s, false, d, d', before, s');
  }

  const LONE_RECORD := Record("a", "", "", "", [], "", [], Confidence(0.0, 0.0, 0.0), "Active", true, 1, 1)

  // ----- ids over restarts -----

  /** A store in memory and its directory, if there is one. */
  datatype World = World(store: StoreState, files: Option<Files>)

  /** The id generator is used, a save succeeds or fails, or the program starts again and loads what is there. */
  datatype Event = Generate(parentId: string, goal: string) | Save(ok: bool) | Restart

  const NEW_STORE := StoreState(map[], [], 0, 0)

  ghost predicate Happens(w: World, e: Event, w': World) {
    match e
    case Generate(_, _) => w'.store.idCounter == w.store.idCounter + 1 && w'.files == w.files
    case Save(ok) =>
      && w'.store == w.store
      && if ok then w'.files.Some? && Saved(Existing(w.files), w.store, w.store.branches.Keys, w'.files.value)
         else SavedPartly(w.files, w.store, w'.files)
    case Restart =>
      && w'.files == w.files
      && if w.files.Some? then Loaded(w.files.value, NEW_STORE, w'.store) else w'.store == NEW_STORE
  }

  ghost predicate History(worlds: seq<World>, events: seq<Event>) {
    |worlds| == |events| + 1 && forall i :: 0 <= i < |events| ==> Happens(worlds[i], events[i], worlds[i + 1])
  }

  /** The counter a restart would go on with. */
  function CounterOnDisk(files: Option<Files>): nat {
    if files.Some? && METADATA in files.value && files.value[METADATA].Metadata? then files.value[METADATA].idCounter
    else 0
  }

  /** A restart from a directory that has fallen behind. */
  predicate GoesBack(w: World, e: Event) {
    e.Restart? && CounterOnDisk(w.files) < w.store.idCounter
  }

  /** The text hashed for the id. */
  function TextHashed(w: World, e: Event): string
    requires e.Generate?
  {
    IdText(e.parentId, e.goal, w.store.idCounter + 1)
  }

  lemma SavedCounter(d: Files, s: StoreState, done: set<string>, d': Files)
    requires Saved(d, s, done, d') && done <= s.branches.Keys
    ensures CounterOnDisk(Some(d')) == if "metadata" in done then 0 else s.idCounter
  {
    assert FileOf("metadata") == METADATA;
    hide RecordOf;
  }

  /** A restart goes on with the counter on disk, which a complete save brings up to date unless a branch is named like
      the metadata file; a failed one leaves the old counter, the new one or none. */
  lemma CounterKept(w: World, e: Event, w': World)
    requires Happens(w, e, w')
    ensures e.Restart? ==> w'.store.idCounter == CounterOnDisk(w.files)
    ensures !e.Save? ==> w'.files == w.files
    ensures e.Save? ==> w'.store == w.store
    ensures e.Save? && e.ok ==>
      CounterOnDisk(w'.files) == if "metadata" in w.store.branches then 0 else w.store.idCounter
    ensures e.Save? ==> CounterOnDisk(w'.files) in {CounterOnDisk(w.files), w.store.idCounter, 0}
  {
    hide Saved, BranchesLoaded, Relisted;
    if e.Save? {
      if e.ok {
        SavedCounter(Existing(w.files), w.store, w.store.branches.Keys, w'.files.value);
      } else if w'.files != w.files && w'.files != Some(map[]) {
        var done: set<string> :| done <= w.store.branches.Keys
          && Saved(Existing(w.files), w.store, done, w'.files.value);
        SavedCounter(Existing(w.files), w.store, done, w'.files.value);
      }
    }
  }

  lemma {:induction false} CounterGrows(worlds: seq<World>, events: seq<Event>, i: nat, j: nat)
    requires History(worlds, events) && i <= j <= |events|
    requires forall m :: i <= m < j ==> !GoesBack(worlds[m], events[m])
    ensures worlds[i].store.idCounter <= worlds[j].store.idCounter
    ensures i < j && events[i].Generate? ==> worlds[i].store.idCounter < worlds[j].store.idCounter
    decreases j
  {
    hide Happens, CounterOnDisk;
    if i < j {
      CounterGrows(worlds, events, i, j - 1);
      assert Happens(worlds[j - 1], events[j - 1], worlds[j - 1 + 1]);
      CounterKept(worlds[j - 1], events[j - 1], worlds[j]);
      EventRaises(worlds[j - 1], events[j - 1], worlds[j]);
    }
  }

  lemma EventRaises(w: World, e: Event, w': World)
    requires Happens(w, e, w')
    ensures e.Generate? ==> w'.store.idCounter == w.store.idCounter + 1
  {
  }

  /** Between two uses of the generator without a restart that goes back, no text is hashed twice, whatever parents and
      goals: an id generated twice would be a collision of the digest at these two texts. */
  lemma IdsNeverRepeat(h: IdHash, worlds: seq<World>, events: seq<Event>, i: nat, j: nat)
    requires History(worlds, events) && i < j < |events| && events[i].Generate? && events[j].Generate?
    requires forall m :: i < m < j ==> !GoesBack(worlds[m], events[m])
    ensures TextHashed(worlds[i], events[i]) != TextHashed(worlds[j], events[j])
    ensures var x, y := TextHashed(worlds[i], events[i]), TextHashed(worlds[j], events[j]);
      NoCollision(h) && x in h.texts && y in h.texts ==> h.digest(x) != h.digest(y)
  {
    hide Happens, IdText, CounterOnDisk;
    CounterGrows(worlds, events, i, j);
    if TextHashed(worlds[i], events[i]) == TextHashed(worlds[j], events[j]) {
      IdTextSeparatesCounters(events[i].parentId, events[i].goal, worlds[i].store.idCounter + 1, events[j].parentId,
        events[j].goal, worlds[j].store.idCounter + 1);
    }
    var x, y := TextHashed(worlds[i], events[i]), TextHashed(worlds[j], events[j]);
    assert !Collides(h, x, y) && x in h.texts && y in h.texts ==> h.digest(x) != h.digest(y);
  }

  // ----- exactly when a text is hashed twice -----

  /** From a new store and no directory on, the disk is never ahead of the store. */
  lemma {:induction false} DiskBehind(worlds: seq<World>, events: seq<Event>, i: nat)
    requires History(worlds, events) && worlds[0] == World(NEW_STORE, None) && i <= |events|
    ensures CounterOnDisk(worlds[i].files) <= worlds[i].store.idCounter
  {
    hide Happens;
    if i > 0 {
      DiskBehind(worlds, events, i - 1);
      assert Happens(worlds[i - 1], events[i - 1], worlds[i - 1 + 1]);
      CounterKept(worlds[i - 1], events[i - 1], worlds[i]);
      EventRaises(worlds[i - 1], events[i - 1], worlds[i]);
    }
  }

  /** Only the generator raises the counter. */
  lemma Falls(worlds: seq<World>, events: seq<Event>, i: nat)
    requires History(worlds, events) && worlds[0] == World(NEW_STORE, None) && i < |events|
    ensures if events[i].Generate? then worlds[i + 1].store.idCounter == worlds[i].store.idCounter + 1
      else worlds[i + 1].store.idCounter <= worlds[i].store.idCounter
    ensures GoesBack(worlds[i], events[i]) ==> worlds[i + 1].store.idCounter < worlds[i].store.idCounter
  {
    hide Happens, CounterOnDisk;
    DiskBehind(worlds, events, i);
    assert Happens(worlds[i], events[i], worlds[i + 1]);
    CounterKept(worlds[i], events[i], worlds[i + 1]);
    EventRaises(worlds[i], events[i], worlds[i + 1]);
  }

  ghost predicate UsedBefore(worlds: seq<World>, events: seq<Event>, m: nat, v: nat)
    requires m <= |events| < |worlds|
  {
    exists i :: 0 <= i < m && events[i].Generate? && worlds[i].store.idCounter == v
  }

  /** Every smaller counter has been used on the way up. */
  lemma {:induction false} Passed(worlds: seq<World>, events: seq<Event>, m: nat, v: nat)
    requires History(worlds, events) && worlds[0] == World(NEW_STORE, None) && m <= |events|
    requires v < worlds[m].store.idCounter
    ensures UsedBefore(worlds, events, m, v)
  {
    hide History;
    if m > 0 {
      Falls(worlds, events, m - 1);
      HistoryLength(worlds, events);
      if v < worlds[m - 1].store.idCounter {
        Passed(worlds, events, m - 1, v);
        var i :| 0 <= i < m - 1 && events[i].Generate? && worlds[i].store.idCounter == v;
      }
    } else {
      HistoryLength(worlds, events);
    }
  }

  lemma HistoryLength(worlds: seq<World>, events: seq<Event>)
    requires History(worlds, events)
    ensures |worlds| == |events| + 1
  {
  }

  /** Until the generator is used again, the counter stays below. */
  lemma {:induction false} StaysBelow(worlds: seq<World>, events: seq<Event>, m: nat, j: nat)
    requires History(worlds, events) && worlds[0] == World(NEW_STORE, None) && m < j < |events|
    requires GoesBack(worlds[m], events[m]) && forall x :: m < x < j ==> !events[x].Generate?
    ensures worlds[j].store.idCounter < worlds[m].store.idCounter
    decreases j
  {
    hide History, GoesBack;
    HistoryLength(worlds, events);
    if j == m + 1 {
      Falls(worlds, events, m);
    } else {
      StaysBelow(worlds, events, m, j - 1);
      Falls(worlds, events, j - 1);
    }
  }

  /** Both use the generator with one counter, and so hash one text when parent and goal are the same. */
  ghost predicate Repeats(worlds: seq<World>, events: seq<Event>, i: nat, j: nat)
    requires |events| < |worlds|
  {
    && i < j < |events| && events[i].Generate? && events[j].Generate?
    && worlds[i].store.idCounter == worlds[j].store.idCounter
  }

  ghost predicate GoesBackBefore(worlds: seq<World>, events: seq<Event>, m: nat, j: nat)
    requires |events| < |worlds|
  {
    m < j < |events| && GoesBack(worlds[m], events[m]) && events[j].Generate?
  }

  lemma {:induction false} FirstGenerate(events: seq<Event>, m: nat, j: nat) returns (first: nat)
    requires m < j < |events| && events[j].Generate?
    ensures m < first <= j && events[first].Generate? && forall x :: m < x < first ==> !events[x].Generate?
  {
    first := m + 1;
    while !events[first].Generate?
      invariant m < first <= j && forall x :: m < x < first ==> !events[x].Generate?
      decreases j - first
    {
      first := first + 1;
    }
  }

  /** In the life of a store, restarts and failed saves included, a counter is used twice exactly when an id is
      generated after a restart that went back, from a directory that did not hold the current counter. */
  lemma IdsRepeatIff(worlds: seq<World>, events: seq<Event>)
    requires History(worlds, events) && worlds[0] == World(NEW_STORE, None)
    ensures (exists i: nat, j: nat :: Repeats(worlds, events, i, j)) <==>
      exists m: nat, j: nat :: GoesBackBefore(worlds, events, m, j)
  {
    HistoryLength(worlds, events);
    hide History, GoesBack;
    if i: nat, j: nat :| Repeats(worlds, events, i, j) {
      if forall m :: i <= m < j ==> !GoesBack(worlds[m], events[m]) {
        CounterGrows(worlds, events, i, j);
        assert false;
      }
      var m: nat :| i <= m < j && GoesBack(worlds[m], events[m]);
      assert GoesBackBefore(worlds, events, m, j);
    }
    if m: nat, j: nat :| GoesBackBefore(worlds, events, m, j) {
      var first := FirstGenerate(events, m, j);
      StaysBelow(worlds, events, m, first);
      Passed(worlds, events, m, worlds[first].store.idCounter);
      var i: nat :| i < m && events[i].Generate? && worlds[i].store.idCounter == worlds[first].store.idCounter;
      assert Repeats(worlds, events, i, first);
    }
  }

  /** A concrete text hashed twice: an id is generated, the program starts again before anything was saved, and an id is
      generated for the same parent and goal. */
  lemma TextHashedTwice()
    ensures var used := World(NEW_STORE.(idCounter := 1), None);
      var worlds := [World(NEW_STORE, None), used, World(NEW_STORE, None), used];
      var events := [Generate("", "x"), Restart, Generate("", "x")];
      History(worlds, events) && TextHashed(worlds[0], events[0]) == TextHashed(worlds[2], events[2])
  {
    hide IdText;
  }
}
