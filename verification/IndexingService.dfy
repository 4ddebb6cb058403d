/** `ultra::indexing::IndexingService`: what the daemon makes of an event. */
module IndexingServices {
  // The file named is added, rescanned or removed in a working copy of the tables, then whatever it depends on is
  // rescanned; the copy replaces the tables only when every call has succeeded. A rebuild replaces them by a full scan.

  import opened Orders
  import opened Graphs
  import opened DependencyGraphs
  import opened IncrementalAnalysis
  import opened SymbolTables
  import opened DependencyTables
  import opened SymbolIndexes
  import opened Scanners
  import opened FullScans

  datatype EventKind = Added | Modified | Removed
  datatype Event = Changed(kind: EventKind, path: string, disks: nat -> Disk) | RebuildRequest(disk: Disk)
    | ShutdownRequest

  // ----- the files an event concerns -----

  ghost predicate Linked(t: Tables, from: string, to: string) {
    exists e :: e in t.fileEdges && InFile(t.files, e.fromFileId, from) && InFile(t.files, e.toFileId, to)
  }

  /** The file edges between paths. */
  ghost function Links(t: Tables): set<Edge> {
    set a, b | a in PathsOf(t.files) && b in PathsOf(t.files) && Linked(t, a, b) :: Edge(a, b)
  }

  lemma LinksAre(t: Tables)
    ensures forall a, b :: Edge(a, b) in Links(t) <==> Linked(t, a, b)
  {
    forall a, b | Linked(t, a, b) ensures a in PathsOf(t.files) && b in PathsOf(t.files) {
      var e :| e in t.fileEdges && InFile(t.files, e.fromFileId, a) && InFile(t.files, e.toFileId, b);
    }
  }

  /** What the file depends on, directly or not, by ascending path. */
  ghost predicate Rescans(t: Tables, path: string, rescans: seq<string>) {
    Ascending(rescans) && forall f :: f in rescans <==> f != path && f != "" && Reached(Links(t), {path}, f)
  }

  lemma RescansUnique(t: Tables, path: string, a: seq<string>, b: seq<string>)
    requires Rescans(t, path, a) && Rescans(t, path, b)
    ensures a == b
  {
    hide Reached, Links;
    assert forall f :: f in a <==> f in b;
    assert forall f :: (f in a <==> f in Elems(a)) && (f in b <==> f in Elems(b));
    AscendingUnique(a, b);
  }

  lemma OneMoreLink(t: Tables, i: nat, paths: map<nat, string>)
    requires i < |t.fileEdges| && forall f, p :: (f in paths && paths[f] == p) <==> InFile(t.files, f, p)
    ensures var e, before := t.fileEdges[i], Links(t.(fileEdges := t.fileEdges[..i]));
      Links(t.(fileEdges := t.fileEdges[..i + 1])) ==
        if e.fromFileId in paths && e.toFileId in paths then before + {Edge(paths[e.fromFileId], paths[e.toFileId])}
          else before
  {
    hide InFile, Links;
    var e, before, after := t.fileEdges[i], t.(fileEdges := t.fileEdges[..i]), t.(fileEdges := t.fileEdges[..i + 1]);
    LinksAre(before);
    LinksAre(after);
    assert after.fileEdges == before.fileEdges + [e];
    forall a, b ensures Linked(after, a, b) <==>
      Linked(before, a, b) || (InFile(t.files, e.fromFileId, a) && InFile(t.files, e.toFileId, b)) {
      if Linked(after, a, b) {
        var x :| x in after.fileEdges && InFile(t.files, x.fromFileId, a) && InFile(t.files, x.toFileId, b);
        assert x in before.fileEdges || x == e;
      }
      if Linked(before, a, b) {
        var x :| x in before.fileEdges && InFile(t.files, x.fromFileId, a) && InFile(t.files, x.toFileId, b);
        assert x in after.fileEdges;
      }
      if InFile(t.files, e.fromFileId, a) && InFile(t.files, e.toFileId, b) {
        assert e in after.fileEdges;
      }
    }
    var more := if e.fromFileId in paths && e.toFileId in paths then {Edge(paths[e.fromFileId], paths[e.toFileId])}
      else {};
    forall y: Edge ensures y in Links(after) <==> y in Links(before) + more {
      assert y == Edge(y.from, y.to);
      if e.fromFileId in paths && e.toFileId in paths {
        assert InFile(t.files, e.fromFileId, paths[e.fromFileId]) && InFile(t.files, e.toFileId, paths[e.toFileId]);
      }
    }
  }

  method AddFiles(files: seq<FileRecord>, graph: DependencyGraph)
    requires graph.Valid()
    modifies graph
    ensures graph.Valid() && graph.Nodes() == old(graph.Nodes()) + PathsOf(files) && graph.Edges() == old(graph.Edges())
  {
    var i := 0;
    while i < |files|
      invariant 0 <= i <= |files| && graph.Valid() && graph.Edges() == old(graph.Edges())
      invariant graph.Nodes() == old(graph.Nodes()) + PathsOf(files[..i])
    {
      assert files[..i + 1] == files[..i] + [files[i]];
      graph.AddNode(files[i].path);
      i := i + 1;
    }
    assert files[..i] == files;
  }

  /** An edge between unknown ids is passed over. */
  method AddLink(t: Tables, i: nat, pathByFileId: map<nat, string>, graph: DependencyGraph)
    requires i < |t.fileEdges| && forall f, p :: (f in pathByFileId && pathByFileId[f] == p) <==> InFile(t.files, f, p)
    requires graph.Valid() && graph.Nodes() == PathsOf(t.files)
      && graph.Edges() == Links(t.(fileEdges := t.fileEdges[..i]))
    modifies graph
    ensures graph.Valid() && graph.Nodes() == PathsOf(t.files)
      && graph.Edges() == Links(t.(fileEdges := t.fileEdges[..i + 1]))
  {
    hide *;
    var e := t.fileEdges[i];
    OneMoreLink(t, i, pathByFileId);
    if e.fromFileId in pathByFileId && e.toFileId in pathByFileId {
      RegisteredPath(t.files, e.fromFileId, pathByFileId[e.fromFileId]);
      RegisteredPath(t.files, e.toFileId, pathByFileId[e.toFileId]);
      graph.AddEdge(pathByFileId[e.fromFileId], pathByFileId[e.toFileId]);
    }
  }

  method DependencyGraphFromState(t: Tables) returns (graph: DependencyGraph)
    requires UniqueIds(t.files)
    ensures fresh(graph) && graph.Valid() && graph.Nodes() == PathsOf(t.files) && graph.Edges() == Links(t)
  {
    hide *;
    graph := new DependencyGraph();
    var pathByFileId := PathsById(t.files);
    AddFiles(t.files, graph);
    NoLinks(t.(fileEdges := t.fileEdges[..0]));
    var i := 0;
    while i < |t.fileEdges|
      invariant 0 <= i <= |t.fileEdges| && fresh(graph) && graph.Valid()
      invariant graph.Nodes() == PathsOf(t.files) && graph.Edges() == Links(t.(fileEdges := t.fileEdges[..i]))
    {
      AddLink(t, i, pathByFileId, graph);
      i := i + 1;
    }
    assert t.fileEdges[..i] == t.fileEdges;
  }

  lemma NoLinks(t: Tables)
    requires t.fileEdges == []
    ensures Links(t) == {}
  {
    forall a, b ensures !Linked(t, a, b) {}
  }

  lemma RegisteredPath(files: seq<FileRecord>, id: nat, path: string)
    requires InFile(files, id, path)
    ensures path in PathsOf(files)
  {
  }

  /** The rebuild set of the event without the file itself. */
  method RebuildSetForChange(t: Tables, path: string) returns (rescans: seq<string>)
    requires FilesSound(t.files)
    ensures Rescans(t, path, rescans)
  {
    hide Reached, RebuildSet, Links;
    if path == "" {
      NothingFromEmpty(t);
      return [];
    }
    var graph := DependencyGraphFromState(t);
    var all := ComputeRebuildSet([path], graph);
    ghost var changed := Elems([path]);
    assert changed == {path};
    RebuildSetIsReachability(Links(t), changed, Elems(all));
    assert forall f :: f in all <==> f in Elems(all);
    rescans := Filter((f: string) => f != path && f != "", all);
    FilterAscends((f: string) => f != path && f != "", all);
  }

  lemma NothingFromEmpty(t: Tables)
    requires FilesSound(t.files)
    ensures forall f :: Reached(Links(t), {""}, f) ==> f == ""
  {
    forall f | Reached(Links(t), {""}, f) ensures f == "" {
      var w :| Walk(Links(t), w) && w[0] in {""} && w[|w| - 1] == f;
      FirstStep(Links(t), w);
    }
  }

  lemma FirstStep(edges: set<Edge>, w: seq<string>)
    requires Walk(edges, w)
    ensures |w| > 1 ==> exists b :: Edge(w[0], b) in edges
  {
    if |w| > 1 { assert Edge(w[0], w[1]) in edges; }
  }

  lemma {:induction false} FilterAscends(keep: string -> bool, s: seq<string>)
    requires Ascending(s)
    ensures Ascending(Filter(keep, s))
  {
    if s != [] {
      assert forall x :: x in s[1..] ==> Lt(s[0], x);
      FilterAscends(keep, s[1..]);
    }
  }

  // ----- an event as a step -----

  predicate Succeeded(op: Operation) {
    op.Rescan? ==> op.ok
  }

  /** The first call is about the file of the event, the others rescan what it depends on. */
  ghost predicate CallsOf(kind: EventKind, path: string, disks: nat -> Disk, rescans: seq<string>,
                          ops: seq<Operation>) {
    && 0 < |ops| <= 1 + |rescans| && ops[0].path == path && (ops[0].Remove? <==> kind == Removed)
    && (forall k :: 1 <= k < |ops| ==> ops[k].Rescan? && ops[k].path == rescans[k - 1])
    && forall k: nat :: k < |ops| && ops[k].Rescan? ==> ops[k].disk == disks(k)
  }

  /** The calls made on the working copy, all successful but perhaps the last. */
  ghost predicate Tried(t: Tables, kind: EventKind, path: string, disks: nat -> Disk, resolve: Resolver,
                        rescans: seq<string>, states: seq<Tables>, ops: seq<Operation>) {
    && Rescans(t, path, rescans) && CallsOf(kind, path, disks, rescans, ops)
    && Run(states, ops, resolve) && states[0] == t
    && forall k :: 0 <= k < |ops| - 1 ==> Succeeded(ops[k])
  }

  /** The copy replaces the tables exactly when every call succeeded and the write lock accepts it. It refuses an
      outdated version and takes the copy back when the new graph has no digest; then, as when the last call failed,
      nothing has changed. (An outdated version is refused before the calls, which have no effect but on the copy.) */
  ghost predicate Concluded(t: Tables, rescans: seq<string>, states: seq<Tables>, ops: seq<Operation>, accepted: bool,
                            applied: bool, t': Tables)
    requires ops != [] && |states| == |ops| + 1
  {
    if Succeeded(ops[|ops| - 1])
    then |ops| == 1 + |rescans| && applied == accepted && t' == if applied then states[|ops|] else t
    else !applied && t' == t
  }

  ghost predicate Mutated(t: Tables, kind: EventKind, path: string, disks: nat -> Disk, resolve: Resolver,
                          accepted: bool, applied: bool, t': Tables) {
    exists rescans, states, ops :: Tried(t, kind, path, disks, resolve, rescans, states, ops)
      && Concluded(t, rescans, states, ops, accepted, applied, t')
  }

  /** Calls that all succeed keep the tables sound. */
  lemma {:induction false} SuccessesKeepSound(states: seq<Tables>, ops: seq<Operation>, resolve: Resolver, i: nat)
    requires Run(states, ops, resolve) && Sound(states[0]) && i <= |ops| && forall k :: 0 <= k < i ==> Succeeded(ops[k])
    ensures Sound(states[i])
  {
    hide Presound, Sound, Step, Applicable;
    if i > 0 {
      SuccessesKeepSound(states, ops, resolve, i - 1);
      SoundIsPresound(states[i - 1]);
      StepKeepsSound(states[i - 1], ops[i - 1], resolve, states[i]);
    }
  }

  /** An event keeps sound tables sound, whichever of its calls failed. */
  lemma MutationKeepsSound(t: Tables, kind: EventKind, path: string, disks: nat -> Disk, resolve: Resolver,
                           accepted: bool, applied: bool, t': Tables)
    requires Sound(t) && Mutated(t, kind, path, disks, resolve, accepted, applied, t')
    ensures Sound(t')
  {
    hide Sound, Step, Applicable, Rescans;
    var rescans, states, ops :| Tried(t, kind, path, disks, resolve, rescans, states, ops)
      && Concluded(t, rescans, states, ops, accepted, applied, t');
    if applied {
      SuccessesKeepSound(states, ops, resolve, |ops|);
    }
  }

  // ----- whole runs of the daemon -----

  /** What is on disk can be numbered in 32 bits, and every file has a path. */
  predicate Orderly(disk: Disk) {
    "" !in disk.discovered && |disk.discovered| < TWO_32
  }

  ghost predicate Handled(t: Tables, event: Event, resolve: Resolver, t': Tables) {
    match event
    case Changed(kind, path, disks) => exists accepted, applied ::
      Mutated(t, kind, path, disks, resolve, accepted, applied, t')
    case RebuildRequest(disk) =>
      Orderly(disk) && if forall p :: p in disk.discovered ==> Scannable(p, disk) then FullScanned(disk, resolve, t')
        else t' == t
    case ShutdownRequest => t' == t
  }

  ghost predicate DaemonRun(tables: seq<Tables>, events: seq<Event>, resolve: Resolver) {
    |tables| == |events| + 1 && forall i :: 0 <= i < |events| ==> Handled(tables[i], events[i], resolve, tables[i + 1])
  }

  lemma EventKeepsSound(t: Tables, event: Event, resolve: Resolver, t': Tables)
    requires Sound(t) && Handled(t, event, resolve, t')
    ensures Sound(t')
  {
    hide Sound, Mutated, FullScanned;
    match event {
      case Changed(kind, path, disks) =>
        var accepted, applied :| Mutated(t, kind, path, disks, resolve, accepted, applied, t');
        MutationKeepsSound(t, kind, path, disks, resolve, accepted, applied, t');
      case RebuildRequest(disk) =>
        if forall p :: p in disk.discovered ==> Scannable(p, disk) {
          FullScanSound(disk, resolve, t');
        }
      case ShutdownRequest =>
    }
  }

  /** Over every run of the daemon all tables are sound, without exception. */
  lemma {:induction false} DaemonStaysSound(tables: seq<Tables>, events: seq<Event>, resolve: Resolver, i: nat)
    requires DaemonRun(tables, events, resolve) && Sound(tables[0]) && i <= |events|
    ensures Sound(tables[i])
  {
    hide Sound, Handled;
    if i > 0 {
      DaemonStaysSound(tables, events, resolve, i - 1);
      EventKeepsSound(tables[i - 1], events[i - 1], resolve, tables[i]);
    }
  }

  // ----- what a call leaves alone -----

  /** A call changes no record of another file. */
  lemma StepFrame(t: Tables, op: Operation, resolve: Resolver, t': Tables, r: FileRecord)
    requires Step(t, op, resolve, t') && r.path != op.path
    ensures r in t.files <==> r in t'.files
  {
    hide Parsed, RebuiltTo, FileInserted, Built;
    match op {
      case Remove(path) => RemoveFrame(t, path, t', r);
      case Rescan(path, disk, ok) =>
        if HasPath(t.files, path) {
          if path !in disk.discovered {
            RemoveFrame(t, path, t', r);
          } else if path in disk.hashes {
            var i: nat :| i < |t.files| && t.files[i].path == path && ModifyAt(t, i, path, disk, resolve, ok, t');
            ModifyFrame(t, i, path, disk, resolve, ok, t', r);
          }
        } else if path in disk.discovered && path in disk.hashes && path in disk.parses {
          AddFrame(t, path, disk, resolve, ok, t', r);
        }
    }
  }

  lemma RemoveFrame(t: Tables, path: string, t': Tables, r: FileRecord)
    requires RemoveStep(t, path, t') && r.path != path
    ensures r in t.files <==> r in t'.files
  {
    hide Derived, Indexed, Filter;
    if HasPath(t.files, path) {
      var i: nat :| i < |t.files| && t.files[i].path == path && RebuiltTo(Dropped(t, i), t');
      RemovedPlaces(t.files, i);
      if r in t.files {
        var j :| 0 <= j < |t.files| && t.files[j] == r;
        assert j != i;
      }
    }
  }

  lemma ModifyFrame(t: Tables, i: nat, path: string, disk: Disk, resolve: Resolver, ok: bool, t': Tables, r: FileRecord)
    requires i < |t.files| && t.files[i].path == path && path in disk.discovered && path in disk.hashes
    requires ModifyAt(t, i, path, disk, resolve, ok, t') && r.path != path
    ensures r in t.files <==> r in t'.files
  {
    hide Parsed, Filter;
    var updated := Refreshed(t, i, path, disk);
    if r in t.files {
      var j :| 0 <= j < |t.files| && t.files[j] == r;
      assert updated.files[j] == r;
    }
    if r in updated.files {
      var j :| 0 <= j < |updated.files| && updated.files[j] == r;
      assert j != i;
    }
    if path in disk.parses && t'.files != updated.files && t' != t {
      ParsedFiles(updated, resolve, t.files[i].fileId, path, disk.parses[path], t');
    }
  }

  lemma AddFrame(t: Tables, path: string, disk: Disk, resolve: Resolver, ok: bool, t': Tables, r: FileRecord)
    requires path in disk.discovered && path in disk.hashes && path in disk.parses
    requires AddNewStep(t, path, disk, resolve, ok, t') && r.path != path
    ensures r in t.files <==> r in t'.files
  {
    hide Parsed, FileInserted, NextId;
    var n, parse := NewRecord(t, path, disk), disk.parses[path];
    var files' :| FileInserted(t.files, n, files')
      && if |parse.symbols| > LOCAL_LIMIT then !ok && t' == t.(files := files')
         else ok && Parsed(t.(files := files'), resolve, n.fileId, path, parse, t');
    InsertedElems(t.files, n, files');
    if |parse.symbols| <= LOCAL_LIMIT {
      ParsedFiles(t.(files := files'), resolve, n.fileId, path, parse, t');
    }
  }

  lemma InsertedElems(files: seq<FileRecord>, n: FileRecord, files': seq<FileRecord>)
    requires FileInserted(files, n, files')
    ensures forall x :: x in files' <==> x in files || x == n
  {
    var all := files + [n];
    MultisetElems(files', all);
    assert forall x :: (x in files' <==> x in Elems(files')) && (x in all <==> x in Elems(all));
  }

  /** The file is known as it was on disk, or not known when it was not there. */
  ghost predicate KnownAs(t: Tables, path: string, disk: Disk) {
    if path in disk.discovered then UpToDate(t, path, disk) else !HasPath(t.files, path)
  }

  /** What a successful call leaves of its file. */
  ghost predicate Current(t: Tables, op: Operation) {
    match op
    case Remove(path) => !HasPath(t.files, path)
    case Rescan(path, disk, ok) => KnownAs(t, path, disk)
  }

  lemma SuccessIsCurrent(t: Tables, op: Operation, resolve: Resolver, t': Tables)
    requires Presound(t) && Applicable(t, op) && Step(t, op, resolve, t') && Succeeded(op)
    ensures Current(t', op)
  {
    hide Parsed, RebuiltTo, FileInserted, IdsLeft, SymbolsSound, LinksSound;
    match op {
      case Remove(path) => Removes(t, path, t');
      case Rescan(path, disk, ok) =>
        if path in disk.discovered {
          RescanRecords(t, path, disk, resolve, t');
        } else if HasPath(t.files, path) {
          Removes(t, path, t');
        }
    }
  }

  lemma Removes(t: Tables, path: string, t': Tables)
    requires Presound(t) && RemoveStep(t, path, t')
    ensures !HasPath(t'.files, path)
  {
    hide RebuiltTo, Dropped, SymbolsSound, LinksSound;
    if HasPath(t.files, path) {
      var i: nat :| i < |t.files| && t.files[i].path == path && RebuiltTo(Dropped(t, i), t');
      DroppedPath(t, i, t');
    }
  }

  lemma RescanRecords(t: Tables, path: string, disk: Disk, resolve: Resolver, t': Tables)
    requires FilesSound(t.files) && path in disk.discovered && AddStep(t, path, disk, resolve, true, t')
    ensures UpToDate(t', path, disk)
  {
    hide Parsed, FileInserted, RemoveStep, NextId;
    if HasPath(t.files, path) {
      var i: nat :| i < |t.files| && t.files[i].path == path && ModifyAt(t, i, path, disk, resolve, true, t');
      RefreshedAt(t, i, path, disk);
      assert t.files[i] in t.files;
      if disk.hashes[path] != t.files[i].hash || disk.discovered[path].lastModified != t.files[i].lastModified {
        ParsedFiles(Refreshed(t, i, path, disk), resolve, t.files[i].fileId, path, disk.parses[path], t');
      }
    } else {
      var n, parse := NewRecord(t, path, disk), disk.parses[path];
      var files' :| FileInserted(t.files, n, files') && Parsed(t.(files := files'), resolve, n.fileId, path, parse, t');
      InsertedElems(t.files, n, files');
      ParsedFiles(t.(files := files'), resolve, n.fileId, path, parse, t');
      assert n in t'.files;
    }
  }

  lemma StaysCurrent(t: Tables, op: Operation, resolve: Resolver, t': Tables, earlier: Operation)
    requires Step(t, op, resolve, t') && Current(t, earlier) && earlier.path != op.path
    ensures Current(t', earlier)
  {
    hide Step;
    forall r: FileRecord | r.path == earlier.path ensures r in t.files <==> r in t'.files {
      StepFrame(t, op, resolve, t', r);
    }
  }

  lemma {:induction false} CurrentAfter(states: seq<Tables>, ops: seq<Operation>, resolve: Resolver, k: nat, i: nat)
    requires Run(states, ops, resolve) && k < i <= |ops| && Presound(states[k]) && Succeeded(ops[k])
    requires forall j :: k < j < i ==> ops[j].path != ops[k].path
    ensures Current(states[i], ops[k])
  {
    hide Presound, Step, Applicable, Current, Succeeded;
    if i == k + 1 {
      SuccessIsCurrent(states[k], ops[k], resolve, states[i]);
    } else {
      CurrentAfter(states, ops, resolve, k, i - 1);
      StaysCurrent(states[i - 1], ops[i - 1], resolve, states[i], ops[k]);
    }
  }

  lemma CallsDiffer(t: Tables, kind: EventKind, path: string, disks: nat -> Disk, rescans: seq<string>,
                    ops: seq<Operation>)
    requires Rescans(t, path, rescans) && CallsOf(kind, path, disks, rescans, ops)
    ensures forall j, k :: 0 <= j < k < |ops| ==> ops[j].path != ops[k].path
  {
    hide Reached, Links;
    AscendingNoDup(rescans);
    forall j, k | 0 <= j < k < |ops| ensures ops[j].path != ops[k].path {
      if j == 0 { assert rescans[k - 1] in rescans; } else { assert rescans[j - 1] != rescans[k - 1]; }
    }
  }

  /** After an event that was applied, the file and all that it depended on are known as their calls found
      them on disk. */
  lemma AppliedIsCurrent(t: Tables, kind: EventKind, path: string, disks: nat -> Disk, resolve: Resolver,
                         accepted: bool,
                         t': Tables, rescans: seq<string>)
    requires Sound(t) && Mutated(t, kind, path, disks, resolve, accepted, true, t') && Rescans(t, path, rescans)
    ensures if kind == Removed then !HasPath(t'.files, path) else KnownAs(t', path, disks(0))
    ensures forall k: nat :: k < |rescans| ==> KnownAs(t', rescans[k], disks(k + 1))
  {
    hide Sound, Presound, Step, Applicable, Rescans, KnownAs, HasPath;
    var others, states, ops :| Tried(t, kind, path, disks, resolve, others, states, ops)
      && Concluded(t, others, states, ops, accepted, true, t');
    RescansUnique(t, path, rescans, others);
    CallsDiffer(t, kind, path, disks, rescans, ops);
    forall k | 0 <= k < |ops| ensures Current(t', ops[k]) {
      SuccessesKeepSound(states, ops, resolve, k);
      SoundIsPresound(states[k]);
      CurrentAfter(states, ops, resolve, k, |ops|);
    }
    forall k: nat | k < |rescans| ensures KnownAs(t', rescans[k], disks(k + 1)) {
      assert Current(t', ops[k + 1]);
    }
  }

  // ----- handling an event -----

  lemma RescansRegistered(t: Tables, path: string, rescans: seq<string>)
    requires Rescans(t, path, rescans)
    ensures forall f :: f in rescans ==> HasPath(t.files, f)
  {
    forall f | f in rescans ensures HasPath(t.files, f) {
      var w :| Walk(Links(t), w) && w[0] in {path} && w[|w| - 1] == f;
      assert Edge(w[|w| - 2], w[|w| - 1]) in Links(t);
      var r :| r in t.files && r.path == f;
    }
  }

  lemma PathStays(t: Tables, op: Operation, resolve: Resolver, t': Tables, path: string)
    requires Step(t, op, resolve, t') && path != op.path && HasPath(t.files, path)
    ensures HasPath(t'.files, path)
  {
    hide Step;
    var r :| r in t.files && r.path == path;
    StepFrame(t, op, resolve, t', r);
  }

  /** Files other than the one called for stay registered. */
  lemma StillRegistered(t: Tables, op: Operation, resolve: Resolver, t': Tables, rescans: seq<string>, k: nat)
    requires Step(t, op, resolve, t')
      && forall j :: k <= j < |rescans| ==> HasPath(t.files, rescans[j]) && rescans[j] != op.path
    ensures forall j :: k <= j < |rescans| ==> HasPath(t'.files, rescans[j])
  {
    hide Step, HasPath;
    forall j | k <= j < |rescans| ensures HasPath(t'.files, rescans[j]) {
      PathStays(t, op, resolve, t', rescans[j]);
    }
  }

  lemma RescansDiffer(t: Tables, path: string, rescans: seq<string>)
    requires Rescans(t, path, rescans)
    ensures NoDup(rescans) && forall j :: 0 <= j < |rescans| ==> rescans[j] != path && HasPath(t.files, rescans[j])
  {
    RescansRegistered(t, path, rescans);
    hide Reached, Links, HasPath;
    AscendingNoDup(rescans);
    forall j | 0 <= j < |rescans| ensures rescans[j] != path && HasPath(t.files, rescans[j]) {
      assert rescans[j] in rescans;
    }
  }

  lemma OneCallMore(t: Tables, kind: EventKind, path: string, disks: nat -> Disk, resolve: Resolver,
                    rescans: seq<string>, states: seq<Tables>,
                    ops: seq<Operation>, op: Operation, t': Tables)
    requires Tried(t, kind, path, disks, resolve, rescans, states, ops) && Succeeded(ops[|ops| - 1])
      && |ops| <= |rescans|
    requires op.Rescan? && op.path == rescans[|ops| - 1] && op.disk == disks(|ops|)
    requires Applicable(states[|ops|], op) && Step(states[|ops|], op, resolve, t')
    ensures Tried(t, kind, path, disks, resolve, rescans, states + [t'], ops + [op])
  {
    hide Step, Applicable, Rescans;
    var longer, more := states + [t'], ops + [op];
    forall i | 0 <= i < |more|
      ensures Applicable(longer[i], more[i]) && Step(longer[i], more[i], resolve, longer[i + 1]) {
      if i < |ops| { assert longer[i] == states[i] && longer[i + 1] == states[i + 1]; }
    }
  }

  lemma FirstCall(t: Tables, kind: EventKind, path: string, disks: nat -> Disk, resolve: Resolver, rescans: seq<string>,
                  op: Operation, t': Tables)
    requires Rescans(t, path, rescans) && op.path == path && (op.Remove? <==> kind == Removed)
      && (op.Rescan? ==> op.disk == disks(0))
    requires Applicable(t, op) && Step(t, op, resolve, t')
    ensures Tried(t, kind, path, disks, resolve, rescans, [t, t'], [op])
  {
    hide Step, Applicable, Rescans;
  }

  method Copy(state: RuntimeState) returns (copy: RuntimeState)
    ensures fresh(copy) && copy.Value() == state.Value()
  {
    copy := new RuntimeState();
    copy.files, copy.symbols, copy.fileEdges, copy.symbolEdges := state.files, state.symbols, state.fileEdges,
      state.symbolEdges;
    copy.semanticSymbolDepsByFileId, copy.symbolIndex := state.semanticSymbolDepsByFileId, state.symbolIndex;
  }

  /** The call the event itself asks for. */
  method HandleFile(scanner: Scanner, working: RuntimeState, kind: EventKind, path: string, disk: Disk)
    returns (ok: bool, ghost op: Operation)
    requires Presound(working.Value()) && "" !in disk.discovered
    requires kind == Removed || HasPath(working.files, path) || IdsLeft(working.files)
    modifies working
    ensures Presound(working.Value()) && op.path == path && (op.Remove? <==> kind == Removed) && (ok <==> Succeeded(op))
    ensures op.Rescan? ==> op.disk == disk
    ensures Applicable(old(working.Value()), op) && Step(old(working.Value()), op, scanner.resolve, working.Value())
  {
    hide Presound, AddStep, RemoveStep, IdsLeft;
    match kind {
      case Added =>
        var added, change := scanner.IncrementalAdd(working, path, disk);
        ok, op := added, Rescan(path, disk, added);
      case Modified =>
        var modified, change := scanner.IncrementalModify(working, path, disk);
        ok, op := modified, Rescan(path, disk, modified);
      case Removed =>
        var change := scanner.IncrementalRemove(working, path);
        ok, op := true, Remove(path);
    }
  }

  /** `disks` is what each of the calls finds on disk, and `accepted` whether the write lock takes the result. */
  method ApplyIncrementalMutation(scanner: Scanner, state: RuntimeState, kind: EventKind, path: string,
                                  disks: nat -> Disk, accepted: bool)
    returns (applied: bool)
    requires Presound(state.Value()) && forall k: nat :: "" !in disks(k).discovered
    requires kind == Removed || HasPath(state.files, path) || IdsLeft(state.files)
    modifies state
    ensures Mutated(old(state.Value()), kind, path, disks, scanner.resolve, accepted, applied, state.Value())
    ensures Presound(state.Value())
  {
    hide Presound, AddStep, RemoveStep, Rescans, IdsLeft, Tried, HasPath;
    ghost var t := state.Value();
    var current := Tables(state.files, state.symbols, state.fileEdges, state.symbolEdges,
      state.semanticSymbolDepsByFileId, state.symbolIndex);
    PresoundFiles(t);
    var rescans := RebuildSetForChange(current, path);
    var working := Copy(state);
    var ok, op := HandleFile(scanner, working, kind, path, disks(0));
    FirstCall(t, kind, path, disks, scanner.resolve, rescans, op, working.Value());
    ghost var states, ops := [t, working.Value()], [op];
    if !ok {
      assert Concluded(t, rescans, states, ops, accepted, false, t);
      return false;
    }
    RescansDiffer(t, path, rescans);
    StillRegistered(t, op, scanner.resolve, working.Value(), rescans, 0);
    var k := 0;
    while k < |rescans|
      invariant 0 <= k <= |rescans| && |ops| == k + 1 && |states| == k + 2
      invariant Tried(t, kind, path, disks, scanner.resolve, rescans, states, ops) && Succeeded(ops[k])
      invariant fresh(working) && Presound(working.Value()) && states[k + 1] == working.Value() && state.Value() == t
      invariant forall j :: k <= j < |rescans| ==> HasPath(working.files, rescans[j])
    {
      ghost var before := working.Value();
      var modified, change := scanner.IncrementalModify(working, rescans[k], disks(k + 1));
      op := Rescan(rescans[k], disks(k + 1), modified);
      OneCallMore(t, kind, path, disks, scanner.resolve, rescans, states, ops, op, working.Value());
      states, ops := states + [working.Value()], ops + [op];
      if !modified {
        assert Concluded(t, rescans, states, ops, accepted, false, t);
        return false;
      }
      StillRegistered(before, op, scanner.resolve, working.Value(), rescans, k + 1);
      k := k + 1;
    }
    if !accepted {
      assert Concluded(t, rescans, states, ops, false, false, t);
      return false;
    }
    assert Concluded(t, rescans, states, ops, true, true, working.Value());
    state.files, state.symbols, state.fileEdges, state.symbolEdges := working.files, working.symbols, working.fileEdges,
      working.symbolEdges;
    state.semanticSymbolDepsByFileId, state.symbolIndex := working.semanticSymbolDepsByFileId, working.symbolIndex;
    return true;
  }
}
