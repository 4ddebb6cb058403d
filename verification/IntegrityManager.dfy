/** `ultra::ai::IntegrityManager`: the hashes over the whole index. */
module IntegrityManagement {
  import opened Sha256Spec
  import opened Sha256Streaming

  /** The part of a file record the project root hash covers. */
  datatype HashedFile = HashedFile(path: seq<Byte>, hash: seq<Byte>)

  function RootBytes(files: seq<HashedFile>): seq<Byte> {
    if files == [] then []
    else
      var last := files[|files| - 1];
      RootBytes(files[..|files| - 1]) + last.path + last.hash
  }

  ghost predicate DigestsFit(files: seq<HashedFile>) {
    forall f :: f in files ==> |f.hash| == 32
  }

  ghost predicate SamePathLengths(a: seq<HashedFile>, b: seq<HashedFile>) {
    |a| == |b| && forall i :: 0 <= i < |a| ==> |a[i].path| == |b[i].path|
  }

  /** Two lists with the same bytes are the same exactly when their paths are equally long. */
  lemma {:induction false} RootBytesDetermine(a: seq<HashedFile>, b: seq<HashedFile>)
    requires DigestsFit(a) && DigestsFit(b) && RootBytes(a) == RootBytes(b)
    ensures a == b <==> SamePathLengths(a, b)
  {
    if SamePathLengths(a, b) && a != [] {
      var x, y := a[|a| - 1], b[|b| - 1];
      var front, front' := RootBytes(a[..|a| - 1]), RootBytes(b[..|b| - 1]);
      assert |x.hash| == |y.hash| && |front| == |front'|;
      assert front == RootBytes(a)[..|front|] && front' == RootBytes(b)[..|front|];
      assert x.path == RootBytes(a)[|front|..][..|x.path|] && y.path == RootBytes(b)[|front|..][..|x.path|];
      assert x.hash == RootBytes(a)[|front| + |x.path|..] && y.hash == RootBytes(b)[|front| + |x.path|..];
      RootBytesDetermine(a[..|a| - 1], b[..|b| - 1]);
      assert a == a[..|a| - 1] + [x] && b == b[..|b| - 1] + [y];
    }
  }

  lemma RootBytesNext(files: seq<HashedFile>, f: HashedFile)
    ensures RootBytes(files + [f]) == RootBytes(files) + f.path + f.hash
  {
    assert (files + [f])[..|files|] == files;
  }

  lemma {:induction false} RootBytesLength(files: seq<HashedFile>)
    requires DigestsFit(files)
    ensures |RootBytes(files)| >= 32 * |files|
  {
    if files != [] { RootBytesLength(files[..|files| - 1]); }
  }

  /** The last two entries as one: the first of them becomes part of a path. */
  lemma LastTwoMerge(files: seq<HashedFile>) returns (merged: seq<HashedFile>)
    requires DigestsFit(files) && |files| >= 2
    ensures DigestsFit(merged) && RootBytes(merged) == RootBytes(files) && merged != files
  {
    hide RootBytes;
    var n := |files|;
    var front, x, y := files[..n - 2], files[n - 2], files[n - 1];
    merged := front + [HashedFile(x.path + x.hash + y.path, y.hash)];
    assert files == front + [x] + [y];
    assert x in files && y in files;
    RootBytesNext(front, x);
    RootBytesNext(front + [x], y);
    RootBytesNext(front, HashedFile(x.path + x.hash + y.path, y.hash));
    assert RootBytes(front) + x.path + x.hash + y.path + y.hash == RootBytes(front) + (x.path + x.hash + y.path) +
      y.hash;
  }

  /** An entry whose path is as long as a digest as two. */
  lemma LongPathSplits(f: HashedFile) returns (split: seq<HashedFile>)
    requires |f.hash| == 32 && |f.path| >= 32
    ensures DigestsFit(split) && RootBytes(split) == RootBytes([f]) && split != [f]
  {
    hide RootBytes;
    var x, y := HashedFile([], f.path[..32]), HashedFile(f.path[32..], f.hash);
    split := [x, y];
    assert [] + [f] == [f] && [] + [x] == [x] && [x] + [y] == split;
    RootBytesNext([], f);
    RootBytesNext([], x);
    RootBytesNext([x], y);
    assert f.path[..32] + f.path[32..] == f.path;
    assert RootBytes([]) + [] + f.path[..32] + f.path[32..] + f.hash == RootBytes([]) + f.path + f.hash;
  }

  /** No bytes, or fewer than two digests: only one list can have them. */
  lemma ShortIsDetermined(a: seq<HashedFile>, b: seq<HashedFile>)
    requires DigestsFit(a) && DigestsFit(b) && RootBytes(a) == RootBytes(b)
    requires a == [] || (|a| == 1 && |a[0].path| < 32)
    ensures a == b
  {
    RootBytesLength(b);
    if a != [] {
      assert a[0] in a && a[..0] == [];
      assert |RootBytes(a)| == |a[0].path| + 32;
      assert |b| == 1 && b[0] in b && b[..0] == [];
      assert |RootBytes(b)| == |b[0].path| + 32;
      RootBytesDetermine(a, b);
    }
  }

  /** The bytes hashed for a project determine its list of files exactly when there is no file, or a single one whose
      path is shorter than a digest: nothing separates paths from digests. */
  lemma RootBytesDetermineIff(a: seq<HashedFile>)
    requires DigestsFit(a)
    ensures (forall b :: DigestsFit(b) && RootBytes(b) == RootBytes(a) ==> b == a) <==>
      a == [] || (|a| == 1 && |a[0].path| < 32)
  {
    hide RootBytes;
    if a == [] || (|a| == 1 && |a[0].path| < 32) {
      forall b | DigestsFit(b) && RootBytes(b) == RootBytes(a) ensures b == a {
        ShortIsDetermined(a, b);
      }
    } else if |a| == 1 {
      assert a[0] in a && a == [a[0]];
      var split := LongPathSplits(a[0]);
    } else {
      var merged := LastTwoMerge(a);
    }
  }

  /** Two different lists with one root hash, whatever the digests are: a path may spell out a whole entry. */
  lemma RootBytesMerge(path: seq<Byte>, hash: seq<Byte>, next: HashedFile)
    ensures RootBytes([HashedFile(path, hash), next]) == RootBytes([HashedFile(path + hash + next.path, next.hash)])
  {
    var files, merged := [HashedFile(path, hash), next], [HashedFile(path + hash + next.path, next.hash)];
    assert files[..1] == [HashedFile(path, hash)] && files[..1][..0] == [] && merged[..0] == [];
    assert RootBytes(files[..1]) == [] + path + hash;
    assert RootBytes(files) == ([] + path + hash) + next.path + next.hash;
    assert RootBytes(merged) == [] + (path + hash + next.path) + next.hash;
  }

  /** The hash of all paths and file hashes run together. */
  method ComputeProjectRootHash(files: seq<HashedFile>) returns (digest: seq<Byte>)
    ensures digest == DigestBytes(Finished(RootBytes(files)))
    ensures 8 * |RootBytes(files)| < TWO_64 ==> digest == Sha256(RootBytes(files))
  {
    hide Sha256, Finished, Absorbed;
    var accumulator := new Sha256Accumulator();
    var i := 0;
    assert files[..0] == [];
    while i < |files|
      invariant 0 <= i <= |files| && accumulator.Valid() && !accumulator.finalized
      invariant fresh(accumulator) && fresh(accumulator.state) && fresh(accumulator.buffer)
      invariant accumulator.message == RootBytes(files[..i])
    {
      assert files[..i + 1][..i] == files[..i];
      var _ := accumulator.Update(files[i].path);
      var _ := accumulator.Update(files[i].hash);
      i := i + 1;
    }
    assert files[..i] == files;
    digest := accumulator.Finalize();
  }

  ghost predicate Readable(file: FileRead) {
    file.Opened? && !file.bad
  }

  lemma FedIffReadable(file: FileRead)
    ensures FeedingOf(file, false) == Fed <==> Readable(file)
    ensures Readable(file) ==> file.Opened?
  {
    FeedingCases(file, false);
  }

  /** Either some file cannot be read, or the digest is the hash of the three files joined. */
  method ComputeIndexHash(filesTable: FileRead, symbolsTable: FileRead, depsTable: FileRead)
    returns (ok: bool, digest: seq<Byte>)
    ensures ok <==> Readable(filesTable) && Readable(symbolsTable) && Readable(depsTable)
    ensures ok ==>
      var joined := Flatten(filesTable.chunks) + Flatten(symbolsTable.chunks) + Flatten(depsTable.chunks);
      8 * |joined| < TWO_64 ==> digest == Sha256(joined)
  {
    hide *;
    FedIffReadable(filesTable);
    FedIffReadable(symbolsTable);
    FedIffReadable(depsTable);
    ok, digest := false, [];
    var accumulator := new Sha256Accumulator();
    var result := accumulator.UpdateFromFile(filesTable);
    if result != Fed { return; }
    result := accumulator.UpdateFromFile(symbolsTable);
    if result != Fed { return; }
    result := accumulator.UpdateFromFile(depsTable);
    if result != Fed { return; }
    assert accumulator.message == Flatten(filesTable.chunks) + Flatten(symbolsTable.chunks) + Flatten(depsTable.chunks);
    digest := accumulator.Finalize();
    ok := true;
  }
}
