/** `ultra::intelligence::BranchEvictionPolicy`: the candidate with the smallest retention score, ties broken by the
    larger recency rank and then by the smaller id. The score is any function of the record, its rank and the number of
    branches: nothing about the caps depends on it. */
module BranchEviction {
  import opened Orders
  import opened Branches
  import opened BranchStores

  /** Any retention score: branch, recency rank, number of branches. */
  type Score = (Branch, nat, nat) -> real

  datatype CandidateScore = CandidateScore(branchId: string, retentionScore: real, lruRank: nat)

  predicate EvictedBefore(left: CandidateScore, right: CandidateScore) {
    if left.retentionScore != right.retentionScore then left.retentionScore < right.retentionScore
    else if left.lruRank != right.lruRank then left.lruRank > right.lruRank
    else Lt(left.branchId, right.branchId)
  }

  lemma EvictedBeforeComparator()
    ensures Comparator(EvictedBefore)
  {
    forall x, y | EvictedBefore(x, y) ensures !EvictedBefore(y, x) {
      if Lt(x.branchId, y.branchId) { LtAsymmetric(x.branchId, y.branchId); }
    }
    forall x, y, z | EvictedBefore(x, y) && EvictedBefore(y, z) ensures EvictedBefore(x, z) {
      if Lt(x.branchId, y.branchId) && Lt(y.branchId, z.branchId) { LtTransitive(x.branchId, y.branchId, z.branchId); }
    }
  }

  /** Position in the recency list, or its length when unlisted. */
  function Rank(lru: seq<string>, id: string): (r: nat)
    ensures r <= |lru|
    ensures if id in lru then r < |lru| && lru[r] == id else r == |lru|
  {
    if lru == [] then 0 else if lru[0] == id then 0 else 1 + Rank(lru[1..], id)
  }

  ghost function Candidates(branches: map<string, Branch>, protectedIds: set<string>, activeOnly: bool): set<string> {
    set id | id in branches && id !in protectedIds && branches[id].isOverlayResident
      && (activeOnly ==> branches[id].status == Active)
  }

  function Scored(branches: map<string, Branch>, lru: seq<string>, score: Score, total: nat, id: string): CandidateScore
    requires id in branches
  {
    CandidateScore(id, score(branches[id], Rank(lru, id), total), Rank(lru, id))
  }

  /** Empty when nothing may be evicted, else the candidate evicted before all others. */
  ghost predicate Selected(s: StoreState, score: Score, protectedIds: set<string>, activeOnly: bool,
                           candidate: string) {
    var pool := Candidates(s.branches, protectedIds, activeOnly);
    if pool == {} then candidate == ""
    else
      candidate in pool
      && forall id :: id in pool && id != candidate ==>
           EvictedBefore(Scored(s.branches, s.lru, score, |s.branches|, candidate),
             Scored(s.branches, s.lru, score, |s.branches|, id))
  }

  /** The scores collected for the first `k` ids. */
  ghost predicate Collected(s: StoreState, score: Score, pool: set<string>, cs: seq<CandidateScore>) {
    && (forall c :: c in cs ==>
      c.branchId in pool && c.branchId in s.branches && c == Scored(s.branches, s.lru, score, |s.branches|, c.branchId))
    && (forall id :: id in pool ==> exists c :: c in cs && c.branchId == id)
  }

  method SelectEvictionCandidate(store: BranchStore, score: Score, protectedBranchIds: seq<string>, activeOnly: bool)
    returns (candidate: string)
    requires store.Valid()
    ensures Selected(store.Abs(), score, Elems(protectedBranchIds), activeOnly, candidate)
  {
    ghost var s := store.Abs();
    ghost var protectedIds := Elems(protectedBranchIds);
    var ids := store.BranchIdSnapshot();
    var lru := store.GetLruOrder();
    assert Elems(ids) == s.branches.Keys && lru == s.lru;
    StoreKeys(s, store.loaded);
    hide BranchStore.Valid, Consistent, Scored, Candidates, Collected, Ids;
    AscendingNoDup(ids);
    NoDupSize(ids);
    var cs: seq<CandidateScore> := [];
    assert ids[..0] == [];
    CollectNone(s, score, protectedIds, activeOnly);
    var i := 0;
    while i < |ids|
      invariant 0 <= i <= |ids|
      invariant Collected(s, score, Candidates(s.branches, protectedIds, activeOnly) * Elems(ids[..i]), cs)
    {
      var id := ids[i];
      KeyPresent(ids, i, s.branches.Keys);
      var b := store.BranchSnapshot(id);
      CollectStep(s, score, protectedIds, activeOnly, ids, i, cs);
      if id !in protectedBranchIds && b.Some? && b.value.isOverlayResident
        && (!activeOnly || b.value.status == Active) {
        var r := Rank(lru, id);
        cs := cs + [CandidateScore(id, score(b.value, r, |ids|), r)];
      }
      i := i + 1;
    }
    assert ids[..i] == ids;
    CandidatesExist(s.branches, protectedIds, activeOnly);
    assert Candidates(s.branches, protectedIds, activeOnly) * Elems(ids) ==
      Candidates(s.branches, protectedIds, activeOnly);
    if cs == [] {
      NothingCollected(s, score, protectedIds, activeOnly);
      return "";
    }
    EvictedBeforeComparator();
    var sorted := Sort(cs, EvictedBefore);
    FrontSelected(s, score, protectedIds, activeOnly, cs, sorted);
    candidate := sorted[0].branchId;
  }

  lemma StoreKeys(s: StoreState, loaded: bool)
    requires Consistent(s, loaded)
    ensures forall id :: id in s.branches ==> s.branches[id].branchId == id
  {
  }

  lemma CollectNone(s: StoreState, score: Score, protectedIds: set<string>, activeOnly: bool)
    ensures Collected(s, score, Candidates(s.branches, protectedIds, activeOnly) * Elems([]), [])
  {
  }

  lemma CollectStep(s: StoreState, score: Score, protectedIds: set<string>, activeOnly: bool,
                    ids: seq<string>, i: nat, cs: seq<CandidateScore>)
    requires i < |ids| && ids[i] in s.branches
    requires Collected(s, score, Candidates(s.branches, protectedIds, activeOnly) * Elems(ids[..i]), cs)
    ensures Collected(s, score, Candidates(s.branches, protectedIds, activeOnly) * Elems(ids[..i + 1]),
              if ids[i] in Candidates(s.branches, protectedIds, activeOnly)
              then cs + [Scored(s.branches, s.lru, score, |s.branches|, ids[i])] else cs)
    ensures Scored(s.branches, s.lru, score, |s.branches|, ids[i])
         == CandidateScore(ids[i], score(s.branches[ids[i]], Rank(s.lru, ids[i]), |s.branches|), Rank(s.lru, ids[i]))
    ensures ids[i] in Candidates(s.branches, protectedIds, activeOnly) <==>
            ids[i] !in protectedIds && s.branches[ids[i]].isOverlayResident
              && (activeOnly ==> s.branches[ids[i]].status == Active)
  {
    var pool, id := Candidates(s.branches, protectedIds, activeOnly), ids[i];
    assert ids[..i + 1] == ids[..i] + [id];
    assert Elems(ids[..i + 1]) == Elems(ids[..i]) + {id};
    var c := Scored(s.branches, s.lru, score, |s.branches|, id);
    assert c.branchId == id;
    var longer := if id in pool then cs + [c] else cs;
    var wanted := pool * Elems(ids[..i + 1]);
    forall x | x in wanted ensures exists e :: e in longer && e.branchId == x {
      if x == id {
        assert c in longer;
      } else {
        assert x in pool * Elems(ids[..i]);
        var e :| e in cs && e.branchId == x;
        assert e in longer;
      }
    }
  }

  lemma CandidatesExist(branches: map<string, Branch>, protectedIds: set<string>, activeOnly: bool)
    ensures Candidates(branches, protectedIds, activeOnly) <= branches.Keys
  {
  }

  lemma NothingCollected(s: StoreState, score: Score, protectedIds: set<string>, activeOnly: bool)
    requires Collected(s, score, Candidates(s.branches, protectedIds, activeOnly), [])
    ensures Selected(s, score, protectedIds, activeOnly, "")
  {
    var none: seq<CandidateScore> := [];
    assert forall c :: c !in none;
    assert Candidates(s.branches, protectedIds, activeOnly) == {};
  }

  /** The front of the sorted scores beats every other candidate: equal ranks and scores still differ in id. */
  lemma FrontSelected(s: StoreState, score: Score, protectedIds: set<string>, activeOnly: bool,
                      cs: seq<CandidateScore>, sorted: seq<CandidateScore>)
    requires Collected(s, score, Candidates(s.branches, protectedIds, activeOnly), cs) && cs != []
    requires SortedBy(EvictedBefore, sorted) && multiset(sorted) == multiset(cs)
    ensures sorted != [] && Selected(s, score, protectedIds, activeOnly, sorted[0].branchId)
  {
    MultisetElems(sorted, cs);
    assert forall c :: c in sorted <==>
      c in cs by { assert forall c :: (c in sorted <==> c in Elems(sorted)) && (c in cs <==> c in Elems(cs)); }
    var pool, best := Candidates(s.branches, protectedIds, activeOnly), sorted[0];
    assert best in sorted;
    forall id | id in pool && id != best.branchId
      ensures EvictedBefore(Scored(s.branches, s.lru, score, |s.branches|, best.branchId),
        Scored(s.branches, s.lru, score, |s.branches|, id))
    {
      var c :| c in cs && c.branchId == id;
      assert c in sorted;
      var k :| 0 <= k < |sorted| && sorted[k] == c;
      assert k != 0;
      assert !EvictedBefore(c, best);
      LtTotal(c.branchId, best.branchId);
    }
  }

  /** The candidate has the smallest retention score of all that may be evicted, and of those with this score it is the
      least recently used. */
  lemma LeastRetained(s: StoreState, score: Score, protectedIds: set<string>, activeOnly: bool, candidate: string,
                      id: string, i: nat, j: nat)
    requires Selected(s, score, protectedIds, activeOnly, candidate)
    requires NoDup(s.lru) && i < |s.lru| && j < |s.lru| && s.lru[i] == candidate && s.lru[j] == id && id != candidate
    requires id in s.branches && s.branches[id].isOverlayResident && id !in protectedIds
    requires activeOnly ==> s.branches[id].status == Active
    ensures candidate in s.branches && s.branches[candidate].isOverlayResident && candidate !in protectedIds
    ensures activeOnly ==> s.branches[candidate].status == Active
    ensures var n := |s.branches|;
      && score(s.branches[candidate], i, n) <= score(s.branches[id], j, n)
      && (score(s.branches[candidate], i, n) == score(s.branches[id], j, n) ==> j < i)
  {
    assert id in Candidates(s.branches, protectedIds, activeOnly);
    assert Rank(s.lru, candidate) == i && Rank(s.lru, id) == j;
  }
}
