/** Branch records, their identifiers, and the counters they are derived from. */
module Branches {
  import opened Decimals

  datatype BranchState = Unknown | Active | Suspended | Merged | Archived | RolledBack {
    /** States no lifecycle operation leads back from. */
    predicate Terminal() {
      Merged? || Archived? || RolledBack?
    }
  }

  /** The three scores; rounding plays no part in the model. */
  datatype Confidence = Confidence(stabilityScore: real, riskAdjustedConfidence: real, decisionReliabilityIndex: real)

  datatype Branch = Branch(
    branchId: string,
    parentId: string,
    parentBranchId: string,
    goal: string,
    currentExecutionNodeId: string,
    subBranches: seq<string>,
    memorySnapshotId: string,
    dependencyReferences: seq<string>,
    confidence: Confidence,
    status: BranchState,
    isOverlayResident: bool,
    creationSequence: nat,
    lastMutationSequence: nat)

  /** A default-constructed branch; an empty id also signals "not found". */
  const NO_BRANCH := Branch("", "", "", "", "", [], "", [], Confidence(0.0, 0.0, 0.0), Unknown, true, 0, 0)

  function Normalize(b: Branch): Branch {
    if b.parentId == "" && b.parentBranchId != "" then b.(parentId := b.parentBranchId)
    else if b.parentBranchId == "" && b.parentId != "" then b.(parentBranchId := b.parentId)
    else b
  }

  /** An empty one of the two parent fields takes the value of the other; nothing else changes. */
  lemma NormalizeFills(b: Branch)
    ensures var n := Normalize(b);
      && n == b.(parentId := n.parentId, parentBranchId := n.parentBranchId)
      && (b.parentId != "" ==> n.parentId == b.parentId)
      && (b.parentBranchId != "" ==> n.parentBranchId == b.parentBranchId)
      && (b.parentId == "" ==> n.parentId == n.parentBranchId == b.parentBranchId)
      && (b.parentBranchId == "" ==> n.parentBranchId == n.parentId == b.parentId)
  {
  }

  // ----- identifiers -----

  /** The text the id generator hashes. */
  function IdText(parentId: string, goal: string, counter: nat): string {
    parentId + "|" + goal + "|" + Dec(counter)
  }

  /** The digest of the id generator, and the texts it is applied to in the run considered. */
  datatype IdHash = IdHash(digest: string -> string, texts: set<string>)

  ghost predicate Collides(h: IdHash, x: string, y: string) {
    x in h.texts && y in h.texts && x != y && h.digest(x) == h.digest(y)
  }

  /** No two of the texts hashed in the run have the same digest; nothing is asked of other texts. */
  ghost predicate NoCollision(h: IdHash) {
    forall x, y :: !Collides(h, x, y)
  }

  /** A digest is printed as 64 hex digits. */
  ghost predicate NeverEmpty(hash: string -> string) {
    forall x :: hash(x) != ""
  }

  lemma {:induction false} DigitTailsAgree(a: string, s: string, b: string, t: string)
    requires a + "|" + s == b + "|" + t && AllDigits(s) && AllDigits(t)
    ensures s == t
  {
    var x, y := a + "|" + s, b + "|" + t;
    assert x[|a|] == '|' && y[|b|] == '|';
    if |s| == |t| {
      assert s == x[|a| + 1..] && t == y[|b| + 1..];
    }
  }

  /** The counter can be read back from the text, whatever bars the parent id and the goal contain. */
  lemma IdTextSeparatesCounters(p1: string, g1: string, c1: nat, p2: string, g2: string, c2: nat)
    requires IdText(p1, g1, c1) == IdText(p2, g2, c2)
    ensures c1 == c2
  {
    DecDigits(c1);
    DecDigits(c2);
    assert IdText(p1, g1, c1) == (p1 + "|" + g1) + "|" + Dec(c1);
    assert IdText(p2, g2, c2) == (p2 + "|" + g2) + "|" + Dec(c2);
    DigitTailsAgree(p1 + "|" + g1, Dec(c1), p2 + "|" + g2, Dec(c2));
    DecInjective(c1, c2);
  }

  /** The text is the counter behind the last bar, and parent and goal joined by a bar. */
  lemma IdTextParts(p1: string, g1: string, c1: nat, p2: string, g2: string, c2: nat)
    ensures IdText(p1, g1, c1) == IdText(p2, g2, c2) <==> c1 == c2 && p1 + "|" + g1 == p2 + "|" + g2
  {
    var x, y := p1 + "|" + g1, p2 + "|" + g2;
    assert IdText(p1, g1, c1) == x + "|" + Dec(c1) && IdText(p2, g2, c2) == y + "|" + Dec(c2);
    if IdText(p1, g1, c1) == IdText(p2, g2, c2) {
      IdTextSeparatesCounters(p1, g1, c1, p2, g2, c2);
      assert x == IdText(p1, g1, c1)[..|x|] && y == IdText(p2, g2, c2)[..|y|];
    }
  }

  /** Parents without bars, as digests printed in hexadecimal are, can be told apart, whatever bars the
      goals contain. */
  lemma BarFreeParents(p1: string, g1: string, p2: string, g2: string)
    requires '|' !in p1 && '|' !in p2 && p1 + "|" + g1 == p2 + "|" + g2
    ensures p1 == p2 && g1 == g2
  {
    var x, y := p1 + "|" + g1, p2 + "|" + g2;
    assert x[|p1|] == '|' && y[|p2|] == '|';
    assert forall i :: 0 <= i < |p1| ==> x[i] == p1[i] && x[i] != '|';
    assert forall i :: 0 <= i < |p2| ==> y[i] == p2[i] && y[i] != '|';
    assert p1 == x[..|p1|] && p2 == y[..|p2|] && g1 == x[|p1| + 1..] && g2 == y[|p2| + 1..];
  }

  /** The text determines parent and goal exactly when neither contains a bar. */
  lemma IdTextDeterminesIff(p: string, g: string, c: nat)
    ensures (forall p2, g2, c2 :: IdText(p2, g2, c2) == IdText(p, g, c) ==> p2 == p && g2 == g) <==>
      '|' !in p && '|' !in g
  {
    if '|' in p {
      var i :| 0 <= i < |p| && p[i] == '|';
      BarMoves(p[..i], p[i + 1..], g, c);
      assert p == p[..i] + "|" + p[i + 1..];
      assert |p[..i]| != |p|;
    } else if '|' in g {
      var i :| 0 <= i < |g| && g[i] == '|';
      BarMoves(p, g[..i], g[i + 1..], c);
      assert g == g[..i] + "|" + g[i + 1..];
      assert |p + "|" + g[..i]| != |p|;
    } else {
      forall p2, g2, c2 | IdText(p2, g2, c2) == IdText(p, g, c) ensures p2 == p && g2 == g {
        IdTextParts(p2, g2, c2, p, g, c);
        var x, y := p2 + "|" + g2, p + "|" + g;
        assert x[|p2|] == '|' && forall i :: 0 <= i < |y| && i != |p| ==> y[i] != '|';
        assert p2 == x[..|p2|] && p == y[..|p|] && g2 == x[|p2| + 1..] && g == y[|p| + 1..];
      }
    }
  }

  /** A bar can move between parent and goal. */
  lemma BarMoves(a: string, b: string, d: string, c: nat)
    ensures IdText(a + "|" + b, d, c) == IdText(a, b + "|" + d, c)
  {
    assert (a + "|" + b) + "|" + d == a + "|" + (b + "|" + d);
    IdTextParts(a + "|" + b, d, c, a, b + "|" + d, c);
  }

  /** A concrete pair of inputs with one text. */
  lemma IdTextMergesParentAndGoal()
    ensures IdText("a|b", "c", 1) == IdText("a", "b|c", 1)
  {
    BarMoves("a", "b", "c", 1);
    assert "a" + "|" + "b" == "a|b" && "b" + "|" + "c" == "b|c";
  }

  /** Every id in the set came from the generator with a counter that has been handed out. */
  ghost predicate Issued(h: IdHash, ids: set<string>, counter: nat) {
    forall id :: id in ids ==>
      exists p, g, c :: 1 <= c <= counter && IdText(p, g, c) in h.texts && id == h.digest(IdText(p, g, c))
  }

  /** The next id is new, or two of the texts hashed collide. */
  lemma NextIdIsFresh(h: IdHash, ids: set<string>, counter: nat, parentId: string, goal: string)
    requires Issued(h, ids, counter) && IdText(parentId, goal, counter + 1) in h.texts
    ensures var text := IdText(parentId, goal, counter + 1);
      && (h.digest(text) in ids ==> exists x :: Collides(h, x, text))
      && Issued(h, ids + {h.digest(text)}, counter + 1)
  {
    var text := IdText(parentId, goal, counter + 1);
    var id := h.digest(text);
    if id in ids {
      var p, g, c :| 1 <= c <= counter && IdText(p, g, c) in h.texts && id == h.digest(IdText(p, g, c));
      if IdText(p, g, c) == text {
        IdTextSeparatesCounters(p, g, c, parentId, goal, counter + 1);
      }
      assert Collides(h, IdText(p, g, c), text);
    }
    forall x | x in ids + {id}
      ensures exists p, g, c :: 1 <= c <= counter + 1 && IdText(p, g, c) in h.texts && x == h.digest(IdText(p, g, c)) {
      if x in ids {
        var p, g, c :| 1 <= c <= counter && IdText(p, g, c) in h.texts && x == h.digest(IdText(p, g, c));
        assert 1 <= c <= counter + 1;
      }
    }
  }
}
