/** What every result of the import level sort gives. */
module LevellingLaws {
  import opened ImportLevels
  import opened Sorting

  lemma LongestChainIsUnique(m: ImportMap, f: File, j: nat, k: nat)
    requires LongestChain(m, f, j) && LongestChain(m, f, k)
    ensures j == k
  {
  }

  lemma CyclicFilesHaveNoLongestChain(m: ImportMap, f: File, k: nat)
    requires LongestChain(m, f, k)
    ensures !ReachesCycle(m, f)
  {
    if ReachesCycle(m, f) {
      var p, i :| IsChain(m, p) && p[0] == f && 0 <= i < |p| - 1 && p[i] == p[|p| - 1];
      var q := Pump(m, p, i, k + 1);
    }
  }

  /** Walking round the cycle gives chains of any length. */
  lemma {:induction false} Pump(m: ImportMap, p: seq<File>, i: nat, n: nat) returns (q: seq<File>)
    requires IsChain(m, p) && i < |p| - 1 && p[i] == p[|p| - 1]
    ensures IsChain(m, q) && q[0] == p[0] && |q| > n && q[|q| - 1] == p[i]
    decreases n
  {
    if n == 0 {
      q := p;
    } else {
      var shorter := Pump(m, p, i, n - 1);
      q := shorter + p[i + 1..];
      forall j | 0 <= j < |q| - 1 ensures q[j + 1] in Imports(m, q[j]) {
        if j < |shorter| - 1 {
          ChainStep(m, shorter, j);
        } else {
          ChainStep(m, p, i + 1 + j - |shorter|);
        }
      }
    }
  }

  /** Position `i` of level `k` holds `f`. */
  ghost predicate Holds(r: TopologicalResult, k: int, i: int, f: File) {
    0 <= k < |r.levels| && 0 <= i < |r.levels[k]| && r.levels[k][i] == f
  }

  lemma LevelOf(m: ImportMap, r: TopologicalResult, k: int, i: int, f: File)
    requires IsLevelling(m, r) && Holds(r, k, i, f)
    ensures f in AllFiles(m)
    ensures k < |ProperLevels(r)| ==> LongestChain(m, f, k)
    ensures k >= |ProperLevels(r)| ==> k == |ProperLevels(r)| && ReachesCycle(m, f)
  {
    hide AllFiles, LongestChain, ReachesCycle, NoDuplicates, SortedBy;
    if k < |ProperLevels(r)| {
      assert f in ProperLevels(r)[k];
      assert IsLevel(m, ProperLevels(r)[k], k);
    } else {
      assert f in Residue(r);
    }
  }

  lemma EveryFileIsHeld(m: ImportMap, r: TopologicalResult, f: File) returns (k: nat, i: nat)
    requires IsLevelling(m, r) && f in AllFiles(m)
    ensures Holds(r, k, i, f)
  {
    hide AllFiles, LongestChain, ReachesCycle, NoDuplicates, SortedBy;
    if ReachesCycle(m, f) {
      assert f in Residue(r);
      k := |r.levels| - 1;
    } else {
      k :| 0 <= k < |ProperLevels(r)| && f in ProperLevels(r)[k];
    }
    i :| 0 <= i < |r.levels[k]| && r.levels[k][i] == f;
  }

  lemma HeldOnce(m: ImportMap, r: TopologicalResult, f: File, k: int, i: int, k2: int, i2: int)
    requires IsLevelling(m, r) && Holds(r, k, i, f) && Holds(r, k2, i2, f)
    ensures k == k2 && i == i2
  {
    hide AllFiles, LongestChain, ReachesCycle, SortedBy;
    LevelOf(m, r, k, i, f);
    LevelOf(m, r, k2, i2, f);
    if k < |ProperLevels(r)| { CyclicFilesHaveNoLongestChain(m, f, k); }
    if k2 < |ProperLevels(r)| { CyclicFilesHaveNoLongestChain(m, f, k2); }
    if k < |ProperLevels(r)| && k2 < |ProperLevels(r)| { LongestChainIsUnique(m, f, k, k2); }
    assert k < |ProperLevels(r)| ==> IsLevel(m, ProperLevels(r)[k], k);
  }

  /** Every file the import map names sits at exactly one place of exactly one level. */
  lemma EveryFileInOneLevel(m: ImportMap, r: TopologicalResult, f: File)
    requires IsLevelling(m, r)
    ensures f in AllFiles(m) <==> exists k, i :: Holds(r, k, i, f)
    ensures forall k, i, k2, i2 :: Holds(r, k, i, f) && Holds(r, k2, i2, f) ==> k == k2 && i == i2
  {
    hide *;
    if f in AllFiles(m) {
      var k, i := EveryFileIsHeld(m, r, f);
    }
    forall k, i | Holds(r, k, i, f) ensures f in AllFiles(m) { LevelOf(m, r, k, i, f); }
    forall k, i, k2, i2 | Holds(r, k, i, f) && Holds(r, k2, i2, f) ensures k == k2 && i == i2 {
      HeldOnce(m, r, f, k, i, k2, i2);
    }
  }

  /** Outside the residue, every import of a file sits in a strictly earlier level. */
  lemma ImportsComeEarlier(m: ImportMap, r: TopologicalResult, k: nat, i: nat, f: File, g: File)
    returns (k2: nat, i2: nat)
    requires IsLevelling(m, r) && k < |ProperLevels(r)| && Holds(r, k, i, f) && g in Imports(m, f)
    ensures k2 < k && Holds(r, k2, i2, g)
  {
    hide Holds, AllFiles, Imports, LongestChain, ReachesCycle, NoDuplicates, SortedBy, IsLevel;
    LevelOf(m, r, k, i, f);
    ImporterIsNamed(m, f, g);
    k2, i2 := EveryFileIsHeld(m, r, g);
    LevelOf(m, r, k2, i2, g);
    ImportIsShallower(m, f, g, k);
    if k2 < |ProperLevels(r)| {
      var j := ImportDepth(m, f, g, k, k2);
    }
  }

  lemma PrependChain(m: ImportMap, f: File, p: seq<File>)
    requires IsChain(m, p) && p[0] in Imports(m, f)
    ensures IsChain(m, [f] + p)
  {
    var q := [f] + p;
    forall j | 0 <= j < |q| - 1 ensures q[j + 1] in Imports(m, q[j]) {
      if j > 0 { ChainStep(m, p, j - 1); }
    }
  }

  lemma ImportIsShallower(m: ImportMap, f: File, g: File, k: nat)
    requires LongestChain(m, f, k) && g in Imports(m, f)
    ensures !ReachesCycle(m, g)
  {
    forall p, i | IsChain(m, p) && p[0] == g && 0 <= i < |p| - 1 ensures p[i] != p[|p| - 1] {
      PrependChain(m, f, p);
      if p[i] == p[|p| - 1] {
        var q := [f] + p;
        assert q[0] == f && q[i + 1] == q[|q| - 1];
        assert ReachesCycle(m, f);
        CyclicFilesHaveNoLongestChain(m, f, k);
      }
    }
  }

  lemma ImportDepth(m: ImportMap, f: File, g: File, k: nat, k2: nat) returns (j: nat)
    requires LongestChain(m, f, k) && LongestChain(m, g, k2) && g in Imports(m, f)
    ensures j == k2 < k
  {
    var p :| IsChain(m, p) && p[0] == g && |p| == k2 + 1;
    PrependChain(m, f, p);
    assert |[f] + p| <= k + 1;
    j := k2;
  }

  lemma CyclicIsNamed(m: ImportMap, f: File)
    requires ReachesCycle(m, f)
    ensures f in AllFiles(m)
  {
    hide AllFiles, Imports;
    var p, i :| IsChain(m, p) && p[0] == f && 0 <= i < |p| - 1 && p[i] == p[|p| - 1];
    ChainStep(m, p, 0);
    ImporterIsNamed(m, f, p[1]);
  }

  /** `cycle_count` is zero exactly when no file reaches an import cycle. */
  lemma CycleCountZeroIffAcyclic(m: ImportMap, r: TopologicalResult)
    requires IsLevelling(m, r)
    ensures r.cycleCount == 0 <==> Acyclic(m)
  {
    hide AllFiles, NoDuplicates, SortedBy, IsLevel, ReachesCycle;
    if r.cycleCount > 0 {
      assert Residue(r)[0] in Residue(r);
    } else {
      forall f ensures !ReachesCycle(m, f) {
        assert f !in Residue(r);
        if ReachesCycle(m, f) {
          CyclicIsNamed(m, f);
        }
      }
    }
  }

  /** Hash-map iteration order cannot show: any two results agree level by level,
      and on the members of the residue. */
  lemma LevellingIsDetermined(m: ImportMap, r: TopologicalResult, other: TopologicalResult)
    requires IsLevelling(m, r) && IsLevelling(m, other)
    ensures ProperLevels(r) == ProperLevels(other) && r.cycleCount == other.cycleCount
    ensures forall f :: f in Residue(r) <==> f in Residue(other)
  {
    hide AllFiles, LongestChain, ReachesCycle, NoDuplicates, SortedBy;
    MembersCount(Residue(r), Members(Residue(r)));
    MembersCount(Residue(other), Members(Residue(other)));
    assert Members(Residue(r)) == Members(Residue(other));
    SameDepth(m, r, other);
    SameDepth(m, other, r);
    forall k | 0 <= k < |ProperLevels(r)| ensures ProperLevels(r)[k] == ProperLevels(other)[k] {
      SameLevel(m, ProperLevels(r)[k], ProperLevels(other)[k], k);
    }
  }

  lemma SameLevel(m: ImportMap, a: seq<File>, b: seq<File>, k: nat)
    requires IsLevel(m, a, k) && IsLevel(m, b, k)
    ensures a == b
  {
    StringLeOrders();
    hide StringLe, TotalPreorder, AllFiles, LongestChain;
    SortedIsUnique(a, b, StringLe);
  }

  lemma SameDepth(m: ImportMap, r: TopologicalResult, other: TopologicalResult)
    requires IsLevelling(m, r) && IsLevelling(m, other)
    ensures |ProperLevels(r)| <= |ProperLevels(other)|
  {
    hide AllFiles, LongestChain, ReachesCycle, NoDuplicates, SortedBy;
    if |ProperLevels(r)| > 0 {
      var k := |ProperLevels(r)| - 1;
      var f := ProperLevels(r)[k][0];
      assert IsLevel(m, ProperLevels(r)[k], k);
      assert f in ProperLevels(r)[k];
      CyclicFilesHaveNoLongestChain(m, f, k);
      var j :| 0 <= j < |ProperLevels(other)| && f in ProperLevels(other)[j];
      assert IsLevel(m, ProperLevels(other)[j], j);
      LongestChainIsUnique(m, f, j, k);
    }
  }
}
