/** Source references grouped by file, saved flat in an analysis snapshot, and
    grouped again when the snapshot is read. */
module SourceReferences {
  import opened Options
  import opened Sorting

  datatype SourceReference = SourceReference(path: string, startLine: Option<nat>, endLine: Option<nat>)

  datatype SourceReferenceGroup = SourceReferenceGroup(path: string, references: seq<SourceReference>)

  type Groups = seq<SourceReferenceGroup>

  /** Backslashes become slashes. */
  function Normalize(path: string): string {
    seq(|path|, i requires 0 <= i < |path| => if path[i] == '\\' then '/' else path[i])
  }

  function Normalized(r: SourceReference): SourceReference {
    r.(path := Normalize(r.path))
  }

  /** The digits of a line number, or nothing. */
  function Shown(show: nat -> string, line: Option<nat>): string {
    if line.Some? then show(line.value) else ""
  }

  function SourceReferenceKey(show: nat -> string, r: SourceReference): string {
    Normalize(r.path) + ":" + Shown(show, r.startLine) + ":" + Shown(show, r.endLine)
  }

  lemma LastColon(p: string, s: string, q: string, t: string)
    requires ':' !in s && ':' !in t && p + ":" + s == q + ":" + t
    ensures p == q && s == t
  {
    var whole := p + ":" + s;
    assert whole[|p|] == ':' && whole[|q|] == ':';
    assert forall k | |q| < k < |whole| :: whole[k] == t[k - |q| - 1] && whole[k] != ':';
    assert forall k | |p| < k < |whole| :: whole[k] == s[k - |p| - 1] && whole[k] != ':';
    assert p == whole[..|p|] && q == whole[..|q|];
    assert s == whole[|p| + 1..] && t == whole[|q| + 1..];
  }

  /** Equal keys mean equal references, even for paths that hold colons and digits themselves. */
  lemma KeyDecidesEquality(show: nat -> string, a: SourceReference, b: SourceReference)
    requires forall n :: show(n) != "" && ':' !in show(n)
    requires forall m, n :: show(m) == show(n) ==> m == n
    ensures SourceReferenceKey(show, a) == SourceReferenceKey(show, b) <==> Normalized(a) == Normalized(b)
  {
    if SourceReferenceKey(show, a) == SourceReferenceKey(show, b) {
      LastColon(Normalize(a.path) + ":" + Shown(show, a.startLine), Shown(show, a.endLine),
        Normalize(b.path) + ":" + Shown(show, b.startLine), Shown(show, b.endLine));
      LastColon(Normalize(a.path), Shown(show, a.startLine), Normalize(b.path), Shown(show, b.startLine));
    }
  }

  function StartOf(r: SourceReference): nat {
    if r.startLine.Some? then r.startLine.value else 0
  }

  predicate ByStart(a: SourceReference, b: SourceReference) {
    StartOf(a) <= StartOf(b)
  }

  /** Position of the group of a path, or the number of groups. */
  function GroupIndex(groups: Groups, path: string): (i: nat)
    ensures i <= |groups| && (i < |groups| ==> groups[i].path == path)
    ensures forall k | 0 <= k < i :: groups[k].path != path
  {
    if groups == [] || groups[0].path == path then 0 else 1 + GroupIndex(groups[1..], path)
  }

  /** One more reference: into its path's group unless there already, or a new last group. */
  function Add(groups: Groups, reference: SourceReference): Groups {
    var r := Normalized(reference);
    var i := GroupIndex(groups, r.path);
    if i == |groups| then groups + [SourceReferenceGroup(r.path, [r])]
    else if r in groups[i].references then groups
    else groups[i := groups[i].(references := groups[i].references + [r])]
  }

  function Collect(references: seq<SourceReference>): Groups {
    if references == [] then []
    else Add(Collect(references[..|references| - 1]), references[|references| - 1])
  }

  function SortGroups(groups: Groups): (r: Groups)
    ensures |r| == |groups|
    ensures forall k | 0 <= k < |r| :: r[k] == SourceReferenceGroup(groups[k].path, SortBy(groups[k].references, ByStart))
  {
    seq(|groups|, k requires 0 <= k < |groups| =>
      SourceReferenceGroup(groups[k].path, SortBy(groups[k].references, ByStart)))
  }

  function Group(references: seq<SourceReference>): Groups {
    SortGroups(Collect(references))
  }

  method GroupSourceReferences(references: seq<SourceReference>) returns (groups: Groups)
    ensures groups == Group(references)
  {
    groups := [];
    assert references[..0] == [];
    for n := 0 to |references|
      invariant groups == Collect(references[..n])
    {
      hide Normalize;
      assert references[..n + 1][..n] == references[..n];
      var reference := references[n];
      var path := Normalize(reference.path);
      var i := GroupIndex(groups, path);
      var list := if i < |groups| then groups[i].references else [];
      if !(exists k :: 0 <= k < |list| && list[k] == reference.(path := path)) {
        list := list + [reference.(path := path)];
      }
      groups := if i < |groups| then groups[i := SourceReferenceGroup(path, list)]
                else groups + [SourceReferenceGroup(path, list)];
      assert [] + [reference.(path := path)] == [reference.(path := path)];
    }
    assert references[..|references|] == references;
    groups := SortGroups(groups);
  }

  // ------------------------------------------------------------------
  // What groups are
  // ------------------------------------------------------------------

  /** A group holds references of its own normalized path, once each. */
  ghost predicate GroupOk(g: SourceReferenceGroup) {
    && g.references != [] && NoDuplicates(g.references) && Normalize(g.path) == g.path
    && forall r | r in g.references :: r.path == g.path
  }

  ghost predicate GroupsOk(groups: Groups) {
    && (forall k | 0 <= k < |groups| :: GroupOk(groups[k]))
    && (forall j, k | 0 <= j < k < |groups| :: groups[j].path != groups[k].path)
  }

  ghost predicate InGroups(groups: Groups, r: SourceReference) {
    exists k :: 0 <= k < |groups| && r in groups[k].references
  }

  lemma NormalizeTwice(path: string)
    ensures Normalize(Normalize(path)) == Normalize(path)
  {
  }

  lemma AddKeeps(groups: Groups, reference: SourceReference)
    requires GroupsOk(groups)
    ensures GroupsOk(Add(groups, reference))
    ensures forall r :: InGroups(Add(groups, reference), r) <==> InGroups(groups, r) || r == Normalized(reference)
  {
    NormalizeTwice(reference.path);
    hide Normalize;
    var r := Normalized(reference);
    var i := GroupIndex(groups, r.path);
    var after := Add(groups, reference);
    if i < |groups| && r !in groups[i].references {
      NoDuplicatesAppend(groups[i].references, [r]);
      assert forall x :: x in after[i].references <==> x in groups[i].references || x == r;
    }
    forall k | 0 <= k < |after| ensures GroupOk(after[k]) {
      if k < |groups| { assert GroupOk(groups[k]); }
    }
    forall x ensures InGroups(after, x) <==> InGroups(groups, x) || x == r {
      if InGroups(groups, x) {
        var k :| 0 <= k < |groups| && x in groups[k].references;
        assert x in after[k].references;
      }
      assert r in after[i].references;
    }
  }

  lemma {:induction false} CollectHolds(references: seq<SourceReference>)
    ensures GroupsOk(Collect(references))
    ensures forall r :: InGroups(Collect(references), r) <==> exists s :: s in references && Normalized(s) == r
  {
    if references != [] {
      var init, last := references[..|references| - 1], references[|references| - 1];
      assert references == init + [last];
      CollectHolds(init);
      hide Add, GroupsOk, InGroups, Normalized;
      AddKeeps(Collect(init), last);
      forall r ensures InGroups(Collect(references), r) <==> exists s :: s in references && Normalized(s) == r {
        if InGroups(Collect(init), r) {
          var s :| s in init && Normalized(s) == r;
          assert s in references;
        }
        assert last in references;
      }
    }
  }

  lemma SortKeepsGroup(g: SourceReferenceGroup)
    requires GroupOk(g)
    ensures GroupOk(SourceReferenceGroup(g.path, SortBy(g.references, ByStart)))
    ensures SortedBy(SortBy(g.references, ByStart), ByStart)
    ensures forall r :: r in SortBy(g.references, ByStart) <==> r in g.references
  {
    hide Normalize, NoDuplicates, SortBy, SortedBy;
    SortBySorts(g.references, ByStart);
    SortByKeepsMembers(g.references, ByStart);
    SortByKeepsNoDuplicates(g.references, ByStart);
  }

  ghost predicate Grouped(groups: Groups) {
    GroupsOk(groups) && forall k | 0 <= k < |groups| :: SortedBy(groups[k].references, ByStart)
  }

  /** Grouping loses no distinct reference, duplicates none, and orders each group by line. */
  lemma GroupKeepsReferences(references: seq<SourceReference>)
    ensures Grouped(Group(references))
    ensures forall r :: InGroups(Group(references), r) <==> exists s :: s in references && Normalized(s) == r
  {
    CollectHolds(references);
    hide Normalize, Normalized, NoDuplicates, SortBy, SortedBy, Collect, GroupOk;
    var groups, sorted := Collect(references), Group(references);
    forall k | 0 <= k < |groups|
      ensures GroupOk(sorted[k]) && SortedBy(sorted[k].references, ByStart)
      ensures forall r :: r in sorted[k].references <==> r in groups[k].references
    {
      SortKeepsGroup(groups[k]);
    }
    forall r ensures InGroups(sorted, r) <==> InGroups(groups, r) {
    }
  }

  // ------------------------------------------------------------------
  // Snapshots
  // ------------------------------------------------------------------

  function Flatten(groups: Groups): seq<SourceReference> {
    if groups == [] then [] else Flatten(groups[..|groups| - 1]) + groups[|groups| - 1].references
  }

  /** Adding a group's references one after the other rebuilds that group at the end. */
  lemma {:induction false} GroupRebuilt(before: seq<SourceReference>, g: SourceReferenceGroup, n: nat)
    requires GroupOk(g) && GroupIndex(Collect(before), g.path) == |Collect(before)| && n <= |g.references|
    ensures Collect(before + g.references[..n]) ==
      Collect(before) + if n == 0 then [] else [SourceReferenceGroup(g.path, g.references[..n])]
  {
    if n == 0 {
      assert before + g.references[..0] == before && Collect(before) + [] == Collect(before);
    } else {
      GroupRebuilt(before, g, n - 1);
      var r := g.references[n - 1];
      hide GroupOk, Add, GroupIndex, Normalized;
      assert g.references[..n] == g.references[..n - 1] + [r];
      assert before + g.references[..n] == before + g.references[..n - 1] + [r];
      AddToLast(Collect(before), g.path, g.references[..n - 1], r);
    }
  }

  lemma AddToLast(groups: Groups, path: string, references: seq<SourceReference>, r: SourceReference)
    requires GroupIndex(groups, path) == |groups| && r.path == path && Normalized(r) == r && r !in references
    ensures Add(groups + if references == [] then [] else [SourceReferenceGroup(path, references)], r)
         == groups + [SourceReferenceGroup(path, references + [r])]
  {
    hide Normalized;
    if references == [] {
      assert groups + [] == groups && references + [r] == [r];
    } else {
      LastGroup(groups, SourceReferenceGroup(path, references));
    }
  }

  lemma {:induction false} GroupIndexIs(groups: Groups, path: string, i: nat)
    requires i < |groups| && groups[i].path == path && forall k | 0 <= k < i :: groups[k].path != path
    ensures GroupIndex(groups, path) == i
  {
    if i > 0 { GroupIndexIs(groups[1..], path, i - 1); }
  }

  lemma LastGroup(groups: Groups, g: SourceReferenceGroup)
    requires GroupIndex(groups, g.path) == |groups|
    ensures GroupIndex(groups + [g], g.path) == |groups|
  {
    hide GroupIndex;
    GroupIndexIs(groups + [g], g.path, |groups|);
  }

  lemma {:induction false} CollectFlattened(groups: Groups)
    requires GroupsOk(groups)
    ensures Collect(Flatten(groups)) == groups
  {
    if groups != [] {
      hide GroupsOk, GroupOk, GroupIndex;
      var init, g := groups[..|groups| - 1], groups[|groups| - 1];
      CollectFlattened(init);
      hide Collect;
      GroupRebuilt(Flatten(init), g, |g.references|);
      assert g.references[..|g.references|] == g.references;
    }
  }

  /** Saved flat and regrouped, groups come back the same: same order, same references. */
  lemma SnapshotRoundTrip(references: seq<SourceReference>)
    ensures Group(Flatten(Group(references))) == Group(references)
  {
    hide Group, GroupsOk, SortBy;
    GroupKeepsReferences(references);
    SortedGroupsStay(Group(references));
  }

  lemma SortedGroupsStay(groups: Groups)
    requires Grouped(groups)
    ensures Group(Flatten(groups)) == groups
  {
    hide GroupsOk, SortBy, Collect;
    CollectFlattened(groups);
    forall k | 0 <= k < |groups| ensures SortBy(groups[k].references, ByStart) == groups[k].references {
      SortByKeepsSorted(groups[k].references, ByStart);
    }
  }
}
