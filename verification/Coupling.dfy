/** Temporal coupling: which files change in the same commits, from the lines of a
    git log. Strengths are exact quotients. */
module Coupling {
  import opened Sorting

  type File = string
  type Pair = (File, File)

  const MAX_FILES: nat := 50
  const COMMIT_MARK := "COMMIT:"

  // ------------------------------------------------------------------
  // The log
  // ------------------------------------------------------------------

  /** The characters with the Unicode property White_Space, which `trim` removes. */
  predicate IsSpace(c: char) {
    || '\U{0009}' <= c <= '\U{000D}' || c == ' ' || c == '\U{0085}' || c == '\U{00A0}' || c == '\U{1680}'
    || '\U{2000}' <= c <= '\U{200A}' || c == '\U{2028}' || c == '\U{2029}' || c == '\U{202F}'
    || c == '\U{205F}' || c == '\U{3000}'
  }

  function TrimLeft(s: string): string {
    if s != [] && IsSpace(s[0]) then TrimLeft(s[1..]) else s
  }

  function TrimRight(s: string): string {
    if s != [] && IsSpace(s[|s| - 1]) then TrimRight(s[..|s| - 1]) else s
  }

  function Trim(s: string): string {
    TrimRight(TrimLeft(s))
  }

  datatype Grouping = Grouping(commits: seq<seq<File>>, current: seq<File>)

  /** The non-empty file lists between commit marks, and the one being read. */
  function Grouped(lines: seq<string>): Grouping {
    if lines == [] then Grouping([], [])
    else
      var before := Grouped(lines[..|lines| - 1]);
      var line := Trim(lines[|lines| - 1]);
      if line == [] then before
      else if COMMIT_MARK <= line then
        if before.current == [] then before else Grouping(before.commits + [before.current], [])
      else Grouping(before.commits, before.current + [line])
  }

  function CommitsOf(lines: seq<string>): seq<seq<File>> {
    var g := Grouped(lines);
    if g.current == [] then g.commits else g.commits + [g.current]
  }

  method GroupCommits(lines: seq<string>) returns (commits: seq<seq<File>>)
    ensures commits == CommitsOf(lines)
  {
    commits := [];
    var currentFiles: seq<File> := [];
    assert lines[..0] == [];
    for i := 0 to |lines|
      invariant Grouped(lines[..i]) == Grouping(commits, currentFiles)
    {
      hide Trim;
      assert lines[..i + 1][..i] == lines[..i];
      var line := Trim(lines[i]);
      if line == [] {
        continue;
      }
      if COMMIT_MARK <= line {
        if currentFiles != [] {
          commits, currentFiles := commits + [currentFiles], [];
        }
      } else {
        currentFiles := currentFiles + [line];
      }
    }
    assert lines[..|lines|] == lines;
    if currentFiles != [] {
      commits := commits + [currentFiles];
    }
  }

  datatype Commit = Commit(hash: string, files: seq<File>)

  /** What the log prints for commits: a mark with the hash, the files, an empty line. */
  function LogLines(commits: seq<Commit>): seq<string> {
    if commits == [] then []
    else
      var last := commits[|commits| - 1];
      LogLines(commits[..|commits| - 1]) + [COMMIT_MARK + last.hash] + last.files + [""]
  }

  function NonEmptyLists(commits: seq<Commit>): seq<seq<File>> {
    if commits == [] then []
    else NonEmptyLists(commits[..|commits| - 1]) +
         if commits[|commits| - 1].files == [] then [] else [commits[|commits| - 1].files]
  }

  /** A name the log can carry: not empty, not padded, not a commit mark. */
  predicate Printable(f: File) {
    f != [] && !IsSpace(f[0]) && !IsSpace(f[|f| - 1]) && !(COMMIT_MARK <= f)
  }

  lemma {:induction false} TrimRightKeepsPrefix(s: string, n: nat)
    requires 0 < n <= |s| && !IsSpace(s[n - 1])
    ensures s[..n] <= TrimRight(s) <= s
    decreases |s|
  {
    if IsSpace(s[|s| - 1]) {
      assert s[..|s| - 1][..n] == s[..n];
      TrimRightKeepsPrefix(s[..|s| - 1], n);
    }
  }

  lemma TrimOfMark(hash: string)
    ensures COMMIT_MARK <= Trim(COMMIT_MARK + hash) && Trim(COMMIT_MARK + hash) != []
  {
    var s := COMMIT_MARK + hash;
    assert s[0] == 'C' && s[6] == ':' && TrimLeft(s) == s;
    TrimRightKeepsPrefix(s, 7);
    assert s[..7] == COMMIT_MARK;
  }

  lemma OneMoreLine(lines: seq<string>, line: string)
    ensures Grouped(lines + [line]) ==
      var before := Grouped(lines);
      if Trim(line) == [] then before
      else if COMMIT_MARK <= Trim(line) then
        if before.current == [] then before else Grouping(before.commits + [before.current], [])
      else Grouping(before.commits, before.current + [Trim(line)])
  {
    assert (lines + [line])[..|lines|] == lines;
  }

  lemma {:induction false} NamesRead(lines: seq<string>, files: seq<File>)
    requires forall k | 0 <= k < |files| :: Printable(files[k])
    ensures Grouped(lines + files) == Grouping(Grouped(lines).commits, Grouped(lines).current + files)
  {
    hide Grouped, Printable;
    if files == [] {
      assert lines + files == lines && Grouped(lines).current + [] == Grouped(lines).current;
    } else {
      var init, last := files[..|files| - 1], files[|files| - 1];
      NamesRead(lines, init);
      assert lines + files == lines + init + [last];
      assert Grouped(lines).current + files == Grouped(lines).current + init + [last];
      OneMoreLine(lines + init, last);
      assert Printable(last);
      NameIsCurrent(last);
    }
  }

  lemma NameIsCurrent(f: File)
    requires Printable(f)
    ensures Trim(f) == f && f != [] && !(COMMIT_MARK <= f)
  {
  }

  lemma {:induction false} LogRead(commits: seq<Commit>)
    requires forall c, k | c in commits && 0 <= k < |c.files| :: Printable(c.files[k])
    ensures CommitsOf(LogLines(commits)) == NonEmptyLists(commits)
  {
    if commits != [] {
      var init, last := commits[..|commits| - 1], commits[|commits| - 1];
      assert last in commits;
      LogRead(init);
      hide Grouped, Printable, Trim;
      var before := LogLines(init);
      TrimOfMark(last.hash);
      OneMoreLine(before, COMMIT_MARK + last.hash);
      NamesRead(before + [COMMIT_MARK + last.hash], last.files);
      OneMoreLine(before + [COMMIT_MARK + last.hash] + last.files, "");
      assert [] + last.files == last.files;
    } else {
      assert Grouped([]) == Grouping([], []);
    }
  }

  // ------------------------------------------------------------------
  // Counting
  // ------------------------------------------------------------------

  predicate Less(a: File, b: File) {
    a != b && StringLe(a, b)
  }

  function Ordered(a: File, b: File): Pair {
    if Less(a, b) then (a, b) else (b, a)
  }

  predicate Counted(files: seq<File>) {
    |files| <= MAX_FILES
  }

  /** Commits of at most MAX_FILES files containing the file, or both files. */
  function Total(commits: seq<seq<File>>, f: File): nat {
    if commits == [] then 0
    else
      var last := commits[|commits| - 1];
      Total(commits[..|commits| - 1], f) + if Counted(last) && f in last then 1 else 0
  }

  function Shared(commits: seq<seq<File>>, a: File, b: File): nat {
    if commits == [] then 0
    else
      var last := commits[|commits| - 1];
      Shared(commits[..|commits| - 1], a, b) + if Counted(last) && a in last && b in last then 1 else 0
  }

  function Tally<K>(m: map<K, nat>, k: K): nat {
    if k in m then m[k] else 0
  }

  ghost predicate Positive<K>(m: map<K, nat>) {
    forall k | k in m :: m[k] > 0
  }

  ghost predicate TotalsOf(commits: seq<seq<File>>, totals: map<File, nat>) {
    Positive(totals) && forall f :: Tally(totals, f) == Total(commits, f)
  }

  ghost predicate PairsOf(commits: seq<seq<File>>, pairs: map<Pair, nat>) {
    Positive(pairs) && forall a, b :: Tally(pairs, (a, b)) == if Less(a, b) then Shared(commits, a, b) else 0
  }

  lemma {:induction false} SharedWithinTotals(commits: seq<seq<File>>, a: File, b: File)
    ensures Shared(commits, a, b) <= Total(commits, a) && Shared(commits, a, b) <= Total(commits, b)
  {
    if commits != [] {
      SharedWithinTotals(commits[..|commits| - 1], a, b);
    }
  }

  ghost predicate TotalsGrewBy(before: map<File, nat>, after: map<File, nat>, files: seq<File>) {
    Positive(after) && forall f :: Tally(after, f) == Tally(before, f) + if f in files then 1 else 0
  }

  method CountFiles(files: seq<File>, totals0: map<File, nat>) returns (totals: map<File, nat>)
    requires Positive(totals0)
    ensures NoDuplicates(files) ==> TotalsGrewBy(totals0, totals, files)
    ensures Positive(totals)
  {
    totals := totals0;
    for i := 0 to |files|
      invariant Positive(totals)
      invariant NoDuplicates(files) ==> TotalsGrewBy(totals0, totals, files[..i])
    {
      assert files[..i + 1] == files[..i] + [files[i]];
      assert NoDuplicates(files) ==> files[i] !in files[..i];
      hide NoDuplicates;
      totals := totals[files[i] := Tally(totals, files[i]) + 1];
    }
    assert files[..|files|] == files;
  }

  /** Some pair of positions before `(i, j)` in the loops' order makes the pair `(a, b)`. */
  ghost predicate PairSeen(files: seq<File>, i: nat, j: nat, a: File, b: File) {
    exists p, q :: 0 <= p < q < |files| && (p < i || (p == i && q < j)) && Ordered(files[p], files[q]) == (a, b)
  }

  ghost predicate PairsGrewBy(before: map<Pair, nat>, after: map<Pair, nat>, files: seq<File>, i: nat, j: nat) {
    && Positive(after)
    && forall a, b ::
         Tally(after, (a, b)) == Tally(before, (a, b)) + if PairSeen(files, i, j, a, b) then 1 else 0
  }

  lemma OrderedCases(a: File, b: File)
    ensures Ordered(a, b) == (a, b) || Ordered(a, b) == (b, a)
    ensures a != b ==> Less(Ordered(a, b).0, Ordered(a, b).1)
    ensures Less(a, b) ==> Ordered(a, b) == (a, b) && Ordered(b, a) == (a, b) && !Less(b, a)
  {
    StringLeTotal(a, b);
  }

  /** Of distinct files, no two pairs of positions make the same pair. */
  lemma PairIsNew(files: seq<File>, i: nat, j: nat)
    requires NoDuplicates(files) && i < j < |files|
    ensures !PairSeen(files, i, j, Ordered(files[i], files[j]).0, Ordered(files[i], files[j]).1)
  {
    hide Less;
    var pair := Ordered(files[i], files[j]);
    forall p, q | 0 <= p < q < |files| && Ordered(files[p], files[q]) == pair ensures p == i && q == j {
      hide NoDuplicates;
      OrderedCases(files[p], files[q]);
      OrderedCases(files[i], files[j]);
    }
  }

  lemma RowSeen(files: seq<File>, i: nat, a: File, b: File)
    requires i < |files|
    ensures PairSeen(files, i, |files|, a, b) <==> PairSeen(files, i + 1, i + 2, a, b)
  {
    hide Ordered;
  }

  lemma PairCounted(files: seq<File>, before: map<Pair, nat>, after: map<Pair, nat>, i: nat, j: nat)
    requires NoDuplicates(files) && i < j < |files| && PairsGrewBy(before, after, files, i, j)
    ensures var pair := Ordered(files[i], files[j]);
            PairsGrewBy(before, after[pair := Tally(after, pair) + 1], files, i, j + 1)
  {
    var pair := Ordered(files[i], files[j]);
    PairIsNew(files, i, j);
    hide PairSeen, NoDuplicates, Ordered;
    var later := after[pair := Tally(after, pair) + 1];
    forall a, b ensures Tally(later, (a, b)) == Tally(before, (a, b)) + if PairSeen(files, i, j + 1, a, b) then 1 else 0 {
      assert (a, b) == pair ==> a == pair.0 && b == pair.1;
    }
  }

  lemma RowCounted(files: seq<File>, before: map<Pair, nat>, after: map<Pair, nat>, i: nat)
    requires i < |files| && PairsGrewBy(before, after, files, i, |files|)
    ensures PairsGrewBy(before, after, files, i + 1, i + 2)
  {
    hide PairSeen;
    forall a, b ensures PairSeen(files, i, |files|, a, b) <==> PairSeen(files, i + 1, i + 2, a, b) {
      RowSeen(files, i, a, b);
    }
  }

  lemma NoPairYet(files: seq<File>, pairs: map<Pair, nat>)
    requires Positive(pairs)
    ensures PairsGrewBy(pairs, pairs, files, 0, 1)
  {
  }

  method CountPairs(files: seq<File>, pairs0: map<Pair, nat>) returns (pairs: map<Pair, nat>)
    requires Positive(pairs0)
    ensures NoDuplicates(files) ==> PairsGrewBy(pairs0, pairs, files, |files|, |files| + 1)
    ensures Positive(pairs)
  {
    hide NoDuplicates, PairsGrewBy, Ordered;
    pairs := pairs0;
    NoPairYet(files, pairs);
    for i := 0 to |files|
      invariant Positive(pairs)
      invariant NoDuplicates(files) ==> PairsGrewBy(pairs0, pairs, files, i, i + 1)
    {
      for j := i + 1 to |files|
        invariant Positive(pairs)
        invariant NoDuplicates(files) ==> PairsGrewBy(pairs0, pairs, files, i, j)
      {
        if NoDuplicates(files) { PairCounted(files, pairs0, pairs, i, j); }
        var pair := Ordered(files[i], files[j]);
        pairs := pairs[pair := Tally(pairs, pair) + 1];
      }
      if NoDuplicates(files) { RowCounted(files, pairs0, pairs, i); }
    }
  }

  /** All pairs of positions together make each ordered pair of members once. */
  lemma AllPairsSeen(files: seq<File>, a: File, b: File)
    requires NoDuplicates(files)
    ensures PairSeen(files, |files|, |files| + 1, a, b) <==> Less(a, b) && a in files && b in files
  {
    hide Less;
    if PairSeen(files, |files|, |files| + 1, a, b) {
      var p, q :| 0 <= p < q < |files| && Ordered(files[p], files[q]) == (a, b);
      OrderedCases(files[p], files[q]);
    }
    if Less(a, b) && a in files && b in files {
      var p :| 0 <= p < |files| && files[p] == a;
      var q :| 0 <= q < |files| && files[q] == b;
      OrderedCases(a, b);
      assert if p < q then Ordered(files[p], files[q]) == (a, b) else Ordered(files[q], files[p]) == (a, b);
    }
  }

  ghost predicate DistinctFiles(commits: seq<seq<File>>) {
    forall k | 0 <= k < |commits| :: NoDuplicates(commits[k])
  }

  lemma PairsStep(commits: seq<seq<File>>, files: seq<File>, before: map<Pair, nat>, after: map<Pair, nat>)
    requires PairsOf(commits, before) && NoDuplicates(files)
    requires if Counted(files) then PairsGrewBy(before, after, files, |files|, |files| + 1) else after == before
    ensures PairsOf(commits + [files], after)
  {
    hide NoDuplicates, PairSeen, Less;
    assert (commits + [files])[..|commits|] == commits;
    forall a, b ensures Tally(after, (a, b)) == if Less(a, b) then Shared(commits + [files], a, b) else 0 {
      AllPairsSeen(files, a, b);
    }
  }

  method CountCommits(commits: seq<seq<File>>) returns (totals: map<File, nat>, pairs: map<Pair, nat>)
    ensures DistinctFiles(commits) ==> TotalsOf(commits, totals) && PairsOf(commits, pairs)
  {
    totals, pairs := map[], map[];
    assert commits[..0] == [];
    for i := 0 to |commits|
      invariant Positive(totals) && Positive(pairs)
      invariant DistinctFiles(commits) ==> TotalsOf(commits[..i], totals) && PairsOf(commits[..i], pairs)
    {
      var files := commits[i];
      assert commits[..i + 1] == commits[..i] + [files];
      assert DistinctFiles(commits) ==> NoDuplicates(files);
      hide DistinctFiles, TotalsOf, PairsOf, NoDuplicates, TotalsGrewBy, PairsGrewBy, Total, Shared;
      ghost var totals0, pairs0 := totals, pairs;
      if |files| <= MAX_FILES {
        totals := CountFiles(files, totals);
        pairs := CountPairs(files, pairs);
      }
      if DistinctFiles(commits) {
        PairsStep(commits[..i], files, pairs0, pairs);
      }
    }
    assert commits[..|commits|] == commits;
  }

  // ------------------------------------------------------------------
  // The report
  // ------------------------------------------------------------------

  datatype ChangeCoupling = ChangeCoupling(fileA: File, fileB: File, sharedCommits: nat, strength: real)

  function Max(a: nat, b: nat): nat {
    if a >= b then a else b
  }

  predicate Stronger(a: ChangeCoupling, b: ChangeCoupling) {
    a.strength >= b.strength
  }

  function CouplingOf(totals: map<File, nat>, pair: Pair, shared: nat): ChangeCoupling {
    var commitsA := if pair.0 in totals then totals[pair.0] else 1;
    var commitsB := if pair.1 in totals then totals[pair.1] else 1;
    var maxCommits := Max(commitsA, commitsB);
    ChangeCoupling(pair.0, pair.1, shared, if maxCommits > 0 then shared as real / maxCommits as real else 0.0)
  }

  /** What a reported coupling says of the history. */
  ghost predicate IsCoupling(commits: seq<seq<File>>, minShared: nat, c: ChangeCoupling) {
    && Less(c.fileA, c.fileB)
    && c.sharedCommits == Shared(commits, c.fileA, c.fileB) && c.sharedCommits >= minShared && c.sharedCommits > 0
    && 0.0 < c.strength <= 1.0
    && c.strength * Max(Total(commits, c.fileA), Total(commits, c.fileB)) as real == c.sharedCommits as real
  }

  lemma CouplingHolds(commits: seq<seq<File>>, totals: map<File, nat>, pairs: map<Pair, nat>, pair: Pair, minShared: nat)
    requires TotalsOf(commits, totals) && PairsOf(commits, pairs) && pair in pairs && pairs[pair] >= minShared
    ensures IsCoupling(commits, minShared, CouplingOf(totals, pair, pairs[pair]))
  {
    hide Total, Shared, Less;
    var a, b := pair.0, pair.1;
    assert pair == (a, b) && Tally(pairs, (a, b)) == pairs[pair] > 0;
    SharedWithinTotals(commits, a, b);
    assert Tally(totals, a) == Total(commits, a) && Tally(totals, b) == Total(commits, b);
    var m := Max(Total(commits, a), Total(commits, b));
    QuotientInUnit(pairs[pair], m);
  }

  lemma QuotientInUnit(shared: nat, total: nat)
    requires 0 < shared <= total
    ensures 0.0 < shared as real / total as real <= 1.0
    ensures shared as real / total as real * total as real == shared as real
  {
  }

  /** The entry of the report for a counted pair. */
  predicate Reported(totals: map<File, nat>, pairs: map<Pair, nat>, minShared: nat, c: ChangeCoupling) {
    var pair := (c.fileA, c.fileB);
    pair in pairs && pairs[pair] >= minShared && c == CouplingOf(totals, pair, pairs[pair])
  }

  method Report(totals: map<File, nat>, pairs: map<Pair, nat>, minShared: nat) returns (couplings: seq<ChangeCoupling>)
    ensures SortedBy(couplings, Stronger) && NoDuplicates(couplings)
    ensures forall c :: c in couplings <==> Reported(totals, pairs, minShared, c)
  {
    hide NoDuplicates, SortBy, SortedBy;
    couplings := [];
    var rest := pairs.Keys;
    ghost var done := {};
    NoDuplicatesAppend<ChangeCoupling>([], []);
    assert [] + couplings == couplings;
    while rest != {}
      invariant done + rest == pairs.Keys && done !! rest
      invariant NoDuplicates(couplings)
      invariant forall c :: c in couplings <==> (c.fileA, c.fileB) in done && Reported(totals, pairs, minShared, c)
      decreases rest
    {
      var pair :| pair in rest;
      if pairs[pair] >= minShared {
        hide Reported;
        var c := CouplingOf(totals, pair, pairs[pair]);
        ReportedIs(totals, pairs, minShared, pair);
        NoDuplicatesAppend(couplings, [c]);
        couplings := couplings + [c];
      }
      rest, done := rest - {pair}, done + {pair};
    }
    hide Reported;
    forall c | Reported(totals, pairs, minShared, c) ensures (c.fileA, c.fileB) in pairs {
    }
    SortBySorts(couplings, Stronger);
    SortByKeepsMembers(couplings, Stronger);
    SortByKeepsNoDuplicates(couplings, Stronger);
    couplings := SortBy(couplings, Stronger);
  }

  lemma ReportedIs(totals: map<File, nat>, pairs: map<Pair, nat>, minShared: nat, pair: Pair)
    requires pair in pairs && pairs[pair] >= minShared
    ensures forall c: ChangeCoupling :: (c.fileA, c.fileB) == pair ==>
              (Reported(totals, pairs, minShared, c) <==> c == CouplingOf(totals, pair, pairs[pair]))
    ensures CouplingOf(totals, pair, pairs[pair]).fileA == pair.0 && CouplingOf(totals, pair, pairs[pair]).fileB == pair.1
  {
  }

  ghost predicate Reports(couplings: seq<ChangeCoupling>, a: File, b: File) {
    exists c: ChangeCoupling :: c in couplings && c.fileA == a && c.fileB == b
  }

  lemma ReportIsRight(commits: seq<seq<File>>, totals: map<File, nat>, pairs: map<Pair, nat>, minShared: nat,
                      couplings: seq<ChangeCoupling>)
    requires TotalsOf(commits, totals) && PairsOf(commits, pairs)
    requires forall c :: c in couplings <==> Reported(totals, pairs, minShared, c)
    ensures forall c | c in couplings :: IsCoupling(commits, minShared, c)
    ensures forall a, b ::
              Less(a, b) && Shared(commits, a, b) >= minShared && Shared(commits, a, b) > 0 ==> Reports(couplings, a, b)
  {
    hide IsCoupling, Less, Shared, CouplingOf, TotalsOf;
    forall c | c in couplings ensures IsCoupling(commits, minShared, c) {
      CouplingHolds(commits, totals, pairs, (c.fileA, c.fileB), minShared);
    }
    forall a, b | Less(a, b) && Shared(commits, a, b) >= minShared && Shared(commits, a, b) > 0
      ensures Reports(couplings, a, b)
    {
      assert Tally(pairs, (a, b)) == Shared(commits, a, b);
      ReportedIs(totals, pairs, minShared, (a, b));
      assert CouplingOf(totals, (a, b), pairs[(a, b)]) in couplings;
    }
  }

  lemma PairsReportedOnce(totals: map<File, nat>, pairs: map<Pair, nat>, minShared: nat, couplings: seq<ChangeCoupling>)
    requires NoDuplicates(couplings) && forall c :: c in couplings <==> Reported(totals, pairs, minShared, c)
    ensures forall i, j | 0 <= i < j < |couplings| ::
      couplings[i].fileA != couplings[j].fileA || couplings[i].fileB != couplings[j].fileB
  {
    hide CouplingOf;
    forall i, j | 0 <= i < j < |couplings|
      ensures couplings[i].fileA != couplings[j].fileA || couplings[i].fileB != couplings[j].fileB
    {
      assert Reported(totals, pairs, minShared, couplings[i]) && Reported(totals, pairs, minShared, couplings[j]);
    }
  }

  /** From the log to the sorted report: every pair changed together often enough, once, with its exact strength. */
  method AnalyzeCoupling(log: seq<string>, minShared: nat) returns (couplings: seq<ChangeCoupling>)
    ensures SortedBy(couplings, Stronger)
    ensures forall i, j | 0 <= i < j < |couplings| ::
      couplings[i].fileA != couplings[j].fileA || couplings[i].fileB != couplings[j].fileB
    ensures DistinctFiles(CommitsOf(log)) ==> forall c | c in couplings :: IsCoupling(CommitsOf(log), minShared, c)
    ensures DistinctFiles(CommitsOf(log)) ==> forall a, b ::
      Less(a, b) && Shared(CommitsOf(log), a, b) >= minShared && Shared(CommitsOf(log), a, b) > 0 ==> Reports(couplings, a, b)
  {
    hide *;
    var commits := GroupCommits(log);
    var totals, pairs := CountCommits(commits);
    couplings := Report(totals, pairs, minShared);
    PairsReportedOnce(totals, pairs, minShared, couplings);
    if DistinctFiles(commits) {
      ReportIsRight(commits, totals, pairs, minShared, couplings);
    }
  }
}
