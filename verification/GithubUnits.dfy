/** A window becomes a submission unit: one row per issue and pull, one edge per closing reference. */
module GithubUnits {
  import opened Common
  import opened Sorting
  import opened Decimal
  import opened Splitter
  import opened GithubWindows
  import Indexes

  // ----- identity

  /** Position of the first slash, or the length when there is none. */
  function FirstSlash(s: string): (i: nat)
    ensures i <= |s| && (i < |s| ==> s[i] == '/') && '/' !in s[..i]
  {
    if s == "" || s[0] == '/' then 0
    else
      assert s[..1 + FirstSlash(s[1..])] == [s[0]] + s[1..][..FirstSlash(s[1..])];
      1 + FirstSlash(s[1..])
  }

  /** Whether an `owner/name` string names this repository, ignoring ASCII case. */
  predicate SameRepo(nameWithOwner: string, owner: string, repo: string) {
    var i := FirstSlash(nameWithOwner);
    i < |nameWithOwner|
    && Indexes.Lower(nameWithOwner[..i]) == Indexes.Lower(owner)
    && Indexes.Lower(nameWithOwner[i + 1..]) == Indexes.Lower(repo)
  }

  /** References back at the target repository are local. */
  function Fold(owner: string, repo: string, x: Ident): Ident {
    if x.repo.Some? && SameRepo(x.repo.value, owner, repo) then Ident(None, x.number) else x
  }

  function IssueStem(owner: string, repo: string, x: Ident): string {
    var y := Fold(owner, repo, x);
    if y.repo.Some? then "issue-" + y.repo.value + "-" else "issue-"
  }

  function IssueKey(owner: string, repo: string, x: Ident): string {
    IssueStem(owner, repo, x) + Digits(x.number)
  }

  function ExternalStem(owner: string, repo: string, x: Ident): string {
    var y := Fold(owner, repo, x);
    if y.repo.Some? then "issue:" + y.repo.value + "#" else "issue:"
  }

  function ExternalIssueKey(owner: string, repo: string, x: Ident): string {
    ExternalStem(owner, repo, x) + Digits(x.number)
  }

  function PullKey(number: nat): string { "pull-" + Digits(number) }

  predicate IsDigit(c: char) { '0' <= c <= '9' }

  /** Length of the longest run of digits a string ends in. */
  function DigitTail(s: string): nat {
    if s == "" || !IsDigit(s[|s| - 1]) then 0 else 1 + DigitTail(s[..|s| - 1])
  }

  lemma {:induction false} DigitTailLength(p: string, d: string)
    requires p != "" && !IsDigit(p[|p| - 1]) && forall i :: 0 <= i < |d| ==> IsDigit(d[i])
    ensures DigitTail(p + d) == |d|
  {
    if d == "" {
      assert p + d == p;
    } else {
      assert (p + d)[..|p| + |d| - 1] == p + d[..|d| - 1];
      DigitTailLength(p, d[..|d| - 1]);
    }
  }

  /** A trailing run of digits after a non-digit can be split off in one way only. */
  lemma TailSplits(p: string, d: string, q: string, e: string)
    requires p != "" && q != "" && !IsDigit(p[|p| - 1]) && !IsDigit(q[|q| - 1])
    requires (forall i :: 0 <= i < |d| ==> IsDigit(d[i])) && (forall i :: 0 <= i < |e| ==> IsDigit(e[i]))
    requires p + d == q + e
    ensures p == q && d == e
  {
    DigitTailLength(p, d);
    DigitTailLength(q, e);
    assert (p + d)[..|p|] == p && (q + e)[..|q|] == q && (p + d)[|p|..] == d && (q + e)[|q|..] == e;
  }

  /** Two issue rows share a draft key, and an external key, exactly when they are the same issue once
      references back at this repository are folded: no foreign #10 collides with a local one. */
  lemma IssueKeysIdentify(owner: string, repo: string, a: Ident, b: Ident)
    ensures IssueKey(owner, repo, a) == IssueKey(owner, repo, b) <==> Fold(owner, repo, a) == Fold(owner, repo, b)
    ensures ExternalIssueKey(owner, repo, a) == ExternalIssueKey(owner, repo, b) <==>
      Fold(owner, repo, a) == Fold(owner, repo, b)
  {
    hide SameRepo, Digits;
    if IssueKey(owner, repo, a) == IssueKey(owner, repo, b) {
      TailSplits(IssueStem(owner, repo, a), Digits(a.number), IssueStem(owner, repo, b), Digits(b.number));
      DigitsInjective(a.number, b.number);
      SameStem(owner, repo, a, b);
    }
    if ExternalIssueKey(owner, repo, a) == ExternalIssueKey(owner, repo, b) {
      TailSplits(ExternalStem(owner, repo, a), Digits(a.number), ExternalStem(owner, repo, b), Digits(b.number));
      DigitsInjective(a.number, b.number);
      SameStem(owner, repo, a, b);
    }
  }

  lemma SameStem(owner: string, repo: string, a: Ident, b: Ident)
    requires IssueStem(owner, repo, a) == IssueStem(owner, repo, b)
      || ExternalStem(owner, repo, a) == ExternalStem(owner, repo, b)
    ensures Fold(owner, repo, a).repo == Fold(owner, repo, b).repo
  {
    hide SameRepo;
    var (s, t) := (IssueStem(owner, repo, a), IssueStem(owner, repo, b));
    var (u, v) := (ExternalStem(owner, repo, a), ExternalStem(owner, repo, b));
    var (x, y) := (Fold(owner, repo, a), Fold(owner, repo, b));
    if x.repo.Some? && y.repo.Some? {
      assert s[6..|s| - 1] == x.repo.value && t[6..|t| - 1] == y.repo.value;
      assert u[6..|u| - 1] == x.repo.value && v[6..|v| - 1] == y.repo.value;
    }
  }

  lemma PullKeysIdentify(a: nat, b: nat)
    ensures PullKey(a) == PullKey(b) <==> a == b
  {
    if PullKey(a) == PullKey(b) {
      assert PullKey(a)[5..] == Digits(a) && PullKey(b)[5..] == Digits(b);
      DigitsInjective(a, b);
    }
  }

  // ----- folding references

  function FoldIssue(owner: string, repo: string, i: Issue): Issue { i.(repo := Fold(owner, repo, IdentOf(i)).repo) }

  function FoldPull(owner: string, repo: string, p: Pull): (r: Pull)
    ensures |r.closing| == |p.closing| && r.(closing := p.closing) == p
    ensures forall k :: 0 <= k < |p.closing| ==>
      IdentOf(r.closing[k]) == Fold(owner, repo, IdentOf(p.closing[k]))
      && r.closing[k].(repo := p.closing[k].repo) == p.closing[k]
  {
    p.(closing := seq(|p.closing|, k requires 0 <= k < |p.closing| => FoldIssue(owner, repo, p.closing[k])))
  }

  method NormalizeClosingRepos(pulls: array<Pull>, owner: string, repo: string)
    modifies pulls
    ensures forall i :: 0 <= i < pulls.Length ==> pulls[i] == FoldPull(owner, repo, old(pulls[i]))
  {
    for i := 0 to pulls.Length
      invariant forall k :: 0 <= k < i ==> pulls[k] == FoldPull(owner, repo, old(pulls[k]))
      invariant forall k :: i <= k < pulls.Length ==> pulls[k] == old(pulls[k])
    {
      var closing := pulls[i].closing;
      for k := 0 to |closing|
        invariant |closing| == |pulls[i].closing|
        invariant forall j :: 0 <= j < k ==> closing[j] == FoldIssue(owner, repo, pulls[i].closing[j])
        invariant forall j :: k <= j < |closing| ==> closing[j] == pulls[i].closing[j]
      {
        if closing[k].repo.Some? && SameRepo(closing[k].repo.value, owner, repo) {
          closing := closing[k := closing[k].(repo := None)];
        }
      }
      assert closing == FoldPull(owner, repo, pulls[i]).closing;
      pulls[i] := pulls[i].(closing := closing);
    }
  }

  /** References are already folded. */
  ghost predicate Local(owner: string, repo: string, s: seq<Issue>) {
    forall i :: 0 <= i < |s| ==> Fold(owner, repo, IdentOf(s[i])) == IdentOf(s[i])
  }

  /** Folding once is enough. */
  lemma FoldedIsLocal(owner: string, repo: string, p: Pull)
    ensures Local(owner, repo, FoldPull(owner, repo, p).closing)
  {
  }

  // ----- the unit

  function EdgeKind(pullType: string, issueType: string): string {
    if pullType == "Fix" && issueType == "Problem" then "Fixes"
    else if pullType == "Solution" && issueType == "Problem" then "Solves"
    else "RelatedTo"
  }

  function IssueRow(owner: string, repo: string, i: Issue): MemoryDraft {
    MemoryDraft(IssueKey(owner, repo, IdentOf(i)), i.text, Some(ExternalIssueKey(owner, repo, IdentOf(i))))
  }

  function PullRow(p: Pull): MemoryDraft {
    MemoryDraft(PullKey(p.number), p.text, Some("pull:" + Digits(p.number)))
  }

  function ReferenceEdge(owner: string, repo: string, p: Pull, i: Issue): RelationshipDraft {
    RelationshipDraft(PullKey(p.number), IssueKey(owner, repo, IdentOf(i)), EdgeKind(p.memoryType, i.memoryType),
      "github closingIssuesReferences (" + owner + "/" + repo + ")")
  }

  function IssueRows(owner: string, repo: string, s: seq<Issue>): (r: seq<MemoryDraft>)
    ensures |r| == |s| && forall i :: 0 <= i < |s| ==> r[i] == IssueRow(owner, repo, s[i])
  {
    seq(|s|, i requires 0 <= i < |s| => IssueRow(owner, repo, s[i]))
  }

  function PullRows(s: seq<Pull>): (r: seq<MemoryDraft>)
    ensures |r| == |s| && forall i :: 0 <= i < |s| ==> r[i] == PullRow(s[i])
  {
    seq(|s|, i requires 0 <= i < |s| => PullRow(s[i]))
  }

  function ReferenceEdges(owner: string, repo: string, p: Pull): (r: seq<RelationshipDraft>)
    ensures |r| == |p.closing| && forall i :: 0 <= i < |p.closing| ==>
      r[i] == ReferenceEdge(owner, repo, p, p.closing[i])
  {
    seq(|p.closing|, i requires 0 <= i < |p.closing| => ReferenceEdge(owner, repo, p, p.closing[i]))
  }

  function EdgesFor(owner: string, repo: string, pulls: seq<Pull>): seq<RelationshipDraft> {
    if pulls == [] then []
    else EdgesFor(owner, repo, pulls[..|pulls| - 1]) + ReferenceEdges(owner, repo, pulls[|pulls| - 1])
  }

  function UnitOf(owner: string, repo: string, w: Window): BatchUnit {
    var cursor := CursorFor(w);
    BatchUnit(
      IssueRows(owner, repo, w.issues) + PullRows(w.pulls),
      EdgesFor(owner, repo, w.pulls),
      Some(if cursor.Some? then Digits(cursor.value) else "empty"))
  }

  method MapIssues(owner: string, repo: string, issues: seq<Issue>) returns (memories: seq<MemoryDraft>)
    ensures memories == IssueRows(owner, repo, issues)
  {
    memories := [];
    for i := 0 to |issues|
      invariant memories == IssueRows(owner, repo, issues[..i])
    {
      memories := memories + [IssueRow(owner, repo, issues[i])];
    }
    assert issues[..|issues|] == issues;
  }

  method MapReferences(owner: string, repo: string, p: Pull) returns (edges: seq<RelationshipDraft>)
    ensures edges == ReferenceEdges(owner, repo, p)
  {
    edges := [];
    for k := 0 to |p.closing|
      invariant edges == ReferenceEdges(owner, repo, p)[..k]
    {
      edges := edges + [ReferenceEdge(owner, repo, p, p.closing[k])];
    }
  }

  method MapWindow(owner: string, repo: string, w: Window) returns (unit: BatchUnit)
    ensures unit == UnitOf(owner, repo, w) && Describes(owner, repo, w, unit)
  {
    var rows := MapIssues(owner, repo, w.issues);
    var memories: seq<MemoryDraft>, relationships: seq<RelationshipDraft> := rows, [];
    for i := 0 to |w.pulls|
      invariant memories == rows + PullRows(w.pulls[..i])
      invariant relationships == EdgesFor(owner, repo, w.pulls[..i])
    {
      hide ReferenceEdge, PullRow;
      assert w.pulls[..i + 1][..i] == w.pulls[..i];
      assert PullRows(w.pulls[..i + 1]) == PullRows(w.pulls[..i]) + [PullRow(w.pulls[i])];
      memories := memories + [PullRow(w.pulls[i])];
      var edges := MapReferences(owner, repo, w.pulls[i]);
      relationships := relationships + edges;
    }
    assert w.pulls[..|w.pulls|] == w.pulls;
    var cursor := CursorFor(w);
    hide CursorFor, PullRows, IssueRows, EdgesFor;
    unit := BatchUnit(memories, relationships, Some(if cursor.Some? then Digits(cursor.value) else "empty"));
    UnitDescribes(owner, repo, w);
    hide Describes;
  }

  // ----- what a unit says about its window

  /** One letter, in either case. */
  predicate SameLetter(c: char, d: char) {
    c == d || ('A' <= c <= 'Z' && d as int == c as int + 32) || ('A' <= d <= 'Z' && c as int == d as int + 32)
  }

  predicate SameLetters(s: string, t: string) {
    |s| == |t| && forall i :: 0 <= i < |s| ==> SameLetter(s[i], t[i])
  }

  lemma LowerForgetsCase(s: string, t: string)
    ensures Indexes.Lower(s) == Indexes.Lower(t) <==> SameLetters(s, t)
  {
    if Indexes.Lower(s) == Indexes.Lower(t) {
      forall i | 0 <= i < |s| ensures SameLetter(s[i], t[i]) {
        assert Indexes.Lower(s)[i] == Indexes.Lower(t)[i];
      }
    }
  }

  /** `name` is this owner, a slash, and this repository, in any case. */
  ghost predicate NamesThis(name: string, owner: string, repo: string) {
    exists o, r :: name == o + "/" + r && '/' !in o && SameLetters(o, owner) && SameLetters(r, repo)
  }

  lemma {:induction false} SplitsAtSlash(o: string, r: string)
    requires '/' !in o
    ensures var name := o + "/" + r; FirstSlash(name) == |o| && name[..|o|] == o && name[|o| + 1..] == r
  {
    if o != "" {
      SplitsAtSlash(o[1..], r);
      assert (o + "/" + r)[1..] == o[1..] + "/" + r;
    }
  }

  /** A reference is local if and only if it names no repository, or this one whatever its case; otherwise it
      stays as it is. */
  lemma FoldIsLocalIff(owner: string, repo: string, x: Ident)
    ensures Fold(owner, repo, x).number == x.number
    ensures Fold(owner, repo, x).repo == None <==> x.repo == None || NamesThis(x.repo.value, owner, repo)
    ensures Fold(owner, repo, x).repo != None ==> Fold(owner, repo, x) == x
  {
    if x.repo.Some? {
      var name := x.repo.value;
      var i := FirstSlash(name);
      if i < |name| {
        assert name == name[..i] + "/" + name[i + 1..];
        LowerForgetsCase(name[..i], owner);
        LowerForgetsCase(name[i + 1..], repo);
      }
      if NamesThis(name, owner, repo) {
        var o, r :| name == o + "/" + r && '/' !in o && SameLetters(o, owner) && SameLetters(r, repo);
        SplitsAtSlash(o, r);
      }
    }
  }

  /** How many references the first `i` pulls make. */
  function ClosedBefore(pulls: seq<Pull>, i: nat): nat
    requires i <= |pulls|
  {
    if i == 0 then 0 else ClosedBefore(pulls, i - 1) + |pulls[i - 1].closing|
  }

  /** The row of the window's `j`-th pull: pulls come after the issues. */
  function PullRowOf(w: Window, unit: BatchUnit, j: nat): MemoryDraft
    requires |unit.memories| == |w.issues| + |w.pulls| && j < |w.pulls|
  {
    unit.memories[|w.issues| + j]
  }

  /** The row has the issue's text and the name its source knows it by. */
  ghost predicate IssueRowFollows(owner: string, repo: string, x: Issue, row: MemoryDraft) {
    && row.body == x.text
    && row.externalKey ==
       if x.repo == None || NamesThis(x.repo.value, owner, repo) then Some("issue:" + Digits(x.number))
       else Some("issue:" + x.repo.value + "#" + Digits(x.number))
  }

  ghost predicate PullRowFollows(p: Pull, row: MemoryDraft) {
    row.body == p.text && row.externalKey == Some("pull:" + Digits(p.number))
  }

  /** A row per issue and then one per pull, in the window's order. */
  ghost predicate RowsFollow(owner: string, repo: string, w: Window, unit: BatchUnit) {
    && |unit.memories| == |w.issues| + |w.pulls|
    && (forall i :: 0 <= i < |w.issues| ==> IssueRowFollows(owner, repo, w.issues[i], unit.memories[i]))
    && (forall j :: 0 <= j < |w.pulls| ==> PullRowFollows(w.pulls[j], PullRowOf(w, unit, j)))
  }

  /** Of the window's issue rows this end is exactly that of the issue, and it is no pull's row. */
  ghost predicate EndsAtIssue(owner: string, repo: string, w: Window, unit: BatchUnit, x: Ident, end: string)
    requires |unit.memories| == |w.issues| + |w.pulls|
  {
    && (forall i :: 0 <= i < |w.issues| ==>
          (unit.memories[i].draftKey == end <==> Fold(owner, repo, IdentOf(w.issues[i])) == Fold(owner, repo, x)))
    && (forall j :: 0 <= j < |w.pulls| ==> PullRowOf(w, unit, j).draftKey != end)
  }

  /** Of the window's pull rows this end is exactly that of the pull, and it is no issue's row. */
  ghost predicate StartsAtPull(w: Window, unit: BatchUnit, number: nat, end: string)
    requires |unit.memories| == |w.issues| + |w.pulls|
  {
    && (forall i :: 0 <= i < |w.issues| ==> unit.memories[i].draftKey != end)
    && (forall j :: 0 <= j < |w.pulls| ==>
          (PullRowOf(w, unit, j).draftKey == end <==> w.pulls[j].number == number))
  }

  /** A fix of a problem fixes it, a solution of a problem solves it, and everything else is related. */
  ghost predicate SaysHow(p: Pull, x: Issue, kind: string) {
    && (kind == "Fixes" <==> p.memoryType == "Fix" && x.memoryType == "Problem")
    && (kind == "Solves" <==> p.memoryType == "Solution" && x.memoryType == "Problem")
    && (kind == "Fixes" || kind == "Solves" || kind == "RelatedTo")
  }

  /** The edge runs from the row of this pull to the row of the issue it closes, and says how. */
  ghost predicate EdgeFollows(owner: string, repo: string, w: Window, unit: BatchUnit, p: Pull, x: Issue,
      e: RelationshipDraft)
    requires |unit.memories| == |w.issues| + |w.pulls|
  {
    StartsAtPull(w, unit, p.number, e.from) && EndsAtIssue(owner, repo, w, unit, IdentOf(x), e.to)
      && SaysHow(p, x, e.kind)
  }

  /** The edge of the `i`-th pull's `k`-th reference. */
  ghost predicate EdgeFor(owner: string, repo: string, w: Window, unit: BatchUnit, i: nat, k: nat)
    requires |unit.memories| == |w.issues| + |w.pulls| && i < |w.pulls| && k < |w.pulls[i].closing|
  {
    var n := ClosedBefore(w.pulls, i) + k;
    n < |unit.relationships| && EdgeFollows(owner, repo, w, unit, w.pulls[i], w.pulls[i].closing[k],
      unit.relationships[n])
  }

  /** One edge per pull and reference of it, in order, and no other. */
  ghost predicate EdgesFollow(owner: string, repo: string, w: Window, unit: BatchUnit)
    requires |unit.memories| == |w.issues| + |w.pulls|
  {
    && |unit.relationships| == ClosedBefore(w.pulls, |w.pulls|)
    && forall i, k :: 0 <= i < |w.pulls| && 0 <= k < |w.pulls[i].closing| ==> EdgeFor(owner, repo, w, unit, i, k)
  }

  /** The snapshot is the newest row's moment. */
  ghost predicate SnapshotFollows(w: Window, unit: BatchUnit) {
    if w.issues == [] && w.pulls == [] then unit.snapshot == Some("empty")
    else exists t: Stamp ::
      && unit.snapshot == Some(Digits(t))
      && (forall i :: 0 <= i < |w.issues| ==> w.issues[i].updatedAt <= t)
      && (forall j :: 0 <= j < |w.pulls| ==> w.pulls[j].updatedAt <= t)
      && ((exists i :: 0 <= i < |w.issues| && w.issues[i].updatedAt == t)
          || exists j :: 0 <= j < |w.pulls| && w.pulls[j].updatedAt == t)
  }

  ghost predicate Describes(owner: string, repo: string, w: Window, unit: BatchUnit) {
    RowsFollow(owner, repo, w, unit) && EdgesFollow(owner, repo, w, unit) && SnapshotFollows(w, unit)
  }

  lemma {:induction false} ClosedBeforePrefix(pulls: seq<Pull>, n: nat, i: nat)
    requires i <= n <= |pulls|
    ensures ClosedBefore(pulls[..n], i) == ClosedBefore(pulls, i) <= ClosedBefore(pulls, n)
    decreases n, i
  {
    if i > 0 { ClosedBeforePrefix(pulls, n, i - 1); }
    if i < n { ClosedBeforePrefix(pulls, n - 1, i); }
  }

  lemma {:induction false} EdgesUnfold(owner: string, repo: string, pulls: seq<Pull>)
    requires pulls != []
    ensures EdgesFor(owner, repo, pulls) ==
      EdgesFor(owner, repo, pulls[..|pulls| - 1]) + ReferenceEdges(owner, repo, pulls[|pulls| - 1])
  {
  }

  lemma {:induction false} EdgeAt(owner: string, repo: string, pulls: seq<Pull>, i: nat, k: nat)
    ensures |EdgesFor(owner, repo, pulls)| == ClosedBefore(pulls, |pulls|)
    ensures i < |pulls| && k < |pulls[i].closing| ==>
      && ClosedBefore(pulls, i) + k < ClosedBefore(pulls, |pulls|)
      && EdgesFor(owner, repo, pulls)[ClosedBefore(pulls, i) + k] ==
           ReferenceEdge(owner, repo, pulls[i], pulls[i].closing[k])
  {
    if pulls != [] {
      var n := |pulls| - 1;
      EdgeAt(owner, repo, pulls[..n], i, k);
      EdgesUnfold(owner, repo, pulls);
      ClosedBeforePrefix(pulls, n, n);
      if i <= n { ClosedBeforePrefix(pulls, n, i); }
      hide ReferenceEdge, EdgesFor, ReferenceEdges;
    }
  }

  lemma IssueRowIsTheirs(owner: string, repo: string, x: Issue)
    ensures IssueRowFollows(owner, repo, x, IssueRow(owner, repo, x))
  {
    FoldIsLocalIff(owner, repo, IdentOf(x));
    hide Fold, Digits, NamesThis;
  }

  lemma IssueRowAt(owner: string, repo: string, w: Window, i: nat)
    requires i < |w.issues|
    ensures UnitOf(owner, repo, w).memories[i] == IssueRow(owner, repo, w.issues[i])
  {
    hide CursorFor, EdgesFor, IssueRow, PullRow, Digits;
  }

  lemma PullRowAt(owner: string, repo: string, w: Window, j: nat)
    requires j < |w.pulls|
    ensures |UnitOf(owner, repo, w).memories| == |w.issues| + |w.pulls|
    ensures PullRowOf(w, UnitOf(owner, repo, w), j) == PullRow(w.pulls[j])
  {
    hide CursorFor, EdgesFor, IssueRow, PullRow, Digits;
  }

  lemma RowsAreTheirs(owner: string, repo: string, w: Window)
    ensures RowsFollow(owner, repo, w, UnitOf(owner, repo, w))
  {
    UnitParts(owner, repo, w);
    hide UnitOf, IssueRowFollows, PullRowFollows, IssueRow, PullRow, PullRowOf;
    forall i | 0 <= i < |w.issues|
      ensures IssueRowFollows(owner, repo, w.issues[i], UnitOf(owner, repo, w).memories[i])
    {
      IssueRowAt(owner, repo, w, i);
      IssueRowIsTheirs(owner, repo, w.issues[i]);
    }
    forall j | 0 <= j < |w.pulls| ensures PullRowFollows(w.pulls[j], PullRowOf(w, UnitOf(owner, repo, w), j)) {
      PullRowAt(owner, repo, w, j);
      PullRowIsTheirs(w.pulls[j]);
    }
  }

  lemma PullRowIsTheirs(p: Pull)
    ensures PullRowFollows(p, PullRow(p))
  {
  }

  lemma IssueEnd(owner: string, repo: string, w: Window, x: Ident)
    ensures |UnitOf(owner, repo, w).memories| == |w.issues| + |w.pulls|
    ensures EndsAtIssue(owner, repo, w, UnitOf(owner, repo, w), x, IssueKey(owner, repo, x))
  {
    UnitParts(owner, repo, w);
    hide UnitOf, Fold, IssueKey, PullKey, PullRowOf;
    var (unit, end) := (UnitOf(owner, repo, w), IssueKey(owner, repo, x));
    forall j | 0 <= j < |w.pulls| ensures PullRowOf(w, unit, j).draftKey != end {
      PullRowAt(owner, repo, w, j);
      FirstLetters(owner, repo, x);
    }
    forall i | 0 <= i < |w.issues|
      ensures unit.memories[i].draftKey == end <==>
        Fold(owner, repo, IdentOf(w.issues[i])) == Fold(owner, repo, x)
    {
      IssueRowAt(owner, repo, w, i);
      IssueKeysIdentify(owner, repo, IdentOf(w.issues[i]), x);
    }
  }

  lemma PullEnd(owner: string, repo: string, w: Window, number: nat)
    ensures |UnitOf(owner, repo, w).memories| == |w.issues| + |w.pulls|
    ensures StartsAtPull(w, UnitOf(owner, repo, w), number, PullKey(number))
  {
    UnitParts(owner, repo, w);
    hide UnitOf, Fold, IssueKey, PullKey, PullRowOf;
    var (unit, end) := (UnitOf(owner, repo, w), PullKey(number));
    forall i | 0 <= i < |w.issues| ensures unit.memories[i].draftKey != end {
      IssueRowAt(owner, repo, w, i);
      FirstLetters(owner, repo, IdentOf(w.issues[i]));
    }
    forall j | 0 <= j < |w.pulls| ensures PullRowOf(w, unit, j).draftKey == end <==> w.pulls[j].number == number {
      PullRowAt(owner, repo, w, j);
      PullKeysIdentify(w.pulls[j].number, number);
    }
  }

  lemma EdgeIsTheirs(owner: string, repo: string, w: Window, p: Pull, x: Issue)
    ensures |UnitOf(owner, repo, w).memories| == |w.issues| + |w.pulls|
    ensures EdgeFollows(owner, repo, w, UnitOf(owner, repo, w), p, x, ReferenceEdge(owner, repo, p, x))
  {
    hide UnitOf, IssueKey, PullKey, StartsAtPull, EndsAtIssue;
    PullEnd(owner, repo, w, p.number);
    IssueEnd(owner, repo, w, IdentOf(x));
  }

  lemma EdgesAreTheirs(owner: string, repo: string, w: Window)
    ensures |UnitOf(owner, repo, w).memories| == |w.issues| + |w.pulls|
    ensures EdgesFollow(owner, repo, w, UnitOf(owner, repo, w))
  {
    UnitParts(owner, repo, w);
    EdgeAt(owner, repo, w.pulls, 0, 0);
    hide UnitOf, EdgesFor, ClosedBefore, EdgeFor;
    forall i, k | 0 <= i < |w.pulls| && 0 <= k < |w.pulls[i].closing|
      ensures EdgeFor(owner, repo, w, UnitOf(owner, repo, w), i, k)
    {
      EdgeIsItsReference(owner, repo, w, i, k);
    }
  }

  lemma EdgeIsItsReference(owner: string, repo: string, w: Window, i: nat, k: nat)
    requires i < |w.pulls| && k < |w.pulls[i].closing|
    ensures |UnitOf(owner, repo, w).memories| == |w.issues| + |w.pulls|
    ensures EdgeFor(owner, repo, w, UnitOf(owner, repo, w), i, k)
  {
    UnitParts(owner, repo, w);
    hide UnitOf, EdgesFor, ReferenceEdge, EdgeFollows, ClosedBefore;
    EdgeAt(owner, repo, w.pulls, i, k);
    EdgeIsTheirs(owner, repo, w, w.pulls[i], w.pulls[i].closing[k]);
  }

  /** What the mapped unit says of its window: a row per issue and pull under its source's name, an edge per
      closing reference from the pull's row to the issue's row, and the newest moment as its snapshot. */
  lemma UnitDescribes(owner: string, repo: string, w: Window)
    ensures Describes(owner, repo, w, UnitOf(owner, repo, w))
  {
    RowsAreTheirs(owner, repo, w);
    EdgesAreTheirs(owner, repo, w);
    hide RowsFollow, EdgesFollow, IssueRows, PullRows, EdgesFor, Digits;
    var unit := UnitOf(owner, repo, w);
    if w.issues != [] || w.pulls != [] {
      var t := NewestPull(w.pulls, Newest(w.issues, 0));
      assert unit.snapshot == Some(Digits(t));
      assert if w.issues != [] then w.issues[0].updatedAt <= t else w.pulls[0].updatedAt <= t;
    }
  }

  // ----- the unit is valid exactly when the window is well made

  function Numbers(s: seq<Pull>): (r: seq<nat>)
    ensures |r| == |s| && forall i :: 0 <= i < |s| ==> r[i] == s[i].number
  {
    seq(|s|, i requires 0 <= i < |s| => s[i].number)
  }

  function Folded(owner: string, repo: string, s: seq<Issue>): (r: seq<Ident>)
    ensures |r| == |s| && forall i :: 0 <= i < |s| ==> r[i] == Fold(owner, repo, IdentOf(s[i]))
  {
    seq(|s|, i requires 0 <= i < |s| => Fold(owner, repo, IdentOf(s[i])))
  }

  /** No issue twice, no pull twice, and every reference of a pull among the issues. */
  ghost predicate WellMade(owner: string, repo: string, w: Window) {
    && Distinct(Folded(owner, repo, w.issues)) && Distinct(Numbers(w.pulls))
    && forall i :: 0 <= i < |w.pulls| ==> Attached(owner, repo, w, w.pulls[i])
  }

  ghost predicate Attached(owner: string, repo: string, w: Window, p: Pull) {
    forall k :: 0 <= k < |p.closing| ==> Fold(owner, repo, IdentOf(p.closing[k])) in Folded(owner, repo, w.issues)
  }

  lemma KeyAt(owner: string, repo: string, w: Window, i: nat)
    requires i < |w.issues| + |w.pulls|
    ensures |DraftKeys(UnitOf(owner, repo, w).memories)| == |w.issues| + |w.pulls|
    ensures DraftKeys(UnitOf(owner, repo, w).memories)[i] ==
      if i < |w.issues| then IssueKey(owner, repo, IdentOf(w.issues[i])) else PullKey(w.pulls[i - |w.issues|].number)
  {
    hide Digits, IssueKey, PullKey;
  }

  /** Which rows of a window share a draft key. */
  lemma KeysClash(owner: string, repo: string, w: Window, i: nat, j: nat)
    requires i < |w.issues| + |w.pulls| && j < |w.issues| + |w.pulls|
    ensures |DraftKeys(UnitOf(owner, repo, w).memories)| == |w.issues| + |w.pulls|
    ensures var keys := DraftKeys(UnitOf(owner, repo, w).memories);
      keys[i] == keys[j] <==>
        if i < |w.issues| && j < |w.issues| then Folded(owner, repo, w.issues)[i] == Folded(owner, repo, w.issues)[j]
        else i >= |w.issues| && j >= |w.issues| && Numbers(w.pulls)[i - |w.issues|] == Numbers(w.pulls)[j - |w.issues|]
  {
    hide UnitOf, DraftKeys, Digits, Fold;
    KeyAt(owner, repo, w, i);
    KeyAt(owner, repo, w, j);
    if i < |w.issues| && j < |w.issues| {
      IssueKeysIdentify(owner, repo, IdentOf(w.issues[i]), IdentOf(w.issues[j]));
    } else if i >= |w.issues| && j >= |w.issues| {
      PullKeysIdentify(w.pulls[i - |w.issues|].number, w.pulls[j - |w.issues|].number);
    } else {
      var x := if i < |w.issues| then w.issues[i] else w.issues[j];
      var n := if i < |w.issues| then w.pulls[j - |w.issues|].number else w.pulls[i - |w.issues|].number;
      assert IssueKey(owner, repo, IdentOf(x))[0] == 'i' && PullKey(n)[0] == 'p';
    }
  }

  /** Positions `i` and `j` of the joint list hold the same key exactly when they hold the same item. */
  ghost predicate Clash<A, B>(keys: seq<string>, a: seq<A>, b: seq<B>, i: nat, j: nat)
    requires |keys| == |a| + |b| && i < |keys| && j < |keys|
  {
    keys[i] == keys[j] <==>
      if i < |a| && j < |a| then a[i] == a[j] else i >= |a| && j >= |a| && b[i - |a|] == b[j - |a|]
  }

  lemma JointlyDistinct<A, B>(keys: seq<string>, a: seq<A>, b: seq<B>)
    requires |keys| == |a| + |b|
    requires forall i, j :: 0 <= i < |keys| && 0 <= j < |keys| ==> Clash(keys, a, b, i, j)
    ensures Distinct(keys) <==> Distinct(a) && Distinct(b)
  {
    if Distinct(keys) {
      forall i, j | 0 <= i < j < |a| ensures a[i] != a[j] { assert Clash(keys, a, b, i, j); }
      forall i, j | 0 <= i < j < |b| ensures b[i] != b[j] { assert Clash(keys, a, b, |a| + i, |a| + j); }
    } else {
      var i, j :| 0 <= i < j < |keys| && keys[i] == keys[j];
      assert Clash(keys, a, b, i, j);
    }
  }

  lemma KeysDistinctIff(owner: string, repo: string, w: Window)
    ensures Distinct(DraftKeys(UnitOf(owner, repo, w).memories)) <==>
      Distinct(Folded(owner, repo, w.issues)) && Distinct(Numbers(w.pulls))
  {
    var keys := DraftKeys(UnitOf(owner, repo, w).memories);
    var (a, b) := (Folded(owner, repo, w.issues), Numbers(w.pulls));
    hide UnitOf, DraftKeys, Fold, Folded, Numbers, Distinct;
    UnitParts(owner, repo, w);
    forall i, j | 0 <= i < |keys| && 0 <= j < |keys| ensures Clash(keys, a, b, i, j) {
      KeysClash(owner, repo, w, i, j);
    }
    JointlyDistinct(keys, a, b);
  }

  lemma FirstLetters(owner: string, repo: string, x: Ident)
    ensures IssueKey(owner, repo, x)[0] == 'i' && forall n :: PullKey(n)[0] == 'p'
  {
  }

  /** An issue's key is among the unit's keys exactly when the issue is among the window's issues. */
  lemma IssueKeyKnown(owner: string, repo: string, w: Window, x: Ident)
    ensures IssueKey(owner, repo, x) in DraftKeys(UnitOf(owner, repo, w).memories) <==>
      Fold(owner, repo, x) in Folded(owner, repo, w.issues)
  {
    var keys := DraftKeys(UnitOf(owner, repo, w).memories);
    assert |keys| == |w.issues| + |w.pulls|;
    hide UnitOf, DraftKeys, Fold, Digits;
    if Fold(owner, repo, x) in Folded(owner, repo, w.issues) {
      var i :| 0 <= i < |w.issues| && Folded(owner, repo, w.issues)[i] == Fold(owner, repo, x);
      KeyAt(owner, repo, w, i);
      IssueKeysIdentify(owner, repo, x, IdentOf(w.issues[i]));
      assert keys[i] == IssueKey(owner, repo, x);
    }
    if IssueKey(owner, repo, x) in keys {
      var i :| 0 <= i < |keys| && keys[i] == IssueKey(owner, repo, x);
      KeyAt(owner, repo, w, i);
      FirstLetters(owner, repo, x);
      IssueKeysIdentify(owner, repo, x, IdentOf(w.issues[i]));
      assert Folded(owner, repo, w.issues)[i] == Fold(owner, repo, x);
    }
  }

  /** Both ends of every edge are among the keys. */
  ghost predicate AllKnown(keys: seq<string>, edges: seq<RelationshipDraft>) {
    forall k :: 0 <= k < |edges| ==> edges[k].from in keys && edges[k].to in keys
  }

  lemma AllKnownConcat(keys: seq<string>, a: seq<RelationshipDraft>, b: seq<RelationshipDraft>)
    ensures AllKnown(keys, a + b) <==> AllKnown(keys, a) && AllKnown(keys, b)
  {
    if AllKnown(keys, a + b) {
      assert forall k :: 0 <= k < |a| ==> (a + b)[k] == a[k];
      assert forall k :: 0 <= k < |b| ==> (a + b)[|a| + k] == b[k];
    }
  }

  lemma PullKeyKnown(owner: string, repo: string, w: Window, i: nat)
    requires i < |w.pulls|
    ensures PullKey(w.pulls[i].number) in DraftKeys(UnitOf(owner, repo, w).memories)
  {
    hide UnitOf, PullKey, IssueKey, DraftKeys, Digits;
    KeyAt(owner, repo, w, |w.issues| + i);
    var keys := DraftKeys(UnitOf(owner, repo, w).memories);
    assert keys[|w.issues| + i] == PullKey(w.pulls[i].number);
  }

  lemma ReferencesKnown(owner: string, repo: string, w: Window, i: nat)
    requires i < |w.pulls|
    ensures AllKnown(DraftKeys(UnitOf(owner, repo, w).memories), ReferenceEdges(owner, repo, w.pulls[i])) <==>
      Attached(owner, repo, w, w.pulls[i])
  {
    var p := w.pulls[i];
    var (keys, edges) := (DraftKeys(UnitOf(owner, repo, w).memories), ReferenceEdges(owner, repo, p));
    PullKeyKnown(owner, repo, w, i);
    hide UnitOf, DraftKeys, Fold, IssueKey, PullKey;
    forall k | 0 <= k < |edges|
      ensures edges[k].from in keys
      ensures edges[k].to in keys <==> Fold(owner, repo, IdentOf(p.closing[k])) in Folded(owner, repo, w.issues)
    {
      IssueKeyKnown(owner, repo, w, IdentOf(p.closing[k]));
    }
  }

  lemma {:induction false} AllEdgesKnown(owner: string, repo: string, keys: seq<string>, pulls: seq<Pull>)
    ensures AllKnown(keys, EdgesFor(owner, repo, pulls)) <==>
      forall i :: 0 <= i < |pulls| ==> AllKnown(keys, ReferenceEdges(owner, repo, pulls[i]))
  {
    if pulls != [] {
      var n := |pulls| - 1;
      AllEdgesKnown(owner, repo, keys, pulls[..n]);
      AllKnownConcat(keys, EdgesFor(owner, repo, pulls[..n]), ReferenceEdges(owner, repo, pulls[n]));
      hide AllKnown, ReferenceEdges;
      assert forall i :: 0 <= i < n ==> pulls[..n][i] == pulls[i];
    }
  }

  lemma {:induction false} EdgesKnownIff(owner: string, repo: string, w: Window)
    ensures AllKnown(DraftKeys(UnitOf(owner, repo, w).memories), EdgesFor(owner, repo, w.pulls)) <==>
      forall i :: 0 <= i < |w.pulls| ==> Attached(owner, repo, w, w.pulls[i])
  {
    var keys := DraftKeys(UnitOf(owner, repo, w).memories);
    hide AllKnown, Attached, ReferenceEdges, UnitOf, EdgesFor;
    AllEdgesKnown(owner, repo, keys, w.pulls);
    forall i | 0 <= i < |w.pulls|
      ensures AllKnown(keys, ReferenceEdges(owner, repo, w.pulls[i])) <==> Attached(owner, repo, w, w.pulls[i])
    {
      ReferencesKnown(owner, repo, w, i);
    }
  }

  lemma {:induction false} UnitParts(owner: string, repo: string, w: Window)
    ensures var unit := UnitOf(owner, repo, w);
      && unit.relationships == EdgesFor(owner, repo, w.pulls)
      && |unit.memories| == |w.issues| + |w.pulls|
      && forall i :: 0 <= i < |unit.memories| ==> unit.memories[i].externalKey.Some?
  {
  }

  /** A window's unit passes validation exactly when the window is well made, whatever the window. */
  lemma UnitValidIff(owner: string, repo: string, w: Window)
    ensures ValidUnit(UnitOf(owner, repo, w)) <==> WellMade(owner, repo, w)
  {
    KeysDistinctIff(owner, repo, w);
    EdgesKnownIff(owner, repo, w);
    UnitParts(owner, repo, w);
    hide UnitOf, DraftKeys, Attached, Fold, EdgesFor, Distinct, Folded, Numbers;
  }

  // ----- every window the chunker makes is well made

  lemma WindowPullsDistinct(issues: seq<Issue>, pulls: seq<Pull>, maxWindow: nat, i: nat)
    requires Windows(issues, pulls, maxWindow).Ok? && i < |Windows(issues, pulls, maxWindow).value|
    requires Distinct(Numbers(pulls))
    ensures Distinct(Numbers(Windows(issues, pulls, maxWindow).value[i].pulls))
  {
    var ws := Windows(issues, pulls, maxWindow).value;
    var parts: seq<seq<Pull>> := WindowPulls(ws);
    PullsConserved(issues, pulls, maxWindow);
    hide Windows;
    forall a, b | 0 <= a < b < |pulls| ensures pulls[a] != pulls[b] {
      assert Numbers(pulls)[a] != Numbers(pulls)[b];
    }
    RearrangedDistinct(pulls, Flat(parts));
    SameMembers(pulls, Flat(parts));
    hide Flat;
    forall a, b | 0 <= a < b < |parts[i]| ensures parts[i][a].number != parts[i][b].number {
      FlatAt(parts, i, a);
      FlatAt(parts, i, b);
      SameNumberSamePull(pulls, parts[i][a], parts[i][b]);
    }
  }

  lemma SameNumberSamePull(pulls: seq<Pull>, p: Pull, q: Pull)
    requires Distinct(Numbers(pulls)) && p in pulls && q in pulls && p != q
    ensures p.number != q.number
  {
    var i :| 0 <= i < |pulls| && pulls[i] == p;
    var j :| 0 <= j < |pulls| && pulls[j] == q;
    assert Numbers(pulls)[i] != Numbers(pulls)[j];
  }

  lemma LocalIsFolded(owner: string, repo: string, s: seq<Issue>)
    requires Local(owner, repo, s)
    ensures Folded(owner, repo, s) == Idents(s)
  {
    hide Fold;
  }

  /** A sound window of folded references and distinct pulls is well made. */
  lemma SoundIsWellMade(owner: string, repo: string, w: Window, maxWindow: nat)
    requires Sound(w, maxWindow) && Distinct(Numbers(w.pulls)) && Local(owner, repo, w.issues)
    requires forall k :: 0 <= k < |w.pulls| ==> Local(owner, repo, w.pulls[k].closing)
    ensures WellMade(owner, repo, w)
  {
    hide Fold;
    LocalIsFolded(owner, repo, w.issues);
    forall i | 0 <= i < |w.pulls| ensures Attached(owner, repo, w, w.pulls[i]) {
      var p := w.pulls[i];
      assert p in w.pulls;
      forall k | 0 <= k < |p.closing|
        ensures Fold(owner, repo, IdentOf(p.closing[k])) in Folded(owner, repo, w.issues) {
        assert Idents(p.closing)[k] in Idents(w.issues);
      }
    }
  }

  lemma {:induction false} WindowIsLocal(owner: string, repo: string, issues: seq<Issue>, pulls: seq<Pull>,
      maxWindow: nat, i: nat)
    requires Windows(issues, pulls, maxWindow).Ok? && i < |Windows(issues, pulls, maxWindow).value|
    requires Local(owner, repo, issues) && forall k :: 0 <= k < |pulls| ==> Local(owner, repo, pulls[k].closing)
    ensures var w := Windows(issues, pulls, maxWindow).value[i];
      Local(owner, repo, w.issues) && forall k :: 0 <= k < |w.pulls| ==> Local(owner, repo, w.pulls[k].closing)
  {
    var ws := Windows(issues, pulls, maxWindow).value;
    var w := ws[i];
    PullsConserved(issues, pulls, maxWindow);
    SameMembers(pulls, Flat(WindowPulls(ws)));
    forall k | 0 <= k < |w.pulls| ensures Local(owner, repo, w.pulls[k].closing) {
      FlatAt(WindowPulls(ws), i, k);
      assert w.pulls[k] in pulls;
    }
    hide Windows, Fold, Flat;
    forall k | 0 <= k < |w.issues| ensures Fold(owner, repo, IdentOf(w.issues[k])) == IdentOf(w.issues[k]) {
      assert Idents(w.issues)[k] in Idents(w.issues);
      WindowsCover(issues, pulls, maxWindow, IdentOf(w.issues[k]));
      CarriedMember(pulls, IdentOf(w.issues[k]));
    }
  }

  /** Every window of folded references and distinct pulls maps to a unit that passes validation. */
  lemma ChunkedUnitsAreValid(owner: string, repo: string, issues: seq<Issue>, pulls: seq<Pull>, maxWindow: nat, i: nat)
    requires Windows(issues, pulls, maxWindow).Ok? && i < |Windows(issues, pulls, maxWindow).value|
    requires Local(owner, repo, issues) && forall k :: 0 <= k < |pulls| ==> Local(owner, repo, pulls[k].closing)
    requires Distinct(Numbers(pulls))
    ensures var unit := UnitOf(owner, repo, Windows(issues, pulls, maxWindow).value[i]);
      ValidUnit(unit) && 1 <= |unit.memories| <= Max(1, maxWindow)
  {
    var w := Windows(issues, pulls, maxWindow).value[i];
    WindowsAreSound(issues, pulls, maxWindow, i);
    WindowPullsDistinct(issues, pulls, maxWindow, i);
    WindowIsLocal(owner, repo, issues, pulls, maxWindow, i);
    SoundIsWellMade(owner, repo, w, maxWindow);
    UnitValidIff(owner, repo, w);
    UnitParts(owner, repo, w);
    hide Windows, Fold, UnitOf, ValidUnit, Local, WellMade, Numbers;
  }
}
