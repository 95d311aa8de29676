// The chapter filter of the German tax dataset: from each case's tree it
// derives a "correct" tree, keeping the first root's element branches, and
// an "incorrect" tree, keeping one or two branches drawn at random.

module ChapterTrees {
  import opened Text
  import opened LogicTree
  import opened Tasks
  import opened Scenario
  import opened TreeBuilder

  /** A case record: its tree and the two chapter trees written into it. */
  datatype CaseEntry = CaseEntry(tree: Tree, correctTree: Option<Tree>, incorrectTree: Option<Tree>)

  /** Where the filter stops: the tree of case `index` has no root
      (IndexError), or the drawn sample size exceeds its first root's
      children (ValueError from the sampler). */
  datatype ChapterError = NoRoot(index: nat) | SampleTooLarge(index: nat)

  // ------------------------------------------------------------------
  // The correct tree: keep the branches naming a legal element
  // ------------------------------------------------------------------

  const ChapterKeywords: seq<string> := ["applicable law", "economic", "procedural"]

  /** Some keyword occurs in the lower-cased value. */
  predicate KeywordHit(value: string) {
    exists i :: 0 <= i < |ChapterKeywords| && Contains(ToLower(value), ChapterKeywords[i])
  }

  /** The filter keeps exactly the branches the expansion classifies as one
      of the three elements. */
  lemma KeywordHitClassified(value: string)
    ensures KeywordHit(value) <==> Classify(value) != Unclassified
  {
    var v := ToLower(value);
    assert ChapterKeywords[0] == LawPhrase && ChapterKeywords[1] == EconPhrase && ChapterKeywords[2] == ProcPhrase;
    if Classify(value) != Unclassified {
      if Contains(v, LawPhrase) {
        assert Contains(v, ChapterKeywords[0]);
      } else if Contains(v, EconPhrase) {
        assert Contains(v, ChapterKeywords[1]);
      } else {
        assert Contains(v, ChapterKeywords[2]);
      }
    }
  }

  function CorrectChildren(cs: seq<Node>): (r: seq<Node>)
    ensures |r| <= |cs|
  {
    if cs == [] then []
    else (if KeywordHit(cs[0].value) then [cs[0]] else []) + CorrectChildren(cs[1..])
  }

  /** The number of branches a keyword hits. */
  function Hits(cs: seq<Node>): nat {
    if cs == [] then 0 else (if KeywordHit(cs[0].value) then 1 else 0) + Hits(cs[1..])
  }

  lemma {:induction false} HitsConcat(a: seq<Node>, b: seq<Node>)
    ensures Hits(a + b) == Hits(a) + Hits(b)
    decreases |a|
  {
    if a == [] {
      assert a + b == b;
    } else {
      assert (a + b)[1..] == a[1..] + b;
      HitsConcat(a[1..], b);
    }
  }

  /** A branch is kept exactly when a keyword hits it. */
  lemma {:induction false} CorrectChildrenMembers(cs: seq<Node>)
    ensures forall x :: x in CorrectChildren(cs) <==> x in cs && KeywordHit(x.value)
    decreases |cs|
  {
    if cs != [] {
      CorrectChildrenMembers(cs[1..]);
      assert cs == [cs[0]] + cs[1..];
    }
  }

  /** Every hit branch lands at its rank among the hits, so the kept
      branches are the hit ones in their original order. */
  lemma {:induction false} CorrectChildrenRank(cs: seq<Node>)
    ensures |CorrectChildren(cs)| == Hits(cs)
    ensures forall j :: 0 <= j < |cs| && KeywordHit(cs[j].value) ==>
              Hits(cs[..j]) < |CorrectChildren(cs)| && CorrectChildren(cs)[Hits(cs[..j])] == cs[j]
    decreases |cs|
  {
    if cs != [] {
      CorrectChildrenRank(cs[1..]);
      var head := if KeywordHit(cs[0].value) then [cs[0]] else [];
      assert CorrectChildren(cs) == head + CorrectChildren(cs[1..]);
      assert cs[..0] == [];
      assert Hits([cs[0]]) == |head| by {
        assert [cs[0]][1..] == [];
      }
      forall j | 0 < j < |cs| && KeywordHit(cs[j].value)
        ensures Hits(cs[..j]) < |CorrectChildren(cs)| && CorrectChildren(cs)[Hits(cs[..j])] == cs[j]
      {
        assert cs[..j] == [cs[0]] + cs[1..][..j - 1];
        HitsConcat([cs[0]], cs[1..][..j - 1]);
        assert cs[1..][j - 1] == cs[j];
      }
    }
  }

  /** Ranks grow along the children: a hit branch ranks below every later
      branch. */
  lemma CorrectChildrenOrder(cs: seq<Node>, i: nat, j: nat)
    requires i < j < |cs| && KeywordHit(cs[i].value)
    ensures Hits(cs[..i]) < Hits(cs[..j])
  {
    assert cs[..j] == cs[..i] + [cs[i]] + cs[i + 1..j];
    HitsConcat(cs[..i] + [cs[i]], cs[i + 1..j]);
    HitsConcat(cs[..i], [cs[i]]);
    assert [cs[i]][1..] == [];
  }

  /** Children that all name an element are kept whole. */
  lemma {:induction false} AllHitsKept(cs: seq<Node>)
    requires forall i :: 0 <= i < |cs| ==> KeywordHit(cs[i].value)
    ensures CorrectChildren(cs) == cs
    decreases |cs|
  {
    if cs != [] {
      AllHitsKept(cs[1..]);
      assert cs == [cs[0]] + cs[1..];
    }
  }

  // ------------------------------------------------------------------
  // The incorrect tree: one or two branches drawn without replacement
  // ------------------------------------------------------------------

  /** The sampler's positions: `size` distinct indices into `n` children. */
  predicate ValidPick(n: nat, size: nat, pick: seq<nat>) {
    && |pick| == size
    && (forall i :: 0 <= i < size ==> pick[i] < n)
    && (forall i, j :: 0 <= i < j < size ==> pick[i] != pick[j])
  }

  function IncorrectChildren(cs: seq<Node>, pick: seq<nat>): seq<Node>
    requires forall i :: 0 <= i < |pick| ==> pick[i] < |cs|
  {
    seq(|pick|, i requires 0 <= i < |pick| => cs[pick[i]])
  }

  lemma TwoDrawn(cs: seq<Node>, a: nat, b: nat)
    requires a < b < |cs|
    ensures multiset{cs[a], cs[b]} <= multiset(cs)
  {
    assert cs == cs[..a] + [cs[a]] + cs[a + 1..b] + [cs[b]] + cs[b + 1..];
  }

  /** The drawn branches are one or two of the children, none used twice. */
  lemma IncorrectDrawn(cs: seq<Node>, size: nat, pick: seq<nat>)
    requires 1 <= size <= 2 && ValidPick(|cs|, size, pick)
    ensures 1 <= |IncorrectChildren(cs, pick)| <= 2
    ensures multiset(IncorrectChildren(cs, pick)) <= multiset(cs)
  {
    var r := IncorrectChildren(cs, pick);
    if size == 1 {
      assert r == [cs[pick[0]]];
      assert cs[pick[0]] in cs;
    } else {
      assert r == [cs[pick[0]], cs[pick[1]]];
      assert multiset(r) == multiset{cs[pick[0]], cs[pick[1]]};
      if pick[0] < pick[1] {
        TwoDrawn(cs, pick[0], pick[1]);
      } else {
        TwoDrawn(cs, pick[1], pick[0]);
      }
    }
  }

  // ------------------------------------------------------------------
  // One case
  // ------------------------------------------------------------------

  predicate Fails(e: CaseEntry, size: nat) {
    e.tree.nodes == [] || size > |e.tree.nodes[0].children|
  }

  function ErrorAt(e: CaseEntry, size: nat, index: nat): (err: ChapterError)
    ensures err.index == index
    ensures err.NoRoot? <==> e.tree.nodes == []
  {
    if e.tree.nodes == [] then NoRoot(index) else SampleTooLarge(index)
  }

  /** The draws for one case: a size of 1 or 2, and a valid pick whenever
      the sampler is reached with a population that large. */
  predicate DrawOk(e: CaseEntry, size: nat, pick: seq<nat>) {
    1 <= size <= 2 && (!Fails(e, size) ==> ValidPick(|e.tree.nodes[0].children|, size, pick))
  }

  function WithFirstChildren(t: Tree, cs: seq<Node>): Tree
    requires t.nodes != []
  {
    t.(nodes := t.nodes[0 := t.nodes[0].(children := cs)])
  }

  /** `a` is `b` with only the first root's children replaced. */
  predicate OnlyFirstChildrenDiffer(a: Tree, b: Tree) {
    && |a.nodes| == |b.nodes| && a.nodes != []
    && a.prune == b.prune && a.populate == b.populate
    && a.nodes[0] == b.nodes[0].(children := a.nodes[0].children)
    && a.nodes[1..] == b.nodes[1..]
  }

  /** Both chapter trees of one case. The input tree is left alone and
      each output differs from it only in the first root's children. */
  function Chapter(e: CaseEntry, size: nat, pick: seq<nat>): (r: CaseEntry)
    requires DrawOk(e, size, pick) && !Fails(e, size)
    ensures r.tree == e.tree
    ensures r.correctTree.Some? && OnlyFirstChildrenDiffer(r.correctTree.value, e.tree)
    ensures r.incorrectTree.Some? && OnlyFirstChildrenDiffer(r.incorrectTree.value, e.tree)
  {
    var cs := e.tree.nodes[0].children;
    e.(incorrectTree := Some(WithFirstChildren(e.tree, IncorrectChildren(cs, pick))),
       correctTree := Some(WithFirstChildren(e.tree, CorrectChildren(cs))))
  }

  /** The correct tree keeps exactly the first root's children naming an
      element, in order; the incorrect one keeps one or two of them. */
  lemma ChapterChildren(e: CaseEntry, size: nat, pick: seq<nat>)
    requires DrawOk(e, size, pick) && !Fails(e, size)
    ensures var r := Chapter(e, size, pick);
            var cs := e.tree.nodes[0].children;
            var kept := r.correctTree.value.nodes[0].children;
            var drawn := r.incorrectTree.value.nodes[0].children;
            && (forall x :: x in kept <==> x in cs && KeywordHit(x.value))
            && |kept| == Hits(cs)
            && (forall j :: 0 <= j < |cs| && KeywordHit(cs[j].value) ==> Hits(cs[..j]) < |kept| && kept[Hits(cs[..j])] == cs[j])
            && 1 <= |drawn| <= 2 && multiset(drawn) <= multiset(cs)
  {
    var cs := e.tree.nodes[0].children;
    CorrectChildrenMembers(cs);
    CorrectChildrenRank(cs);
    IncorrectDrawn(cs, size, pick);
  }

  // ------------------------------------------------------------------
  // All cases, in place
  // ------------------------------------------------------------------

  /** The first failing case at or after `i`, if any. */
  function ChapterFailureFrom(entries: seq<CaseEntry>, sizes: seq<nat>, i: nat): Option<ChapterError>
    requires |sizes| == |entries| && i <= |entries|
    decreases |entries| - i
  {
    if i == |entries| then None
    else if Fails(entries[i], sizes[i]) then Some(ErrorAt(entries[i], sizes[i], i))
    else ChapterFailureFrom(entries, sizes, i + 1)
  }

  /** The error names the first failing case, and there is none exactly
      when no case fails. */
  lemma {:induction false} ChapterFailureFirst(entries: seq<CaseEntry>, sizes: seq<nat>, i: nat)
    requires |sizes| == |entries| && i <= |entries|
    ensures var err := ChapterFailureFrom(entries, sizes, i);
            && (err.None? <==> forall j :: i <= j < |entries| ==> !Fails(entries[j], sizes[j]))
            && (err.Some? ==> var m := err.value.index;
                  && i <= m < |entries| && Fails(entries[m], sizes[m])
                  && err.value == ErrorAt(entries[m], sizes[m], m)
                  && forall j :: i <= j < m ==> !Fails(entries[j], sizes[j]))
    decreases |entries| - i
  {
    if i < |entries| && !Fails(entries[i], sizes[i]) {
      ChapterFailureFirst(entries, sizes, i + 1);
    }
  }

  function Stop(err: Option<ChapterError>, n: nat): nat {
    if err.Some? then err.value.index else n
  }

  /** Writes both chapter trees into every case record in turn, stopping at
      the first case that fails; the cases before it are updated and the
      rest are left as they were. */
  method CreateChapterTrees(cases: array<CaseEntry>, sizes: seq<nat>, picks: seq<seq<nat>>)
    returns (err: Option<ChapterError>)
    requires |sizes| == cases.Length && |picks| == cases.Length
    requires forall i :: 0 <= i < cases.Length ==> DrawOk(cases[i], sizes[i], picks[i])
    modifies cases
    ensures err == ChapterFailureFrom(old(cases[..]), sizes, 0)
    ensures forall j :: 0 <= j < cases.Length && j < Stop(err, cases.Length) ==>
              !Fails(old(cases[j]), sizes[j]) && cases[j] == Chapter(old(cases[j]), sizes[j], picks[j])
    ensures forall j :: Stop(err, cases.Length) <= j < cases.Length ==> cases[j] == old(cases[j])
  {
    ghost var entries := cases[..];
    var i := 0;
    while i < cases.Length
      invariant 0 <= i <= cases.Length
      invariant ChapterFailureFrom(entries, sizes, 0) == ChapterFailureFrom(entries, sizes, i)
      invariant forall j :: 0 <= j < i ==>
                  !Fails(entries[j], sizes[j]) && cases[j] == Chapter(entries[j], sizes[j], picks[j])
      invariant forall j :: i <= j < cases.Length ==> cases[j] == entries[j]
    {
      var c := cases[i];
      if c.tree.nodes == [] {
        return Some(NoRoot(i));
      }
      var t := c.tree;
      var children := t.nodes[0].children;
      if sizes[i] > |children| {
        return Some(SampleTooLarge(i));
      }
      var drawn := IncorrectChildren(children, picks[i]);
      cases[i] := c.(incorrectTree := Some(WithFirstChildren(t, drawn)));
      var kept := CorrectChildren(children);
      cases[i] := cases[i].(correctTree := Some(WithFirstChildren(t, kept)));
      i := i + 1;
    }
    return None;
  }

  // ------------------------------------------------------------------
  // On the trees the pipeline builds
  // ------------------------------------------------------------------

  /** Every branch of a case's root tree names its element, so the correct
      tree keeps all three whatever the case. */
  lemma CaseBranchesAllKept(c: Case)
    ensures var cs := MakeRootTree(c).nodes[0].children;
            CorrectChildren(cs) == cs
  {
    var cs := MakeRootTree(c).nodes[0].children;
    LawBranchClassified(c);
    EconBranchClassified(c);
    ProcBranchClassified(c);
    KeywordHitClassified(cs[0].value);
    KeywordHitClassified(cs[1].value);
    KeywordHitClassified(cs[2].value);
    AllHitsKept(cs);
  }

  /** So the incorrect tree of a case always has fewer branches than the
      correct one. */
  lemma CaseIncorrectDropsBranch(c: Case, size: nat, pick: seq<nat>)
    requires 1 <= size <= 2 && ValidPick(3, size, pick)
    ensures var cs := MakeRootTree(c).nodes[0].children;
            |IncorrectChildren(cs, pick)| < |CorrectChildren(cs)|
  {
    CaseBranchesAllKept(c);
  }

  /** The expansion keeps the branch values, so after it the correct tree
      still keeps all three expanded branches. */
  lemma ExpandedBranchesAllKept(c: Case, t: Tree, env: Env, k: nat)
    requires SkeletonOf(t, MakeRootTree(c))
    ensures var x := ExpandRootsSpec(env, t.nodes, k).nodes;
            |x| == 1 && CorrectChildren(x[0].children) == x[0].children
  {
    var base := MakeRootTree(c).nodes[0].children;
    var x := ExpandRootsSpec(env, t.nodes, k).nodes;
    RootsPreserve(env, t.nodes, k);
    CaseBranchesAllKept(c);
    CorrectChildrenMembers(base);
    assert RootKept(t.nodes[0], x[0]);
    forall j | 0 <= j < |x[0].children|
      ensures KeywordHit(x[0].children[j].value)
    {
      assert x[0].children[j].value == base[j].value;
      assert base[j] in base;
    }
    AllHitsKept(x[0].children);
  }
}
