/** The root tree of a case and the depth-first expansion that fills the
    empty child slots of a skeleton from the replies to expansion requests. */
module TreeBuilder {
  import opened Text
  import opened LogicTree
  import opened Tasks
  import opened Scenario

  // ------------------------------------------------------------------
  // make_root_tree
  // ------------------------------------------------------------------

  /** A branch's state label: the good label exactly for the good state,
      the bad label for anything else. */
  function Label(state: string, good: string, bad: string): (l: string)
    requires good != bad
    ensures l == good <==> state == good
    ensures l == good || l == bad
  {
    if state == good then good else bad
  }

  function LawLabel(state: string): string {
    Label(state, "clear", "unclear")
  }

  function EconLabel(state: string): string {
    Label(state, "sufficient", "insufficient")
  }

  function ProcLabel(state: string): string {
    Label(state, "compliant", "deficient")
  }

  function LawText(c: Case): string {
    "Applicable law is " + LawLabel(c.lawState) + " for " + c.taxpayer + "'s arrangement."
  }

  function EconText(c: Case): string {
    "Economic activity is " + EconLabel(c.econState) + " for " + c.taxpayer + "'s operations."
  }

  function ProcText(c: Case): string {
    "Procedural requirements are " + ProcLabel(c.procState) + " for " + c.taxpayer + "'s application."
  }

  function RootText(c: Case): string {
    c.taxAuthority + " should " + c.finalDecision + " the arrangement by " + c.taxpayer + "."
  }

  /** A node built from a value alone. */
  function Leaf(value: string): Node {
    Node(value, Deduced, [], false, true)
  }

  /** One frozen, non-prunable root with the three element branches in the
      order law, economic, procedural. */
  function MakeRootTree(c: Case): (t: Tree)
    ensures |t.nodes| == 1 && !t.prune && !t.populate
    ensures t.nodes[0].frozen && !t.nodes[0].prunable
    ensures |t.nodes[0].children| == 3
    ensures forall i :: 0 <= i < 3 ==> t.nodes[0].children[i].children == []
    ensures t.nodes[0].value == RootText(c)
    ensures t.nodes[0].children == [Leaf(LawText(c)), Leaf(EconText(c)), Leaf(ProcText(c))]
  {
    var root := Node(RootText(c), Deduced, [Leaf(LawText(c)), Leaf(EconText(c)), Leaf(ProcText(c))],
                     true, false);
    Tree([root], false, false)
  }

  /** A lower-cased text that starts with a phrase contains it. */
  lemma PrefixContains(head: string, rest: string, w: string)
    requires w <= ToLower(head)
    ensures Contains(ToLower(head + rest), w)
  {
    ToLowerConcat(head, rest);
    assert w <= ToLower(head) + ToLower(rest);
  }

  /** The law branch holds the law phrase whatever the case, so it is
      classified as the law branch. */
  lemma LawBranchClassified(c: Case)
    ensures Contains(ToLower(LawText(c)), LawPhrase)
    ensures Classify(LawText(c)) == Law
  {
    var head := "Applicable law is ";
    assert LawPhrase <= ToLower(head);
    PrefixContains(head, LawLabel(c.lawState) + " for " + c.taxpayer + "'s arrangement.", LawPhrase);
    assert LawText(c) == head + (LawLabel(c.lawState) + " for " + c.taxpayer + "'s arrangement.");
  }

  /** The economic branch holds the economic phrase whatever the case, so it
      is classified, as economic unless the law phrase occurs in it too. */
  lemma EconBranchClassified(c: Case)
    ensures Contains(ToLower(EconText(c)), EconPhrase)
    ensures Classify(EconText(c)) == Econ || Classify(EconText(c)) == Law
  {
    var head := "Economic activity is ";
    assert EconPhrase <= ToLower(head);
    PrefixContains(head, EconLabel(c.econState) + " for " + c.taxpayer + "'s operations.", EconPhrase);
    assert EconText(c) == head + (EconLabel(c.econState) + " for " + c.taxpayer + "'s operations.");
  }

  /** The procedural branch holds the procedural phrase whatever the case,
      so it is never unclassified. */
  lemma ProcBranchClassified(c: Case)
    ensures Contains(ToLower(ProcText(c)), ProcPhrase)
    ensures Classify(ProcText(c)) != Unclassified
  {
    var head := "Procedural requirements are ";
    assert ProcPhrase <= ToLower(head);
    PrefixContains(head, ProcLabel(c.procState) + " for " + c.taxpayer + "'s application.", ProcPhrase);
    assert ProcText(c) == head + (ProcLabel(c.procState) + " for " + c.taxpayer + "'s application.");
  }

  /** A taxpayer name holding the law phrase makes every branch read as the
      law branch, so the economic and procedural branches are expanded with
      the law prompts. */
  lemma TaxpayerPhraseCapturesBranches(c: Case)
    requires Contains(ToLower(c.taxpayer), LawPhrase)
    ensures Classify(LawText(c)) == Law && Classify(EconText(c)) == Law && Classify(ProcText(c)) == Law
  {
    var t := c.taxpayer;
    var l := "Applicable law is " + LawLabel(c.lawState) + " for ";
    var e := "Economic activity is " + EconLabel(c.econState) + " for ";
    var p := "Procedural requirements are " + ProcLabel(c.procState) + " for ";
    ToLowerConcat(l, t);
    ToLowerConcat(l + t, "'s arrangement.");
    ContainsExtend(ToLower(l), ToLower(t), ToLower("'s arrangement."), LawPhrase);
    assert LawText(c) == l + t + "'s arrangement.";
    ToLowerConcat(e, t);
    ToLowerConcat(e + t, "'s operations.");
    ContainsExtend(ToLower(e), ToLower(t), ToLower("'s operations."), LawPhrase);
    assert EconText(c) == e + t + "'s operations.";
    ToLowerConcat(p, t);
    ToLowerConcat(p + t, "'s application.");
    ContainsExtend(ToLower(p), ToLower(t), ToLower("'s application."), LawPhrase);
    assert ProcText(c) == p + t + "'s application.";
  }

  // ------------------------------------------------------------------
  // Parsing the returned lines for filling
  // ------------------------------------------------------------------

  /** The text of a line as filling reads it: everything before the last
      '|', stripped. */
  function FillText(line: string): string {
    Strip(BeforeLast(line, '|'))
  }

  /** Lines without '|' are skipped; the commonsense tag is checked before
      the two explicit tags; a line with no tag contributes nothing. */
  function FillParse(lines: seq<string>): Facts
  {
    if lines == [] then Facts([], [])
    else
      var rest := FillParse(lines[1..]);
      var line := lines[0];
      if '|' !in line then rest
      else if Contains(line, CommonsenseTag) then Facts(rest.explicit, [FillText(line)] + rest.commonsense)
      else if Contains(line, StoryTag) || Contains(line, ComplexTag) then
        Facts([FillText(line)] + rest.explicit, rest.commonsense)
      else rest
  }

  /** No line is read twice: at most one text per line. */
  lemma {:induction false} FillParseCount(lines: seq<string>)
    ensures |FillParse(lines).explicit| + |FillParse(lines).commonsense| <= |lines|
  {
    if lines != [] {
      FillParseCount(lines[1..]);
    }
  }

  /** A line with exactly one '|' is read alike by filling and by the
      validators, so the texts filled in are the texts that were validated. */
  lemma {:induction false} ParsesAgree(lines: seq<string>)
    requires forall i :: 0 <= i < |lines| ==> '|' in lines[i] && '|' !in lines[i][IndexOf(lines[i], '|') + 1..]
    ensures FillParse(lines) == ClassifyLines(lines)
  {
    if lines != [] {
      ParsesAgree(lines[1..]);
      SplitsAgreeOnSingleSeparator(lines[0], '|');
    }
  }

  /** With a second '|' on the line, the text before the last '|' keeps a
      '|', and the text before the first never does. */
  lemma TextsDisagree(line: string)
    requires '|' in line && '|' in line[IndexOf(line, '|') + 1..]
    ensures '|' in FillText(line) && '|' !in Strip(BeforeFirst(line, '|'))
  {
    var i := IndexOf(line, '|');
    var q :| 0 <= q < |line[i + 1..]| && line[i + 1..][q] == '|';
    var m := i + 1 + q;
    assert line[m] == '|';
    LastIndexOfBound(line, '|', m);
    assert BeforeLast(line, '|')[i] == '|';
    StripKeeps(BeforeLast(line, '|'), '|');
    StripKeeps(BeforeFirst(line, '|'), '|');
  }

  /** A tagged line with a second '|' is read differently: the filled text
      keeps a '|', the validated text never does. */
  lemma ParsesDisagree(line: string)
    requires Contains(line, CommonsenseTag) || Contains(line, StoryTag) || Contains(line, ComplexTag)
    requires '|' in line && '|' in line[IndexOf(line, '|') + 1..]
    ensures FillParse([line]) != ClassifyLines([line])
  {
    TextsDisagree(line);
    var filled := FillText(line);
    var validated := Strip(BeforeFirst(line, '|'));
    assert [line][1..] == [];
    if Contains(line, CommonsenseTag) {
      assert FillParse([line]).commonsense == [filled];
      assert ClassifyLines([line]).commonsense == [validated];
    } else {
      assert FillParse([line]).explicit == [filled];
      assert ClassifyLines([line]).explicit == [validated];
    }
  }

  /** The fill-parse loop: lines without '|' are skipped, texts are appended
      to the list their tag selects. */
  method ParseChildLines(lines: seq<string>) returns (facts: Facts)
    ensures facts == FillParse(lines)
  {
    var explicit: seq<string> := [];
    var commonsense: seq<string> := [];
    var i := 0;
    while i < |lines|
      invariant i <= |lines|
      invariant explicit + FillParse(lines[i..]).explicit == FillParse(lines).explicit
      invariant commonsense + FillParse(lines[i..]).commonsense == FillParse(lines).commonsense
    {
      var line := lines[i];
      assert lines[i..][1..] == lines[i + 1..];
      var rest := FillParse(lines[i + 1..]);
      if '|' !in line {
        i := i + 1;
        continue;
      }
      var text := FillText(line);
      if Contains(line, CommonsenseTag) {
        AppendStep(commonsense, [text], rest.commonsense, FillParse(lines).commonsense);
        commonsense := commonsense + [text];
      } else if Contains(line, StoryTag) || Contains(line, ComplexTag) {
        AppendStep(explicit, [text], rest.explicit, FillParse(lines).explicit);
        explicit := explicit + [text];
      }
      i := i + 1;
    }
    assert lines[i..] == [];
    assert explicit + [] == explicit && commonsense + [] == commonsense;
    facts := Facts(explicit, commonsense);
  }

  // ------------------------------------------------------------------
  // Filling the child slots
  // ------------------------------------------------------------------

  /** One child of the fill loop: a commonsense child takes the head of the
      commonsense texts and an explicit child the head of the explicit
      texts, while any are left; the remaining texts come back with it. */
  function FillOne(c: Node, f: Facts): (Node, Facts) {
    if c.factType == Commonsense && f.commonsense != [] then
      (c.(value := f.commonsense[0]), Facts(f.explicit, f.commonsense[1..]))
    else if c.factType == Explicit && f.explicit != [] then
      (c.(value := f.explicit[0]), Facts(f.explicit[1..], f.commonsense))
    else (c, f)
  }

  /** Children are filled in order, each from what the earlier ones left;
      every other child, and every child once its list is used up, keeps
      its value. */
  function FillSpec(cs: seq<Node>, f: Facts): (r: seq<Node>)
    ensures |r| == |cs|
  {
    if cs == [] then []
    else
      var step := FillOne(cs[0], f);
      [step.0] + FillSpec(cs[1..], step.1)
  }

  /** The child at position i after filling, described by rank: the n-th
      child of its type, counting from zero, takes text n of its list if
      there is one. */
  function FilledAt(cs: seq<Node>, f: Facts, i: nat): Node
    requires i < |cs|
  {
    var c := cs[i];
    var n := CountType(cs[..i], c.factType);
    if c.factType == Commonsense && n < |f.commonsense| then c.(value := f.commonsense[n])
    else if c.factType == Explicit && n < |f.explicit| then c.(value := f.explicit[n])
    else c
  }

  lemma CountTypeCons(cs: seq<Node>, i: nat, t: FactType)
    requires 0 < i <= |cs|
    ensures CountType(cs[..i], t) == (if cs[0].factType == t then 1 else 0) + CountType(cs[1..][..i - 1], t)
  {
    assert cs[..i][1..] == cs[1..][..i - 1];
  }

  /** Ranking from the second child on, with the texts the first child
      left, gives the same answer. */
  lemma FilledAtCons(cs: seq<Node>, f: Facts, i: nat)
    requires 0 < i < |cs|
    ensures FilledAt(cs, f, i) == FilledAt(cs[1..], FillOne(cs[0], f).1, i - 1)
  {
    CountTypeCons(cs, i, cs[i].factType);
    assert cs[1..][i - 1] == cs[i];
  }

  /** Filling by list order is filling by rank. */
  lemma {:induction false} FillRank(cs: seq<Node>, f: Facts)
    ensures forall i :: 0 <= i < |cs| ==> FillSpec(cs, f)[i] == FilledAt(cs, f, i)
  {
    if cs != [] {
      var rest := FillOne(cs[0], f).1;
      FillRank(cs[1..], rest);
      forall i | 0 < i < |cs| ensures FillSpec(cs, f)[i] == FilledAt(cs, f, i) {
        FilledAtCons(cs, f, i);
      }
    }
  }

  /** Filling changes values only, and only of commonsense and explicit
      children. */
  lemma FillValuesOnly(cs: seq<Node>, f: Facts)
    ensures forall i :: 0 <= i < |cs| ==> FillSpec(cs, f)[i] == cs[i].(value := FillSpec(cs, f)[i].value)
    ensures forall i :: 0 <= i < |cs| && cs[i].factType == Deduced ==> FillSpec(cs, f)[i] == cs[i]
  {
    FillRank(cs, f);
  }

  /** An empty reply changes nothing. */
  lemma FillNothing(cs: seq<Node>)
    ensures FillSpec(cs, Facts([], [])) == cs
  {
    FillRank(cs, Facts([], []));
  }

  lemma {:induction false} CountTypeBelow(cs: seq<Node>, i: nat)
    requires i < |cs|
    ensures CountType(cs[..i], cs[i].factType) < CountType(cs, cs[i].factType)
  {
    if i > 0 {
      CountTypeCons(cs, i, cs[i].factType);
      CountTypeBelow(cs[1..], i - 1);
    }
  }

  /** With enough texts of each kind, every commonsense or explicit child
      receives a text, and each text goes to at most one child. */
  lemma FillComplete(cs: seq<Node>, f: Facts)
    requires CountType(cs, Commonsense) <= |f.commonsense| && CountType(cs, Explicit) <= |f.explicit|
    ensures forall i :: 0 <= i < |cs| ==> CountType(cs[..i], cs[i].factType) < CountType(cs, cs[i].factType)
    ensures forall i :: 0 <= i < |cs| && cs[i].factType == Commonsense ==>
              FillSpec(cs, f)[i].value == f.commonsense[CountType(cs[..i], Commonsense)]
    ensures forall i :: 0 <= i < |cs| && cs[i].factType == Explicit ==>
              FillSpec(cs, f)[i].value == f.explicit[CountType(cs[..i], Explicit)]
    ensures forall i, j :: 0 <= i < j < |cs| && cs[i].factType == cs[j].factType ==>
              CountType(cs[..i], cs[i].factType) < CountType(cs[..j], cs[j].factType)
  {
    FillRank(cs, f);
    forall i | 0 <= i < |cs| ensures CountType(cs[..i], cs[i].factType) < CountType(cs, cs[i].factType) {
      CountTypeBelow(cs, i);
    }
    forall i, j | 0 <= i < j < |cs| && cs[i].factType == cs[j].factType
      ensures CountType(cs[..i], cs[i].factType) < CountType(cs[..j], cs[j].factType)
    {
      assert cs[..j][..i] == cs[..i] && cs[..j][i] == cs[i];
      CountTypeBelow(cs[..j], i);
    }
  }

  /** The fill loop: each child pops the head of its queue. */
  method FillChildren(children: seq<Node>, facts: Facts) returns (filled: seq<Node>)
    ensures filled == FillSpec(children, facts)
  {
    var commonsense := facts.commonsense;
    var explicit := facts.explicit;
    filled := children;
    var i := 0;
    while i < |children|
      invariant i <= |children| && |filled| == |children|
      invariant filled[i..] == children[i..]
      invariant filled[..i] + FillSpec(children[i..], Facts(explicit, commonsense)) == FillSpec(children, facts)
    {
      var child := children[i];
      assert children[i..][1..] == children[i + 1..];
      ghost var queues := Facts(explicit, commonsense);
      var step: Node;
      if child.factType == Commonsense && commonsense != [] {
        step := child.(value := commonsense[0]);
        commonsense := commonsense[1..];
      } else if child.factType == Explicit && explicit != [] {
        step := child.(value := explicit[0]);
        explicit := explicit[1..];
      } else {
        step := child;
      }
      assert (step, Facts(explicit, commonsense)) == FillOne(child, queues);
      var prefix := filled[..i];
      AppendStep(prefix, [step], FillSpec(children[i + 1..], Facts(explicit, commonsense)),
                 FillSpec(children, facts));
      filled := filled[i := step];
      assert filled[..i + 1] == prefix + [step];
      i := i + 1;
    }
  }

  // ------------------------------------------------------------------
  // expand_tree_recursive and expand_tree_with_crew
  // ------------------------------------------------------------------

  /** expand_tree_recursive leaves max_retries at its default. */
  const MaxRetries: nat := 3

  /** What the traversal passes to every expansion request: the crew, the
      case description and whether the model validator is on. */
  datatype Env = Env(crew: Crew, description: string, useModelValidator: bool)

  /** A subtree after expansion, and the number of the next request. */
  datatype Grown = Grown(node: Node, next: nat)
  datatype GrownSeq = GrownSeq(nodes: seq<Node>, next: nat)

  /** A node asks for an expansion when it has children and one of them is
      empty or whitespace only. */
  predicate NeedsFill(n: Node) {
    n.children != [] && exists i :: 0 <= i < |n.children| && Blank(n.children[i].value)
  }

  /** Levels left before depth 3, where the traversal stops. */
  function Remaining(depth: nat): nat {
    if depth >= 3 then 0 else 3 - depth
  }

  /** The fill step at one node: an expansion request when the node needs
      one, its lines parsed and filled into the children in order. */
  function Refill(env: Env, n: Node, depth: nat, e: Element, k: nat): (r: GrownSeq)
    ensures |r.nodes| == |n.children| && k <= r.next
  {
    if NeedsFill(n) then
      var x := ExpandNodeSpec(env.crew, n, depth, e, env.description, MaxRetries, env.useModelValidator, k);
      GrownSeq(FillSpec(n.children, FillParse(x.lines)), x.next)
    else GrownSeq(n.children, k)
  }

  /** Depth-first expansion of the subtree at `n`, a node at `depth` in the
      branch of element `e`, numbering requests from k: nothing at depth 3
      or below; otherwise the fill step, then each child in order. */
  function ExpandSpec(env: Env, n: Node, depth: nat, e: Element, k: nat): (g: Grown)
    ensures k <= g.next
    decreases Remaining(depth), 0
  {
    if depth >= 3 then Grown(n, k)
    else
      var filled := Refill(env, n, depth, e, k);
      var below := ExpandChildrenSpec(env, filled.nodes, depth + 1, e, filled.next);
      Grown(n.(children := below.nodes), below.next)
  }

  function ExpandChildrenSpec(env: Env, cs: seq<Node>, depth: nat, e: Element, k: nat): (g: GrownSeq)
    ensures |g.nodes| == |cs| && k <= g.next
    decreases Remaining(depth), |cs|
  {
    if cs == [] then GrownSeq([], k)
    else
      var first := ExpandSpec(env, cs[0], depth, e, k);
      var rest := ExpandChildrenSpec(env, cs[1..], depth, e, first.next);
      GrownSeq([first.node] + rest.nodes, rest.next)
  }

  /** The level-1 nodes of one root, each expanded as the branch of the
      element its own text names. */
  function ExpandBranchesSpec(env: Env, cs: seq<Node>, k: nat): (g: GrownSeq)
    ensures |g.nodes| == |cs| && k <= g.next
  {
    if cs == [] then GrownSeq([], k)
    else
      var first := ExpandSpec(env, cs[0], 1, Classify(cs[0].value), k);
      var rest := ExpandBranchesSpec(env, cs[1..], first.next);
      GrownSeq([first.node] + rest.nodes, rest.next)
  }

  /** Every root in order; a root itself is never expanded. */
  function ExpandRootsSpec(env: Env, roots: seq<Node>, k: nat): (g: GrownSeq)
    ensures |g.nodes| == |roots| && k <= g.next
  {
    if roots == [] then GrownSeq([], k)
    else
      var branches := ExpandBranchesSpec(env, roots[0].children, k);
      var rest := ExpandRootsSpec(env, roots[1..], branches.next);
      GrownSeq([roots[0].(children := branches.nodes)] + rest.nodes, rest.next)
  }

  /** One step of the children loop. */
  lemma ExpandChildrenStep(env: Env, cs: seq<Node>, i: nat, depth: nat, e: Element, k: nat)
    requires i < |cs|
    ensures var first := ExpandSpec(env, cs[i], depth, e, k);
            var rest := ExpandChildrenSpec(env, cs[i + 1..], depth, e, first.next);
            ExpandChildrenSpec(env, cs[i..], depth, e, k) == GrownSeq([first.node] + rest.nodes, rest.next)
  {
    assert cs[i..][1..] == cs[i + 1..];
  }

  /** One step of the level-1 loop. */
  lemma ExpandBranchesStep(env: Env, cs: seq<Node>, j: nat, k: nat)
    requires j < |cs|
    ensures var first := ExpandSpec(env, cs[j], 1, Classify(cs[j].value), k);
            var rest := ExpandBranchesSpec(env, cs[j + 1..], first.next);
            ExpandBranchesSpec(env, cs[j..], k) == GrownSeq([first.node] + rest.nodes, rest.next)
  {
    assert cs[j..][1..] == cs[j + 1..];
  }

  /** One step of the root loop. */
  lemma ExpandRootsStep(env: Env, roots: seq<Node>, r: nat, k: nat)
    requires r < |roots|
    ensures var branches := ExpandBranchesSpec(env, roots[r].children, k);
            var rest := ExpandRootsSpec(env, roots[r + 1..], branches.next);
            ExpandRootsSpec(env, roots[r..], k) == GrownSeq([roots[r].(children := branches.nodes)] + rest.nodes, rest.next)
  {
    assert roots[r..][1..] == roots[r + 1..];
  }

  /** What get_node_element computes for any node below a level-1 node: the
      classification of that level-1 node's value. This is why the element
      and depth can be passed down the recursion instead of being recomputed
      for every node; the level-1 value itself is kept by the expansion
      (ExpandPreserves, BranchesPreserve). */
  lemma DescendantElement(forest: seq<Node>, p: Path)
    requires ValidPath(forest, p) && |p| >= 2
    ensures p[1] < |forest[p[0]].children|
    ensures ValidPath(forest, Level1(p))
    ensures Classify(NodeAt(forest, Level1(p)).value) == Classify(forest[p[0]].children[p[1]].value)
  {
    ValidPathPrefix(forest, p, 2);
    assert Level1(p) == [p[0], p[1]];
    assert [p[0], p[1]][1..] == [p[1]];
    NodeAtChild(forest, p[0], p[1]);
  }

  /** expand_tree_recursive: the fill step, then the children in order; the
      element and depth are those of the enclosing level-1 node, as
      DescendantElement justifies. */
  method ExpandTreeRecursive(env: Env, node: Node, depth: nat, element: Element, k: nat)
    returns (out: Node, next: nat)
    ensures Grown(out, next) == ExpandSpec(env, node, depth, element, k)
    decreases Remaining(depth), 0
  {
    if depth >= 3 {
      return node, k;
    }
    var children := node.children;
    next := k;
    if NeedsFill(node) {
      var x := ExpandNodeWithCrew(env.crew, node, depth, element, env.description, MaxRetries,
                                  env.useModelValidator, k);
      var facts := ParseChildLines(x.lines);
      children := FillChildren(node.children, facts);
      next := x.next;
    }
    assert GrownSeq(children, next) == Refill(env, node, depth, element, k);
    children, next := ExpandChildren(env, children, depth + 1, element, next);
    out := node.(children := children);
  }

  /** The loop of expand_tree_recursive over the (filled) children. */
  method ExpandChildren(env: Env, filled: seq<Node>, depth: nat, element: Element, k: nat)
    returns (children: seq<Node>, next: nat)
    ensures GrownSeq(children, next) == ExpandChildrenSpec(env, filled, depth, element, k)
    decreases Remaining(depth), |filled|
  {
    children := filled;
    next := k;
    ghost var total := ExpandChildrenSpec(env, filled, depth, element, k);
    var i := 0;
    while i < |children|
      invariant i <= |children| == |filled|
      invariant children[i..] == filled[i..]
      invariant children[..i] + ExpandChildrenSpec(env, filled[i..], depth, element, next).nodes == total.nodes
      invariant ExpandChildrenSpec(env, filled[i..], depth, element, next).next == total.next
    {
      ExpandChildrenStep(env, filled, i, depth, element, next);
      var child, n := ExpandTreeRecursive(env, children[i], depth, element, next);
      var prefix := children[..i];
      AppendStep(prefix, [child], ExpandChildrenSpec(env, filled[i + 1..], depth, element, n).nodes,
                 total.nodes);
      children := children[i := child];
      assert children[..i + 1] == prefix + [child];
      next := n;
      i := i + 1;
    }
    assert children == children[..i] + [];
  }

  /** The expansion of one root's level-1 nodes: each is expanded at the
      depth and with the element the tree queries give for its path. */
  method ExpandBranches(env: Env, nodes: seq<Node>, r: nat, k: nat) returns (children: seq<Node>, next: nat)
    requires r < |nodes|
    ensures GrownSeq(children, next) == ExpandBranchesSpec(env, nodes[r].children, k)
  {
    var root := nodes[r];
    children := root.children;
    next := k;
    ghost var total := ExpandBranchesSpec(env, root.children, k);
    var j := 0;
    while j < |children|
      invariant j <= |children| == |root.children|
      invariant children[j..] == root.children[j..]
      invariant children[..j] + ExpandBranchesSpec(env, root.children[j..], next).nodes == total.nodes
      invariant ExpandBranchesSpec(env, root.children[j..], next).next == total.next
    {
      ExpandBranchesStep(env, root.children, j, next);
      NodeAtChild(nodes, r, j);
      var depth := GetNodeDepth([r, j]);
      var element := GetNodeElement(nodes, [r, j]);
      var child, n := ExpandTreeRecursive(env, children[j], depth, element, next);
      var prefix := children[..j];
      AppendStep(prefix, [child], ExpandBranchesSpec(env, root.children[j + 1..], n).nodes, total.nodes);
      children := children[j := child];
      assert children[..j + 1] == prefix + [child];
      next := n;
      j := j + 1;
    }
    assert children == children[..j] + [];
  }

  /** expand_tree_with_crew on a skeleton: every root in order, each of
      its level-1 nodes in order. Request numbers start at k. */
  method ExpandTreeWithCrew(env: Env, skeleton: Tree, k: nat) returns (tree: Tree, next: nat)
    ensures tree == skeleton.(nodes := ExpandRootsSpec(env, skeleton.nodes, k).nodes)
    ensures next == ExpandRootsSpec(env, skeleton.nodes, k).next
  {
    var nodes := skeleton.nodes;
    next := k;
    ghost var total := ExpandRootsSpec(env, skeleton.nodes, k);
    var r := 0;
    while r < |nodes|
      invariant r <= |nodes| == |skeleton.nodes|
      invariant nodes[r..] == skeleton.nodes[r..]
      invariant nodes[..r] + ExpandRootsSpec(env, skeleton.nodes[r..], next).nodes == total.nodes
      invariant ExpandRootsSpec(env, skeleton.nodes[r..], next).next == total.next
    {
      ExpandRootsStep(env, skeleton.nodes, r, next);
      var children, n := ExpandBranches(env, nodes, r, next);
      var grown := nodes[r].(children := children);
      var prefix := nodes[..r];
      AppendStep(prefix, [grown], ExpandRootsSpec(env, skeleton.nodes[r + 1..], n).nodes, total.nodes);
      nodes := nodes[r := grown];
      assert nodes[..r + 1] == prefix + [grown];
      next := n;
      r := r + 1;
    }
    assert nodes == nodes[..r] + [];
    tree := skeleton.(nodes := nodes);
  }

  // ------------------------------------------------------------------
  // What the expansion keeps, and what it costs
  // ------------------------------------------------------------------

  /** The subtrees below depth 3 agree: the children of every node at
      depth 3 or deeper are the same. */
  predicate SameBelow(a: Node, b: Node, depth: nat)
    decreases a
  {
    if depth >= 3 then a.children == b.children
    else |a.children| == |b.children|
         && forall i :: 0 <= i < |a.children| ==> SameBelow(a.children[i], b.children[i], depth + 1)
  }

  /** Changing only the value of a node changes neither relation. */
  lemma IgnoresValue(a: Node, a': Node, b: Node, depth: nat)
    requires a' == a.(value := a'.value)
    requires SameShape(a', b) && SameBelow(a', b, depth)
    ensures SameShape(a, b) && SameBelow(a, b, depth)
  {
  }

  /** The fill step changes only the values of the children. */
  lemma RefillValuesOnly(env: Env, n: Node, depth: nat, e: Element, k: nat)
    ensures var r := Refill(env, n, depth, e, k).nodes;
            forall i :: 0 <= i < |n.children| ==> r[i] == n.children[i].(value := r[i].value)
  {
    if NeedsFill(n) {
      var x := ExpandNodeSpec(env.crew, n, depth, e, env.description, MaxRetries, env.useModelValidator, k);
      FillValuesOnly(n.children, FillParse(x.lines));
    }
  }

  /** Expansion keeps the shape of the subtree (fact types, flags, child
      counts), the node's own value, and everything below depth 3. */
  lemma {:induction false} ExpandPreserves(env: Env, n: Node, depth: nat, e: Element, k: nat)
    ensures var r := ExpandSpec(env, n, depth, e, k).node;
            SameShape(n, r) && SameBelow(n, r, depth) && r.value == n.value
    decreases Remaining(depth), 0
  {
    if depth >= 3 {
      SameShapeRefl(n);
    } else {
      var filled := Refill(env, n, depth, e, k);
      RefillValuesOnly(env, n, depth, e, k);
      ExpandChildrenPreserves(env, filled.nodes, depth + 1, e, filled.next);
      var below := ExpandChildrenSpec(env, filled.nodes, depth + 1, e, filled.next);
      forall i | 0 <= i < |n.children|
        ensures SameShape(n.children[i], below.nodes[i]) && SameBelow(n.children[i], below.nodes[i], depth + 1)
      {
        IgnoresValue(n.children[i], filled.nodes[i], below.nodes[i], depth + 1);
      }
    }
  }

  lemma {:induction false} ExpandChildrenPreserves(env: Env, cs: seq<Node>, depth: nat, e: Element, k: nat)
    ensures var g := ExpandChildrenSpec(env, cs, depth, e, k);
            forall i :: 0 <= i < |cs| ==>
              SameShape(cs[i], g.nodes[i]) && SameBelow(cs[i], g.nodes[i], depth) && g.nodes[i].value == cs[i].value
    decreases Remaining(depth), |cs|
  {
    if cs != [] {
      var first := ExpandSpec(env, cs[0], depth, e, k);
      ExpandPreserves(env, cs[0], depth, e, k);
      ExpandChildrenPreserves(env, cs[1..], depth, e, first.next);
    }
  }

  /** Every node above depth 3 that has children has no empty child. */
  predicate Filled(n: Node, depth: nat)
    decreases n
  {
    depth >= 3
    || (!NeedsFill(n) && forall i :: 0 <= i < |n.children| ==> Filled(n.children[i], depth + 1))
  }

  /** On a filled subtree the expansion makes no request and changes
      nothing. */
  lemma {:induction false} ExpandIdle(env: Env, n: Node, depth: nat, e: Element, k: nat)
    requires Filled(n, depth)
    ensures ExpandSpec(env, n, depth, e, k) == Grown(n, k)
    decreases Remaining(depth), 0
  {
    if depth < 3 {
      ExpandChildrenIdle(env, n.children, depth + 1, e, k);
    }
  }

  lemma {:induction false} ExpandChildrenIdle(env: Env, cs: seq<Node>, depth: nat, e: Element, k: nat)
    requires forall i :: 0 <= i < |cs| ==> Filled(cs[i], depth)
    ensures ExpandChildrenSpec(env, cs, depth, e, k) == GrownSeq(cs, k)
    decreases Remaining(depth), |cs|
  {
    if cs != [] {
      ExpandIdle(env, cs[0], depth, e, k);
      ExpandChildrenIdle(env, cs[1..], depth, e, k);
      assert [cs[0]] + cs[1..] == cs;
    }
  }

  /** Nodes of a subtree above depth 3: the ones that may send a request. */
  function Inner(n: Node, depth: nat): nat
    decreases n, 1
  {
    if depth >= 3 then 0 else 1 + InnerSeq(n.children, depth + 1)
  }

  function InnerSeq(cs: seq<Node>, depth: nat): nat
    decreases cs, 0
  {
    if cs == [] then 0 else Inner(cs[0], depth) + InnerSeq(cs[1..], depth)
  }

  lemma {:induction false} InnerSeqSameChildren(a: seq<Node>, b: seq<Node>, depth: nat)
    requires |a| == |b| && forall i :: 0 <= i < |a| ==> a[i].children == b[i].children
    ensures InnerSeq(a, depth) == InnerSeq(b, depth)
  {
    if a != [] {
      InnerSeqSameChildren(a[1..], b[1..], depth);
    }
  }

  /** Each node above depth 3 sends at most MaxRetries + 1 = 4 requests. */
  lemma {:induction false} ExpandRequests(env: Env, n: Node, depth: nat, e: Element, k: nat)
    ensures ExpandSpec(env, n, depth, e, k).next <= k + 4 * Inner(n, depth)
    decreases Remaining(depth), 0
  {
    if depth < 3 {
      var filled := Refill(env, n, depth, e, k);
      RefillValuesOnly(env, n, depth, e, k);
      InnerSeqSameChildren(filled.nodes, n.children, depth + 1);
      ExpandChildrenRequests(env, filled.nodes, depth + 1, e, filled.next);
    }
  }

  lemma {:induction false} ExpandChildrenRequests(env: Env, cs: seq<Node>, depth: nat, e: Element, k: nat)
    ensures ExpandChildrenSpec(env, cs, depth, e, k).next <= k + 4 * InnerSeq(cs, depth)
    decreases Remaining(depth), |cs|
  {
    if cs != [] {
      var first := ExpandSpec(env, cs[0], depth, e, k);
      ExpandRequests(env, cs[0], depth, e, k);
      var rest := ExpandChildrenSpec(env, cs[1..], depth, e, first.next);
      assert ExpandChildrenSpec(env, cs, depth, e, k).next == rest.next;
      assert InnerSeq(cs, depth) == Inner(cs[0], depth) + InnerSeq(cs[1..], depth);
      ExpandChildrenRequests(env, cs[1..], depth, e, first.next);
    }
  }

  /** A node at depth 2 whose every reply fails the structure check keeps
      all its children, values included, after MaxRetries + 1 requests:
      an exhausted expansion does not remove the branch. */
  lemma ExhaustedKeepsChildren(env: Env, n: Node, e: Element, k: nat)
    requires NeedsFill(n) && e != Unclassified
    requires forall f, raw :: !env.crew.judge(Structure, n, f, raw).0
    ensures ExpandSpec(env, n, 2, e, k) == Grown(n, k + MaxRetries + 1)
  {
    ExpandNodeExhausted(env.crew, n, 2, e, env.description, MaxRetries, env.useModelValidator, k);
    FillNothing(n.children);
    ExpandChildrenIdle(env, n.children, 3, e, k + MaxRetries + 1);
  }

  /** Over the whole forest: roots keep their values and flags, level-1
      nodes keep their values, and every branch keeps its shape. */
  lemma {:induction false} BranchesPreserve(env: Env, cs: seq<Node>, k: nat)
    ensures var g := ExpandBranchesSpec(env, cs, k);
            forall j :: 0 <= j < |cs| ==> SameShape(cs[j], g.nodes[j]) && g.nodes[j].value == cs[j].value
  {
    if cs != [] {
      var first := ExpandSpec(env, cs[0], 1, Classify(cs[0].value), k);
      ExpandPreserves(env, cs[0], 1, Classify(cs[0].value), k);
      BranchesPreserve(env, cs[1..], first.next);
    }
  }

  /** `b` is root `a` with its branches expanded: the same root, the same
      shape, and the same branch values. */
  predicate RootKept(a: Node, b: Node) {
    && b == a.(children := b.children)
    && SameShape(a, b)
    && forall j :: 0 <= j < |a.children| ==> b.children[j].value == a.children[j].value
  }

  lemma {:induction false} RootsPreserve(env: Env, roots: seq<Node>, k: nat)
    ensures var g := ExpandRootsSpec(env, roots, k);
            forall r :: 0 <= r < |roots| ==> RootKept(roots[r], g.nodes[r])
  {
    if roots != [] {
      var branches := ExpandBranchesSpec(env, roots[0].children, k);
      var rest := ExpandRootsSpec(env, roots[1..], branches.next);
      BranchesPreserve(env, roots[0].children, k);
      RootsPreserve(env, roots[1..], branches.next);
      var head := roots[0].(children := branches.nodes);
      assert RootKept(roots[0], head);
      var g := ExpandRootsSpec(env, roots, k);
      assert g.nodes == [head] + rest.nodes;
      forall r | 0 <= r < |roots|
        ensures RootKept(roots[r], g.nodes[r])
      {
        if r > 0 {
          assert roots[r] == roots[1..][r - 1];
          assert g.nodes[r] == rest.nodes[r - 1];
        }
      }
    }
  }

  /** A forest whose branches are all filled makes no request and is left
      unchanged. */
  lemma {:induction false} BranchesIdle(env: Env, cs: seq<Node>, k: nat)
    requires forall j :: 0 <= j < |cs| ==> Filled(cs[j], 1)
    ensures ExpandBranchesSpec(env, cs, k) == GrownSeq(cs, k)
  {
    if cs != [] {
      ExpandIdle(env, cs[0], 1, Classify(cs[0].value), k);
      BranchesIdle(env, cs[1..], k);
      assert [cs[0]] + cs[1..] == cs;
    }
  }

  lemma {:induction false} RootsIdle(env: Env, roots: seq<Node>, k: nat)
    requires forall r, j :: 0 <= r < |roots| && 0 <= j < |roots[r].children| ==> Filled(roots[r].children[j], 1)
    ensures ExpandRootsSpec(env, roots, k) == GrownSeq(roots, k)
  {
    if roots != [] {
      BranchesIdle(env, roots[0].children, k);
      RootsIdle(env, roots[1..], k);
      assert [roots[0]] + roots[1..] == roots;
    }
  }

  /** Nodes of a forest that may send a request: those at depths 1 and 2. */
  function ForestInner(roots: seq<Node>): nat {
    if roots == [] then 0 else InnerSeq(roots[0].children, 1) + ForestInner(roots[1..])
  }

  lemma {:induction false} BranchesRequests(env: Env, cs: seq<Node>, k: nat)
    ensures ExpandBranchesSpec(env, cs, k).next <= k + 4 * InnerSeq(cs, 1)
  {
    if cs != [] {
      var first := ExpandSpec(env, cs[0], 1, Classify(cs[0].value), k);
      ExpandRequests(env, cs[0], 1, Classify(cs[0].value), k);
      var rest := ExpandBranchesSpec(env, cs[1..], first.next);
      assert ExpandBranchesSpec(env, cs, k).next == rest.next;
      assert InnerSeq(cs, 1) == Inner(cs[0], 1) + InnerSeq(cs[1..], 1);
      BranchesRequests(env, cs[1..], first.next);
    }
  }

  /** The whole expansion sends at most MaxRetries + 1 requests per node at
      depth 1 or 2. */
  lemma {:induction false} RootsRequests(env: Env, roots: seq<Node>, k: nat)
    ensures ExpandRootsSpec(env, roots, k).next <= k + 4 * ForestInner(roots)
  {
    if roots != [] {
      var branches := ExpandBranchesSpec(env, roots[0].children, k);
      var rest := ExpandRootsSpec(env, roots[1..], branches.next);
      assert ExpandRootsSpec(env, roots, k).next == rest.next;
      var a := InnerSeq(roots[0].children, 1);
      var b := ForestInner(roots[1..]);
      assert ForestInner(roots) == a + b;
      BranchesRequests(env, roots[0].children, k);
      RootsRequests(env, roots[1..], branches.next);
    }
  }

  // ------------------------------------------------------------------
  // The skeleton the expansion starts from
  // ------------------------------------------------------------------

  /** Below a level-1 node, build_structure makes every node above depth 3
      have three empty children, two explicit and one commonsense, and
      leaves depth 3 without children. */
  predicate Skeleton(n: Node, depth: nat)
    decreases n
  {
    if depth >= 3 then n.children == []
    else
      && |n.children| == 3
      && CountType(n.children, Explicit) == 2
      && CountType(n.children, Commonsense) == 1
      && forall i :: 0 <= i < 3 ==> n.children[i].value == [] && Skeleton(n.children[i], depth + 1)
  }

  /** The skeleton over a base tree: the same roots and level-1 nodes, with
      a skeleton under each level-1 node. */
  predicate SkeletonOf(t: Tree, base: Tree) {
    && |t.nodes| == |base.nodes| && t.prune == base.prune && t.populate == base.populate
    && forall r :: 0 <= r < |t.nodes| ==>
         && t.nodes[r].value == base.nodes[r].value
         && |t.nodes[r].children| == |base.nodes[r].children|
         && forall j :: 0 <= j < |t.nodes[r].children| ==>
              t.nodes[r].children[j].value == base.nodes[r].children[j].value
              && Skeleton(t.nodes[r].children[j], 1)
  }

  lemma Sums3(cs: seq<Node>, depth: nat)
    requires |cs| == 3
    ensures SizeSeq(cs) == Size(cs[0]) + Size(cs[1]) + Size(cs[2])
    ensures InnerSeq(cs, depth) == Inner(cs[0], depth) + Inner(cs[1], depth) + Inner(cs[2], depth)
  {
    var t1 := cs[1..];
    var t2 := t1[1..];
    assert t2[1..] == [];
    assert t1[0] == cs[1] && t2[0] == cs[2];
    assert SizeSeq(t2) == Size(cs[2]);
    assert SizeSeq(t1) == Size(cs[1]) + Size(cs[2]);
    assert InnerSeq(t2, depth) == Inner(cs[2], depth);
    assert InnerSeq(t1, depth) == Inner(cs[1], depth) + Inner(cs[2], depth);
  }

  /** A skeleton branch holds 13 nodes, 4 of them above depth 3 and blank
      children everywhere they may be filled. */
  lemma {:induction false} SkeletonCounts(n: Node, depth: nat)
    requires 1 <= depth && Skeleton(n, depth)
    ensures Size(n) == (if depth >= 3 then 1 else if depth == 2 then 4 else 13)
    ensures Inner(n, depth) == (if depth >= 3 then 0 else if depth == 2 then 1 else 4)
    ensures depth < 3 ==> NeedsFill(n)
    decreases n
  {
    if depth < 3 {
      var cs := n.children;
      SkeletonCounts(cs[0], depth + 1);
      SkeletonCounts(cs[1], depth + 1);
      SkeletonCounts(cs[2], depth + 1);
      Sums3(cs, depth + 1);
      assert Blank(cs[0].value);
    }
  }

  /** The skeleton of a case's root tree has 39 nodes below its root, and
      its whole expansion sends at most 48 requests. */
  lemma CaseSkeleton(c: Case, t: Tree, env: Env, k: nat)
    requires SkeletonOf(t, MakeRootTree(c))
    ensures Size(t.nodes[0]) == 40
    ensures ExpandRootsSpec(env, t.nodes, k).next <= k + 48
  {
    var root := t.nodes[0];
    var cs := root.children;
    assert |cs| == 3;
    SkeletonCounts(cs[0], 1);
    SkeletonCounts(cs[1], 1);
    SkeletonCounts(cs[2], 1);
    Sums3(cs, 1);
    assert t.nodes[1..] == [];
    RootsRequests(env, t.nodes, k);
  }
}
