/** Node queries, tree rendering, validator selection and the per-node
    request/validate/retry loop of the tree-expansion crew. */
module Tasks {
  import opened Text
  import opened LogicTree

  // ------------------------------------------------------------------
  // Tree queries
  // ------------------------------------------------------------------

  /** The parent's path, if the node has a parent. */
  function Parent(p: Path): (r: Option<Path>)
    ensures r.Some? <==> |p| > 1
    ensures r.Some? ==> r.value == p[..|p| - 1]
  {
    if |p| <= 1 then None else Some(p[..|p| - 1])
  }

  /** get_node_depth: climbs the parent chain counting ancestors; a root has
      depth 0 and a child one more than its parent. */
  method GetNodeDepth(p: Path) returns (depth: nat)
    requires |p| >= 1
    ensures depth == |p| - 1
    ensures |p| == 1 ==> depth == 0
  {
    depth := 0;
    var parent := Parent(p);
    while parent.Some?
      invariant parent.Some? ==> 1 <= |parent.value| && depth + |parent.value| + 1 == |p|
      invariant parent.None? ==> depth + 1 == |p|
      decreases if parent.Some? then |parent.value| else 0
    {
      depth := depth + 1;
      parent := Parent(parent.value);
    }
  }

  /** The three legal elements; Unclassified is the source's empty string. */
  datatype Element = Law | Econ | Proc | Unclassified {
    /** The element key the source uses to name prompt assets and branches. */
    function Key(): string {
      match this
      case Law => "law"
      case Econ => "econ"
      case Proc => "proc"
      case Unclassified => ""
    }
  }

  const LawPhrase: string := "applicable law"
  const EconPhrase: string := "economic"
  const ProcPhrase: string := "procedural"

  /** The element a level-1 text belongs to: its lower-cased text is checked
      for the law phrase, then the economic one, then the procedural one. */
  function Classify(value: string): (e: Element)
    ensures e == Law <==> Contains(ToLower(value), LawPhrase)
    ensures e == Econ <==> !Contains(ToLower(value), LawPhrase) && Contains(ToLower(value), EconPhrase)
    ensures e == Proc <==> !Contains(ToLower(value), LawPhrase) && !Contains(ToLower(value), EconPhrase)
                           && Contains(ToLower(value), ProcPhrase)
  {
    var v := ToLower(value);
    if Contains(v, LawPhrase) then Law
    else if Contains(v, EconPhrase) then Econ
    else if Contains(v, ProcPhrase) then Proc
    else Unclassified
  }

  /** The node whose text decides the element: the level-1 ancestor, or the
      node itself when it is a root or a level-1 node. */
  function Level1(p: Path): (q: Path)
    requires |p| >= 1
    ensures 1 <= |q| <= 2 && |q| <= |p| && q == p[..|q|]
    ensures |p| <= 2 ==> q == p
    ensures |p| >= 2 ==> |q| == 2
  {
    if |p| <= 2 then p else p[..2]
  }

  /** get_node_element: climbs while the current node has a grandparent, then
      classifies the text it stopped at. */
  method GetNodeElement(forest: seq<Node>, p: Path) returns (e: Element)
    requires ValidPath(forest, p)
    ensures ValidPath(forest, Level1(p))
    ensures e == Classify(NodeAt(forest, Level1(p)).value)
  {
    var current := p;
    while |current| > 2
      invariant 1 <= |current| <= |p| && current == p[..|current|]
      invariant |p| >= 2 ==> |current| >= 2
      decreases |current|
    {
      current := current[..|current| - 1];
    }
    ValidPathPrefix(forest, p, |current|);
    assert current == Level1(p);
    e := Classify(NodeAt(forest, current).value);
  }

  // ------------------------------------------------------------------
  // Rendering the current tree state
  // ------------------------------------------------------------------

  /** The lines render_tree_state emits for one node: '> ' repeated depth
      times before the value, then the children; a blank node contributes
      nothing, and neither does anything below it. */
  function RenderLines(n: Node, depth: nat): seq<string>
    decreases n, 1
  {
    if Blank(n.value) then [] else [Indent(depth) + n.value] + RenderSeq(n.children, depth + 1)
  }

  function RenderSeq(cs: seq<Node>, depth: nat): seq<string>
    decreases cs, 0
  {
    if cs == [] then [] else RenderLines(cs[0], depth) + RenderSeq(cs[1..], depth)
  }

  /** Each node of a subtree contributes at most one line, and exactly one
      when no value in it is blank. */
  predicate NoBlank(n: Node) {
    !Blank(n.value) && forall i :: 0 <= i < |n.children| ==> NoBlank(n.children[i])
  }

  lemma {:induction false} RenderCount(n: Node, depth: nat)
    ensures |RenderLines(n, depth)| <= Size(n)
    ensures NoBlank(n) ==> |RenderLines(n, depth)| == Size(n)
    decreases n, 1
  {
    RenderSeqCount(n.children, depth + 1);
  }

  lemma {:induction false} RenderSeqCount(cs: seq<Node>, depth: nat)
    ensures |RenderSeq(cs, depth)| <= SizeSeq(cs)
    ensures (forall i :: 0 <= i < |cs| ==> NoBlank(cs[i])) ==> |RenderSeq(cs, depth)| == SizeSeq(cs)
    decreases cs, 0
  {
    if cs != [] {
      RenderCount(cs[0], depth);
      RenderSeqCount(cs[1..], depth);
      if forall i :: 0 <= i < |cs| ==> NoBlank(cs[i]) {
        assert forall i :: 0 <= i < |cs[1..]| ==> NoBlank(cs[1..][i]) by {
          forall i | 0 <= i < |cs[1..]| ensures NoBlank(cs[1..][i]) {
            assert cs[1..][i] == cs[i + 1];
          }
        }
      }
    }
  }

  /** The nodes that show: a node with a blank value is hidden together with
      everything below it, whatever its descendants hold. */
  function Visible(n: Node): nat
    decreases n, 1
  {
    if Blank(n.value) then 0 else 1 + VisibleSeq(n.children)
  }

  function VisibleSeq(cs: seq<Node>): nat
    decreases cs, 0
  {
    if cs == [] then 0 else Visible(cs[0]) + VisibleSeq(cs[1..])
  }

  /** A subtree renders exactly one line per visible node, so a blank node
      takes its whole subtree out of the rendering. */
  lemma {:induction false} RenderVisible(n: Node, depth: nat)
    ensures |RenderLines(n, depth)| == Visible(n)
    decreases n, 1
  {
    if !Blank(n.value) {
      RenderSeqVisible(n.children, depth + 1);
    }
  }

  lemma {:induction false} RenderSeqVisible(cs: seq<Node>, depth: nat)
    ensures |RenderSeq(cs, depth)| == VisibleSeq(cs)
    decreases cs, 0
  {
    if cs != [] {
      RenderVisible(cs[0], depth);
      RenderSeqVisible(cs[1..], depth);
    }
  }

  /** Every line rendered for a node at some depth carries at least that
      depth's indentation, and the node's own line comes first. */
  lemma {:induction false} RenderIndented(n: Node, depth: nat)
    ensures forall i :: 0 <= i < |RenderLines(n, depth)| ==> Indent(depth) <= RenderLines(n, depth)[i]
    ensures !Blank(n.value) ==> RenderLines(n, depth)[0] == Indent(depth) + n.value
    decreases n, 1
  {
    if !Blank(n.value) {
      var below := RenderSeq(n.children, depth + 1);
      RenderSeqIndented(n.children, depth + 1);
      IndentPrefix(depth, depth + 1);
      assert RenderLines(n, depth) == [Indent(depth) + n.value] + below;
      forall i | 0 <= i < |below| ensures Indent(depth) <= below[i] {
        assert Indent(depth + 1) <= below[i];
      }
    }
  }

  lemma {:induction false} RenderSeqIndented(cs: seq<Node>, depth: nat)
    ensures forall i :: 0 <= i < |RenderSeq(cs, depth)| ==> Indent(depth) <= RenderSeq(cs, depth)[i]
    decreases cs, 0
  {
    if cs != [] {
      RenderIndented(cs[0], depth);
      RenderSeqIndented(cs[1..], depth);
      assert RenderSeq(cs, depth) == RenderLines(cs[0], depth) + RenderSeq(cs[1..], depth);
    }
  }

  lemma RenderSeqStep(cs: seq<Node>, i: nat, depth: nat)
    requires i < |cs|
    ensures RenderSeq(cs[i..], depth) == RenderLines(cs[i], depth) + RenderSeq(cs[i + 1..], depth)
  {
    assert cs[i..][1..] == cs[i + 1..];
  }

  /** render_node: appends the lines of one node to `lines`. */
  method RenderNode(node: Node, depth: nat, lines: seq<string>) returns (out: seq<string>)
    ensures out == lines + RenderLines(node, depth)
    decreases node, 1
  {
    if Blank(node.value) {
      return lines;
    }
    out := RenderChildren(node.children, depth + 1, lines + [Indent(depth) + node.value]);
  }

  /** The loop of render_node over the children, in order. */
  method RenderChildren(cs: seq<Node>, depth: nat, lines: seq<string>) returns (out: seq<string>)
    ensures out == lines + RenderSeq(cs, depth)
    decreases cs, 0
  {
    out := lines;
    var i := 0;
    while i < |cs|
      invariant 0 <= i <= |cs|
      invariant out + RenderSeq(cs[i..], depth) == lines + RenderSeq(cs, depth)
    {
      RenderSeqStep(cs, i, depth);
      AppendStep(out, RenderLines(cs[i], depth), RenderSeq(cs[i + 1..], depth), lines + RenderSeq(cs, depth));
      out := RenderNode(cs[i], depth, out);
      i := i + 1;
    }
  }

  /** render_tree_state: every root rendered at depth 0, lines joined by newlines. */
  method RenderTreeState(nodes: seq<Node>) returns (text: string)
    ensures text == Join(RenderSeq(nodes, 0), '\n')
  {
    var lines := RenderChildren(nodes, 0, []);
    assert [] + RenderSeq(nodes, 0) == RenderSeq(nodes, 0);
    text := Join(lines, '\n');
  }

  /** An asset field: either a list of lines or a single value. */
  datatype AssetText = LineList(items: seq<string>) | Scalar(text: string)

  /** join_lines: a list is joined with newlines, anything else is itself.
      The empty list (the default of every asset field) gives the empty text,
      one line gives itself, and a list of newline-free lines can be split
      back into the same lines. */
  function JoinLines(v: AssetText): (r: string)
    ensures v.Scalar? ==> r == v.text
    ensures v.LineList? && v.items == [] ==> r == ""
    ensures v.LineList? && |v.items| >= 1 ==>
              v.items[0] <= r && |r| == TotalLength(v.items) + |v.items| - 1
    ensures v.LineList? && |v.items| == 1 ==> r == v.items[0]
    ensures v.LineList? && |v.items| >= 1 && (forall k :: 0 <= k < |v.items| ==> '\n' !in v.items[k])
            ==> Split(r, '\n') == v.items
    ensures Join(Split(r, '\n'), '\n') == r
  {
    JoinSplit(match v case LineList(items) => Join(items, '\n') case Scalar(t) => t, '\n');
    match v
    case LineList(items) =>
      if |items| >= 1 then
        JoinFacts(items, '\n');
        if forall k :: 0 <= k < |items| ==> '\n' !in items[k] then
          SplitJoin(items, '\n');
          Join(items, '\n')
        else Join(items, '\n')
      else Join(items, '\n')
    case Scalar(t) => t
  }

  // ------------------------------------------------------------------
  // Validator selection
  // ------------------------------------------------------------------

  /** The eleven direct-conclusion words both word lists begin with. */
  const DirectConclusionWords: seq<string> := [
    "sufficient", "insufficient", "compliant", "non-compliant", "deficient",
    "adequate", "inadequate", "appropriate", "inappropriate",
    "satisfactory", "unsatisfactory"]

  /** Forbidden when expanding a node at depth 0 or 1. */
  const StrongConclusiveWords: seq<string> := [
    "sufficient", "insufficient", "compliant", "non-compliant", "deficient",
    "adequate", "inadequate", "appropriate", "inappropriate",
    "satisfactory", "unsatisfactory",
    "independently", "entirely", "completely", "fully", "clearly", "obviously",
    "evidently", "effectively", "actively", "substantially",
    "significantly", "materially", "extensively", "comprehensively",
    "robust", "substantial", "significant",
    "properly", "improperly", "prove", "confirm", "validate", "verify"]

  /** Forbidden when expanding a deeper node. */
  const WeakConclusiveWords: seq<string> := [
    "sufficient", "insufficient", "compliant", "non-compliant", "deficient",
    "adequate", "inadequate", "appropriate", "inappropriate",
    "satisfactory", "unsatisfactory",
    "obviously", "clearly", "evidently", "successfully", "comprehensive", "positive", "negative"]

  const ConclusiveReason: string :=
    "these words make the conclusion too obvious and reduce reasoning difficulty. Use neutral, factual language instead."

  /** The conclusive-word list for a depth tier: the strong list up to depth 1,
      the weak one below; both start with the direct-conclusion words. */
  function ConclusiveWords(depth: nat): (w: seq<string>)
    ensures |w| >= |DirectConclusionWords| && w[..|DirectConclusionWords|] == DirectConclusionWords
    ensures depth <= 1 ==> |w| == 34 && "substantially" in w && "verify" in w
    ensures depth > 1 ==> |w| == 18 && "substantially" !in w && "positive" in w
  {
    if depth <= 1 then StrongConclusiveWords else WeakConclusiveWords
  }

  /** The weak list is not a sub-list of the strong one: it forbids words the
      strong list allows. */
  lemma WeakListHasOwnWords()
    ensures "positive" in WeakConclusiveWords && "positive" !in StrongConclusiveWords
  {
  }

  /** Each element's own vocabulary; its first word is the element's phrase. */
  function Vocabulary(e: Element): (w: seq<string>)
    ensures e != Unclassified ==> |w| == 6
    ensures e == Law ==> w[0] == LawPhrase
    ensures e == Econ ==> w[0] == EconPhrase
    ensures e == Proc ==> w[0] == ProcPhrase
  {
    match e
    case Law => ["applicable law", "treaty", "statute", "article", "provision", "legal framework"]
    case Econ => ["economic", "revenue", "profit", "income", "investment", "business development"]
    case Proc => ["procedural", "documentation", "filing", "submission", "deadline", "form"]
    case Unclassified => []
  }

  /** Element purity: the words a branch may not use. Never its own
      vocabulary (so never its own phrase), always the other two elements'
      vocabularies, and nothing for an unclassified node. */
  function PurityWords(e: Element): (w: seq<string>)
    ensures e == Unclassified <==> w == []
    ensures forall x :: x in w ==> x !in Vocabulary(e)
    ensures forall o: Element :: o != e ==> forall x :: x in Vocabulary(o) ==> x in w || e == Unclassified
  {
    match e
    case Law => [
      "economic", "revenue", "profit", "income", "investment", "business development",
      "procedural", "documentation", "filing", "submission", "deadline", "form"]
    case Econ => [
      "applicable law", "treaty", "statute", "article", "provision", "legal framework",
      "procedural", "documentation", "filing", "submission", "deadline", "form"]
    case Proc => [
      "applicable law", "treaty", "statute", "article", "provision", "legal framework",
      "economic", "revenue", "profit", "income", "investment", "business development"]
    case Unclassified => []
  }

  function PurityReason(e: Element): string {
    "Element purity: the '" + e.Key() + "' branch must only contain facts about "
      + e.Key() + ", not other legal elements."
  }

  /** The validators the source composes; what each one accepts is outside
      this model and is supplied as a judge. */
  datatype Validator =
    | Structure
    | ForbiddenText(words: seq<string>, reason: string)
    | ModelJudge(element: Element, description: string)

  /** create_validators: structure first, then exactly one conclusive-word
      validator chosen by depth tier, then the purity validator exactly when
      the branch is classified, then (optionally) the model judge for it.
      `useModelValidator` stands for the source's `use_model_validator and
      model_validator_model`: the flag together with a configured model. */
  function ValidatorsFor(depth: nat, element: Element, useModelValidator: bool, description: string)
    : (vs: seq<Validator>)
    ensures 2 <= |vs| <= 4 && vs[0] == Structure
    ensures vs[1] == ForbiddenText(ConclusiveWords(depth), ConclusiveReason)
    ensures forall i :: 1 <= i < |vs| ==> vs[i] != Structure
    ensures element == Unclassified <==> |vs| == 2
    ensures element != Unclassified ==>
              vs[2] == ForbiddenText(PurityWords(element), PurityReason(element))
              && (|vs| == 4 <==> useModelValidator)
              && (useModelValidator ==> vs[3] == ModelJudge(element, description))
  {
    var base := [Structure, ForbiddenText(ConclusiveWords(depth), ConclusiveReason)];
    if element == Unclassified then base
    else
      var withPurity := base + [ForbiddenText(PurityWords(element), PurityReason(element))];
      if useModelValidator then withPurity + [ModelJudge(element, description)] else withPurity
  }

  /** create_validators, building the list by appending. */
  method CreateValidators(depth: nat, element: Element, useModelValidator: bool, description: string)
    returns (validators: seq<Validator>)
    ensures validators == ValidatorsFor(depth, element, useModelValidator, description)
  {
    validators := [Structure];
    var conclusive := if depth <= 1 then StrongConclusiveWords else WeakConclusiveWords;
    if |conclusive| > 0 {
      validators := validators + [ForbiddenText(conclusive, ConclusiveReason)];
    }
    var forbidden := PurityWords(element);
    if |forbidden| > 0 {
      validators := validators + [ForbiddenText(forbidden, PurityReason(element))];
    }
    if useModelValidator && element != Unclassified {
      validators := validators + [ModelJudge(element, description)];
    }
  }

  // ------------------------------------------------------------------
  // Parsing a reply
  // ------------------------------------------------------------------

  const CommonsenseTag: string := "| Commonsense Knowledge"
  const StoryTag: string := "| Fact From Story"
  const ComplexTag: string := "| Complex Fact"

  /** The texts of a reply, split by the kind of child they are for. */
  datatype Facts = Facts(explicit: seq<string>, commonsense: seq<string>)

  /** A reply piece is kept when it is not blank and holds a '|'. */
  predicate KeepPiece(piece: string) {
    !Blank(piece) && '|' in piece
  }

  /** The first pass: the stripped pieces that are kept, in order. */
  function KeptLines(pieces: seq<string>): (lines: seq<string>)
    ensures |lines| <= |pieces|
  {
    if pieces == [] then []
    else if KeepPiece(pieces[0]) then [Strip(pieces[0])] + KeptLines(pieces[1..])
    else KeptLines(pieces[1..])
  }

  lemma {:induction false} KeptLinesPipes(pieces: seq<string>)
    ensures forall k :: 0 <= k < |KeptLines(pieces)| ==> '|' in KeptLines(pieces)[k]
  {
    if pieces != [] {
      KeptLinesPipes(pieces[1..]);
      StripKeeps(pieces[0], '|');
    }
  }

  /** A kept line with leading '>' and spaces removed, stripped again. */
  function TidyLine(line: string): string {
    Strip(LStripChars(line, {'>', ' '}))
  }

  /** The second pass: the tidied lines that still hold a '|'. */
  function TidiedLines(lines: seq<string>): (r: seq<string>)
    ensures |r| <= |lines|
  {
    if lines == [] then []
    else (if '|' in TidyLine(lines[0]) then [TidyLine(lines[0])] else []) + TidiedLines(lines[1..])
  }

  lemma {:induction false} TidiedLinesPipes(lines: seq<string>)
    ensures forall k :: 0 <= k < |TidiedLines(lines)| ==> '|' in TidiedLines(lines)[k]
  {
    if lines != [] {
      TidiedLinesPipes(lines[1..]);
    }
  }

  lemma TidiedLinesStep(lines: seq<string>, i: nat)
    requires i < |lines|
    ensures TidiedLines(lines[i..])
            == (if '|' in TidyLine(lines[i]) then [TidyLine(lines[i])] else []) + TidiedLines(lines[i + 1..])
  {
    assert lines[i..][1..] == lines[i + 1..];
  }

  /** Tidying never removes the '|', so the second test drops no line. */
  lemma PipeSurvivesTidying(line: string)
    requires '|' in line
    ensures '|' in TidyLine(line)
  {
    LStripCharsKeeps(line, {'>', ' '}, '|');
    StripKeeps(LStripChars(line, {'>', ' '}), '|');
  }

  lemma {:induction false} TidiedLinesKeepAll(lines: seq<string>)
    requires forall k :: 0 <= k < |lines| ==> '|' in lines[k]
    ensures |TidiedLines(lines)| == |lines|
  {
    if lines != [] {
      PipeSurvivesTidying(lines[0]);
      TidiedLinesKeepAll(lines[1..]);
    }
  }

  /** The cleaned lines of the newline-separated pieces of a reply. */
  function CleanLines(pieces: seq<string>): (lines: seq<string>)
    ensures |lines| <= |pieces|
  {
    TidiedLines(KeptLines(pieces))
  }

  /** Every kept piece yields exactly one cleaned line, and every cleaned
      line holds a '|'. */
  lemma CleanLinesFacts(pieces: seq<string>)
    ensures |CleanLines(pieces)| == |KeptLines(pieces)|
    ensures forall k :: 0 <= k < |CleanLines(pieces)| ==> '|' in CleanLines(pieces)[k]
  {
    KeptLinesPipes(pieces);
    TidiedLinesKeepAll(KeptLines(pieces));
    TidiedLinesPipes(KeptLines(pieces));
  }

  function Take3(lines: seq<string>): (r: seq<string>)
    ensures |r| <= 3 && r <= lines
    ensures |lines| >= 3 ==> |r| == 3
    ensures |lines| <= 3 ==> r == lines
  {
    if |lines| <= 3 then lines else lines[..3]
  }

  /** Classifies lines by tag, the commonsense tag first; the text is what
      precedes the first '|', stripped. */
  function ClassifyLines(lines: seq<string>): Facts
  {
    if lines == [] then Facts([], [])
    else
      var rest := ClassifyLines(lines[1..]);
      var text := Strip(BeforeFirst(lines[0], '|'));
      if Contains(lines[0], CommonsenseTag) then Facts(rest.explicit, [text] + rest.commonsense)
      else if Contains(lines[0], StoryTag) || Contains(lines[0], ComplexTag) then
        Facts([text] + rest.explicit, rest.commonsense)
      else rest
  }

  /** At most one text per line, and no text holds a '|'. */
  lemma {:induction false} ClassifyLinesTexts(lines: seq<string>)
    ensures var f := ClassifyLines(lines);
            && |f.explicit| + |f.commonsense| <= |lines|
            && (forall t :: t in f.explicit ==> '|' !in t)
            && (forall t :: t in f.commonsense ==> '|' !in t)
  {
    if lines != [] {
      ClassifyLinesTexts(lines[1..]);
      StripKeeps(BeforeFirst(lines[0], '|'), '|');
    }
  }

  /** A line tagged both ways is read as commonsense knowledge. */
  lemma CommonsenseTagWins(line: string)
    requires Contains(line, CommonsenseTag)
    ensures ClassifyLines([line]) == Facts([], [Strip(BeforeFirst(line, '|'))])
  {
  }

  /** The cleaning step of expand_node_with_crew: the kept lines, tidied
      one by one, keeping those that still hold a '|'. */
  method CleanReply(output: string) returns (cleaned: seq<string>)
    ensures cleaned == CleanLines(Split(output, '\n'))
  {
    var lines := KeptLines(Split(output, '\n'));
    cleaned := [];
    var i := 0;
    while i < |lines|
      invariant 0 <= i <= |lines|
      invariant cleaned + TidiedLines(lines[i..]) == TidiedLines(lines)
    {
      TidiedLinesStep(lines, i);
      var line := TidyLine(lines[i]);
      FilterStep(cleaned, '|' in line, line, TidiedLines(lines[i + 1..]), TidiedLines(lines));
      if '|' in line {
        cleaned := cleaned + [line];
      }
      i := i + 1;
    }
  }

  /** Classifying one more line appends its text, if any, to the list of its
      kind. */
  lemma {:induction false} ClassifyLinesSnoc(lines: seq<string>, line: string)
    ensures var f := ClassifyLines(lines);
            var g := ClassifyLines([line]);
            ClassifyLines(lines + [line]) == Facts(f.explicit + g.explicit, f.commonsense + g.commonsense)
    decreases |lines|
  {
    if lines == [] {
      assert lines + [line] == [line];
    } else {
      assert (lines + [line])[1..] == lines[1..] + [line];
      ClassifyLinesSnoc(lines[1..], line);
    }
  }

  /** The second pass: sort the given lines into explicit and commonsense
      texts, appending in line order. */
  method SortFacts(lines: seq<string>) returns (facts: Facts)
    ensures facts == ClassifyLines(lines)
  {
    var explicit: seq<string> := [];
    var commonsense: seq<string> := [];
    var j := 0;
    while j < |lines|
      invariant 0 <= j <= |lines|
      invariant Facts(explicit, commonsense) == ClassifyLines(lines[..j])
    {
      ClassifyLinesSnoc(lines[..j], lines[j]);
      assert lines[..j + 1] == lines[..j] + [lines[j]];
      var text := Strip(BeforeFirst(lines[j], '|'));
      if Contains(lines[j], CommonsenseTag) {
        commonsense := commonsense + [text];
      } else if Contains(lines[j], StoryTag) || Contains(lines[j], ComplexTag) {
        explicit := explicit + [text];
      }
      j := j + 1;
    }
    assert lines[..j] == lines;
    facts := Facts(explicit, commonsense);
  }

  /** The parse step of expand_node_with_crew: keeps and cleans the lines,
      then classifies only the first three. */
  method ParseReply(output: string) returns (cleaned: seq<string>, facts: Facts)
    ensures cleaned == CleanLines(Split(output, '\n'))
    ensures facts == ClassifyLines(Take3(cleaned))
  {
    cleaned := CleanReply(output);
    facts := SortFacts(Take3(cleaned));
  }

  // ------------------------------------------------------------------
  // Validation and the retry loop
  // ------------------------------------------------------------------

  /** A validator's verdict on a candidate: accepted, and the retry text. */
  type Judge = (Validator, Node, Facts, string) -> (bool, string)

  /** The retry text of the first validator that rejects, if any. */
  function FirstFailure(vs: seq<Validator>, judge: Judge, node: Node, facts: Facts, raw: string)
    : Option<string>
  {
    if vs == [] then None
    else if !judge(vs[0], node, facts, raw).0 then Some(judge(vs[0], node, facts, raw).1)
    else FirstFailure(vs[1..], judge, node, facts, raw)
  }

  /** No failure exactly when every validator accepts. */
  lemma {:induction false} FirstFailureNone(vs: seq<Validator>, judge: Judge, node: Node, facts: Facts, raw: string)
    ensures FirstFailure(vs, judge, node, facts, raw).None?
            <==> forall i :: 0 <= i < |vs| ==> judge(vs[i], node, facts, raw).0
  {
    if vs != [] {
      FirstFailureNone(vs[1..], judge, node, facts, raw);
      assert forall i :: 1 <= i < |vs| ==> vs[1..][i - 1] == vs[i];
    }
  }

  /** A failure is the retry text of a rejecting validator all of whose
      predecessors accept. */
  lemma {:induction false} FirstFailureAt(vs: seq<Validator>, judge: Judge, node: Node, facts: Facts, raw: string)
    returns (i: nat)
    requires FirstFailure(vs, judge, node, facts, raw).Some?
    ensures i < |vs| && !judge(vs[i], node, facts, raw).0
    ensures FirstFailure(vs, judge, node, facts, raw).value == judge(vs[i], node, facts, raw).1
    ensures forall j :: 0 <= j < i ==> judge(vs[j], node, facts, raw).0
  {
    if judge(vs[0], node, facts, raw).0 {
      var i' := FirstFailureAt(vs[1..], judge, node, facts, raw);
      i := i' + 1;
      assert forall j :: 1 <= j <= i' ==> vs[1..][j - 1] == vs[j];
    } else {
      i := 0;
    }
  }

  /** The validator loop: stops at the first rejection. */
  method RunValidators(vs: seq<Validator>, judge: Judge, node: Node, facts: Facts, raw: string)
    returns (failure: Option<string>)
    ensures failure == FirstFailure(vs, judge, node, facts, raw)
  {
    var i := 0;
    while i < |vs|
      invariant 0 <= i <= |vs|
      invariant FirstFailure(vs[i..], judge, node, facts, raw) == FirstFailure(vs, judge, node, facts, raw)
    {
      assert vs[i..][1..] == vs[i + 1..];
      var verdict := judge(vs[i], node, facts, raw);
      if !verdict.0 {
        return Some(verdict.1);
      }
      i := i + 1;
    }
    return None;
  }

  /** The external collaborators of an expansion: the reply to the k-th
      request with a given task description, the validators' judge, and the
      static task text for an asset key, case description and node value. */
  datatype Crew = Crew(
    reply: (nat, string) -> string,
    judge: Judge,
    taskBase: (string, string, string) -> string)

  /** The lines an expansion returns, and the number of the next request. */
  datatype Expansion = Expansion(lines: seq<string>, next: nat)

  /** The six prompt assets: one per element and level. */
  const PromptAssets: set<string> :=
    {"law_l1_l2", "law_l2_l3", "econ_l1_l2", "econ_l2_l3", "proc_l1_l2", "proc_l2_l3"}

  function LevelKey(depth: nat): string
    requires depth == 1 || depth == 2
  {
    if depth == 1 then "l1_l2" else "l2_l3"
  }

  function AssetKey(e: Element, depth: nat): string
    requires depth == 1 || depth == 2
  {
    e.Key() + "_" + LevelKey(depth)
  }

  /** An asset exists for every classified element at both levels, and for
      no unclassified node. */
  lemma AssetKeyKnown(e: Element, depth: nat)
    requires depth == 1 || depth == 2
    ensures AssetKey(e, depth) in PromptAssets <==> e != Unclassified
  {
    var key := AssetKey(e, depth);
    if e == Unclassified {
      assert |key| == 6;
      assert forall a :: a in PromptAssets ==> |a| >= 9;
    } else if depth == 1 {
      assert key == (match e case Law => "law_l1_l2" case Econ => "econ_l1_l2" case _ => "proc_l1_l2");
    } else {
      assert key == (match e case Law => "law_l2_l3" case Econ => "econ_l2_l3" case _ => "proc_l2_l3");
    }
  }

  /** The outcome of one attempt: the cleaned lines of the reply and the
      first rejection, if any. */
  datatype Try = Try(cleaned: seq<string>, failure: Option<string>)

  /** One attempt with request number k: the reply is stripped, parsed, and
      judged by the validators in order. */
  function TryOnce(crew: Crew, vs: seq<Validator>, node: Node, task: string, k: nat): Try
  {
    var output := Strip(crew.reply(k, task));
    var cleaned := CleanLines(Split(output, '\n'));
    Try(cleaned, FirstFailure(vs, crew.judge, node, ClassifyLines(Take3(cleaned)), output))
  }

  /** The attempt outcome for each task text and request number. */
  type Outcome = (string, nat) -> Try

  function Outcomes(crew: Crew, vs: seq<Validator>, node: Node): Outcome {
    (task: string, k: nat) => TryOnce(crew, vs, node, task, k)
  }

  /** Attempts `attempt`..maxRetries of the retry loop: success returns the
      first three cleaned lines, a rejection appends its retry text to the
      task description and tries again with the next request. */
  function Attempts(outcome: Outcome, task: string, attempt: nat, maxRetries: nat, k: nat): (x: Expansion)
    requires attempt <= maxRetries + 1
    ensures k <= x.next <= k + (maxRetries + 1 - attempt)
    ensures attempt <= maxRetries ==> x.next > k
    ensures |x.lines| <= 3
    decreases maxRetries + 1 - attempt
  {
    if attempt > maxRetries then Expansion([], k)
    else
      match outcome(task, k).failure
      case None => Expansion(Take3(outcome(task, k).cleaned), k + 1)
      case Some(retry) => Attempts(outcome, task + "\n\n" + retry, attempt + 1, maxRetries, k + 1)
  }

  /** expand_node_with_crew: no request unless the node is at depth 1 or 2
      and has a prompt asset; otherwise at most maxRetries + 1 requests. */
  function ExpandNodeSpec(crew: Crew, node: Node, depth: nat, element: Element, description: string,
                          maxRetries: nat, useModelValidator: bool, k: nat): (x: Expansion)
    ensures k <= x.next <= k + maxRetries + 1
    ensures x.next == k <==> (depth != 1 && depth != 2) || element == Unclassified
    ensures x.next == k ==> x.lines == []
    ensures |x.lines| <= 3
  {
    if depth != 1 && depth != 2 then Expansion([], k)
    else
      AssetKeyKnown(element, depth);
      var key := AssetKey(element, depth);
      if key !in PromptAssets then Expansion([], k)
      else
        var vs := ValidatorsFor(depth, element, useModelValidator, description);
        Attempts(Outcomes(crew, vs, node), crew.taskBase(key, description, node.value), 0, maxRetries, k)
  }

  /** Every line an attempt accepts holds a '|'. */
  lemma OutcomesLines(crew: Crew, vs: seq<Validator>, node: Node)
    ensures forall t, n, i :: 0 <= i < |Outcomes(crew, vs, node)(t, n).cleaned|
              ==> '|' in Outcomes(crew, vs, node)(t, n).cleaned[i]
  {
    forall t, n | true ensures forall i :: 0 <= i < |TryOnce(crew, vs, node, t, n).cleaned|
                                 ==> '|' in TryOnce(crew, vs, node, t, n).cleaned[i] {
      CleanLinesFacts(Split(Strip(crew.reply(n, t)), '\n'));
    }
  }

  /** When every accepted line holds a '|', so does every line returned. */
  lemma {:induction false} AttemptsLines(outcome: Outcome, task: string, attempt: nat, maxRetries: nat, k: nat)
    requires attempt <= maxRetries + 1
    requires forall t, n, i :: 0 <= i < |outcome(t, n).cleaned| ==> '|' in outcome(t, n).cleaned[i]
    ensures forall i :: 0 <= i < |Attempts(outcome, task, attempt, maxRetries, k).lines|
                        ==> '|' in Attempts(outcome, task, attempt, maxRetries, k).lines[i]
    decreases maxRetries + 1 - attempt
  {
    if attempt <= maxRetries {
      var t := outcome(task, k);
      if t.failure.Some? {
        var task' := task + "\n\n" + t.failure.value;
        assert Attempts(outcome, task, attempt, maxRetries, k) == Attempts(outcome, task', attempt + 1, maxRetries, k + 1);
        AttemptsLines(outcome, task', attempt + 1, maxRetries, k + 1);
      } else {
        forall i | 0 <= i < |Take3(t.cleaned)| ensures '|' in Take3(t.cleaned)[i] {
          assert Take3(t.cleaned)[i] == t.cleaned[i];
        }
      }
    }
  }

  /** Every line an expansion returns holds a '|'. */
  lemma ExpandNodeLines(crew: Crew, node: Node, depth: nat, element: Element, description: string,
                        maxRetries: nat, useModelValidator: bool, k: nat)
    ensures forall i :: 0 <= i < |ExpandNodeSpec(crew, node, depth, element, description, maxRetries, useModelValidator, k).lines|
              ==> '|' in ExpandNodeSpec(crew, node, depth, element, description, maxRetries, useModelValidator, k).lines[i]
  {
    if depth == 1 || depth == 2 {
      var key := AssetKey(element, depth);
      var vs := ValidatorsFor(depth, element, useModelValidator, description);
      OutcomesLines(crew, vs, node);
      AttemptsLines(Outcomes(crew, vs, node), crew.taskBase(key, description, node.value), 0, maxRetries, k);
    }
  }

  /** When every attempt is rejected, all maxRetries + 1 requests are spent
      and nothing is returned. */
  lemma {:induction false} AttemptsExhausted(outcome: Outcome, task: string, attempt: nat, maxRetries: nat, k: nat)
    requires attempt <= maxRetries + 1
    requires forall t, n :: outcome(t, n).failure.Some?
    ensures Attempts(outcome, task, attempt, maxRetries, k) == Expansion([], k + (maxRetries + 1 - attempt))
    decreases maxRetries + 1 - attempt
  {
    if attempt <= maxRetries {
      AttemptsExhausted(outcome, task + "\n\n" + outcome(task, k).failure.value, attempt + 1, maxRetries, k + 1);
    }
  }

  /** When the structure check rejects every candidate, the expansion of a
      classified node at depth 1 or 2 spends all maxRetries + 1 requests and
      returns nothing: the children stay as they were. */
  lemma ExpandNodeExhausted(crew: Crew, node: Node, depth: nat, element: Element, description: string,
                            maxRetries: nat, useModelValidator: bool, k: nat)
    requires depth == 1 || depth == 2
    requires element != Unclassified
    requires forall f, raw :: !crew.judge(Structure, node, f, raw).0
    ensures ExpandNodeSpec(crew, node, depth, element, description, maxRetries, useModelValidator, k)
            == Expansion([], k + maxRetries + 1)
  {
    AssetKeyKnown(element, depth);
    var key := AssetKey(element, depth);
    var vs := ValidatorsFor(depth, element, useModelValidator, description);
    var outcome := Outcomes(crew, vs, node);
    forall t, n ensures outcome(t, n).failure.Some? {
      var output := Strip(crew.reply(n, t));
      var facts := ClassifyLines(Take3(CleanLines(Split(output, '\n'))));
      assert !crew.judge(vs[0], node, facts, output).0;
    }
    AttemptsExhausted(outcome, crew.taskBase(key, description, node.value), 0, maxRetries, k);
  }

  /** One attempt of the retry loop: request, parse, run the validators. */
  method Attempt(crew: Crew, vs: seq<Validator>, node: Node, task: string, k: nat)
    returns (t: Try)
    ensures t == TryOnce(crew, vs, node, task, k)
  {
    var output := Strip(crew.reply(k, task));
    var cleaned, facts := ParseReply(output);
    var failure := RunValidators(vs, crew.judge, node, facts, output);
    t := Try(cleaned, failure);
  }

  /** expand_node_with_crew: the asset lookup, then the retry loop. */
  method ExpandNodeWithCrew(crew: Crew, node: Node, depth: nat, element: Element, description: string,
                            maxRetries: nat, useModelValidator: bool, k: nat)
    returns (x: Expansion)
    ensures x == ExpandNodeSpec(crew, node, depth, element, description, maxRetries, useModelValidator, k)
  {
    var levelKey: string;
    if depth == 1 {
      levelKey := "l1_l2";
    } else if depth == 2 {
      levelKey := "l2_l3";
    } else {
      return Expansion([], k);
    }
    var assetKey := element.Key() + "_" + levelKey;
    if assetKey !in PromptAssets {
      return Expansion([], k);
    }
    var validators := CreateValidators(depth, element, useModelValidator, description);
    x := RetryLoop(Outcomes(crew, validators, node), crew.taskBase(assetKey, description, node.value), maxRetries, k);
  }

  /** The retry loop of expand_node_with_crew: at most maxRetries + 1
      attempts, each rejection's retry text appended to the task. */
  method RetryLoop(outcome: Outcome, task0: string, maxRetries: nat, k: nat) returns (x: Expansion)
    ensures x == Attempts(outcome, task0, 0, maxRetries, k)
  {
    var task := task0;
    var attempt := 0;
    var next := k;
    while attempt <= maxRetries
      invariant attempt <= maxRetries + 1
      invariant Attempts(outcome, task, attempt, maxRetries, next) == Attempts(outcome, task0, 0, maxRetries, k)
      decreases maxRetries + 1 - attempt
    {
      var t := outcome(task, next);
      next := next + 1;
      if t.failure.None? {
        return Expansion(Take3(t.cleaned), next);
      }
      task := task + "\n\n" + t.failure.value;
      attempt := attempt + 1;
    }
    return Expansion([], next);
  }
}
