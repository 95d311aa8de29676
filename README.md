# German tax case trees — a Dafny model

This project models the core of the MuSR German tax law generator in Dafny. The generator builds reasoning trees for tax cases and the model covers four parts of it:

- **Case variants** (`scenario.dfy`, module `Scenario`). Two contrasting cases are built from sampled taxpayers, tax authorities and element states. Case 1 is accepted with conditions and has two favourable states. Case 2 is fully rejected and has at most one.
- **Per-node expansion** (`tasks.dfy`, module `Tasks`). This part holds the node queries (depth, legal element) and the rendering of the tree state. It also holds the validator list and the reply parser. Last comes the retry loop that asks the language model for three child lines per node.
- **Tree expansion** (`tree_builder.dfy`, module `TreeBuilder`). The root tree has three element branches: applicable law, economic activity and procedural requirements. The recursive traversal fills the empty children of every node at depth 1 and 2 from the model's replies.
- **Chapter trees** (`german_tax_dataset.dfy`, module `ChapterTrees`). For each case this builds a "correct" tree, which keeps the branches naming a legal element. It also builds an "incorrect" tree, which keeps one or two randomly drawn branches.

Two support modules sit underneath. `text.dfy` (module `Text`) holds Python's string operations: strip, lower, `in`, split, join. `logic_tree.dfy` (module `LogicTree`) holds the tree values.

Trees are values. A node is `Node(value, factType, children, frozen, prunable)` and a tree is `Tree(nodes, prune, populate)`. A node's position is its index path from a root, so its depth is the path length minus one.

Most outside inputs become parameters:

- The language model is a reply function `reply(k, task)` indexed by the request number `k`. The model counts every request.
- The validators' verdicts come from an abstract `judge`.
- Random draws are supplied sequences or indices.

The code is imperative, and each imperative operation is a Dafny method proved equal to a specification function. The properties are proved about those functions, mostly as lemmas:

- `GetNodeDepth`, `GetNodeElement`, `RenderTreeState`, `CreateValidators`, `ExpandNodeWithCrew`, `RetryLoop`;
- `ParseChildLines`, `FillChildren`, `ExpandTreeRecursive`, `ExpandTreeWithCrew`;
- `BuildCaseVariants`, `CreateChapterTrees`.

Two places where the code and its comments differ are modelled as the code behaves:

- **Exhausted retries do not kill the branch.** When `expand_node_with_crew` exhausts its retries it returns `[]`. The comment at its end says this will kill the branch, but `expand_tree_recursive` only clears `node.children` when filling raises an exception, and filling values cannot raise. So the children stay as they were: `ExhaustedKeepsChildren` proves the children are untouched after `MaxRetries + 1` requests.
- **One reject pattern has no favourable state.** The comment says every reject pattern has exactly one favourable state. The pattern (unclear, insufficient, deficient) has none: see `SomeRejectPatternSatisfiesNothing`.

The validators and the tree filler read a reply line differently:

- The validators take the text before the first `|`.
- The tree filler takes the text before the last `|`.

The two agree when a line holds one `|` (`ParsesAgree`). They differ when a tagged line holds two (`ParsesDisagree`).

## Model

| member | source | states |
|---|---|---|
| Tasks.Parent | src/crews/tasks.py:22-25 | a node has a parent exactly when its path is longer than one, and the parent's path is the path without its last index |
| Tasks.GetNodeDepth | src/crews/tasks.py:19-26 | the parent-chain walk counts the ancestors: the depth is the path length minus one, 0 for a root |
| Tasks.Classify | src/crews/tasks.py:38-45 | the lower-cased text is law iff it holds 'applicable law', economic iff it holds 'economic' but not the law phrase, procedural iff only 'procedural' matches, unclassified otherwise |
| Tasks.Level1 | src/crews/tasks.py:34-36 | the climb stops at the level-1 ancestor: a prefix of the path of length 1 or 2, the node itself at depth 0 or 1, and exactly the two-index prefix for any node at depth 1 or more |
| Tasks.GetNodeElement | src/crews/tasks.py:29-45 | the element is the classification of the level-1 ancestor's value, which exists in the forest |
| Tasks.RenderCount | src/crews/tasks.py:52-60 | a subtree renders at most one line per node, and exactly one per node when no value is blank |
| Tasks.RenderSeqCount | src/crews/tasks.py:59-63 | the same bound over a list of subtrees |
| Tasks.RenderVisible | src/crews/tasks.py:52-60 | a subtree renders exactly one line per visible node, where a blank node hides itself and its whole subtree |
| Tasks.RenderSeqVisible | src/crews/tasks.py:59-63 | the same count over a list of subtrees |
| Tasks.RenderIndented | src/crews/tasks.py:54-58 | every rendered line carries the '> ' prefix of its depth, and a non-blank node's own line is that prefix followed by its value |
| Tasks.RenderSeqIndented | src/crews/tasks.py:59-63 | every line rendered for a list of subtrees carries the prefix of their depth |
| Tasks.RenderSeqStep | src/crews/tasks.py:59-60 | the children render in list order, one subtree after another |
| Tasks.RenderNode | src/crews/tasks.py:52-60 | render_node appends exactly the pre-order lines of the subtree, skipping a blank node with its subtree |
| Tasks.RenderChildren | src/crews/tasks.py:59-60 | the children loop appends the children's lines in order |
| Tasks.RenderTreeState | src/crews/tasks.py:48-65 | the text is the roots' lines at depth 0 joined by newlines |
| Tasks.JoinLines | src/crews/tasks.py:68-72 | a scalar is itself; the empty list joins to the empty text and a single line to itself; any non-empty list joins to a text starting with its first line, one newline between neighbours (total length plus one per gap); a list of newline-free lines joins to a text whose split gives the lines back |
| Tasks.ConclusiveWords | src/crews/tasks.py:100-126 | both tiers start with the eleven direct-conclusion words; the strong list (34 words) applies up to depth 1, the weak list (18 words) beyond |
| Tasks.WeakListHasOwnWords | src/crews/tasks.py:102-126 | the weak list forbids a word the strong list allows ('positive') |
| Tasks.Vocabulary | src/crews/tasks.py:137-151 | each element has six words, the first being its own classification phrase |
| Tasks.PurityWords | src/crews/tasks.py:137-153 | a branch's forbidden list never holds its own vocabulary, always holds every other element's vocabulary, and is empty exactly for an unclassified node |
| Tasks.ValidatorsFor | src/crews/tasks.py:95-191 | structure first, then exactly one conclusive-word validator of the depth's tier; two validators exactly when the element is unclassified, otherwise a purity validator and optionally the model validator |
| Tasks.CreateValidators | src/crews/tasks.py:75-191 | the appending method builds exactly that list |
| Tasks.KeptLinesPipes | src/crews/tasks.py:310 | every kept reply line holds a pipe |
| Tasks.TidiedLinesPipes | src/crews/tasks.py:313-317 | every tidied line holds a pipe |
| Tasks.TidiedLinesStep | src/crews/tasks.py:314-317 | the tidying loop handles the lines in order |
| Tasks.PipeSurvivesTidying | src/crews/tasks.py:315-316 | removing leading '>' and spaces and stripping never removes the pipe |
| Tasks.TidiedLinesKeepAll | src/crews/tasks.py:313-317 | so the second pipe test drops no line |
| Tasks.CleanLinesFacts | src/crews/tasks.py:310-317 | each kept reply line yields exactly one cleaned line, and every cleaned line holds a pipe |
| Tasks.Take3 | src/crews/tasks.py:323 | at most the first three lines, a prefix: exactly three when there are that many, all of them when there are three or fewer |
| Tasks.ClassifyLinesTexts | src/crews/tasks.py:323-329 | each line yields at most one text, and no text holds a pipe |
| Tasks.CommonsenseTagWins | src/crews/tasks.py:324-326 | a line with the commonsense tag is read as commonsense knowledge, whatever other tag it holds, with the text before the first pipe |
| Tasks.CleanReply | src/crews/tasks.py:309-317 | the cleaning loops compute the cleaned lines of the reply's newline-separated pieces |
| Tasks.ClassifyLinesSnoc | src/crews/tasks.py:323-329 | classifying one more line appends its text, if any, to the list of its kind |
| Tasks.SortFacts | src/crews/tasks.py:320-329 | the forward sorting loop, appending as it goes, computes the explicit and commonsense texts of the lines |
| Tasks.ParseReply | src/crews/tasks.py:309-329 | the parse step cleans the reply and classifies its first three cleaned lines |
| Tasks.FirstFailureNone | src/crews/tasks.py:332-342 | no failure exactly when every validator accepts |
| Tasks.FirstFailureAt | src/crews/tasks.py:332-342 | a failure is the retry text of a rejecting validator, and every validator before it accepts |
| Tasks.RunValidators | src/crews/tasks.py:332-342 | the validator loop stops at the first rejection and returns its retry text |
| Tasks.AssetKeyKnown | src/crews/assets_loader.py:13-20 | at depth 1 or 2 the asset key `<element>_<level>` exists exactly when the element is classified |
| Tasks.Attempts | src/crews/tasks.py:293-349 | the remaining attempts make at least one and at most max_retries + 1 - attempt requests and return at most three lines |
| Tasks.ExpandNodeSpec | src/crews/tasks.py:222-349 | no request and no lines exactly when the depth is not 1 or 2 or the element is unclassified; otherwise between one and max_retries + 1 requests; never more than three lines |
| Tasks.OutcomesLines | src/crews/tasks.py:310-317 | every line an attempt accepts holds a pipe |
| Tasks.AttemptsLines | src/crews/tasks.py:293-349 | so does every line the retry loop returns |
| Tasks.ExpandNodeLines | src/crews/tasks.py:344-349 | every line an expansion returns holds a pipe |
| Tasks.AttemptsExhausted | src/crews/tasks.py:293-349 | when every attempt is rejected, all remaining requests are spent and no line is returned |
| Tasks.ExpandNodeExhausted | src/crews/tasks.py:293-349 | a node at depth 1 or 2 of a classified branch whose structure check always rejects spends max_retries + 1 requests and returns [] |
| Tasks.Attempt | src/crews/tasks.py:294-342 | one attempt requests, parses and judges as the loop body does |
| Tasks.ExpandNodeWithCrew | src/crews/tasks.py:194-349 | the method returns the expansion its specification describes |
| Tasks.RetryLoop | src/crews/tasks.py:293-349 | the loop returns the first accepted attempt's first three lines, appending each rejection's retry text to the task, or [] after max_retries + 1 rejections |
| Scenario.Favourable | src/crews/scenario.py:103-120 | the count of favourable states is at most 3; 3 exactly when all are favourable, 0 exactly when none is |
| Scenario.PatternsOrdered | src/crews/scenario.py:103-120 | every accept pattern has two favourable states, every reject pattern at most one, so case 2 is strictly worse |
| Scenario.SomeRejectPatternSatisfiesNothing | src/crews/scenario.py:112-119 | some reject pattern has no favourable state at all |
| Scenario.FirstOther | src/crews/scenario.py:94-96 | the re-sampling loop stops at the first later draw differing from the first draw |
| Scenario.BuildCaseVariants | src/crews/scenario.py:69-168 | two cases, in order, with the drawn taxpayers, authorities, patterns and samples; different taxpayers and different authorities; 2 and at most 1 favourable states; the two decisions; a shared sector and transaction type |
| Scenario.RStripAppend | src/crews/scenario.py:137-143 | stripping the right end of a text whose tail holds a non-space leaves the head alone |
| Scenario.JoinSnoc | src/crews/scenario.py:137-143 | joining one more line appends a newline and the line |
| Scenario.JoinedLinesSplit | src/crews/scenario.py:137-143 | newline-free lines starting with a non-space, joined and stripped, split back into the lines with only the last right-stripped |
| Scenario.DescriptionSevenLines | src/crews/scenario.py:137-143 | a description of newline-free fields has exactly seven lines in the fixed order Taxpayer, Business sector, Transaction type, Applicable law, Economic activity, Procedural requirement, Tax authority |
| TreeBuilder.Label | src/crews/tree_builder.py:31-34 | a state label is the good label ('clear', 'sufficient', 'compliant') exactly for the good state, and the bad label for anything else |
| TreeBuilder.MakeRootTree | src/crews/tree_builder.py:36-47 | one frozen, non-prunable root holding the decision text, with three childless branches in the order law, economic, procedural, each holding its label text; prune and populate off |
| TreeBuilder.PrefixContains | src/crews/tree_builder.py:39-41 | a text whose lower-cased head holds a phrase holds it |
| TreeBuilder.LawBranchClassified | src/crews/tree_builder.py:39 | the law branch always holds 'applicable law' and is classified law |
| TreeBuilder.EconBranchClassified | src/crews/tree_builder.py:40 | the economic branch always holds 'economic' and is classified economic, or law when the taxpayer's name holds the law phrase |
| TreeBuilder.ProcBranchClassified | src/crews/tree_builder.py:41 | the procedural branch always holds 'procedural' and is never unclassified |
| TreeBuilder.TaxpayerPhraseCapturesBranches | src/crews/tree_builder.py:39-41 | a taxpayer name holding 'applicable law' makes all three branches classify as law |
| TreeBuilder.FillParseCount | src/crews/tree_builder.py:108-117 | each line yields at most one text |
| TreeBuilder.ParsesAgree | src/crews/tree_builder.py:108-117 | on lines holding exactly one pipe the fill parse and the validators' parse agree |
| TreeBuilder.TextsDisagree | src/crews/tree_builder.py:112 | on a line with two pipes the fill text holds a pipe and the validators' text does not |
| TreeBuilder.ParsesDisagree | src/crews/tree_builder.py:108-117 | so a tagged line with two pipes is filled with a different text from the one validated |
| TreeBuilder.ParseChildLines | src/crews/tree_builder.py:105-117 | the parsing loop computes the fill parse: lines without a pipe skipped, text before the last pipe, commonsense tag first |
| TreeBuilder.FillSpec | src/crews/tree_builder.py:120-127 | filling never changes the number of children |
| TreeBuilder.CountTypeCons | src/crews/tree_builder.py:121 | counting children of a type over a prefix, one child at a time |
| TreeBuilder.FilledAtCons | src/crews/tree_builder.py:121-127 | a child's filled value depends on the texts left after its predecessors |
| TreeBuilder.FillRank | src/crews/tree_builder.py:120-127 | the i-th child receives the text whose rank is the number of earlier children of its type, or keeps its value when the list has run out |
| TreeBuilder.FillValuesOnly | src/crews/tree_builder.py:120-127 | only values change; children of other fact types are untouched |
| TreeBuilder.FillNothing | src/crews/tree_builder.py:120-127 | with no texts, no child changes |
| TreeBuilder.CountTypeBelow | src/crews/tree_builder.py:121-127 | a child's rank among its type is below the count of that type |
| TreeBuilder.FillComplete | src/crews/tree_builder.py:120-127 | with enough texts every commonsense and explicit child is filled, each with a different text in list order |
| TreeBuilder.FillChildren | src/crews/tree_builder.py:120-127 | the pop(0) loop computes the fill |
| TreeBuilder.Refill | src/crews/tree_builder.py:91-127 | the fill step keeps the number of children and never lowers the request count |
| TreeBuilder.ExpandSpec | src/crews/tree_builder.py:84-136 | the request count never decreases along the traversal |
| TreeBuilder.ExpandChildrenSpec | src/crews/tree_builder.py:135-136 | the children loop keeps the number of children |
| TreeBuilder.ExpandBranchesSpec | src/crews/tree_builder.py:140-141 | the level-1 loop keeps the number of branches |
| TreeBuilder.ExpandRootsSpec | src/crews/tree_builder.py:139-141 | the root loop keeps the number of roots |
| TreeBuilder.ExpandChildrenStep | src/crews/tree_builder.py:135-136 | the children are visited in list order |
| TreeBuilder.ExpandBranchesStep | src/crews/tree_builder.py:140-141 | the level-1 nodes are visited in list order |
| TreeBuilder.ExpandRootsStep | src/crews/tree_builder.py:139-141 | the roots are visited in list order |
| TreeBuilder.DescendantElement | src/crews/tasks.py:29-45 | for any node below a level-1 node, get_node_element classifies that level-1 node's value, so passing the branch's element down the recursion gives what tasks.py:222 recomputes |
| TreeBuilder.ExpandTreeRecursive | src/crews/tree_builder.py:84-136 | the recursive method computes the specified depth-first expansion |
| TreeBuilder.ExpandChildren | src/crews/tree_builder.py:135-136 | the children loop computes the specified expansion of every child |
| TreeBuilder.ExpandBranches | src/crews/tree_builder.py:140-141 | each level-1 node is expanded at its depth and element, as get_node_depth and get_node_element find them |
| TreeBuilder.ExpandTreeWithCrew | src/crews/tree_builder.py:139-143 | the tree keeps its flags, and its roots are the specified expansion of the skeleton's roots |
| TreeBuilder.IgnoresValue | src/crews/tree_builder.py:124-127 | changing a node's value changes neither its shape nor its subtrees below depth 3 |
| TreeBuilder.RefillValuesOnly | src/crews/tree_builder.py:120-127 | the fill step changes only the children's values |
| TreeBuilder.ExpandPreserves | src/crews/tree_builder.py:84-136 | expansion keeps the subtree's shape (fact types, flags, child counts), the node's own value and everything below depth 3 |
| TreeBuilder.ExpandChildrenPreserves | src/crews/tree_builder.py:135-136 | the same for every child |
| TreeBuilder.ExpandIdle | src/crews/tree_builder.py:91 | a subtree with no empty child slot makes no request and is left unchanged |
| TreeBuilder.ExpandChildrenIdle | src/crews/tree_builder.py:135-136 | the same over a list of children |
| TreeBuilder.InnerSeqSameChildren | src/crews/tree_builder.py:124-127 | nodes with the same children have the same number of expandable nodes |
| TreeBuilder.ExpandRequests | src/crews/tree_builder.py:84-136 | a subtree makes at most max_retries + 1 requests per node at depth 1 or 2 |
| TreeBuilder.ExpandChildrenRequests | src/crews/tree_builder.py:135-136 | the same bound over a list of children |
| TreeBuilder.ExhaustedKeepsChildren | src/crews/tree_builder.py:91-136 | when every attempt is rejected at depth 2 the node is returned unchanged, children included, after max_retries + 1 requests |
| TreeBuilder.BranchesPreserve | src/crews/tree_builder.py:140-141 | every level-1 node keeps its value and shape |
| TreeBuilder.RootsPreserve | src/crews/tree_builder.py:139-141 | roots are never expanded: each keeps its value and flags, and its branches keep their values and shapes |
| TreeBuilder.BranchesIdle | src/crews/tree_builder.py:140-141 | filled level-1 nodes make no request and are left unchanged |
| TreeBuilder.RootsIdle | src/crews/tree_builder.py:139-141 | a fully filled forest makes no request and is left unchanged |
| TreeBuilder.BranchesRequests | src/crews/tree_builder.py:140-141 | the level-1 loop makes at most max_retries + 1 requests per expandable node |
| TreeBuilder.RootsRequests | src/crews/tree_builder.py:139-141 | the whole expansion makes at most max_retries + 1 requests per node at depth 1 or 2 |
| TreeBuilder.Sums3 | src/crews/tree_builder.py:135-136 | node counts over three children add up |
| TreeBuilder.SkeletonCounts | src/crews/tree_builder.py:76-82 | a skeleton branch holds 13 nodes, 4 of them at depth 1 or 2, and every such node needs filling |
| TreeBuilder.CaseSkeleton | src/crews/tree_builder.py:76-143 | a case's skeleton root holds 40 nodes and its expansion makes at most 48 requests |
| ChapterTrees.KeywordHitClassified | src/dataset_types/german_tax_dataset.py:63-66 | a branch names one of the three keywords exactly when the expansion classifies it as an element |
| ChapterTrees.CorrectChildren | src/dataset_types/german_tax_dataset.py:61-67 | the filter never adds branches |
| ChapterTrees.HitsConcat | src/dataset_types/german_tax_dataset.py:61-67 | keyword hits add up over concatenation |
| ChapterTrees.CorrectChildrenMembers | src/dataset_types/german_tax_dataset.py:61-67 | a branch is kept exactly when a keyword hits its lower-cased value |
| ChapterTrees.CorrectChildrenRank | src/dataset_types/german_tax_dataset.py:61-67 | the kept branches are as many as the hits, and each hit branch sits at its rank among the hits |
| ChapterTrees.CorrectChildrenOrder | src/dataset_types/german_tax_dataset.py:61-67 | ranks grow along the children, so the original order is kept |
| ChapterTrees.AllHitsKept | src/dataset_types/german_tax_dataset.py:61-67 | children that all name an element are kept whole |
| ChapterTrees.TwoDrawn | src/dataset_types/german_tax_dataset.py:53-56 | two different positions draw a sub-multiset of the children |
| ChapterTrees.IncorrectDrawn | src/dataset_types/german_tax_dataset.py:53-56 | the incorrect tree keeps one or two of the children, none used twice |
| ChapterTrees.ErrorAt | src/dataset_types/german_tax_dataset.py:53-56 | the error names its case, and is the missing-root error exactly when the tree has no root |
| ChapterTrees.Chapter | src/dataset_types/german_tax_dataset.py:49-67 | the case's own tree is left alone; both new trees differ from it only in the first root's children |
| ChapterTrees.ChapterChildren | src/dataset_types/german_tax_dataset.py:53-67 | the correct tree keeps exactly the keyword-hit branches in order; the incorrect one keeps one or two drawn branches |
| ChapterTrees.ChapterFailureFirst | src/dataset_types/german_tax_dataset.py:48-56 | the error names the first failing case, and there is none exactly when no case fails |
| ChapterTrees.CreateChapterTrees | src/dataset_types/german_tax_dataset.py:31-69 | every case before the first failure gains both trees, the rest are unchanged, and the error is the first failure |
| ChapterTrees.CaseBranchesAllKept | src/dataset_types/german_tax_dataset.py:61-67 | the correct filter keeps all three branches of a case's root tree, whatever the taxpayer's name |
| ChapterTrees.CaseIncorrectDropsBranch | src/dataset_types/german_tax_dataset.py:53-67 | so the incorrect tree of a case always has fewer branches than the correct one |
| ChapterTrees.ExpandedBranchesAllKept | src/dataset_types/german_tax_dataset.py:61-67 | after expansion the correct filter still keeps all three expanded branches |
| LogicTree.NodeAtChild | src/crews/tree_builder.py:140 | the path [r, j] leads to the j-th child of the r-th root |
| LogicTree.SameShapeSize | src/crews/tree_builder.py:120-127 | trees of the same shape have the same number of nodes |

## Left out

- The language model is a reply function of the request number and the task text. The model validator and its early-escape model are one abstract `judge`, as are the structure and forbidden-text validators, whose matching rules live outside this core. `src/validators.py` is not part of this model.
- The task text sent to the model is a `taskBase` function of the asset key, the case description and the node value. The rendered tree state and the asset's guideline and examples are left out of it. The reply function is indexed by the request number, so every reply sequence the real prompts could produce is still covered.
- `build_structure` (`src/dataset_builder.py`) is not part of this model. The shape it produces is an assumption of the lemmas `CaseSkeleton` and `ExpandedBranchesAllKept` (`Skeleton`, `SkeletonOf`): three empty children per node above depth 3, two explicit and one commonsense. `ExpandTreeWithCrew` itself takes any tree.
- `src/logic_tree/tree.py` is not part of this model. Parent back-pointers are replaced by index paths, and node defaults are stand-ins: a new node is a prunable, unfrozen, childless `Deduced` fact.
- TreeBuilder.ExpandTreeRecursive: the in-place update of `child.value` and `pop(0)` is modelled on values. The method returns the updated subtree instead of changing shared nodes, so aliasing between trees is not captured.
- The except branch of the fill step (clearing `node.children`) is not modelled. Assigning values inside the fill loop raises no exception in this model.
- ChapterTrees.CreateChapterTrees: the case records are an array of values, so two list entries sharing one dict are not captured. A missing `'tree'` key is not modelled.
- Random draws are parameters:
  - taxpayer and authority draw sequences;
  - pattern indices;
  - a sampler function for madlib samples;
  - sample sizes and pick positions for `random.sample`.
- Scenario.BuildCaseVariants: the re-sampling loops run only when a differing draw exists (a precondition). Their termination with probability one is not modelled.
- `sample_scenario`, madlib loading, the HTML renderer, the runner, the agents and the static prompt texts are out of scope. Of the prompt assets, only their six keys are used.
- TreeBuilder.MakeRootTree: the taxpayer default `'Taxpayer'` is not modelled, because a case built by `build_case_variants` always has a taxpayer.
- `lower()` is the ASCII version: non-ASCII case folding is not modelled. `isspace()` is modelled with Python's full whitespace set.
- TreeBuilder.ExpandTreeRecursive: max_retries is fixed at its default of 3, as the traversal never passes it.
- Tasks.RetryLoop: each attempt calls the outcome function `Outcomes`. `Attempt` is proved separately to compute that outcome.
- Logging prints are left out.
