/** The deduction tree: nodes owned by their parent, addressed by index paths.
    A path is a root index followed by child indices; the number of ancestors
    of the node it names is its length minus one. */
module LogicTree {
  import opened Text

  /** LogicNodeFactType: the two kinds of generated child, and every other kind. */
  datatype FactType = Explicit | Commonsense | Deduced

  datatype Node = Node(
    value: string,
    factType: FactType,
    children: seq<Node>,
    frozen: bool,
    prunable: bool)

  /** LogicTree: an ordered forest with its pruning and populate flags. */
  datatype Tree = Tree(nodes: seq<Node>, prune: bool, populate: bool)

  type Path = seq<nat>

  /** `p` names a node below `n` (the empty path names `n` itself). */
  predicate ValidBelow(n: Node, p: Path)
    decreases |p|
  {
    p == [] || (p[0] < |n.children| && ValidBelow(n.children[p[0]], p[1..]))
  }

  function Below(n: Node, p: Path): Node
    requires ValidBelow(n, p)
    decreases |p|
  {
    if p == [] then n else Below(n.children[p[0]], p[1..])
  }

  predicate ValidPath(forest: seq<Node>, p: Path) {
    |p| >= 1 && p[0] < |forest| && ValidBelow(forest[p[0]], p[1..])
  }

  function NodeAt(forest: seq<Node>, p: Path): Node
    requires ValidPath(forest, p)
  {
    Below(forest[p[0]], p[1..])
  }

  lemma {:induction false} ValidBelowPrefix(n: Node, p: Path, k: nat)
    requires ValidBelow(n, p) && k <= |p|
    ensures ValidBelow(n, p[..k])
    decreases |p|
  {
    if k > 0 {
      assert p[..k][1..] == p[1..][..k - 1];
      ValidBelowPrefix(n.children[p[0]], p[1..], k - 1);
    }
  }

  /** The path [r, j] names child j of root r. */
  lemma NodeAtChild(forest: seq<Node>, r: nat, j: nat)
    requires r < |forest| && j < |forest[r].children|
    ensures ValidPath(forest, [r, j]) && NodeAt(forest, [r, j]) == forest[r].children[j]
  {
    var n := forest[r];
    assert [r, j][1..] == [j];
    assert [j][1..] == [];
    assert ValidBelow(n.children[j], []);
    assert ValidBelow(n, [j]);
    assert Below(n, [j]) == Below(n.children[j], []);
  }

  /** Every ancestor of a node on a valid path is itself on a valid path. */
  lemma ValidPathPrefix(forest: seq<Node>, p: Path, k: nat)
    requires ValidPath(forest, p) && 1 <= k <= |p|
    ensures ValidPath(forest, p[..k])
  {
    assert p[..k][1..] == p[1..][..k - 1];
    ValidBelowPrefix(forest[p[0]], p[1..], k - 1);
  }

  /** Same skeleton: fact types, flags and child counts agree everywhere;
      only values may differ. */
  predicate SameShape(a: Node, b: Node) {
    && a.factType == b.factType
    && a.frozen == b.frozen
    && a.prunable == b.prunable
    && |a.children| == |b.children|
    && forall i :: 0 <= i < |a.children| ==> SameShape(a.children[i], b.children[i])
  }

  predicate SameShapes(a: seq<Node>, b: seq<Node>) {
    |a| == |b| && forall i :: 0 <= i < |a| ==> SameShape(a[i], b[i])
  }

  lemma {:induction false} SameShapeRefl(n: Node)
    ensures SameShape(n, n)
    decreases n
  {
    forall i | 0 <= i < |n.children| ensures SameShape(n.children[i], n.children[i]) {
      SameShapeRefl(n.children[i]);
    }
  }

  /** Number of nodes in a subtree. */
  function Size(n: Node): nat
    decreases n, 1
  {
    1 + SizeSeq(n.children)
  }

  function SizeSeq(cs: seq<Node>): nat
    decreases cs, 0
  {
    if cs == [] then 0 else Size(cs[0]) + SizeSeq(cs[1..])
  }

  lemma {:induction false} SameShapeSize(a: Node, b: Node)
    requires SameShape(a, b)
    ensures Size(a) == Size(b)
    decreases a, 1
  {
    SameShapeSizeSeq(a.children, b.children);
  }

  lemma {:induction false} SameShapeSizeSeq(a: seq<Node>, b: seq<Node>)
    requires SameShapes(a, b)
    ensures SizeSeq(a) == SizeSeq(b)
    decreases a, 0
  {
    if a != [] {
      SameShapeSize(a[0], b[0]);
      SameShapeSizeSeq(a[1..], b[1..]);
    }
  }

  /** Number of children of the given fact type. */
  function CountType(cs: seq<Node>, t: FactType): (r: nat)
    ensures r <= |cs|
  {
    if cs == [] then 0 else (if cs[0].factType == t then 1 else 0) + CountType(cs[1..], t)
  }
}
