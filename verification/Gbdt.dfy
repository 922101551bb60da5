/**
  The tree walk of the LightGBM scorer: trees kept as flat arrays, walked by index, against the
  binary trees they stand for. Child indices below 0 name leaves.
 */
module Gbdt {

  /** GbdtModel::Tree */
  datatype FlatTree = FlatTree(
    splitFeature: seq<int>,
    threshold: seq<real>,
    decisionType: seq<int>,
    leftChild: seq<int>,
    rightChild: seq<int>,
    leafValue: seq<real>)

  /** The node arrays agree in length. */
  predicate Rectangular(t: FlatTree) {
    |t.splitFeature| == |t.threshold| == |t.leftChild| == |t.rightChild|
  }

  /** What LoadString asks of a tree before accepting the model; it keeps no tree without leaves. */
  predicate Accepted(t: FlatTree) {
    && t.leafValue != []
    && Rectangular(t)
    && (forall i :: 0 <= i < |t.decisionType| ==> t.decisionType[i] % 2 == 0)
  }

  datatype Tree = Leaf(index: nat) | Split(feature: int, threshold: real, left: Tree, right: Tree)

  /** The arrays, entered at `node`, spell out this tree. */
  predicate Encodes(t: FlatTree, node: int, tree: Tree)
    requires Rectangular(t)
    decreases tree
  {
    match tree
    case Leaf(index) => node == -1 - index
    case Split(feature, threshold, left, right) =>
      && 0 <= node < |t.splitFeature|
      && t.splitFeature[node] == feature && t.threshold[node] == threshold
      && Encodes(t, t.leftChild[node], left) && Encodes(t, t.rightChild[node], right)
  }

  /** A feature the vector does not have counts as 0. */
  function FeatureAt(features: seq<real>, f: int): real {
    if 0 <= f < |features| then features[f] else 0.0
  }

  /** At most the threshold goes left. */
  function LeafOf(tree: Tree, features: seq<real>): nat {
    match tree
    case Leaf(index) => index
    case Split(feature, threshold, left, right) =>
      LeafOf(if FeatureAt(features, feature) <= threshold then left else right, features)
  }

  function Height(tree: Tree): nat {
    match tree
    case Leaf(_) => 0
    case Split(_, _, left, right) => 1 + if Height(left) < Height(right) then Height(right) else Height(left)
  }

  function Size(tree: Tree): nat {
    match tree
    case Leaf(_) => 0
    case Split(_, _, left, right) => 1 + Size(left) + Size(right)
  }

  // ----- the walk is short ------------------------------------------------------------------

  lemma {:induction false} EncodingUnique(t: FlatTree, node: int, a: Tree, b: Tree)
    requires Rectangular(t) && Encodes(t, node, a) && Encodes(t, node, b)
    ensures a == b
    decreases a
  {
    if a.Split? {
      EncodingUnique(t, t.leftChild[node], a.left, b.left);
      EncodingUnique(t, t.rightChild[node], a.right, b.right);
    }
  }

  lemma {:induction false} IndexSetSize(s: set<int>, n: nat)
    requires forall x :: x in s ==> 0 <= x < n
    ensures |s| <= n
  {
    if n == 0 {
      assert s == {} by {
        forall x ensures x !in s { }
      }
    } else {
      IndexSetSize(s - {n - 1}, n - 1);
      if n - 1 in s { assert |s - {n - 1}| == |s| - 1; } else { assert s - {n - 1} == s; }
    }
  }

  ghost predicate HasBiggerTree(t: FlatTree, node: int, size: nat)
    requires Rectangular(t)
  {
    exists tree :: Encodes(t, node, tree) && Size(tree) > size
  }

  /** Nodes above the current one are all different from it, so a path cannot outgrow the arrays. */
  lemma {:induction false} PathFits(t: FlatTree, node: int, tree: Tree, above: set<int>)
    requires Rectangular(t) && Encodes(t, node, tree)
    requires forall a :: a in above ==> 0 <= a < |t.splitFeature| && HasBiggerTree(t, a, Size(tree))
    ensures Height(tree) + |above| <= |t.splitFeature|
    decreases tree
  {
    match tree
    case Leaf(_) => IndexSetSize(above, |t.splitFeature|);
    case Split(_, _, left, right) =>
      if node in above {
        var same :| Encodes(t, node, same) && Size(same) > Size(tree);
        EncodingUnique(t, node, same, tree);
      }
      PathFits(t, t.leftChild[node], left, above + {node});
      PathFits(t, t.rightChild[node], right, above + {node});
  }

  /** Even where the arrays share subtrees, no root-to-leaf path is longer than the node count. */
  lemma HeightAtMostNodes(t: FlatTree, tree: Tree)
    requires Rectangular(t) && Encodes(t, 0, tree)
    ensures Height(tree) <= |t.splitFeature|
  {
    PathFits(t, 0, tree, {});
  }

  // ----- the walk on the arrays ---------------------------------------------------------------

  /** The child after a node: the left one iff the feature, 0 if the vector lacks it, is at most the threshold. */
  predicate Follows(t: FlatTree, features: seq<real>, node: int, next: int)
    requires Rectangular(t)
  {
    && 0 <= node < |t.splitFeature|
    && var f := t.splitFeature[node];
       var goesLeft := if 0 <= f < |features| then features[f] <= t.threshold[node] else 0.0 <= t.threshold[node];
       next == if goesLeft then t.leftChild[node] else t.rightChild[node]
  }

  /** These are the nodes from the root to a leaf, the leaf's index being coded as a negative number. */
  predicate IsWalk(t: FlatTree, features: seq<real>, nodes: seq<int>)
    requires Rectangular(t)
  {
    && nodes != [] && nodes[0] == 0 && nodes[|nodes| - 1] < 0
    && forall i :: 0 <= i < |nodes| - 1 ==> Follows(t, features, nodes[i], nodes[i + 1])
  }

  lemma {:induction false} WalkEndsAtLeaf(t: FlatTree, features: seq<real>, nodes: seq<int>, i: nat, tree: Tree)
    requires Rectangular(t) && IsWalk(t, features, nodes) && i < |nodes| && Encodes(t, nodes[i], tree)
    ensures LeafOf(tree, features) == -nodes[|nodes| - 1] - 1
    decreases tree
  {
    assert i < |nodes| - 1 ==> Follows(t, features, nodes[i], nodes[i + 1]);
    if tree.Split? {
      var goesLeft := FeatureAt(features, tree.feature) <= tree.threshold;
      WalkEndsAtLeaf(t, features, nodes, i + 1, if goesLeft then tree.left else tree.right);
    }
  }

  /** What a tree contributes, in terms of the arrays: the value of the leaf the walk ends at, if there is one. */
  lemma ScoreOfWalk(t: FlatTree, features: seq<real>, nodes: seq<int>, tree: Tree)
    requires Rectangular(t) && Encodes(t, 0, tree) && IsWalk(t, features, nodes)
    ensures var leaf := -nodes[|nodes| - 1] - 1;
      TreeScore(t, tree, features) == if leaf < |t.leafValue| then t.leafValue[leaf] else 0.0
  {
    WalkEndsAtLeaf(t, features, nodes, 0, tree);
  }

  // ----- RawScore ---------------------------------------------------------------------------

  function LeafScore(t: FlatTree, leaf: int): real {
    if 0 <= leaf < |t.leafValue| then t.leafValue[leaf] else 0.0
  }

  function TreeScore(t: FlatTree, tree: Tree, features: seq<real>): real
    requires Rectangular(t)
  {
    if t.leafValue == [] then 0.0
    else if t.splitFeature == [] then t.leafValue[0] else LeafScore(t, LeafOf(tree, features))
  }

  /** The sum over all trees. */
  function Sum(trees: seq<FlatTree>, shapes: seq<Tree>, features: seq<real>): real
    requires |trees| == |shapes| && forall i :: 0 <= i < |trees| ==> Rectangular(trees[i])
  {
    if trees == [] then 0.0
    else
      var n := |trees| - 1;
      Sum(trees[..n], shapes[..n], features) + TreeScore(trees[n], shapes[n], features)
  }

  /** A model's score is the sum over its parts, down to single trees. */
  lemma {:induction false} SumIsAdditive(trees: seq<FlatTree>, shapes: seq<Tree>, more: seq<FlatTree>,
                                         moreShapes: seq<Tree>, features: seq<real>)
    requires |trees| == |shapes| && |more| == |moreShapes|
    requires forall i :: 0 <= i < |trees| ==> Rectangular(trees[i])
    requires forall i :: 0 <= i < |more| ==> Rectangular(more[i])
    ensures forall i :: 0 <= i < |trees + more| ==> Rectangular((trees + more)[i])
    ensures Sum(trees + more, shapes + moreShapes, features) ==
      Sum(trees, shapes, features) + Sum(more, moreShapes, features)
    ensures |more| == 1 ==> Sum(more, moreShapes, features) == TreeScore(more[0], moreShapes[0], features)
    decreases |more|
  {
    var n := |more| - 1;
    if more == [] {
      assert trees + more == trees && shapes + moreShapes == shapes;
    } else {
      SumIsAdditive(trees, shapes, more[..n], moreShapes[..n], features);
      assert (trees + more)[..|trees| + n] == trees + more[..n];
      assert (shapes + moreShapes)[..|trees| + n] == shapes + moreShapes[..n];
    }
  }

  /** A tree of one leaf scores that leaf, and a tree without leaves nothing. */
  lemma TreesWithoutSplits(t: FlatTree, tree: Tree, features: seq<real>)
    requires Rectangular(t)
    ensures t.leafValue == [] ==> TreeScore(t, tree, features) == 0.0
    ensures t.splitFeature == [] && t.leafValue != [] ==> TreeScore(t, tree, features) == t.leafValue[0]
  {
  }

  /** The inner loop: ends within as many steps as the tree has internal nodes, at the tree's leaf. */
  method Walk(t: FlatTree, features: seq<real>, ghost tree: Tree) returns (leaf: int, steps: nat, ghost nodes: seq<int>)
    requires Rectangular(t) && t.splitFeature != [] && Encodes(t, 0, tree)
    ensures leaf == LeafOf(tree, features)
    ensures steps <= Height(tree) <= |t.splitFeature| && steps <= Size(tree)
    ensures IsWalk(t, features, nodes) && |nodes| == steps + 1 && nodes[steps] == -leaf - 1
  {
    var node := 0;
    steps, nodes := 0, [0];
    ghost var rest := tree;
    while node >= 0
      invariant |nodes| == steps + 1 && nodes[0] == 0 && nodes[steps] == node
      invariant forall i :: 0 <= i < steps ==> Follows(t, features, nodes[i], nodes[i + 1])
      invariant Encodes(t, node, rest) && LeafOf(rest, features) == LeafOf(tree, features)
      invariant steps + Height(rest) <= Height(tree) && steps + Size(rest) <= Size(tree)
      decreases rest
    {
      var x := FeatureAt(features, t.splitFeature[node]);
      if x <= t.threshold[node] {
        node, rest := t.leftChild[node], rest.left;
      } else {
        node, rest := t.rightChild[node], rest.right;
      }
      steps, nodes := steps + 1, nodes + [node];
    }
    leaf := -node - 1;
    HeightAtMostNodes(t, tree);
  }

  /** RawScore. */
  method RawScore(trees: seq<FlatTree>, features: seq<real>, ghost shapes: seq<Tree>) returns (sum: real)
    requires |trees| == |shapes|
    requires forall i :: 0 <= i < |trees| ==> Rectangular(trees[i])
    requires forall i :: 0 <= i < |trees| && trees[i].leafValue != [] && trees[i].splitFeature != [] ==>
      Encodes(trees[i], 0, shapes[i])
    ensures sum == Sum(trees, shapes, features)
  {
    sum := 0.0;
    for i := 0 to |trees|
      invariant sum == Sum(trees[..i], shapes[..i], features)
    {
      var t := trees[i];
      assert trees[..i + 1][..i] == trees[..i] && shapes[..i + 1][..i] == shapes[..i];
      if t.leafValue == [] { continue; }
      if t.splitFeature == [] {
        sum := sum + t.leafValue[0];
      } else {
        var leaf, _, _ := Walk(t, features, shapes[i]);
        if 0 <= leaf < |t.leafValue| { sum := sum + t.leafValue[leaf]; }
      }
    }
    assert trees[..|trees|] == trees && shapes[..|shapes|] == shapes;
  }

  // ----- which arrays encode a tree -----------------------------------------------------------

  /** From `node` every walk of `fuel` steps has reached a leaf and has not left the arrays. */
  predicate Grounded(t: FlatTree, node: int, fuel: nat)
    requires Rectangular(t)
    decreases fuel
  {
    node < 0 ||
    (node < |t.splitFeature| && fuel > 0 &&
     Grounded(t, t.leftChild[node], fuel - 1) && Grounded(t, t.rightChild[node], fuel - 1))
  }

  /** The tree that grounded arrays spell out. */
  function Shape(t: FlatTree, node: int, fuel: nat): (tree: Tree)
    requires Rectangular(t) && Grounded(t, node, fuel)
    ensures Encodes(t, node, tree)
    decreases fuel
  {
    if node < 0 then Leaf(-node - 1)
    else
      Split(t.splitFeature[node], t.threshold[node],
            Shape(t, t.leftChild[node], fuel - 1), Shape(t, t.rightChild[node], fuel - 1))
  }

  lemma {:induction false} EncodedIsGrounded(t: FlatTree, node: int, tree: Tree, fuel: nat)
    requires Rectangular(t) && Encodes(t, node, tree) && Height(tree) <= fuel
    ensures Grounded(t, node, fuel)
    decreases tree
  {
    if tree.Split? {
      EncodedIsGrounded(t, t.leftChild[node], tree.left, fuel - 1);
      EncodedIsGrounded(t, t.rightChild[node], tree.right, fuel - 1);
    }
  }

  ghost predicate StandsForTree(t: FlatTree, node: int)
    requires Rectangular(t)
  {
    exists tree :: Encodes(t, node, tree)
  }

  /** The arrays stand for a tree if and only if they are grounded within as many steps as there are nodes. */
  lemma EncodesTreeIff(t: FlatTree)
    requires Rectangular(t)
    ensures StandsForTree(t, 0) <==> Grounded(t, 0, |t.splitFeature|)
  {
    if StandsForTree(t, 0) {
      var tree :| Encodes(t, 0, tree);
      HeightAtMostNodes(t, tree);
      EncodedIsGrounded(t, 0, tree, |t.splitFeature|);
    }
    if Grounded(t, 0, |t.splitFeature|) {
      var tree := Shape(t, 0, |t.splitFeature|);
      assert Encodes(t, 0, tree);
    }
  }

  /**
    LoadString's checks alone do not rule out a cycle. This model passes them and stands for no tree;
    the walk never leaves node 0.
   */
  lemma {:induction false} ChecksAllowCycle(t: FlatTree, tree: Tree)
    requires t == FlatTree([0], [0.5], [2], [0], [0], [1.0, 2.0])
    ensures Accepted(t) && !Encodes(t, 0, tree)
    decreases tree
  {
    if tree.Split? { ChecksAllowCycle(t, tree.left); }
  }

  /** Nor do they rule out a child index past the arrays, which the walk would read. */
  lemma ChecksAllowStrayChild(t: FlatTree)
    requires t == FlatTree([0], [0.5], [2], [-1], [1], [1.0, 2.0])
    ensures Accepted(t) && !Grounded(t, 0, |t.splitFeature|)
    ensures !StandsForTree(t, 0)
  {
    assert !Grounded(t, 1, 0);
    EncodesTreeIff(t);
  }
}
