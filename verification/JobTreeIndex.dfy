/**
 Index arithmetic of a job tree (src/app/job_tree.hpp): the node with index i has the
 children 2i+1 and 2i+2, and its parent is (i-1)/2.
 */
module JobTreeIndex {

  function Parent(i: nat): nat
    requires i > 0
  {
    (i - 1) / 2
  }

  /** i lies in the subtree rooted at root (the root included). */
  predicate Below(root: nat, i: nat)
    decreases i
  {
    i == root || (i > root && Below(root, Parent(i)))
  }

  /** i lies in one of the tree layers [l..r], [2l+1..2r+2], ... */
  ghost predicate InLayers(l: nat, r: nat, i: nat)
    requires l <= r
    decreases i - r
  {
    l <= i && (i <= r || InLayers(2 * l + 1, 2 * r + 2, i))
  }

  lemma {:induction false} LayersOfParent(l: nat, r: nat, i: nat)
    requires l <= r && i > 0
    ensures InLayers(2 * l + 1, 2 * r + 2, i) <==> InLayers(l, r, Parent(i))
    decreases i - r
  {
    assert 2 * l + 1 <= i <==> l <= Parent(i);
    assert i <= 2 * r + 2 <==> Parent(i) <= r;
    if i > 2 * r + 2 {
      LayersOfParent(2 * l + 1, 2 * r + 2, i);
    }
  }

  lemma {:induction false} LayersAreSubtree(root: nat, i: nat)
    ensures InLayers(root, root, i) <==> Below(root, i)
    decreases i
  {
    if i > root {
      LayersOfParent(root, root, i);
      LayersAreSubtree(root, Parent(i));
    }
  }

  /** Starting one layer further down leaves out exactly the root. */
  lemma {:induction false} LayersBelowRoot(root: nat, i: nat)
    ensures InLayers(2 * root + 1, 2 * root + 2, i) <==> i != root && Below(root, i)
  {
    if i > root {
      LayersOfParent(root, root, i);
      LayersAreSubtree(root, Parent(i));
    }
  }

  /** The side of a node with respect to the rightmost indices of two sibling subtrees. */
  predicate LeftOf(leftMax: nat, rightMax: nat, i: nat)
    decreases i - rightMax
  {
    if i > rightMax then LeftOf(2 * leftMax + 2, 2 * rightMax + 2, i) else i <= leftMax
  }

  lemma {:induction false} LeftOfParent(leftMax: nat, rightMax: nat, i: nat)
    requires i > 0
    ensures LeftOf(2 * leftMax + 2, 2 * rightMax + 2, i) <==> LeftOf(leftMax, rightMax, Parent(i))
    decreases i - rightMax
  {
    assert i <= 2 * rightMax + 2 <==> Parent(i) <= rightMax;
    assert i <= 2 * leftMax + 2 <==> Parent(i) <= leftMax;
    if i > 2 * rightMax + 2 {
      LeftOfParent(2 * leftMax + 2, 2 * rightMax + 2, i);
    }
  }

  /** Every index of the left subtree is on the left, every index of the right subtree is not. */
  lemma {:induction false} SidesOfSubtrees(index: nat, i: nat)
    ensures Below(2 * index + 1, i) ==> LeftOf(2 * index + 1, 2 * index + 2, i)
    ensures Below(2 * index + 2, i) ==> !LeftOf(2 * index + 1, 2 * index + 2, i)
    decreases i
  {
    if i > 2 * index + 2 {
      LeftOfParent(2 * index + 1, 2 * index + 2, i);
      SidesOfSubtrees(index, Parent(i));
    } else if i == 2 * index + 2 {
      assert Parent(i) == index && !Below(2 * index + 1, index);
    }
  }
}
