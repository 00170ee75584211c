/**
 The block database of the proof-of-stake chain: metadata of committed blocks, reached
 from each other by parent hash. Block hashes identify blocks; the zero hash is never one.
 */
module BlockTree {
  import opened Machine
  import opened Hashes

  /** What is stored about a block: its parent, its slot and the stake total of its path. */
  datatype Meta = Meta(parent: Hash, slot: Word, total: nat)

  type Tree = map<Hash, Meta>

  /**
   Parents are present and of smaller rank; only a root's parent is the zero hash. A rank
   exists for every database the chain builds, since a block is added after its parent.
   */
  ghost predicate Grounded(tree: Tree, rank: map<Hash, nat>) {
    && NO_HASH !in tree
    && forall h :: h in tree ==>
         && h in rank
         && (tree[h].parent == NO_HASH ||
             (tree[h].parent in tree && tree[h].parent in rank && rank[tree[h].parent] < rank[h]))
  }

  /** The block h and its ancestors, newest first. */
  ghost function Lineage(tree: Tree, rank: map<Hash, nat>, h: Hash): (c: seq<Hash>)
    requires Grounded(tree, rank)
    ensures h !in tree <==> c == []
    ensures h in tree ==> c[0] == h
    decreases if h in tree then rank[h] + 1 else 0
  {
    if h !in tree then [] else [h] + Lineage(tree, rank, tree[h].parent)
  }

  /** The tail of a chain from position t is the chain of the block there. */
  lemma {:induction false} LineageDrop(tree: Tree, rank: map<Hash, nat>, h: Hash, t: nat)
    requires Grounded(tree, rank) && t < |Lineage(tree, rank, h)|
    ensures var c := Lineage(tree, rank, h);
            && c[t] in tree && c[t..] == Lineage(tree, rank, c[t])
            && c[t + 1..] == Lineage(tree, rank, tree[c[t]].parent)
            && (t + 1 < |c| ==> c[t + 1] == tree[c[t]].parent)
            && (t + 1 == |c| ==> tree[c[t]].parent == NO_HASH)
    decreases t
  {
    var c := Lineage(tree, rank, h);
    assert c[1..] == Lineage(tree, rank, tree[h].parent);
    if t > 0 {
      LineageDrop(tree, rank, tree[h].parent, t - 1);
      assert c[t..] == c[1..][t - 1..];
      assert c[t + 1..] == c[1..][t..];
    }
  }

  /** Adding blocks does not change the chains of the blocks already there. */
  lemma {:induction false} LineageSame(tree: Tree, rank: map<Hash, nat>, tree': Tree, rank': map<Hash, nat>, h: Hash)
    requires Grounded(tree, rank) && Grounded(tree', rank')
    requires forall k :: k in tree ==> k in tree' && tree'[k].parent == tree[k].parent
    requires h in tree
    ensures Lineage(tree', rank', h) == Lineage(tree, rank, h)
    decreases rank[h]
  {
    if tree[h].parent in tree {
      LineageSame(tree, rank, tree', rank', tree[h].parent);
    }
  }

  /** A block added above a present parent keeps the database grounded. */
  lemma AddGrounded(tree: Tree, rank: map<Hash, nat>, h: Hash, m: Meta)
    requires Grounded(tree, rank) && h != NO_HASH && m.parent in tree
    requires h in tree ==> tree[h].parent == m.parent
    ensures Grounded(tree[h := m], AddRank(tree, rank, h, m)) && m.parent != NO_HASH
    ensures forall k :: k in tree ==> tree[h := m][k].parent == tree[k].parent
  {
  }

  /** The rank after adding a block: one more than its parent's. */
  ghost function AddRank(tree: Tree, rank: map<Hash, nat>, h: Hash, m: Meta): map<Hash, nat>
    requires Grounded(tree, rank) && m.parent in tree
  {
    if h in tree then rank else rank[h := rank[m.parent] + 1]
  }

  /** a is h or one of its ancestors. */
  ghost predicate Ancestor(tree: Tree, rank: map<Hash, nat>, a: Hash, h: Hash)
    requires Grounded(tree, rank)
  {
    a in Lineage(tree, rank, h)
  }

  lemma AncestorTrans(tree: Tree, rank: map<Hash, nat>, a: Hash, b: Hash, h: Hash)
    requires Grounded(tree, rank)
    requires Ancestor(tree, rank, a, b) && Ancestor(tree, rank, b, h)
    ensures Ancestor(tree, rank, a, h)
  {
    var c := Lineage(tree, rank, h);
    var t :| 0 <= t < |c| && c[t] == b;
    LineageDrop(tree, rank, h, t);
    var d := c[t..];
    var u :| 0 <= u < |d| && d[u] == a;
    assert c[t + u] == a;
  }
}
