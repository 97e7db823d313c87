/**
  The supermajority-gated descent. With at most `n` voters and a threshold of two
  thirds of `n`, any two qualifying blocks share a voter, so the qualifying blocks
  form one chain: the descent has no choice to make and ends at its deepest block.
 */
module SafeTarget {
  import opened Containers
  import opened Collections
  import opened Ghost

  /** `ceil(2n/3)`. */
  function SafeThreshold(n: nat): nat { (2 * n + 2) / 3 }

  ghost predicate Qualifies(blocks: Blocks, rootSlot: nat, votes: Votes, minScore: nat, b: Root)
    requires SlotsDescend(blocks)
  {
    b in blocks && blocks[b].slot > rootSlot && Weight(blocks, rootSlot, votes, b) >= minScore
  }

  lemma PositiveWeight(blocks: Blocks, rootSlot: nat, votes: Votes, b: Root)
    requires SlotsDescend(blocks) && Weight(blocks, rootSlot, votes, b) > 0
    ensures b in blocks && blocks[b].slot > rootSlot
  {
    var voters := VotersFor(blocks, rootSlot, votes, votes.Keys, b);
    var v :| v in voters;
    assert Supports(blocks, rootSlot, votes, v, b);
  }

  /** Two qualifying blocks share a voter, so one is an ancestor of the other. */
  lemma QualifyingChain(blocks: Blocks, rootSlot: nat, votes: Votes, n: nat, a: Root, b: Root)
    requires SlotsDescend(blocks) && n > 0 && |votes| <= n
    requires Qualifies(blocks, rootSlot, votes, SafeThreshold(n), a)
    requires Qualifies(blocks, rootSlot, votes, SafeThreshold(n), b)
    ensures Ancestor(blocks, a, b) || Ancestor(blocks, b, a)
  {
    var va := VotersFor(blocks, rootSlot, votes, votes.Keys, a);
    var vb := VotersFor(blocks, rootSlot, votes, votes.Keys, b);
    CommonMembers(va, vb, votes.Keys);
    assert |va * vb| > 0;
    var v :| v in va * vb;
    assert Supports(blocks, rootSlot, votes, v, a) && Supports(blocks, rootSlot, votes, v, b);
    AncestorsLinear(blocks, a, b, votes[v].root);
  }

  /** No block has two qualifying children: the tie-break never decides. */
  lemma AtMostOneKid(blocks: Blocks, rootSlot: nat, votes: Votes, n: nat, c: Root, x: Root, y: Root)
    requires SlotsDescend(blocks) && n > 0 && |votes| <= n && c in blocks
    requires x in Kids(blocks, rootSlot, votes, SafeThreshold(n), c)
    requires y in Kids(blocks, rootSlot, votes, SafeThreshold(n), c)
    ensures x == y
  {
    PositiveWeight(blocks, rootSlot, votes, x);
    PositiveWeight(blocks, rootSlot, votes, y);
    QualifyingChain(blocks, rootSlot, votes, n, x, y);
    if x != y {
      if Ancestor(blocks, x, y) { AncestorSlot(blocks, x, c); } else { AncestorSlot(blocks, y, c); }
    }
  }

  /** A descendant of `c` is reached through one of `c`'s children. */
  lemma {:induction false} ChildToward(blocks: Blocks, c: Root, q: Root) returns (k: Root)
    requires SlotsDescend(blocks) && c in blocks && Ancestor(blocks, c, q) && c != q
    ensures k in blocks && blocks[k].parentRoot == c && Ancestor(blocks, k, q)
    decreases Depth(blocks, q)
  {
    var p := blocks[q].parentRoot;
    if p == c {
      k := q;
    } else {
      k := ChildToward(blocks, c, p);
    }
  }

  /** Weight does not grow along the chain. */
  lemma WeightAntitone(blocks: Blocks, rootSlot: nat, votes: Votes, a: Root, b: Root)
    requires SlotsDescend(blocks) && Ancestor(blocks, a, b) && a in blocks && blocks[a].slot > rootSlot
    ensures Weight(blocks, rootSlot, votes, a) >= Weight(blocks, rootSlot, votes, b)
  {
    var va := VotersFor(blocks, rootSlot, votes, votes.Keys, a);
    var vb := VotersFor(blocks, rootSlot, votes, votes.Keys, b);
    forall v | v in vb ensures v in va {
      AncestorTransitive(blocks, a, b, votes[v].root);
    }
    SubsetSize(vb, va);
  }

  /** The gated descent from `c` ends at the deepest qualifying descendant of `c`, or
      at `c` when there is none. */
  lemma {:induction false} DescendDeepest(blocks: Blocks, rootSlot: nat, votes: Votes, n: nat, c: Root)
    requires SlotsDescend(blocks) && n > 0 && |votes| <= n
    requires c in blocks && blocks[c].slot >= rootSlot
    ensures var t := Descend(blocks, rootSlot, votes, SafeThreshold(n), c);
            && Ancestor(blocks, c, t)
            && (t == c || Qualifies(blocks, rootSlot, votes, SafeThreshold(n), t))
            && forall q :: Qualifies(blocks, rootSlot, votes, SafeThreshold(n), q) && Ancestor(blocks, c, q) ==>
                 Ancestor(blocks, q, t)
    decreases U64_MAX - blocks[c].slot
  {
    var min := SafeThreshold(n);
    var kids := Kids(blocks, rootSlot, votes, min, c);
    var t := Descend(blocks, rootSlot, votes, min, c);
    if kids != {} {
      var best := Best(blocks, rootSlot, votes, kids);
      DescendDeepest(blocks, rootSlot, votes, n, best);
      AncestorTransitive(blocks, c, best, t);
    }
    forall q | Qualifies(blocks, rootSlot, votes, min, q) && Ancestor(blocks, c, q)
      ensures Ancestor(blocks, q, t)
    {
      if q != c {
        var k := ChildToward(blocks, c, q);
        WeightAntitone(blocks, rootSlot, votes, k, q);
        assert k in kids;
        AtMostOneKid(blocks, rootSlot, votes, n, c, k, Best(blocks, rootSlot, votes, kids));
      }
    }
  }

  /** Whatever child a descent prefers, it ends where the `(weight, root)` rule ends. */
  ghost predicate IsDescent(blocks: Blocks, rootSlot: nat, votes: Votes, minScore: nat, path: seq<Root>)
    requires SlotsDescend(blocks)
  {
    && path != [] && (forall i :: 0 <= i < |path| ==> path[i] in blocks)
    && (forall i :: 0 <= i < |path| - 1 ==> path[i + 1] in Kids(blocks, rootSlot, votes, minScore, path[i]))
    && Kids(blocks, rootSlot, votes, minScore, path[|path| - 1]) == {}
  }

  lemma {:induction false} TieBreakIrrelevant(
      blocks: Blocks, rootSlot: nat, votes: Votes, n: nat, path: seq<Root>)
    requires SlotsDescend(blocks) && n > 0 && |votes| <= n
    requires IsDescent(blocks, rootSlot, votes, SafeThreshold(n), path)
    ensures path[|path| - 1] == Descend(blocks, rootSlot, votes, SafeThreshold(n), path[0])
    decreases |path|
  {
    var min := SafeThreshold(n);
    if |path| > 1 {
      var kids := Kids(blocks, rootSlot, votes, min, path[0]);
      assert path[0 + 1] in kids;
      AtMostOneKid(blocks, rootSlot, votes, n, path[0], path[1], Best(blocks, rootSlot, votes, kids));
      var rest := path[1..];
      assert forall i :: 0 <= i < |rest| ==> rest[i] == path[i + 1];
      forall i | 0 <= i < |rest| - 1 ensures rest[i + 1] in Kids(blocks, rootSlot, votes, min, rest[i]) {
        assert path[(i + 1) + 1] in Kids(blocks, rootSlot, votes, min, path[i + 1]);
      }
      TieBreakIrrelevant(blocks, rootSlot, votes, n, rest);
    }
  }
}
