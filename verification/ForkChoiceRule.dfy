/**
  Where the stored head, the stored safe target and the attestation target stand, told by
  counting voters and by following parents, without the descents and walks that find them.
 */
module ForkChoiceRule {
  import opened Containers
  import opened Justifiability
  import opened Transition
  import opened ChainInvariant
  import opened Sealing
  import opened Ghost
  import opened SafeTarget
  import opened StoreValues
  import opened StoreInvariant
  import opened VoteTarget
  import opened VoteRule

  /** The validators of the pool whose voted head is `b` or descends from it. */
  ghost function VotersUnder(blocks: Blocks, pool: Pool, b: Root): set<U64>
    requires SlotsDescend(blocks)
  {
    set v | v in pool && Ancestor(blocks, b, pool[v].message.data.head.root)
  }

  lemma WeightIsVotersUnder(blocks: Blocks, rootSlot: nat, pool: Pool, b: Root)
    requires SlotsDescend(blocks) && b in blocks && blocks[b].slot > rootSlot
    ensures Weight(blocks, rootSlot, VoteHeads(pool), b) == |VotersUnder(blocks, pool, b)|
  {
    var votes := VoteHeads(pool);
    assert VotersFor(blocks, rootSlot, votes, votes.Keys, b) == VotersUnder(blocks, pool, b);
  }

  // ---------------------------------------------------------------- head

  /** Children of one block above the head are not both its ancestors. */
  lemma SiblingsDiffer(blocks: Blocks, p: Root, a: Root, b: Root, t: Root)
    requires SlotsDescend(blocks) && p in blocks && a in blocks && b in blocks
    requires blocks[a].parentRoot == p && blocks[b].parentRoot == p
    requires Ancestor(blocks, a, t) && Ancestor(blocks, b, t)
    ensures a == b
  {
    AncestorsLinear(blocks, a, b, t);
    if a != b {
      if Ancestor(blocks, a, b) { AncestorSlot(blocks, a, p); } else { AncestorSlot(blocks, b, p); }
    }
  }

  /** Along the ungated descent each child taken beats its siblings. */
  lemma {:induction false} EachStepIsBest(
      blocks: Blocks, rootSlot: nat, votes: Votes, start: Root, p: Root, c: Root, x: Root)
    requires SlotsDescend(blocks) && start in blocks
    requires p in blocks && c in blocks && x in blocks
    requires blocks[c].parentRoot == p && blocks[x].parentRoot == p && Ancestor(blocks, start, p)
    requires Ancestor(blocks, c, Descend(blocks, rootSlot, votes, 0, start))
    ensures Beats(Weight(blocks, rootSlot, votes, c), c, Weight(blocks, rootSlot, votes, x), x)
    decreases U64_MAX - blocks[start].slot
  {
    hide Weight, Beats;
    var t := Descend(blocks, rootSlot, votes, 0, start);
    var kids := Kids(blocks, rootSlot, votes, 0, start);
    if kids == {} {
      AncestorSlot(blocks, c, start);
      AncestorSlot(blocks, start, p);
      assert false;
    }
    var best := Best(blocks, rootSlot, votes, kids);
    DescendReaches(blocks, rootSlot, votes, 0, best);
    if p == start {
      SiblingsDiffer(blocks, p, c, best, t);
      assert x in kids;
    } else {
      AncestorTransitive(blocks, p, c, t);
      AncestorsLinear(blocks, best, p, t);
      if !Ancestor(blocks, best, p) {
        AncestorSlot(blocks, p, start);
        AncestorSlot(blocks, start, p);
        assert false;
      }
      EachStepIsBest(blocks, rootSlot, votes, best, p, c, x);
    }
  }

  /** `head` descends from the justified block, is a leaf, and at every fork on the way the
      child taken has the most voters of the pool under it, ties going to the larger root. */
  ghost predicate Heaviest(blocks: Blocks, justified: Root, pool: Pool, head: Root)
    requires SlotsDescend(blocks)
  {
    && Ancestor(blocks, justified, head)
    && (forall r :: r in blocks ==> blocks[r].parentRoot != head)
    && (forall c, x ::
          OnWay(blocks, justified, head, c) && x in blocks && blocks[x].parentRoot == blocks[c].parentRoot ==>
          && |VotersUnder(blocks, pool, c)| >= |VotersUnder(blocks, pool, x)|
          && (|VotersUnder(blocks, pool, c)| == |VotersUnder(blocks, pool, x)| ==> c >= x))
  }

  /** `c` is on the way from `start`, itself left out, down to `end`. */
  ghost predicate OnWay(blocks: Blocks, start: Root, end: Root, c: Root)
    requires SlotsDescend(blocks)
  {
    c in blocks && blocks[c].parentRoot in blocks
    && Ancestor(blocks, start, blocks[c].parentRoot) && Ancestor(blocks, c, end)
  }

  lemma HeadIsHeaviest(blocks: Blocks, justified: Root, pool: Pool)
    requires SlotsDescend(blocks) && justified in blocks && justified != ZERO_ROOT
    ensures Heaviest(blocks, justified, pool, Head(blocks, justified, VoteHeads(pool), 0))
  {
    hide Weight, VotersUnder, VoteHeads, Descend, Ancestor;
    var votes, rootSlot := VoteHeads(pool), blocks[justified].slot;
    var t := Head(blocks, justified, votes, 0);
    DescendReaches(blocks, rootSlot, votes, 0, justified);
    forall c, x | OnWay(blocks, justified, t, c) && x in blocks && blocks[x].parentRoot == blocks[c].parentRoot
      ensures |VotersUnder(blocks, pool, c)| >= |VotersUnder(blocks, pool, x)|
      ensures |VotersUnder(blocks, pool, c)| == |VotersUnder(blocks, pool, x)| ==> c >= x
    {
      EachStepIsBest(blocks, rootSlot, votes, justified, blocks[c].parentRoot, c, x);
      AncestorSlot(blocks, justified, blocks[c].parentRoot);
      WeightIsVotersUnder(blocks, rootSlot, pool, c);
      WeightIsVotersUnder(blocks, rootSlot, pool, x);
    }
  }

  /** Two heads that are heaviest over one pool are the same: the rule leaves no choice. */
  lemma HeaviestIsUnique(blocks: Blocks, justified: Root, pool: Pool, a: Root, b: Root)
    requires SlotsDescend(blocks) && Heaviest(blocks, justified, pool, a) && Heaviest(blocks, justified, pool, b)
    ensures a == b
  {
    hide VotersUnder;
    if a != b {
      AncestorSlot(blocks, justified, a);
      var c, x := Fork(blocks, justified, a, b);
    }
  }

  /** Two different leaves under one block part at some fork. */
  lemma {:induction false} Fork(blocks: Blocks, top: Root, a: Root, b: Root) returns (c: Root, x: Root)
    requires SlotsDescend(blocks) && top in blocks && a != b
    requires Ancestor(blocks, top, a) && Ancestor(blocks, top, b)
    requires forall r :: r in blocks ==> blocks[r].parentRoot != a && blocks[r].parentRoot != b
    ensures OnWay(blocks, top, a, c) && OnWay(blocks, top, b, x) && c != x && blocks[c].parentRoot == blocks[x].parentRoot
    decreases U64_MAX - blocks[top].slot
  {
    if top == a { var k := ChildToward(blocks, top, b); assert false; }
    if top == b { var k := ChildToward(blocks, top, a); assert false; }
    c := ChildToward(blocks, top, a);
    x := ChildToward(blocks, top, b);
    assert Ancestor(blocks, top, top);
    if c == x {
      var mid := c;
      c, x := Fork(blocks, mid, a, b);
      AncestorTransitive(blocks, top, mid, blocks[c].parentRoot);
    }
  }

  /** On a valid store a refresh moves only the head, to the heaviest leaf under the
      justified block by the known votes; a promotion first lets each pending vote replace
      the known one of its validator. */
  lemma HeadRule(h: Hashes, sv: StoreValue, anchor: Root, registry: seq<Validator>)
    requires SoundHashes(h) && StoreInv(h, sv, anchor, registry)
    ensures CanDescend(sv)
    ensures var u := UpdateHead(sv);
            u == sv.(head := u.head) && Heaviest(sv.blocks, sv.justified.root, sv.known, u.head)
    ensures var u := AcceptNewVotes(sv);
            && u == sv.(head := u.head, known := u.known, pending := map[])
            && u.known.Keys == sv.known.Keys + sv.pending.Keys
            && (forall v :: v in u.known ==> u.known[v] == if v in sv.pending then sv.pending[v] else sv.known[v])
            && Heaviest(sv.blocks, sv.justified.root, u.known, u.head)
  {
    hide SoundHashes, StoreInv, SlotsDescend, Head, Heaviest;
    HeadSelectionTotal(h, sv, anchor, registry, map[]);
    JustifiedBlock(h, sv, anchor, registry);
    HeadIsHeaviest(sv.blocks, sv.justified.root, sv.known);
    HeadIsHeaviest(sv.blocks, sv.justified.root, sv.known + sv.pending);
  }

  lemma JustifiedBlock(h: Hashes, sv: StoreValue, anchor: Root, registry: seq<Validator>)
    requires SoundHashes(h) && StoreInv(h, sv, anchor, registry)
    ensures sv.justified.root in sv.blocks && sv.justified.root != ZERO_ROOT
    ensures sv.blocks[sv.justified.root].slot == sv.justified.slot
  {
    hide StatesReplay, TreeInv, OrderInv, Seals, ChainInv;
    assert PairInv(h, sv.justified.root, sv.blocks[sv.justified.root], sv.states[sv.justified.root], registry);
  }

  // ---------------------------------------------------------------- safe target

  lemma ThresholdIsTwoThirds(w: nat, n: nat)
    ensures w >= SafeThreshold(n) <==> 3 * w >= 2 * n
  {
  }

  /** The safe target: under the justified block, the lowest block that two thirds of the
      registry stand behind with their pending votes, or the justified block itself. */
  ghost predicate Safest(blocks: Blocks, justified: Root, pool: Pool, n: nat, target: Root)
    requires SlotsDescend(blocks)
  {
    && Ancestor(blocks, justified, target)
    && (target == justified || 3 * |VotersUnder(blocks, pool, target)| >= 2 * n)
    && (forall q :: q in blocks && Ancestor(blocks, justified, q) && 3 * |VotersUnder(blocks, pool, q)| >= 2 * n ==>
          Ancestor(blocks, q, target))
  }

  /** Without validators there is nothing but the anchor. */
  lemma NobodyNoBlocks(h: Hashes, sv: StoreValue, anchor: Root, registry: seq<Validator>)
    requires StoreInv(h, sv, anchor, registry) && |registry| == 0
    ensures sv.blocks.Keys == {anchor}
  {
    forall r | r in sv.blocks ensures r == anchor {
      if r != anchor {
        var p := sv.states[sv.blocks[r].parentRoot];
        assert PairInv(h, sv.blocks[r].parentRoot, sv.blocks[sv.blocks[r].parentRoot], p, registry);
        NobodyProposes(h, p, sv.blocks[r]);
      }
    }
  }

  lemma NobodyProposes(h: Hashes, s: State, b: Block)
    requires |s.validators| == 0
    ensures StateTransition(h, s, b, true).Failed?
  {
    hide ProcessAttestations, AdvanceSlots;
    if s.slot < b.slot { AdvanceSlotsFrame(h, s, b.slot - s.slot); }
  }

  lemma SafeRule(h: Hashes, sv: StoreValue, anchor: Root, registry: seq<Validator>)
    requires SoundHashes(h) && StoreInv(h, sv, anchor, registry)
    ensures CanDescend(sv) && sv.head in sv.states
    ensures var u := UpdateSafeTarget(sv);
            && u == sv.(safeTarget := u.safeTarget)
            && Safest(sv.blocks, sv.justified.root, sv.pending, |registry|, u.safeTarget)
  {
    hide SoundHashes, StoreInv, SlotsDescend, Head, Ancestor;
    HeadSelectionTotal(h, sv, anchor, registry, map[]);
    HeadHasState(h, sv, anchor, registry);
    JustifiedBlock(h, sv, anchor, registry);
    var t := UpdateSafeTarget(sv).safeTarget;
    if |registry| == 0 {
      NobodyNoBlocks(h, sv, anchor, registry);
      assert t == anchor == sv.justified.root;
      assert Ancestor(sv.blocks, t, t) by { AncestorOfItself(sv.blocks, t); }
    } else {
      SafestOfMany(h, sv, anchor, registry);
    }
  }

  lemma AncestorOfItself(blocks: Blocks, r: Root)
    requires SlotsDescend(blocks) && r in blocks
    ensures Ancestor(blocks, r, r)
  {
  }

  lemma SafestOfMany(h: Hashes, sv: StoreValue, anchor: Root, registry: seq<Validator>)
    requires SoundHashes(h) && StoreInv(h, sv, anchor, registry) && |registry| > 0
    requires CanDescend(sv) && sv.head in sv.states
    ensures Safest(sv.blocks, sv.justified.root, sv.pending, |registry|, UpdateSafeTarget(sv).safeTarget)
  {
    hide SoundHashes, StoreInv, SlotsDescend, Head, Ancestor, Weight, VotersUnder, UpdateSafeTarget;
    JustifiedBlock(h, sv, anchor, registry);
    var blocks, pool, n, j := sv.blocks, sv.pending, |registry|, sv.justified;
    var t, votes := UpdateSafeTarget(sv).safeTarget, VoteHeads(sv.pending);
    SafeTargetIsDeepest(h, sv, anchor, registry, t);
    if t != j.root {
      WeightIsVotersUnder(blocks, j.slot, pool, t);
      ThresholdIsTwoThirds(|VotersUnder(blocks, pool, t)|, n);
    }
    forall q | q in blocks && Ancestor(blocks, j.root, q) && 3 * |VotersUnder(blocks, pool, q)| >= 2 * n
      ensures Ancestor(blocks, q, t)
    {
      if q != j.root {
        AncestorSlot(blocks, j.root, q);
        WeightIsVotersUnder(blocks, j.slot, pool, q);
        ThresholdIsTwoThirds(|VotersUnder(blocks, pool, q)|, n);
        SafeTargetIsDeepest(h, sv, anchor, registry, q);
      }
    }
  }

  // ---------------------------------------------------------------- attestation target

  /** A path that follows parents. */
  ghost predicate Upward(blocks: Blocks, path: seq<Root>) {
    && path != [] && (forall i :: 0 <= i < |path| ==> path[i] in blocks)
    && (forall i :: 0 < i < |path| ==> path[i] == blocks[path[i - 1]].parentRoot)
  }

  ghost predicate Reachable(slot: nat, finalized: nat) {
    exists k: nat :: Distance(slot, finalized, k)
  }

  /** The path goes from the head up to `path[i]`, the first of the head and its first three
      ancestors at or below both the safe target's slot or finality, whichever is later, or
      the third ancestor; and on to the first block at or below finality or at a justifiable
      distance from it. */
  ghost predicate TargetPath(blocks: Blocks, head: Root, safe: nat, finalized: nat, path: seq<Root>, i: nat) {
    && Upward(blocks, path) && path[0] == head && i < |path| && i <= 3
    && (forall j :: 0 <= j < i ==> blocks[path[j]].slot > safe && blocks[path[j]].slot > finalized)
    && (i == 3 || blocks[path[i]].slot <= safe || blocks[path[i]].slot <= finalized)
    && (forall j :: i <= j < |path| - 1 ==>
          blocks[path[j]].slot > finalized && !Reachable(blocks[path[j]].slot, finalized))
    && (var last := blocks[path[|path| - 1]].slot; last <= finalized || Reachable(last, finalized))
  }

  lemma ReachableIff(slot: nat, finalized: nat)
    ensures Reachable(slot, finalized) <==> JustifiableAfter(slot, finalized)
  {
    hide Distance, JustifiableAfter;
    var k := DistanceWitness(slot, finalized);
    if JustifiableAfter(slot, finalized) { assert Distance(slot, finalized, k); }
    if j: nat :| Distance(slot, finalized, j) { DistanceSuffices(slot, finalized, j); }
  }

  lemma OneMore(blocks: Blocks, c: Root, rest: seq<Root>)
    requires c in blocks && Upward(blocks, rest) && rest[0] == blocks[c].parentRoot
    ensures Upward(blocks, [c] + rest)
  {
    var path := [c] + rest;
    forall i | 0 < i < |path| ensures path[i] == blocks[path[i - 1]].parentRoot {
      if i > 1 { assert rest[i - 1] == blocks[rest[i - 2]].parentRoot; }
    }
  }

  /** The blocks a walk passes are all `late`. */
  ghost predicate Passes(blocks: Blocks, path: seq<Root>, late: nat -> bool) {
    forall j :: 0 <= j < |path| - 1 ==> path[j] in blocks && late(blocks[path[j]].slot)
  }

  lemma PassesOneMore(blocks: Blocks, c: Root, rest: seq<Root>, late: nat -> bool)
    requires c in blocks && late(blocks[c].slot) && rest != [] && Passes(blocks, rest, late)
    ensures Passes(blocks, [c] + rest, late)
  {
    var path := [c] + rest;
    forall j | 0 <= j < |path| - 1 ensures path[j] in blocks && late(blocks[path[j]].slot) {
      if j > 0 { assert path[j] == rest[j - 1]; }
    }
  }

  lemma {:induction false} FloorPath(blocks: Blocks, low: nat, floor: nat, steps: nat, c: Root) returns (path: seq<Root>)
    requires ParentsAbove(blocks, low) && low <= floor && c in blocks
    ensures Upward(blocks, path) && path[0] == c && |path| <= steps + 1
    ensures path[|path| - 1] == WalkToFloor(blocks, low, floor, steps, c)
    ensures Passes(blocks, path, (slot: nat) => slot > floor)
    ensures |path| == steps + 1 || blocks[path[|path| - 1]].slot <= floor
    decreases steps
  {
    hide Upward, Passes, ParentsAbove;
    UpwardNotEmpty(blocks);
    if steps == 0 || blocks[c].slot <= floor {
      path := [c];
      Alone(blocks, c, (slot: nat) => slot > floor);
    } else {
      ParentLower(blocks, low, c);
      var rest := FloorPath(blocks, low, floor, steps - 1, blocks[c].parentRoot);
      OneMore(blocks, c, rest);
      PassesOneMore(blocks, c, rest, (slot: nat) => slot > floor);
      path := [c] + rest;
    }
  }

  lemma Alone(blocks: Blocks, c: Root, late: nat -> bool)
    requires c in blocks
    ensures Upward(blocks, [c]) && Passes(blocks, [c], late)
  {
  }

  lemma UpwardNotEmpty(blocks: Blocks)
    ensures forall path :: Upward(blocks, path) ==> path != [] && path[|path| - 1] in blocks
  {
  }

  ghost function Unreachable(finalized: nat): nat -> bool {
    (slot: nat) => slot > finalized && !Reachable(slot, finalized)
  }

  lemma {:induction false} JustifiablePath(blocks: Blocks, low: nat, finalized: nat, c: Root) returns (path: seq<Root>)
    requires ParentsAbove(blocks, low) && low <= finalized && c in blocks
    ensures Upward(blocks, path) && path[0] == c
    ensures path[|path| - 1] == WalkToJustifiable(blocks, low, finalized, c)
    ensures Passes(blocks, path, Unreachable(finalized))
    ensures var last := blocks[path[|path| - 1]].slot; last <= finalized || Reachable(last, finalized)
    decreases blocks[c].slot
  {
    hide Upward, Passes, Reachable, JustifiableAfter, ParentsAbove;
    UpwardNotEmpty(blocks);
    ReachableIff(blocks[c].slot, finalized);
    if blocks[c].slot <= finalized || JustifiableAfter(blocks[c].slot, finalized) {
      path := [c];
      Alone(blocks, c, Unreachable(finalized));
    } else {
      ParentLower(blocks, low, c);
      var rest := JustifiablePath(blocks, low, finalized, blocks[c].parentRoot);
      OneMore(blocks, c, rest);
      PassesOneMore(blocks, c, rest, Unreachable(finalized));
      path := [c] + rest;
    }
  }

  lemma Joined(blocks: Blocks, a: seq<Root>, b: seq<Root>)
    requires Upward(blocks, a) && Upward(blocks, b) && a[|a| - 1] == b[0]
    ensures Upward(blocks, a[..|a| - 1] + b)
  {
    var i := |a| - 1;
    var path := a[..i] + b;
    forall j | 0 < j < |path| ensures path[j] == blocks[path[j - 1]].parentRoot {
      if j <= i { assert path[j] == a[j] && path[j - 1] == a[j - 1]; } else { assert path[j] == b[j - i]; }
    }
  }

  /** The attestation target ends such a path from the head. */
  lemma TargetRule(sv: StoreValue, low: nat) returns (path: seq<Root>, i: nat)
    requires ParentsAbove(sv.blocks, low) && low <= sv.finalized.slot
    requires sv.head in sv.blocks && sv.safeTarget in sv.blocks
    ensures TargetPath(sv.blocks, sv.head, sv.blocks[sv.safeTarget].slot, sv.finalized.slot, path, i)
    ensures path[|path| - 1] == VoteTargetOf(sv, low)
  {
    hide Reachable, ParentsAbove, WalkToFloor, WalkToJustifiable;
    var blocks, safe, f := sv.blocks, sv.blocks[sv.safeTarget].slot, sv.finalized.slot;
    var first := FloorPath(blocks, low, Max(safe, f), 3, sv.head);
    i := |first| - 1;
    var second := JustifiablePath(blocks, low, f, first[i]);
    path := first[..i] + second;
    Joined(blocks, first, second);
    Stops(blocks, sv.head, safe, f, first, second);
  }

  lemma Stops(blocks: Blocks, head: Root, safe: nat, finalized: nat, first: seq<Root>, second: seq<Root>)
    requires Upward(blocks, first) && Upward(blocks, second) && first[0] == head && |first| <= 4
    requires first[|first| - 1] == second[0] && Upward(blocks, first[..|first| - 1] + second)
    requires Passes(blocks, first, (slot: nat) => slot > Max(safe, finalized))
    requires |first| == 4 || blocks[first[|first| - 1]].slot <= Max(safe, finalized)
    requires Passes(blocks, second, Unreachable(finalized))
    requires var last := blocks[second[|second| - 1]].slot; last <= finalized || Reachable(last, finalized)
    ensures TargetPath(blocks, head, safe, finalized, first[..|first| - 1] + second, |first| - 1)
  {
    hide Reachable, Upward;
    UpwardNotEmpty(blocks);
    var i, path := |first| - 1, first[..|first| - 1] + second;
    assert path[i] == second[0] && path[|path| - 1] == second[|second| - 1];
    forall j | i <= j < |path| - 1
      ensures path[j] in blocks && blocks[path[j]].slot > finalized && !Reachable(blocks[path[j]].slot, finalized)
    {
      assert path[j] == second[j - i];
    }
  }

  lemma PathNotEmpty(blocks: Blocks, head: Root, safe: nat, finalized: nat, path: seq<Root>, i: nat)
    requires TargetPath(blocks, head, safe, finalized, path, i)
    ensures path != []
  {
  }

  /** Such a path is the only one: the rule names one block. */
  lemma TargetPathIsUnique(
      blocks: Blocks, head: Root, safe: nat, finalized: nat, a: seq<Root>, i: nat, b: seq<Root>, j: nat)
    requires TargetPath(blocks, head, safe, finalized, a, i) && TargetPath(blocks, head, safe, finalized, b, j)
    ensures i == j && a == b
  {
    hide Reachable, Upward;
    var m := if |a| < |b| then |a| else |b|;
    SamePrefix(blocks, a, b, m);
    var k := if i < j then i else j;
    assert a[k] == b[k] && a[m - 1] == b[m - 1];
  }

  lemma {:induction false} SamePrefix(blocks: Blocks, a: seq<Root>, b: seq<Root>, m: nat)
    requires Upward(blocks, a) && Upward(blocks, b) && a[0] == b[0] && m <= |a| && m <= |b|
    ensures forall k :: 0 <= k < m ==> a[k] == b[k]
    decreases m
  {
    if m > 1 {
      SamePrefix(blocks, a, b, m - 1);
      assert a[m - 1] == blocks[a[m - 2]].parentRoot && b[m - 1] == blocks[b[m - 2]].parentRoot;
    }
  }
}
