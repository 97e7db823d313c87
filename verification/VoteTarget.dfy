/**
  The attestation target: walk back from the head toward the safe target, at most
  three steps, then further until the slot is justifiable after the finalized one.
 */
module VoteTarget {
  import opened Containers
  import opened Justifiability
  import opened Ghost
  import opened StoreValues
  import opened StoreInvariant

  /** Every block above slot `low` has a tracked parent. */
  ghost predicate ParentsAbove(blocks: Blocks, low: nat) {
    SlotsDescend(blocks) && forall r :: r in blocks && blocks[r].slot > low ==> blocks[r].parentRoot in blocks
  }

  lemma ParentLower(blocks: Blocks, low: nat, c: Root)
    requires ParentsAbove(blocks, low) && c in blocks && blocks[c].slot > low
    ensures blocks[c].parentRoot in blocks && blocks[blocks[c].parentRoot].slot < blocks[c].slot
  {
  }

  /** Walk 1: at most `steps` parents, stopping at the floor. */
  ghost function WalkToFloor(blocks: Blocks, low: nat, floor: nat, steps: nat, c: Root): (t: Root)
    requires ParentsAbove(blocks, low) && low <= floor && c in blocks
    ensures t in blocks
    decreases steps
  {
    if steps == 0 || blocks[c].slot <= floor then c
    else WalkToFloor(blocks, low, floor, steps - 1, blocks[c].parentRoot)
  }

  /** Walk 2: back until justifiable, stopping at the finalized slot. */
  ghost function WalkToJustifiable(blocks: Blocks, low: nat, finalized: nat, c: Root): (t: Root)
    requires ParentsAbove(blocks, low) && low <= finalized && c in blocks
    ensures t in blocks
    decreases blocks[c].slot
  {
    if blocks[c].slot <= finalized || JustifiableAfter(blocks[c].slot, finalized) then c
    else WalkToJustifiable(blocks, low, finalized, blocks[c].parentRoot)
  }

  function Max(a: nat, b: nat): nat { if a > b then a else b }

  ghost function Walk1(sv: StoreValue, low: nat): Root
    requires ParentsAbove(sv.blocks, low) && low <= sv.finalized.slot
    requires sv.head in sv.blocks && sv.safeTarget in sv.blocks
  {
    WalkToFloor(sv.blocks, low, Max(sv.blocks[sv.safeTarget].slot, sv.finalized.slot),
                JUSTIFICATION_LOOKBACK_SLOTS, sv.head)
  }

  ghost function VoteTargetOf(sv: StoreValue, low: nat): (t: Root)
    requires ParentsAbove(sv.blocks, low) && low <= sv.finalized.slot
    requires sv.head in sv.blocks && sv.safeTarget in sv.blocks
    ensures t in sv.blocks
  {
    WalkToJustifiable(sv.blocks, low, sv.finalized.slot, Walk1(sv, low))
  }

  lemma {:induction false} FloorWalkStaysOnChain(blocks: Blocks, low: nat, floor: nat, steps: nat, c: Root, f: Root)
    requires ParentsAbove(blocks, low) && low <= floor && c in blocks
    ensures Ancestor(blocks, WalkToFloor(blocks, low, floor, steps, c), c)
    ensures f in blocks && Ancestor(blocks, f, c) && blocks[f].slot <= floor ==>
              Ancestor(blocks, f, WalkToFloor(blocks, low, floor, steps, c))
    decreases steps
  {
    hide SlotsDescend;
    if steps > 0 && blocks[c].slot > floor {
      var p := blocks[c].parentRoot;
      ParentLower(blocks, low, c);
      FloorWalkStaysOnChain(blocks, low, floor, steps - 1, p, f);
      AncestorTransitive(blocks, WalkToFloor(blocks, low, floor, steps, c), p, c);
    }
  }

  /** `a` is an ancestor of `c` whose slot is justifiable. */
  ghost predicate JustifiableAncestor(blocks: Blocks, finalized: nat, c: Root, a: Root)
    requires SlotsDescend(blocks)
  {
    a in blocks && Ancestor(blocks, a, c) && JustifiableAfter(blocks[a].slot, finalized)
  }

  lemma {:induction false} JustifiableWalk(blocks: Blocks, low: nat, finalized: nat, c: Root)
    requires ParentsAbove(blocks, low) && low <= finalized && c in blocks
    ensures var t := WalkToJustifiable(blocks, low, finalized, c);
            && Ancestor(blocks, t, c)
            && (forall a :: JustifiableAncestor(blocks, finalized, c, a) ==> Ancestor(blocks, a, t))
    decreases blocks[c].slot
  {
    if blocks[c].slot > finalized && !JustifiableAfter(blocks[c].slot, finalized) {
      var p := blocks[c].parentRoot;
      JustifiableWalk(blocks, low, finalized, p);
      assert forall a :: JustifiableAncestor(blocks, finalized, c, a) ==> JustifiableAncestor(blocks, finalized, p, a);
      AncestorTransitive(blocks, WalkToJustifiable(blocks, low, finalized, c), p, c);
    }
  }

  /** The second walk ends on a justifiable slot exactly when its starting block has a
      justifiable ancestor; off that case it ends below the finalized slot. */
  lemma JustifiableWalkIff(blocks: Blocks, low: nat, finalized: nat, c: Root)
    requires ParentsAbove(blocks, low) && low <= finalized && c in blocks
    ensures var t := WalkToJustifiable(blocks, low, finalized, c);
            JustifiableAfter(blocks[t].slot, finalized) <==>
            exists a :: JustifiableAncestor(blocks, finalized, c, a)
  {
    var t := WalkToJustifiable(blocks, low, finalized, c);
    JustifiableWalk(blocks, low, finalized, c);
    WalkStops(blocks, low, finalized, c);
    hide JustifiableDistance, WalkToJustifiable;
    if a :| JustifiableAncestor(blocks, finalized, c, a) {
      AncestorSlot(blocks, a, t);
    }
    if JustifiableAfter(blocks[t].slot, finalized) { assert JustifiableAncestor(blocks, finalized, c, t); }
  }

  lemma {:induction false} WalkStops(blocks: Blocks, low: nat, finalized: nat, c: Root)
    requires ParentsAbove(blocks, low) && low <= finalized && c in blocks
    ensures var t := WalkToJustifiable(blocks, low, finalized, c);
            blocks[t].slot <= finalized || JustifiableAfter(blocks[t].slot, finalized)
    decreases blocks[c].slot
  {
    if blocks[c].slot > finalized && !JustifiableAfter(blocks[c].slot, finalized) {
      WalkStops(blocks, low, finalized, blocks[c].parentRoot);
    }
  }

  /** The target is on the head's ancestry. When the finalized block is on it too, the
      target is at or above the finalized slot, descends from the finalized block and
      is justifiable after it. */
  lemma TargetProperties(sv: StoreValue, low: nat)
    requires ParentsAbove(sv.blocks, low) && low <= sv.finalized.slot
    requires sv.head in sv.blocks && sv.safeTarget in sv.blocks
    ensures Ancestor(sv.blocks, VoteTargetOf(sv, low), sv.head)
    ensures Tracked(sv.blocks, sv.finalized) && Ancestor(sv.blocks, sv.finalized.root, sv.head) ==>
              && Ancestor(sv.blocks, sv.finalized.root, VoteTargetOf(sv, low))
              && sv.blocks[VoteTargetOf(sv, low)].slot >= sv.finalized.slot
              && JustifiableAfter(sv.blocks[VoteTargetOf(sv, low)].slot, sv.finalized.slot)
  {
    var blocks, f := sv.blocks, sv.finalized;
    var floor := Max(blocks[sv.safeTarget].slot, f.slot);
    var c, t := Walk1(sv, low), VoteTargetOf(sv, low);
    FloorWalkStaysOnChain(blocks, low, floor, JUSTIFICATION_LOOKBACK_SLOTS, sv.head, f.root);
    JustifiableWalk(blocks, low, f.slot, c);
    AncestorTransitive(blocks, t, c, sv.head);
    if Tracked(blocks, f) && Ancestor(blocks, f.root, sv.head) {
      assert JustifiableAfter(f.slot, f.slot);
      assert JustifiableAncestor(blocks, f.slot, c, f.root);
      AncestorSlot(blocks, f.root, t);
      JustifiableWalkIff(blocks, low, f.slot, c);
    }
  }

  /** A valid store has parents down to its anchor, which the finalized slot is not
      below: neither walk can run off the block map. */
  lemma StoreParents(h: Hashes, sv: StoreValue, anchor: Root, registry: seq<Validator>)
    requires StoreInv(h, sv, anchor, registry)
    ensures anchor in sv.blocks && ParentsAbove(sv.blocks, sv.blocks[anchor].slot)
    ensures sv.blocks[anchor].slot <= sv.finalized.slot && sv.blocks[anchor].slot <= sv.justified.slot
  {
    hide PairsInv, StatesReplay, PoolInv;
    TreeDescends(sv.blocks, anchor);
  }
}
