/**
  How the chain histories inside tracked states relate to the block tree around them.
  In every run of the store, a state's history lists the ancestors of its own block, so
  a block's justified and finalized checkpoints lie on its own ancestry; and the store's
  two checkpoints are the highest any tracked state has reached.
 */
module ForkHistory {
  import opened Containers
  import opened Transition
  import opened ChainInvariant
  import opened Quorum
  import opened Sealing
  import opened Ghost
  import opened StoreValues
  import opened StoreInvariant

  /** From the anchor's slot on, every entry is empty or an ancestor of `r`. */
  ghost predicate OnAncestry(blocks: Blocks, history: seq<Root>, low: nat, r: Root)
    requires SlotsDescend(blocks)
  {
    forall k: nat :: k < |history| ==> history[k] == ZERO_ROOT || k < low || Ancestor(blocks, history[k], r)
  }

  ghost predicate HistoryIsAncestry(blocks: Blocks, states: map<Root, State>, low: nat)
    requires SlotsDescend(blocks)
  {
    forall r :: r in states ==> OnAncestry(blocks, states[r].history, low, r)
  }

  ghost predicate Bounded(blocks: Blocks, c: Checkpoint, top: Checkpoint) {
    c.root in blocks ==> c.slot <= top.slot
  }

  /** No tracked state knows a higher tracked checkpoint than the store's own. */
  ghost predicate Highest(blocks: Blocks, states: map<Root, State>, justified: Checkpoint, finalized: Checkpoint) {
    forall r :: r in states ==>
      Bounded(blocks, states[r].justified, justified) && Bounded(blocks, states[r].finalized, finalized)
  }

  /** The store's checkpoints come from the anchor or from a tracked state. */
  ghost predicate Witnessed(states: map<Root, State>, start: Checkpoint, justified: Checkpoint, finalized: Checkpoint) {
    && (justified == start || exists r :: r in states && states[r].justified == justified)
    && (finalized == start || exists r :: r in states && states[r].finalized == finalized)
  }

  ghost predicate HistoryInv(sv: StoreValue, anchor: Root) {
    && anchor in sv.blocks && SlotsDescend(sv.blocks)
    && HistoryIsAncestry(sv.blocks, sv.states, sv.blocks[anchor].slot)
    && Highest(sv.blocks, sv.states, sv.justified, sv.finalized)
    && Witnessed(sv.states, Checkpoint(anchor, sv.blocks[anchor].slot), sv.justified, sv.finalized)
  }

  // ---------------------------------------------------------------- anchors

  lemma AnchorHistory(h: Hashes, s: State, b: Block)
    requires SoundHashes(h) && b.slot * INTERVALS_PER_SLOT <= U64_MAX
    requires Seals(h, b, s) && ChainInv(h, s)
    ensures var c := Checkpoint(BlockRoot(h, b), b.slot);
            HistoryInv(AnchorStore(h, s, b, c, c), BlockRoot(h, b))
  {
    var root := BlockRoot(h, b);
    var blocks := map[root := b];
    ParentIsEarlier(h, b, s, b);
    assert SlotsDescend(blocks);
    assert OnAncestry(blocks, s.history, b.slot, root);
    AnchorBound(h, blocks, s, s.justified, root);
    AnchorBound(h, blocks, s, s.finalized, root);
  }

  lemma GenesisHistory(h: Hashes, time: U64, validators: seq<Validator>)
    requires SoundHashes(h)
    ensures var g := GenesisState(h, time, validators);
            var b := GenesisBlock(h, g);
            var root := BlockRoot(h, b);
            HistoryInv(AnchorStore(h, g, b, Normalize(g.justified, 0, root), Normalize(g.finalized, 0, root)), root)
  {
    var g := GenesisState(h, time, validators);
    GenesisInvariant(h, time, validators);
    GenesisSeals(h, time, validators);
    AnchorHistory(h, g, GenesisBlock(h, g));
  }

  lemma AnchorBound(h: Hashes, blocks: Blocks, s: State, c: Checkpoint, root: Root)
    requires RootsBindSlots(h) && forall hd: BlockHeader :: h.header(hd) != ZERO_ROOT
    requires root in blocks && blocks.Keys == {root} && root == BlockRoot(h, blocks[root])
    requires ChainInv(h, s) && (c == s.justified || c == s.finalized)
    ensures Bounded(blocks, c, Checkpoint(root, blocks[root].slot))
  {
    if c.root in blocks && s.history != [] { AdoptedIsTracked(h, blocks, s, c); }
  }

  // ---------------------------------------------------------------- growth

  lemma {:induction false} AncestorGrows(a: Blocks, b: Blocks, x: Root, d: Root)
    requires SlotsDescend(a) && SlotsDescend(b) && forall r :: r in a ==> r in b && b[r] == a[r]
    requires Ancestor(a, x, d)
    ensures Ancestor(b, x, d)
    decreases Depth(a, d)
  {
    if x != d { AncestorGrows(a, b, x, a[d].parentRoot); }
  }

  /** A transition appends to the history only the parent's root and empty entries. */
  lemma TransitionHistory(h: Hashes, s: State, b: Block)
    requires StateTransition(h, s, b, true).Done?
    ensures var t := StateTransition(h, s, b, true).after;
            forall k :: 0 <= k < |t.history| ==>
              (k < |s.history| && t.history[k] == s.history[k]) || t.history[k] in {b.parentRoot, ZERO_ROOT}
  {
    hide StateTransition, ProcessAttestations, AdvanceSlots, ProcessBlockHeader;
    var s1, s2 := TransitionStages(h, s, b, true);
    AdvanceSlotsFrame(h, s, b.slot - s.slot);
    AttestationsFrame(s2, b.body);
    HeaderHistory(h, s1, s2, b);
  }

  lemma HeaderHistory(h: Hashes, s1: State, s2: State, b: Block)
    requires ProcessBlockHeader(h, s1, b) == Done(s2)
    ensures |s1.history| <= |s2.history|
    ensures forall k :: 0 <= k < |s2.history| ==>
              (k < |s1.history| && s2.history[k] == s1.history[k]) || s2.history[k] in {b.parentRoot, ZERO_ROOT}
  {
  }

  lemma NewStateOnAncestry(h: Hashes, a: Blocks, blocks: Blocks, parent: State, low: nat, root: Root, b: Block)
    requires SlotsDescend(a) && SlotsDescend(blocks) && root !in a && blocks == a[root := b] && b.parentRoot in a
    requires OnAncestry(a, parent.history, low, b.parentRoot) && StateTransition(h, parent, b, true).Done?
    ensures OnAncestry(blocks, StateTransition(h, parent, b, true).after.history, low, root)
  {
    TransitionHistory(h, parent, b);
    hide StateTransition;
    var post := StateTransition(h, parent, b, true).after;
    assert Ancestor(blocks, b.parentRoot, root);
    forall k: nat | k < |post.history|
      ensures post.history[k] == ZERO_ROOT || k < low || Ancestor(blocks, post.history[k], root)
    {
      var e := post.history[k];
      if k < |parent.history| && e == parent.history[k] && e != ZERO_ROOT && k >= low {
        AncestorGrows(a, blocks, e, b.parentRoot);
      }
    }
  }

  lemma OldStateOnAncestry(a: Blocks, blocks: Blocks, history: seq<Root>, low: nat, r: Root)
    requires SlotsDescend(a) && SlotsDescend(blocks) && forall q :: q in a ==> q in blocks && blocks[q] == a[q]
    requires OnAncestry(a, history, low, r)
    ensures OnAncestry(blocks, history, low, r)
  {
    forall k: nat | k < |history| && history[k] != ZERO_ROOT && k >= low ensures Ancestor(blocks, history[k], r) {
      AncestorGrows(a, blocks, history[k], r);
    }
  }

  /** A checkpoint of a tracked state that was not tracked does not become so later. */
  lemma NoLateTracking(h: Hashes, a: Blocks, blocks: Blocks, anchor: Root, p: State, r: Root, c: Checkpoint)
    requires SoundHashes(h)
    requires SlotsDescend(a) && TreeInv(blocks, anchor) && forall q :: q in a ==> q in blocks
    requires forall q :: q in blocks ==> q == BlockRoot(h, blocks[q])
    requires ChainInv(h, p) && (c == p.justified || c == p.finalized)
    requires OnAncestry(a, p.history, blocks[anchor].slot, r)
    ensures c.root in blocks ==> c.root in a
  {
    if c.root in blocks {
      assert c.root == h.header(HeaderOf(h, blocks[c.root])) != ZERO_ROOT;
      assert p.history != [];
      AdoptedIsTracked(h, blocks, p, c);
      assert Anchored(p.history, p.justifiedSlots, c);
      assert p.history[c.slot] == c.root;
      AncestorSlot(a, c.root, r);
    }
  }

  // ---------------------------------------------------------------- runs

  lemma ImportKeepsAncestry(
      h: Hashes, sv: StoreValue, anchor: Root, registry: seq<Validator>, b: Block, post: State)
    requires SoundHashes(h) && StoreInv(h, sv, anchor, registry) && HistoryInv(sv, anchor)
    requires Produced(h, sv, b, post) && BlockRoot(h, b) !in sv.blocks
    ensures var root := BlockRoot(h, b);
            var blocks := sv.blocks[root := b];
            SlotsDescend(blocks) && HistoryIsAncestry(blocks, sv.states[root := post], sv.blocks[anchor].slot)
  {
    hide SoundHashes, Seals, ChainInv, BlockRoot, StateTransition, OnAncestry, PairInv, StatesReplay,
         ReferencesInv, Highest, Witnessed;
    ProducedPair(h, sv, anchor, registry, b, post);
    var root, low := BlockRoot(h, b), sv.blocks[anchor].slot;
    var blocks, states := sv.blocks[root := b], sv.states[root := post];
    TreeGrows(h, sv.blocks, sv.states, anchor, registry, b);
    TreeDescends(blocks, anchor);
    NewStateOnAncestry(h, sv.blocks, blocks, sv.states[b.parentRoot], low, root, b);
    forall r | r in states ensures OnAncestry(blocks, states[r].history, low, r) {
      if r != root { OldStateOnAncestry(sv.blocks, blocks, states[r].history, low, r); }
    }
  }

  lemma ImportKeepsHighest(
      h: Hashes, sv: StoreValue, anchor: Root, registry: seq<Validator>, b: Block, post: State)
    requires SoundHashes(h) && StoreInv(h, sv, anchor, registry) && HistoryInv(sv, anchor)
    requires Produced(h, sv, b, post) && BlockRoot(h, b) !in sv.blocks
    ensures var root := BlockRoot(h, b);
            var blocks := sv.blocks[root := b];
            Highest(blocks, sv.states[root := post], Adopt(blocks, post.justified, sv.justified),
                    Adopt(blocks, post.finalized, sv.finalized))
  {
    hide SoundHashes, StoreInv, BlockRoot, StateTransition, HistoryInv, Bounded, Adopt;
    var root := BlockRoot(h, b);
    var blocks := sv.blocks[root := b];
    var j, f := Adopt(blocks, post.justified, sv.justified), Adopt(blocks, post.finalized, sv.finalized);
    forall r | r in sv.states
      ensures Bounded(blocks, sv.states[r].justified, j) && Bounded(blocks, sv.states[r].finalized, f)
    {
      OldStateBounded(h, sv, anchor, registry, b, post, r);
    }
    AdoptBounds(blocks, post.justified, sv.justified);
    AdoptBounds(blocks, post.finalized, sv.finalized);
  }

  lemma AdoptBounds(blocks: Blocks, candidate: Checkpoint, current: Checkpoint)
    ensures Bounded(blocks, candidate, Adopt(blocks, candidate, current))
  {
  }

  lemma OldStateBounded(
      h: Hashes, sv: StoreValue, anchor: Root, registry: seq<Validator>, b: Block, post: State, r: Root)
    requires SoundHashes(h) && StoreInv(h, sv, anchor, registry) && HistoryInv(sv, anchor)
    requires Produced(h, sv, b, post) && BlockRoot(h, b) !in sv.blocks && r in sv.states
    ensures var blocks := sv.blocks[BlockRoot(h, b) := b];
            && Bounded(blocks, sv.states[r].justified, Adopt(blocks, post.justified, sv.justified))
            && Bounded(blocks, sv.states[r].finalized, Adopt(blocks, post.finalized, sv.finalized))
  {
    hide SoundHashes, Seals, ChainInv, BlockRoot, StateTransition, OnAncestry, StatesReplay, ReferencesInv,
         Witnessed, SlotsDescend, OrderInv;
    ForestGrows(h, sv, anchor, registry, b, post);
    var root, p := BlockRoot(h, b), sv.states[r];
    var blocks, states := sv.blocks[root := b], sv.states[root := post];
    KeysAreRoots(h, sv.blocks, sv.states, registry, sv.order, anchor);
    KeysAreRoots(h, blocks, states, registry, sv.order + [root], anchor);
    assert PairInv(h, r, sv.blocks[r], p, registry);
    NoLateTracking(h, sv.blocks, blocks, anchor, p, r, p.justified);
    NoLateTracking(h, sv.blocks, blocks, anchor, p, r, p.finalized);
  }

  lemma ImportKeepsWitness(sv: StoreValue, start: Checkpoint, blocks: Blocks, root: Root, post: State)
    requires Witnessed(sv.states, start, sv.justified, sv.finalized) && root !in sv.states
    ensures Witnessed(sv.states[root := post], start, Adopt(blocks, post.justified, sv.justified),
                      Adopt(blocks, post.finalized, sv.finalized))
  {
    var states := sv.states[root := post];
    assert root in states && states[root] == post;
    if r :| r in sv.states && sv.states[r].justified == sv.justified { assert r in states && states[r] == sv.states[r]; }
    if r :| r in sv.states && sv.states[r].finalized == sv.finalized { assert r in states && states[r] == sv.states[r]; }
  }

  lemma ImportKeepsHistory(
      h: Hashes, sv: StoreValue, anchor: Root, registry: seq<Validator>, b: Block)
    requires SoundHashes(h) && StoreInv(h, sv, anchor, registry) && HistoryInv(sv, anchor)
    ensures HistoryInv(ImportBlock(h, sv, b), anchor)
  {
    hide SoundHashes, StoreInv, BlockRoot, StateTransition, HistoryIsAncestry, Highest, Witnessed,
         SlotsDescend, Adopt;
    if b.parentRoot in sv.states && StateTransition(h, sv.states[b.parentRoot], b, true).Done? {
      var post := StateTransition(h, sv.states[b.parentRoot], b, true).after;
      TrackKeepsInvariant(h, sv, anchor, registry, b, post);
      var root := BlockRoot(h, b);
      if root !in sv.blocks {
        ImportKeepsAncestry(h, sv, anchor, registry, b, post);
        ImportKeepsHighest(h, sv, anchor, registry, b, post);
        SameKeys(h, sv, anchor, registry);
        ImportKeepsWitness(sv, Checkpoint(anchor, sv.blocks[anchor].slot), sv.blocks[root := b], root, post);
      }
    }
  }

  lemma SameKeys(h: Hashes, sv: StoreValue, anchor: Root, registry: seq<Validator>)
    requires StoreInv(h, sv, anchor, registry)
    ensures sv.states.Keys == sv.blocks.Keys && anchor in sv.blocks
  {
    KeysAreRoots(h, sv.blocks, sv.states, registry, sv.order, anchor);
  }

  lemma ActKeepsHistory(
      h: Hashes, sv: StoreValue, anchor: Root, registry: seq<Validator>, op: StoreOp)
    requires SoundHashes(h) && StoreInv(h, sv, anchor, registry) && HistoryInv(sv, anchor)
    ensures CanDescend(sv) && sv.head in sv.states && HistoryInv(Act(h, sv, op), anchor)
  {
    hide SoundHashes, StoreInv, ImportBlock, HistoryIsAncestry, Highest, Witnessed, SlotsDescend, CanDescend;
    ActKeepsInvariant(h, sv, anchor, registry, op);
    if op.Import? {
      ImportKeepsHistory(h, sv, anchor, registry, op.block);
    } else {
      ForestUntouched(h, sv, op);
    }
  }

  /** Only an import touches blocks, states or checkpoints. */
  lemma ForestUntouched(h: Hashes, sv: StoreValue, op: StoreOp)
    requires CanDescend(sv) && sv.head in sv.states && !op.Import?
    ensures var t := Act(h, sv, op);
            t.blocks == sv.blocks && t.states == sv.states && t.justified == sv.justified && t.finalized == sv.finalized
  {
    hide CanDescend, Head, VoteError, IndexError, InsertIfNewer, EvictIfOlder, ImportBlock, VoteHeads;
  }

  /** Every run keeps history and ancestry in step and the store's checkpoints highest. */
  lemma {:induction false} RunHistory(
      h: Hashes, sv: StoreValue, anchor: Root, registry: seq<Validator>,
      ops: seq<StoreOp>, sv': StoreValue)
    requires SoundHashes(h) && StoreInv(h, sv, anchor, registry) && HistoryInv(sv, anchor)
    requires Reaches(h, sv, ops, sv')
    ensures StoreInv(h, sv', anchor, registry) && HistoryInv(sv', anchor)
    decreases |ops|
  {
    hide SoundHashes, StoreInv, HistoryInv, Act, CanDescend;
    if ops != [] {
      ActKeepsInvariant(h, sv, anchor, registry, ops[0]);
      ActKeepsHistory(h, sv, anchor, registry, ops[0]);
      RunHistory(h, Act(h, sv, ops[0]), anchor, registry, ops[1..], sv');
    }
  }

  /** The checkpoints of a tracked state, when at or above the anchor and not of an empty
      slot, are ancestors of its block. */
  lemma CheckpointsOnAncestry(
      h: Hashes, sv: StoreValue, anchor: Root, registry: seq<Validator>, r: Root)
    requires StoreInv(h, sv, anchor, registry) && HistoryInv(sv, anchor) && r in sv.states
    ensures var j, f, low := sv.states[r].justified, sv.states[r].finalized, sv.blocks[anchor].slot;
            && (sv.states[r].history != [] && j.slot >= low && j.root != ZERO_ROOT ==> Ancestor(sv.blocks, j.root, r))
            && (sv.states[r].history != [] && f.slot >= low && f.root != ZERO_ROOT ==> Ancestor(sv.blocks, f.root, r))
  {
    hide Seals, BlockRoot, StatesReplay, ReferencesInv, TreeInv, OrderInv, Highest, Witnessed, SlotsDescend,
         PendingSorted, AllPending, NamesSlot;
    var p := sv.states[r];
    SameKeys(h, sv, anchor, registry);
    assert PairInv(h, r, sv.blocks[r], p, registry);
    assert OnAncestry(sv.blocks, p.history, sv.blocks[anchor].slot, r);
    if p.history != [] {
      assert Anchored(p.history, p.justifiedSlots, p.justified) && Anchored(p.history, p.justifiedSlots, p.finalized);
      assert p.history[p.justified.slot] == p.justified.root && p.history[p.finalized.slot] == p.finalized.root;
    }
  }
}
