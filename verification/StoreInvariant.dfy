/**
  What every run of the fork-choice store keeps. A run is any sequence of ticks,
  attestations, vote promotions and imported blocks from a genesis pair or a trusted
  anchor; an imported block is one that the state transition accepts on its parent's
  state.
 */
module StoreInvariant {
  import opened Containers
  import opened Collections
  import opened Transition
  import opened ChainInvariant
  import opened Quorum
  import opened Sealing
  import opened Ghost
  import opened SafeTarget
  import opened StoreValues

  /** What is asked of the hash functions: a root determines the slot it was computed
      from, and no header or state hashes to zero. */
  ghost predicate SoundHashes(h: Hashes) {
    && RootsBindSlots(h)
    && (forall hd: BlockHeader :: h.header(hd) != ZERO_ROOT)
    && (forall s: State :: h.state(s) != ZERO_ROOT)
  }

  /** A hash whose roots fit in nine bytes, and so in thirty-two. */
  function SlotHashes(): Hashes {
    Hashes((hd: BlockHeader) => hd.slot + 1, (body: seq<Attestation>) => 1, (s: State) => 1)
  }

  /** Hash functions with 32-byte roots meet the assumption. */
  lemma SoundHashesExist()
    ensures SoundHashes(SlotHashes())
    ensures forall hd: BlockHeader :: SlotHashes().header(hd) <= U64_MAX + 1
    ensures forall body: seq<Attestation>, s: State :: SlotHashes().body(body) == SlotHashes().state(s) == 1
  {
  }

  // ---------------------------------------------------------------- invariant

  /** Every block but the anchor has a tracked parent at a lower slot; nothing sits
      below the anchor. */
  ghost predicate TreeInv(blocks: Blocks, anchor: Root) {
    && anchor in blocks && blocks[anchor].parentRoot !in blocks
    && (forall r :: r in blocks ==> blocks[anchor].slot <= blocks[r].slot)
    && (forall r :: r in blocks && r != anchor ==>
          blocks[r].parentRoot in blocks && blocks[blocks[r].parentRoot].slot < blocks[r].slot)
  }

  /** A tracked pair: the key is the block's root, the block seals the state, and the
      state satisfies the chain invariant over the common registry. */
  ghost predicate PairInv(h: Hashes, r: Root, b: Block, p: State, registry: seq<Validator>) {
    r == BlockRoot(h, b) && Seals(h, b, p) && ChainInv(h, p) && p.validators == registry
  }

  ghost predicate PairsInv(h: Hashes, blocks: Blocks, states: map<Root, State>, registry: seq<Validator>) {
    && states.Keys == blocks.Keys
    && (forall r :: r in blocks ==> PairInv(h, r, blocks[r], states[r], registry))
  }

  /** Every tracked state but the anchor's is the transition of its parent's state. */
  ghost predicate StatesReplay(h: Hashes, blocks: Blocks, states: map<Root, State>, anchor: Root) {
    forall r :: r in blocks && r != anchor && r in states ==>
      && blocks[r].parentRoot in states
      && StateTransition(h, states[blocks[r].parentRoot], blocks[r], true) == Done(states[r])
  }

  ghost predicate OrderInv(order: seq<Root>, blocks: Blocks) {
    Distinct(order) && Elements(order) == blocks.Keys
  }

  /** The part of the invariant that only importing a block can affect. */
  ghost predicate ForestInv(
      h: Hashes, blocks: Blocks, states: map<Root, State>, order: seq<Root>,
      anchor: Root, registry: seq<Validator>)
  {
    && |registry| <= VALIDATOR_REGISTRY_LIMIT
    && TreeInv(blocks, anchor)
    && PairsInv(h, blocks, states, registry)
    && StatesReplay(h, blocks, states, anchor)
    && OrderInv(order, blocks)
  }

  /** The checkpoint names a tracked block at that block's slot. */
  ghost predicate Tracked(blocks: Blocks, c: Checkpoint) {
    c.root in blocks && blocks[c.root].slot == c.slot
  }

  ghost predicate PoolInv(blocks: Blocks, n: nat, pool: Pool) {
    forall v :: v in pool ==>
      && pool[v].message.validatorId == v && v < n
      && Tracked(blocks, pool[v].message.data.head)
  }

  /** The roots the store points at, and its vote pools. */
  ghost predicate ReferencesInv(sv: StoreValue, n: nat) {
    && sv.head in sv.blocks && sv.safeTarget in sv.blocks
    && Tracked(sv.blocks, sv.justified) && Tracked(sv.blocks, sv.finalized)
    && PoolInv(sv.blocks, n, sv.known) && PoolInv(sv.blocks, n, sv.pending)
  }

  ghost predicate StoreInv(h: Hashes, sv: StoreValue, anchor: Root, registry: seq<Validator>) {
    && ForestInv(h, sv.blocks, sv.states, sv.order, anchor, registry)
    && ReferencesInv(sv, |registry|)
  }

  // ---------------------------------------------------------------- descent

  lemma TreeDescends(blocks: Blocks, anchor: Root)
    requires TreeInv(blocks, anchor)
    ensures SlotsDescend(blocks)
  {
  }

  lemma {:induction false} WalksStay(blocks: Blocks, anchor: Root, rootSlot: nat, d: Root)
    requires TreeInv(blocks, anchor) && SlotsDescend(blocks)
    requires d in blocks && blocks[anchor].slot <= rootSlot
    ensures WalkStays(blocks, rootSlot, d)
    decreases Depth(blocks, d)
  {
    if blocks[d].slot > rootSlot {
      WalksStay(blocks, anchor, rootSlot, blocks[d].parentRoot);
    }
  }

  /** On a valid store the descent always has a block to start from and no vote walks
      off the block map, so head selection cannot fail. */
  lemma HeadSelectionTotal(
      h: Hashes, sv: StoreValue, anchor: Root, registry: seq<Validator>, votes: Votes)
    requires SoundHashes(h) && StoreInv(h, sv, anchor, registry)
    ensures CanDescend(sv) && Origin(sv.blocks, sv.justified.root) == sv.justified.root
    ensures NoGap(sv.blocks, sv.blocks[sv.justified.root].slot, votes)
  {
    var blocks := sv.blocks;
    TreeDescends(blocks, anchor);
    assert PairInv(h, sv.justified.root, blocks[sv.justified.root], sv.states[sv.justified.root], registry);
    assert sv.justified.root != ZERO_ROOT;
    var rootSlot := blocks[sv.justified.root].slot;
    forall v | v in votes && votes[v].root in blocks ensures WalkStays(blocks, rootSlot, votes[v].root) {
      WalksStay(blocks, anchor, rootSlot, votes[v].root);
    }
  }

  // ---------------------------------------------------------------- anchors

  /** Nothing at or above a sealed block's slot has its parent's root: that root is zero
      or the root of an earlier header. */
  lemma ParentIsEarlier(h: Hashes, b: Block, p: State, later: Block)
    requires SoundHashes(h) && Seals(h, b, p) && ChainInv(h, p) && b.slot <= later.slot
    ensures BlockRoot(h, later) != b.parentRoot
  {
    hide WorkInv, PendingSorted, NamesSlot;
    assert ParentBelow(h, p.header) && p.header.parentRoot == b.parentRoot;
    if b.parentRoot != ZERO_ROOT {
      var g: BlockHeader :| g.slot < b.slot && h.header(g) == b.parentRoot;
      assert h.header(HeaderOf(h, later)) == BlockRoot(h, later);
    }
  }

  lemma AnchorInvariant(h: Hashes, s: State, b: Block, c: Checkpoint)
    requires SoundHashes(h) && b.slot * INTERVALS_PER_SLOT <= U64_MAX
    requires Seals(h, b, s) && ChainInv(h, s) && |s.validators| <= VALIDATOR_REGISTRY_LIMIT
    requires c == Checkpoint(BlockRoot(h, b), b.slot)
    ensures StoreInv(h, AnchorStore(h, s, b, c, c), BlockRoot(h, b), s.validators)
  {
    hide SoundHashes, Seals, ChainInv, BlockRoot, StateTransition;
    ParentIsEarlier(h, b, s, b);
    var root := BlockRoot(h, b);
    assert Elements([root]) == {root};
    var sv := AnchorStore(h, s, b, c, c);
    assert PairsInv(h, sv.blocks, sv.states, s.validators);
    assert ForestInv(h, sv.blocks, sv.states, sv.order, root, s.validators);
  }

  /** A genesis pair seeds a valid store, its default checkpoints read as the anchor. */
  lemma GenesisStoreInvariant(h: Hashes, time: U64, validators: seq<Validator>)
    requires SoundHashes(h) && |validators| <= VALIDATOR_REGISTRY_LIMIT
    ensures var g := GenesisState(h, time, validators);
            var b := GenesisBlock(h, g);
            var root := BlockRoot(h, b);
            StoreInv(h,
                     AnchorStore(h, g, b, Normalize(g.justified, 0, root), Normalize(g.finalized, 0, root)),
                     root, validators)
  {
    var g := GenesisState(h, time, validators);
    GenesisInvariant(h, time, validators);
    GenesisSeals(h, time, validators);
    AnchorInvariant(h, g, GenesisBlock(h, g), Checkpoint(BlockRoot(h, GenesisBlock(h, g)), 0));
  }

  /** A genesis store over those hash functions; its root is 1. */
  ghost function GenesisStore(registry: seq<Validator>): StoreValue {
    var h := SlotHashes();
    var g := GenesisState(h, 0, registry);
    AnchorStore(h, g, GenesisBlock(h, g), Checkpoint(1, 0), Checkpoint(1, 0))
  }

  // ---------------------------------------------------------------- operations

  /** Blocks are never dropped or replaced, and checkpoint slots never decrease. */
  ghost predicate Grows(a: StoreValue, b: StoreValue) {
    && (forall r :: r in a.blocks ==> r in b.blocks && b.blocks[r] == a.blocks[r])
    && (forall r :: r in a.states ==> r in b.states && b.states[r] == a.states[r])
    && a.order <= b.order
    && a.justified.slot <= b.justified.slot
    && a.finalized.slot <= b.finalized.slot
    && a.time <= b.time
  }

  lemma GrowsItself(a: StoreValue)
    ensures Grows(a, a)
  {
  }

  lemma GrowsChains(a: StoreValue, b: StoreValue, c: StoreValue)
    requires Grows(a, b) && Grows(b, c)
    ensures Grows(a, c)
  {
  }

  lemma AcceptKeepsInvariant(h: Hashes, sv: StoreValue, anchor: Root, registry: seq<Validator>)
    requires SoundHashes(h) && StoreInv(h, sv, anchor, registry)
    ensures CanDescend(sv)
    ensures StoreInv(h, AcceptNewVotes(sv), anchor, registry) && Grows(sv, AcceptNewVotes(sv))
  {
    hide SoundHashes, ForestInv, Head, SlotsDescend;
    HeadSelectionTotal(h, sv, anchor, registry, map[]);
  }

  /** Moving the pending votes over keeps the invariant before the head is refreshed. */
  lemma PromotionKeepsInvariant(h: Hashes, sv: StoreValue, anchor: Root, registry: seq<Validator>)
    requires StoreInv(h, sv, anchor, registry)
    ensures StoreInv(h, sv.(known := sv.known + sv.pending, pending := map[]), anchor, registry)
  {
    hide ForestInv;
  }

  lemma HeadHasState(h: Hashes, sv: StoreValue, anchor: Root, registry: seq<Validator>)
    requires StoreInv(h, sv, anchor, registry)
    ensures sv.head in sv.states && sv.states[sv.head].validators == registry
  {
    hide StatesReplay, TreeInv;
    assert PairInv(h, sv.head, sv.blocks[sv.head], sv.states[sv.head], registry);
  }

  lemma SafeTargetKeepsInvariant(
      h: Hashes, sv: StoreValue, anchor: Root, registry: seq<Validator>)
    requires SoundHashes(h) && StoreInv(h, sv, anchor, registry)
    ensures CanDescend(sv) && sv.head in sv.states
    ensures StoreInv(h, UpdateSafeTarget(sv), anchor, registry) && Grows(sv, UpdateSafeTarget(sv))
  {
    hide SoundHashes, ForestInv, Head, SlotsDescend;
    HeadSelectionTotal(h, sv, anchor, registry, map[]);
    HeadHasState(h, sv, anchor, registry);
  }

  lemma ClockKeepsInvariant(
      h: Hashes, sv: StoreValue, t: StoreValue, anchor: Root, registry: seq<Validator>)
    requires StoreInv(h, sv, anchor, registry) && sv.time < U64_MAX && t == sv.(time := sv.time + 1)
    ensures StoreInv(h, t, anchor, registry) && Grows(sv, t)
  {
    hide ForestInv;
  }

  /** A tick fails only on clock overflow and keeps the invariant. */
  lemma TickKeepsInvariant(
      h: Hashes, sv: StoreValue, anchor: Root, registry: seq<Validator>, hasProposal: bool)
    requires SoundHashes(h) && StoreInv(h, sv, anchor, registry)
    ensures CanDescend(sv) && sv.head in sv.states
    ensures var r := TickInterval(sv, hasProposal);
            && (r.Err? <==> sv.time == U64_MAX)
            && (r.Ok? ==> StoreInv(h, r.value, anchor, registry) && Grows(sv, r.value))
  {
    hide SoundHashes, StoreInv, AcceptNewVotes, UpdateSafeTarget, CanDescend, Grows;
    SafeTargetKeepsInvariant(h, sv, anchor, registry);
    if sv.time < U64_MAX {
      var t := sv.(time := sv.time + 1);
      ClockKeepsInvariant(h, sv, t, anchor, registry);
      AcceptKeepsInvariant(h, t, anchor, registry);
      SafeTargetKeepsInvariant(h, t, anchor, registry);
      GrowsChains(sv, t, AcceptNewVotes(t));
      GrowsChains(sv, t, UpdateSafeTarget(t));
    }
  }

  lemma AttestKeepsInvariant(
      h: Hashes, sv: StoreValue, anchor: Root, registry: seq<Validator>,
      signed: SignedAttestation, fromBlock: bool)
    requires StoreInv(h, sv, anchor, registry)
    ensures var r := ProcessAttestation(sv, signed, fromBlock);
            r.Ok? ==> StoreInv(h, r.value.0, anchor, registry) && Grows(sv, r.value.0)
  {
    hide ForestInv;
    HeadHasState(h, sv, anchor, registry);
  }

  // ---------------------------------------------------------------- imports

  /** A newly tracked checkpoint names its block at that block's slot. */
  lemma AdoptedIsTracked(h: Hashes, blocks: Blocks, p: State, c: Checkpoint)
    requires RootsBindSlots(h) && (forall hd: BlockHeader :: h.header(hd) != ZERO_ROOT)
    requires forall r :: r in blocks ==> r == BlockRoot(h, blocks[r])
    requires ChainInv(h, p) && p.history != [] && (c == p.justified || c == p.finalized)
    requires c.root in blocks
    ensures Tracked(blocks, c)
  {
    assert Anchored(p.history, p.justifiedSlots, c);
    assert NamesSlot(h, p.history[c.slot], c.slot);
    assert c.root == h.header(HeaderOf(h, blocks[c.root]));
    var hd: BlockHeader :| hd.slot == c.slot && h.header(hd) == c.root;
  }

  lemma TreeGrows(h: Hashes, blocks: Blocks, states: map<Root, State>, anchor: Root, registry: seq<Validator>, b: Block)
    requires SoundHashes(h)
    requires TreeInv(blocks, anchor) && PairsInv(h, blocks, states, registry) && BlockRoot(h, b) !in blocks
    requires b.parentRoot in blocks && blocks[b.parentRoot].slot < b.slot
    ensures TreeInv(blocks[BlockRoot(h, b) := b], anchor)
  {
    hide SoundHashes, BlockRoot, Seals, ChainInv;
    assert PairInv(h, anchor, blocks[anchor], states[anchor], registry);
    ParentIsEarlier(h, blocks[anchor], states[anchor], b);
  }

  lemma PoolGrows(a: Blocks, b: Blocks, n: nat, pool: Pool)
    requires forall r :: r in a ==> r in b && b[r] == a[r]
    requires PoolInv(a, n, pool)
    ensures PoolInv(b, n, pool)
  {
  }

  /** The transition of a tracked parent produced this pair. */
  ghost predicate Produced(h: Hashes, sv: StoreValue, b: Block, post: State) {
    b.parentRoot in sv.states && StateTransition(h, sv.states[b.parentRoot], b, true) == Done(post)
  }

  lemma ProducedPair(h: Hashes, sv: StoreValue, anchor: Root, registry: seq<Validator>, b: Block, post: State)
    requires StoreInv(h, sv, anchor, registry) && Produced(h, sv, b, post)
    ensures PairInv(h, BlockRoot(h, b), b, post, registry) && post.history != []
    ensures ChainInv(h, post) && b.stateRoot == h.state(post)
    ensures b.parentRoot in sv.blocks && sv.blocks[b.parentRoot].slot < b.slot
  {
    var parent := sv.states[b.parentRoot];
    assert PairInv(h, b.parentRoot, sv.blocks[b.parentRoot], parent, registry);
    hide StateTransition;
    TransitionSeals(h, parent, b);
    WholeKeepsInvariant(h, parent, b, true);
  }

  lemma PairsGrow(
      h: Hashes, blocks: Blocks, states: map<Root, State>, anchor: Root, registry: seq<Validator>,
      b: Block, post: State)
    requires PairsInv(h, blocks, states, registry) && StatesReplay(h, blocks, states, anchor) && anchor in blocks
    requires BlockRoot(h, b) !in blocks && PairInv(h, BlockRoot(h, b), b, post, registry)
    requires b.parentRoot in states && StateTransition(h, states[b.parentRoot], b, true) == Done(post)
    ensures PairsInv(h, blocks[BlockRoot(h, b) := b], states[BlockRoot(h, b) := post], registry)
    ensures StatesReplay(h, blocks[BlockRoot(h, b) := b], states[BlockRoot(h, b) := post], anchor)
  {
    hide StateTransition, PairInv, BlockRoot;
  }

  lemma ForestGrows(
      h: Hashes, sv: StoreValue, anchor: Root, registry: seq<Validator>, b: Block, post: State)
    requires SoundHashes(h) && StoreInv(h, sv, anchor, registry) && Produced(h, sv, b, post)
    requires BlockRoot(h, b) !in sv.blocks
    ensures var root := BlockRoot(h, b);
            ForestInv(h, sv.blocks[root := b], sv.states[root := post], sv.order + [root], anchor, registry)
  {
    ProducedPair(h, sv, anchor, registry, b, post);
    hide StateTransition, PairInv, PairsInv, StatesReplay, BlockRoot;
    TreeGrows(h, sv.blocks, sv.states, anchor, registry, b);
    PairsGrow(h, sv.blocks, sv.states, anchor, registry, b, post);
    OrderGrows(sv.order, sv.blocks, BlockRoot(h, b), b);
  }

  /** Tracking a transition-produced block succeeds and keeps the invariant. */
  lemma TrackKeepsInvariant(
      h: Hashes, sv: StoreValue, anchor: Root, registry: seq<Validator>, b: Block, post: State)
    requires SoundHashes(h) && StoreInv(h, sv, anchor, registry) && Produced(h, sv, b, post)
    ensures TrackBlock(h, sv, b, post).Ok?
    ensures var t := TrackBlock(h, sv, b, post).value;
            && StoreInv(h, t.0, anchor, registry) && Grows(sv, t.0)
            && (t.1 <==> BlockRoot(h, b) !in sv.blocks)
            && BlockRoot(h, b) in t.0.blocks
  {
    hide SoundHashes, ForestInv, BlockRoot, PairInv, ChainInv, Produced, PoolInv, Tracked, Adopt;
    ProducedPair(h, sv, anchor, registry, b, post);
    var root := BlockRoot(h, b);
    if root !in sv.blocks {
      var blocks := sv.blocks[root := b];
      ForestGrows(h, sv, anchor, registry, b, post);
      KeysAreRoots(h, sv.blocks, sv.states, registry, sv.order, anchor);
      PoolGrows(sv.blocks, blocks, |registry|, sv.known);
      PoolGrows(sv.blocks, blocks, |registry|, sv.pending);
      CheckpointsStayTracked(h, sv, anchor, registry, b, post);
      AdoptNeverDrops(blocks, post.justified, sv.justified);
      AdoptNeverDrops(blocks, post.finalized, sv.finalized);
    }
  }

  lemma AdoptNeverDrops(blocks: Blocks, candidate: Checkpoint, current: Checkpoint)
    ensures Adopt(blocks, candidate, current).slot >= current.slot
  {
  }

  lemma CheckpointsStayTracked(
      h: Hashes, sv: StoreValue, anchor: Root, registry: seq<Validator>, b: Block, post: State)
    requires SoundHashes(h) && StoreInv(h, sv, anchor, registry)
    requires ChainInv(h, post) && post.history != [] && BlockRoot(h, b) !in sv.blocks
    ensures var blocks := sv.blocks[BlockRoot(h, b) := b];
            && Tracked(blocks, Adopt(blocks, post.justified, sv.justified))
            && Tracked(blocks, Adopt(blocks, post.finalized, sv.finalized))
  {
    hide ForestInv, ChainInv, BlockRoot, PoolInv, RootsBindSlots;
    var blocks := sv.blocks[BlockRoot(h, b) := b];
    KeysAreRoots(h, sv.blocks, sv.states, registry, sv.order, anchor);
    if post.justified.root in blocks { AdoptedIsTracked(h, blocks, post, post.justified); }
    if post.finalized.root in blocks { AdoptedIsTracked(h, blocks, post, post.finalized); }
  }

  lemma KeysAreRoots(
      h: Hashes, blocks: Blocks, states: map<Root, State>, registry: seq<Validator>,
      order: seq<Root>, anchor: Root)
    requires ForestInv(h, blocks, states, order, anchor, registry)
    ensures states.Keys == blocks.Keys && forall r :: r in blocks ==> r == BlockRoot(h, blocks[r])
  {
    hide StatesReplay, TreeInv, OrderInv, Seals, ChainInv, BlockRoot;
    forall r | r in blocks ensures r == BlockRoot(h, blocks[r]) {
      assert PairInv(h, r, blocks[r], states[r], registry);
    }
  }

  lemma OrderGrows(order: seq<Root>, blocks: Blocks, root: Root, b: Block)
    requires OrderInv(order, blocks) && root !in blocks
    ensures OrderInv(order + [root], blocks[root := b])
  {
    assert forall i :: 0 <= i < |order| ==> order[i] in Elements(order);
    assert Elements(order + [root]) == Elements(order) + {root};
    assert blocks[root := b].Keys == blocks.Keys + {root};
  }

  // ---------------------------------------------------------------- runs

  datatype StoreOp =
    | Tick(hasProposal: bool)
    | Attest(signed: SignedAttestation, fromBlock: bool)
    | Accept
    | Import(block: Block)

  /** Imports `b`: transition on the parent's state, then track. Anything the program
      rejects leaves the store as it was. */
  ghost function ImportBlock(h: Hashes, sv: StoreValue, b: Block): StoreValue {
    if b.parentRoot !in sv.states then sv else
    var o := StateTransition(h, sv.states[b.parentRoot], b, true);
    if o.Failed? then sv else
    var r := TrackBlock(h, sv, b, o.after);
    if r.Err? then sv else r.value.0
  }

  ghost function Act(h: Hashes, sv: StoreValue, op: StoreOp): StoreValue
    requires CanDescend(sv) && sv.head in sv.states
  {
    match op
    case Tick(p) => var r := TickInterval(sv, p); if r.Ok? then r.value else sv
    case Attest(s, f) => var r := ProcessAttestation(sv, s, f); if r.Ok? then r.value.0 else sv
    case Accept => AcceptNewVotes(sv)
    case Import(b) => ImportBlock(h, sv, b)
  }

  lemma ActKeepsInvariant(
      h: Hashes, sv: StoreValue, anchor: Root, registry: seq<Validator>, op: StoreOp)
    requires SoundHashes(h) && StoreInv(h, sv, anchor, registry)
    ensures CanDescend(sv) && sv.head in sv.states
    ensures StoreInv(h, Act(h, sv, op), anchor, registry) && Grows(sv, Act(h, sv, op))
  {
    hide StoreInv, AcceptNewVotes, TickInterval, ProcessAttestation, TrackBlock, StateTransition,
         SoundHashes, CanDescend, Grows;
    GrowsItself(sv);
    AcceptKeepsInvariant(h, sv, anchor, registry);
    SafeTargetKeepsInvariant(h, sv, anchor, registry);
    match op
    case Tick(p) => TickKeepsInvariant(h, sv, anchor, registry, p);
    case Attest(s, f) => AttestKeepsInvariant(h, sv, anchor, registry, s, f);
    case Accept =>
    case Import(b) =>
      if b.parentRoot in sv.states && StateTransition(h, sv.states[b.parentRoot], b, true).Done? {
        TrackKeepsInvariant(h, sv, anchor, registry, b,
                            StateTransition(h, sv.states[b.parentRoot], b, true).after);
      }
  }

  /** The store `sv` runs to `sv'` under `ops`. */
  ghost predicate Reaches(h: Hashes, sv: StoreValue, ops: seq<StoreOp>, sv': StoreValue)
    decreases |ops|
  {
    if ops == [] then sv' == sv else
    CanDescend(sv) && sv.head in sv.states && Reaches(h, Act(h, sv, ops[0]), ops[1..], sv')
  }

  /** Along every run, head, safe target and both checkpoint roots stay tracked, every
      tracked block keeps its state, and no checkpoint slot decreases. */
  lemma {:induction false} StoreRunInvariant(
      h: Hashes, sv: StoreValue, anchor: Root, registry: seq<Validator>,
      ops: seq<StoreOp>, sv': StoreValue)
    requires SoundHashes(h) && StoreInv(h, sv, anchor, registry) && Reaches(h, sv, ops, sv')
    ensures StoreInv(h, sv', anchor, registry) && Grows(sv, sv')
    decreases |ops|
  {
    hide SoundHashes, StoreInv, Act, CanDescend, Grows;
    GrowsItself(sv);
    if ops != [] {
      ActKeepsInvariant(h, sv, anchor, registry, ops[0]);
      StoreRunInvariant(h, Act(h, sv, ops[0]), anchor, registry, ops[1..], sv');
      GrowsChains(sv, Act(h, sv, ops[0]), sv');
    }
  }

  /** From a valid store every sequence of operations runs to the end. */
  lemma {:induction false} StoreRunTotal(
      h: Hashes, sv: StoreValue, anchor: Root, registry: seq<Validator>, ops: seq<StoreOp>)
    returns (sv': StoreValue)
    requires SoundHashes(h) && StoreInv(h, sv, anchor, registry)
    ensures Reaches(h, sv, ops, sv')
    decreases |ops|
  {
    hide SoundHashes, StoreInv, Act, CanDescend, Grows;
    if ops == [] {
      sv' := sv;
    } else {
      ActKeepsInvariant(h, sv, anchor, registry, ops[0]);
      sv' := StoreRunTotal(h, Act(h, sv, ops[0]), anchor, registry, ops[1..]);
    }
  }

  // ---------------------------------------------------------------- safe target

  /** On a valid store with a non-empty registry the refreshed safe target is the
      deepest descendant of the justified block that two thirds of the registry vote
      for, or that block itself; no other qualifying descendant is off its chain. */
  lemma SafeTargetIsDeepest(
      h: Hashes, sv: StoreValue, anchor: Root, registry: seq<Validator>, q: Root)
    requires SoundHashes(h) && StoreInv(h, sv, anchor, registry) && |registry| > 0
    ensures CanDescend(sv) && sv.head in sv.states
    ensures var votes, rootSlot, min := VoteHeads(sv.pending), sv.justified.slot, SafeThreshold(|registry|);
            var t := UpdateSafeTarget(sv).safeTarget;
            && Ancestor(sv.blocks, sv.justified.root, t)
            && (t == sv.justified.root || Qualifies(sv.blocks, rootSlot, votes, min, t))
            && (Qualifies(sv.blocks, rootSlot, votes, min, q) && Ancestor(sv.blocks, sv.justified.root, q) ==>
                  Ancestor(sv.blocks, q, t))
  {
    var votes := VoteHeads(sv.pending);
    HeadSelectionTotal(h, sv, anchor, registry, votes);
    HeadHasState(h, sv, anchor, registry);
    hide ForestInv, SoundHashes;
    VotersBounded(sv.pending, sv.blocks, |registry|);
    DescendDeepest(sv.blocks, sv.justified.slot, votes, |registry|, sv.justified.root);
  }

  /** Pool keys are registry indices, so there are at most that many voters. */
  lemma VotersBounded(pool: Pool, blocks: Blocks, n: nat)
    requires PoolInv(blocks, n, pool)
    ensures |VoteHeads(pool)| <= n
  {
    assert VoteHeads(pool).Keys == pool.Keys;
    SubsetSizeOfKeys(pool.Keys, n);
  }

  lemma {:induction false} SubsetSizeOfKeys(keys: set<U64>, n: nat)
    requires forall v :: v in keys ==> v < n
    ensures |keys| <= n
    decreases n
  {
    if n == 0 {
      assert keys == {};
    } else if n - 1 in keys {
      SubsetSizeOfKeys(keys - {n - 1}, n - 1);
    } else {
      SubsetSizeOfKeys(keys, n - 1);
    }
  }
}
