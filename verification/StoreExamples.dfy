/**
  Two runs from a genesis store that end where a property one might expect fails: a block
  that its proposer may build but cannot, and a node whose own vote it refuses.
 */
module StoreExamples {
  import opened Containers
  import opened Collections
  import opened Justifiability
  import opened Tally
  import opened Transition
  import opened ChainInvariant
  import opened OrderIndependence
  import opened Sealing
  import opened Ghost
  import opened SafeTarget
  import opened StoreValues
  import opened StoreInvariant
  import opened VotePools
  import opened VoteTarget
  import opened Production
  import opened Convergence

  // ---------------------------------------------------------------- growing a store

  /** The working copies a child block of `p` at `slot` starts its votes from. */
  ghost function ChildWork(p: State, parent: Root, slot: Slot): Work
    requires PendingWellSized(p) && slot > p.slot && |p.justifiedSlots| + (slot - p.slot) <= HISTORICAL_ROOTS_LIMIT
  {
    var seeded := SeedCheckpoints(p, parent);
    Work(PendingTable(p), p.justifiedSlots + [p.header.slot == 0] + Unset(slot - p.slot - 1),
         seeded.justified, seeded.finalized)
  }

  /** What a candidate's post-state holds. */
  lemma CandidateWork(
      h: Hashes, headRoot: Root, slot: Slot, validator: U64, p: State, votes: seq<SignedAttestation>)
    requires ChainInv(h, p) && p.slot == p.header.slot && |p.validators| <= VALIDATOR_REGISTRY_LIMIT
    requires Candidate(h, headRoot, slot, validator, p, votes).Ok?
    ensures var post := Candidate(h, headRoot, slot, validator, p, votes).value;
            && PendingWellSized(p) && PendingWellSized(post) && slot > p.slot
            && |p.justifiedSlots| + (slot - p.slot) <= HISTORICAL_ROOTS_LIMIT
            && post.history == p.history + [headRoot] + Zeros(slot - p.slot - 1)
            && ApplyVotes(post.history, |p.validators|, ChildWork(p, headRoot, slot), Messages(votes)) ==
               Ok(StartWork(post))
  {
    hide ProcessAttestations, ApplyVotes, PendingTable, WorkInv, NamesSlot, ParentBelow, AdvanceSlots, StrictlyIncreasing,
         Storable, Messages, AllInRange;
    LaterThanHead(h, headRoot, slot, validator, p, votes);
    var b, s1 := CandidateBlock(headRoot, slot, validator, votes), AdvanceSlots(h, p, slot - p.slot);
    AdvanceSlotsFrame(h, p, slot - p.slot);
    SlotsKeepInvariant(h, p, slot - p.slot);
    var s2 := ProcessBlockHeader(h, s1, b).after;
    HeaderKeepsInvariant(h, s1, b);
    SamePending(p, s2);
    BatchWork(h, s2, b.body);
    AttestationsFrame(s2, b.body);
  }

  /** Importing a child of a tracked block that its validator may propose. */
  lemma ImportChild(
      sv: StoreValue, anchor: Root, registry: seq<Validator>, parent: Root, slot: Slot, validator: U64,
      votes: seq<SignedAttestation>)
    returns (post: State)
    requires StoreInv(SlotHashes(), sv, anchor, registry) && parent in sv.blocks && slot + 1 !in sv.blocks
    requires MayPropose(sv.blocks[parent].slot, |registry|, slot, validator)
    requires forall x :: x in votes ==> FitsSlot(x.message, slot, |registry|)
    ensures parent in sv.states && Candidate(SlotHashes(), parent, slot, validator, sv.states[parent], votes) == Ok(post)
    ensures var sv' := ImportBlock(SlotHashes(), sv, ChildBlock(parent, slot, validator, votes));
            && sv' == WithBlock(sv, ChildBlock(parent, slot, validator, votes), post)
            && StoreInv(SlotHashes(), sv', anchor, registry)
    ensures ChainInv(SlotHashes(), sv.states[parent]) && sv.states[parent].slot == sv.states[parent].header.slot
    ensures sv.states[parent].validators == registry && |registry| <= VALIDATOR_REGISTRY_LIMIT
  {
    hide StoreInv, SoundHashes, ChainInv, Candidate, StateTransition, MayPropose, Messages;
    var h := SlotHashes();
    SoundHashesExist();
    CandidateIff(h, sv, anchor, registry, parent, slot, validator, votes);
    GroundedState(h, sv, anchor, registry, Draft(parent, slot, validator, sv.states[parent]));
    post := Candidate(h, parent, slot, validator, sv.states[parent], votes).value;
    CandidateReplays(h, parent, slot, validator, sv.states[parent], votes);
    var b := ChildBlock(parent, slot, validator, votes);
    assert BlockRoot(h, b) == slot + 1;
    assert Produced(h, sv, b, post);
    TrackKeepsInvariant(h, sv, anchor, registry, b, post);
  }

  function ChildBlock(parent: Root, slot: Slot, validator: U64, votes: seq<SignedAttestation>): Block {
    CandidateBlock(parent, slot, validator, votes).(stateRoot := 1)
  }

  /** The store with one more block at root `slot + 1`. */
  function WithBlock(sv: StoreValue, b: Block, post: State): StoreValue {
    var blocks := sv.blocks[b.slot + 1 := b];
    sv.(blocks := blocks, states := sv.states[b.slot + 1 := post], order := sv.order + [b.slot + 1],
        justified := Adopt(blocks, post.justified, sv.justified),
        finalized := Adopt(blocks, post.finalized, sv.finalized))
  }

  // ---------------------------------------------------------------- runs

  lemma {:induction false} ReachesAppend(
      h: Hashes, a: StoreValue, first: seq<StoreOp>, b: StoreValue, second: seq<StoreOp>, c: StoreValue)
    requires Reaches(h, a, first, b) && Reaches(h, b, second, c)
    ensures Reaches(h, a, first + second, c)
    decreases |first|
  {
    hide Act, CanDescend;
    var all := first + second;
    if first == [] {
      assert all == second;
    } else {
      ReachesAppend(h, Act(h, a, first[0]), first[1..], b, second, c);
      assert all[0] == first[0] && all[1..] == first[1..] + second;
    }
  }

  lemma ReachesOne(h: Hashes, a: StoreValue, op: StoreOp)
    requires CanDescend(a) && a.head in a.states
    ensures Reaches(h, a, [op], Act(h, a, op))
  {
    hide Act, CanDescend;
    assert [op][1..] == [] && Reaches(h, Act(h, a, op), [], Act(h, a, op));
  }

  ghost predicate Healthy(sv: StoreValue, registry: seq<Validator>) {
    StoreInv(SlotHashes(), sv, 1, registry) && CanDescend(sv) && sv.head in sv.states
  }

  lemma HealthyStore(sv: StoreValue, registry: seq<Validator>)
    requires StoreInv(SlotHashes(), sv, 1, registry)
    ensures Healthy(sv, registry)
  {
    hide SoundHashes, StoreInv, CanDescend;
    SoundHashesExist();
    SafeTargetKeepsInvariant(SlotHashes(), sv, 1, registry);
  }

  lemma GenesisStoreHealthy(registry: seq<Validator>)
    requires |registry| <= VALIDATOR_REGISTRY_LIMIT
    ensures Healthy(GenesisStore(registry), registry)
  {
    SoundHashesExist();
    GenesisStoreInvariant(SlotHashes(), 0, registry);
    hide SoundHashes, StoreInv, CanDescend;
    HealthyStore(GenesisStore(registry), registry);
  }

  /** With the genesis block alone, every head selection ends on it. */
  lemma AloneHead(sv: StoreValue, registry: seq<Validator>, votes: Votes, min: nat)
    requires sv.blocks == GenesisStore(registry).blocks && sv.justified == Checkpoint(1, 0) && CanDescend(sv)
    ensures Head(sv.blocks, 1, votes, min) == 1
  {
    assert Kids(sv.blocks, 0, votes, min, 1) == {};
  }

  ghost function At(registry: seq<Validator>, time: U64): StoreValue {
    GenesisStore(registry).(time := time)
  }

  ghost function Ticks(k: nat): seq<StoreOp> {
    seq(k, _ => Tick(false))
  }

  lemma IdleTick(registry: seq<Validator>, time: U64)
    requires |registry| <= VALIDATOR_REGISTRY_LIMIT && time < U64_MAX && Healthy(At(registry, time), registry)
    ensures Act(SlotHashes(), At(registry, time), Tick(false)) == At(registry, time + 1)
    ensures Healthy(At(registry, time + 1), registry)
  {
    hide StoreInv, SlotsDescend, Head, SoundHashes;
    var sv, t := At(registry, time), At(registry, time + 1);
    ClockKeepsInvariant(SlotHashes(), sv, t, 1, registry);
    HealthyStore(t, registry);
    AloneHead(t, registry, VoteHeads(map[]), 0);
    AloneHead(t, registry, VoteHeads(map[]), SafeThreshold(|t.states[1].validators|));
    assert t.known + t.pending == t.known;
  }

  /** A node without peers: the clock runs and nothing else changes. */
  lemma {:induction false} IdleTicks(registry: seq<Validator>, k: nat)
    requires |registry| <= VALIDATOR_REGISTRY_LIMIT && k <= U64_MAX
    ensures Reaches(SlotHashes(), GenesisStore(registry), Ticks(k), At(registry, k)) && Healthy(At(registry, k), registry)
  {
    hide Act, Healthy, GenesisStore;
    GenesisStoreHealthy(registry);
    if k == 0 {
      GenesisTime(registry);
    } else {
      IdleTicks(registry, k - 1);
      IdleTick(registry, k - 1);
      HealthyOne(At(registry, k - 1), registry);
      ReachesOne(SlotHashes(), At(registry, k - 1), Tick(false));
      ReachesAppend(SlotHashes(), GenesisStore(registry), Ticks(k - 1), At(registry, k - 1),
                    [Tick(false)], At(registry, k));
      assert Ticks(k - 1) + [Tick(false)] == Ticks(k);
    }
  }

  lemma HealthyOne(sv: StoreValue, registry: seq<Validator>)
    requires Healthy(sv, registry)
    ensures CanDescend(sv) && sv.head in sv.states
  {
  }

  lemma GenesisTime(registry: seq<Validator>)
    ensures GenesisStore(registry).time == 0
  {
  }

  // ---------------------------------------------------------------- states along a chain

  ghost predicate Holds(s: State, slot: Slot, history: seq<Root>, w: Work) {
    PendingWellSized(s) && s.slot == s.header.slot == slot && s.history == history && StartWork(s) == w
  }

  /** `x` is what a child at `slot` starts its votes from, given its parent's copies `w`. */
  ghost predicate Starts(w: Work, parentSlot: Slot, parent: Root, slot: Slot, x: Work) {
    var first := parentSlot == 0;
    && slot > parentSlot && x.table == w.table
    && x.bits == w.bits + [first] + Unset(slot - parentSlot - 1)
    && x.justified == (if first then w.justified.(root := parent) else w.justified)
    && x.finalized == (if first then w.finalized.(root := parent) else w.finalized)
  }

  /** The votes take the working copies `x` to `u`. */
  ghost predicate Casts(history: seq<Root>, n: nat, x: Work, votes: seq<SignedAttestation>, u: Work) {
    RowsOfLength(x.table, n) && ApplyVotes(history, n, x, Messages(votes)) == Ok(u)
  }

  lemma NextState(
      h: Hashes, p: State, headRoot: Root, slot: Slot, validator: U64, votes: seq<SignedAttestation>,
      parentSlot: Slot, history: seq<Root>, w: Work)
    returns (x: Work, u: Work)
    requires ChainInv(h, p) && p.slot == p.header.slot && |p.validators| <= VALIDATOR_REGISTRY_LIMIT
    requires Candidate(h, headRoot, slot, validator, p, votes).Ok? && Holds(p, parentSlot, history, w)
    ensures Starts(w, parentSlot, headRoot, slot, x)
    ensures var after := history + [headRoot] + Zeros(slot - parentSlot - 1);
            && Casts(after, |p.validators|, x, votes, u)
            && Holds(Candidate(h, headRoot, slot, validator, p, votes).value, slot, after, u)
  {
    hide ChainInv, Candidate, ApplyVotes, PendingTable, Messages;
    CandidateWork(h, headRoot, slot, validator, p, votes);
    CandidateSlot(h, headRoot, slot, validator, p, votes);
    x, u := ChildWork(p, headRoot, slot), StartWork(Candidate(h, headRoot, slot, validator, p, votes).value);
  }

  lemma CandidateSlot(h: Hashes, headRoot: Root, slot: Slot, validator: U64, p: State, votes: seq<SignedAttestation>)
    requires p.slot == p.header.slot && Candidate(h, headRoot, slot, validator, p, votes).Ok?
    ensures var post := Candidate(h, headRoot, slot, validator, p, votes).value; post.slot == post.header.slot == slot
  {
    hide Candidate, StateTransition;
    CandidateReplays(h, headRoot, slot, validator, p, votes);
    var post := Candidate(h, headRoot, slot, validator, p, votes).value;
    TransitionSeals(h, p, CandidateBlock(headRoot, slot, validator, votes).(stateRoot := h.state(post)));
  }

  /** `parent` is tracked at its slot with this history and these working copies. */
  ghost predicate Tip(sv: StoreValue, parent: Root, slot: Slot, history: seq<Root>, w: Work) {
    && parent in sv.blocks && parent in sv.states && sv.blocks[parent].slot == slot
    && Holds(sv.states[parent], slot, history, w)
  }

  ghost predicate Imports(sv: StoreValue, b: Block, post: State, sv': StoreValue) {
    sv' == WithBlock(sv, b, post) && Reaches(SlotHashes(), sv, [Import(b)], sv')
  }

  /** One import on a healthy store, with the new state's contents. */
  lemma Extend(
      sv: StoreValue, registry: seq<Validator>, parent: Root, slot: Slot, validator: U64,
      votes: seq<SignedAttestation>, parentSlot: Slot, history: seq<Root>, w: Work)
    returns (sv': StoreValue, post: State, x: Work, u: Work)
    requires Healthy(sv, registry) && Tip(sv, parent, parentSlot, history, w) && slot + 1 !in sv.blocks
    requires MayPropose(parentSlot, |registry|, slot, validator)
    requires forall a :: a in votes ==> FitsSlot(a.message, slot, |registry|)
    ensures Healthy(sv', registry) && Imports(sv, ChildBlock(parent, slot, validator, votes), post, sv')
    ensures Starts(w, parentSlot, parent, slot, x)
    ensures var after := history + [parent] + Zeros(slot - parentSlot - 1);
            Casts(after, |registry|, x, votes, u) && Tip(sv', slot + 1, slot, after, u)
    ensures post.justified == u.justified && post.finalized == u.finalized
  {
    hide StoreInv, ChainInv, Candidate, Casts, Starts, Messages, CanDescend, ImportBlock, FitsSlot, PendingTable;
    var b := ChildBlock(parent, slot, validator, votes);
    post := ImportChild(sv, 1, registry, parent, slot, validator, votes);
    sv' := ImportBlock(SlotHashes(), sv, b);
    x, u := NextState(SlotHashes(), sv.states[parent], parent, slot, validator, votes, parentSlot, history, w);
    HealthyStore(sv', registry);
    ReachesOne(SlotHashes(), sv, Import(b));
  }

  lemma NoVotes(history: seq<Root>, n: nat, x: Work, u: Work)
    requires Casts(history, n, x, [], u)
    ensures u == x
  {
    assert Messages([]) == [];
  }

  // ---------------------------------------------------------------- a vote its own node refuses

  /** The lone validator's vote that justifies slot 2 without finalizing anything. */
  function SoloLink(): SignedAttestation {
    SignedAttestation(Attestation(0, AttestationData(2, Checkpoint(3, 2), Checkpoint(3, 2), Checkpoint(1, 0))), 0)
  }

  function SoloBlock(slot: Slot): Block {
    ChildBlock(slot, slot, 0, if slot == 3 then [SoloLink()] else [])
  }

  ghost function SoloGenesis(): Block {
    GenesisBlock(SlotHashes(), GenesisState(SlotHashes(), 0, SOLO))
  }

  /** Nothing voted, nothing finalized, the clock at slot 4. */
  ghost predicate Fresh(sv: StoreValue, justified: Checkpoint) {
    && sv.justified == justified && sv.finalized == Checkpoint(1, 0)
    && sv.known == map[] && sv.pending == map[] && sv.head == sv.safeTarget == 1 && sv.time == 16
  }

  lemma SoloStart()
    ensures At(SOLO, 16).blocks == map[1 := SoloGenesis()] && Fresh(At(SOLO, 16), Checkpoint(1, 0))
    ensures Tip(At(SOLO, 16), 1, 0, [], Work(map[], [], ZERO_CHECKPOINT, ZERO_CHECKPOINT))
  {
  }

  /** The working copies of the chain's states until slot 2 is justified. */
  ghost predicate Unvoted(w: Work, bits: seq<bool>) {
    w.table == map[] && w.bits == bits && w.justified == w.finalized == Checkpoint(1, 0)
  }

  /** The first two blocks. */
  lemma SoloTwo() returns (sv: StoreValue, w: Work)
    ensures Healthy(sv, SOLO) && Reaches(SlotHashes(), At(SOLO, 16), [Import(SoloBlock(1)), Import(SoloBlock(2))], sv)
    ensures sv.blocks == map[1 := SoloGenesis(), 2 := SoloBlock(1), 3 := SoloBlock(2)] && Fresh(sv, Checkpoint(1, 0))
    ensures Tip(sv, 3, 2, [1, 2], w) && Unvoted(w, [true, false])
  {
    hide Healthy, Tip, Reaches, At, SoloGenesis, Casts, SoloLink;
    IdleTicks(SOLO, 16);
    SoloStart();
    var sv0 := At(SOLO, 16);
    var sv1, p1, x1, w1 := Extend(sv0, SOLO, 1, 1, 0, [], 0, [], Work(map[], [], ZERO_CHECKPOINT, ZERO_CHECKPOINT));
    assert [] + [1] + Zeros(0) == [1];
    NoVotes([1], 1, x1, w1);
    assert Unvoted(w1, [true]);
    var sv2, p2, x2, w2 := Extend(sv1, SOLO, 2, 2, 0, [], 1, [1], w1);
    assert [1] + [2] + Zeros(0) == [1, 2];
    NoVotes([1, 2], 1, x2, w2);
    ReachesAppend(SlotHashes(), sv0, [Import(SoloBlock(1))], sv1, [Import(SoloBlock(2))], sv2);
    assert [Import(SoloBlock(1))] + [Import(SoloBlock(2))] == [Import(SoloBlock(1)), Import(SoloBlock(2))];
    sv, w := sv2, w2;
  }

  /** The vote justifies slot 2; its source, slot 0, is final already. */
  lemma SoloLinkCast(x: Work, u: Work)
    requires Unvoted(x, [true, false, false]) && Casts([1, 2, 3], 1, x, [SoloLink()], u)
    ensures u == Work(map[], [true, false, true], Checkpoint(3, 2), Checkpoint(1, 0))
  {
    Near();
    hide JustifiableAfter, ApplyVote;
    var att := SoloLink().message;
    assert Messages([SoloLink()]) == [att] && [att][..0] == [];
    assert ApplyVotes([1, 2, 3], 1, x, []) == Ok(x);
    LoneVote([1, 2, 3], x, att);
  }

  ghost function SoloBlocks(): Blocks {
    map[1 := SoloGenesis(), 2 := SoloBlock(1), 3 := SoloBlock(2), 4 := SoloBlock(3), 5 := SoloBlock(4)]
  }

  /** The last two blocks, the first of them with the vote. */
  lemma SoloFour(sv: StoreValue, w: Work) returns (sv': StoreValue)
    requires Healthy(sv, SOLO) && Tip(sv, 3, 2, [1, 2], w) && Unvoted(w, [true, false])
    requires sv.blocks == map[1 := SoloGenesis(), 2 := SoloBlock(1), 3 := SoloBlock(2)] && Fresh(sv, Checkpoint(1, 0))
    ensures Healthy(sv', SOLO) && Reaches(SlotHashes(), sv, [Import(SoloBlock(3)), Import(SoloBlock(4))], sv')
    ensures sv'.blocks == SoloBlocks() && Fresh(sv', Checkpoint(3, 2))
  {
    hide Healthy, Tip, Reaches, SoloGenesis, Casts, SoloLink;
    SoloLinkFits();
    var sv3, p3, x3, w3 := Extend(sv, SOLO, 3, 3, 0, [SoloLink()], 2, [1, 2], w);
    assert [1, 2] + [3] + Zeros(0) == [1, 2, 3];
    SoloLinkCast(x3, w3);
    var sv4, p4, x4, w4 := Extend(sv3, SOLO, 4, 4, 0, [], 3, [1, 2, 3], w3);
    assert [1, 2, 3] + [4] + Zeros(0) == [1, 2, 3, 4];
    NoVotes([1, 2, 3, 4], 1, x4, w4);
    ReachesAppend(SlotHashes(), sv, [Import(SoloBlock(3))], sv3, [Import(SoloBlock(4))], sv4);
    assert [Import(SoloBlock(3))] + [Import(SoloBlock(4))] == [Import(SoloBlock(3)), Import(SoloBlock(4))];
    sv' := sv4;
  }

  lemma SoloLinkFits()
    ensures FitsSlot(SoloLink().message, 3, 1)
  {
  }

  lemma SoloParents()
    ensures var b := SoloBlocks();
            && b[1].slot == 0 && b[1].parentRoot == 0 && b[2].slot == 1 && b[2].parentRoot == 1
            && b[3].slot == 2 && b[3].parentRoot == 2 && b[4].slot == 3 && b[4].parentRoot == 3
            && b[5].slot == 4 && b[5].parentRoot == 4 && b.Keys == {1, 2, 3, 4, 5}
            && ParentsAbove(b, 0)
  {
  }

  lemma SoloDescends()
    ensures SlotsDescend(SoloBlocks())
  {
  }

  /** From slot 2 the head is the end of the chain. */
  lemma SoloHead()
    ensures SlotsDescend(SoloBlocks()) && Head(SoloBlocks(), 3, map[], 0) == 5
  {
    hide Head, SoloBlocks, Descend, Ancestor, Kids, ParentsAbove;
    SoloParents();
    var b := SoloBlocks();
    SoloDescends();
    DescendReaches(b, 2, map[], 0, 3);
    HeadFrom(b, 3, map[], 0);
    var d := Descend(b, 2, map[], 0, 3);
    assert b[2].parentRoot != d && b[3].parentRoot != d && b[4].parentRoot != d && b[5].parentRoot != d;
  }

  lemma HeadFrom(blocks: Blocks, root: Root, votes: Votes, min: nat)
    requires SlotsDescend(blocks) && root in blocks && root != ZERO_ROOT
    ensures Head(blocks, root, votes, min) == Descend(blocks, blocks[root].slot, votes, min, root)
  {
  }

  /** Three steps back from slot 4, past the justified slot 2, to slot 1. */
  lemma SoloTarget(sv: StoreValue)
    requires sv.blocks == SoloBlocks() && sv.head == 5 && sv.safeTarget == 1 && sv.finalized == Checkpoint(1, 0)
    ensures ParentsAbove(sv.blocks, 0) && VoteTargetOf(sv, 0) == 2
  {
    hide SoloBlocks;
    SoloParents();
    Near();
    var b := sv.blocks;
    assert WalkToFloor(b, 0, 0, 0, 2) == 2;
    assert WalkToFloor(b, 0, 0, 1, 3) == 2;
    assert WalkToFloor(b, 0, 0, 2, 4) == 2;
    assert WalkToFloor(b, 0, 0, 3, 5) == 2;
    assert Walk1(sv, 0) == 2;
  }

  function SoloOps(): seq<StoreOp> {
    [Import(SoloBlock(1)), Import(SoloBlock(2))] + [Import(SoloBlock(3)), Import(SoloBlock(4))] + [Accept]
  }

  /** A node that comes up at slot 4 and then imports the four blocks before it: slot 2 is
      justified, the safe target and finality are still at genesis, the head is at slot 4.
      Its vote for this slot has its target at slot 1, below its source, and the node's own
      validation refuses it. */
  lemma OwnVoteRefused() returns (end: StoreValue)
    ensures Reaches(SlotHashes(), GenesisStore(SOLO), Ticks(16) + SoloOps(), end)
    ensures StoreInv(SlotHashes(), end, 1, SOLO)
    ensures end.justified == Checkpoint(3, 2) && end.finalized == Checkpoint(1, 0) && end.safeTarget == 1
    ensures end.head == 5 && end.time / INTERVALS_PER_SLOT == 4
    ensures end.blocks == SoloBlocks() && ParentsAbove(end.blocks, 0) && VoteTargetOf(end, 0) == 2
    ensures VoteError(end, AttestationData(4, Checkpoint(5, 4), Checkpoint(2, 1), end.justified)) ==
            Some(SourceSlotExceedsTarget)
  {
    hide StoreInv, Reaches, SoloBlocks, SoloBlock, GenesisStore, At, SoloGenesis, Ticks, SlotsDescend, Head;
    IdleTicks(SOLO, 16);
    var two, w := SoloTwo();
    var four := SoloFour(two, w);
    SoloHead();
    end := Act(SlotHashes(), four, Accept);
    assert four.known + four.pending == map[] && VoteHeads(map[]) == map[];
    ReachesOne(SlotHashes(), four, Accept);
    var h := SlotHashes();
    var i, j := [Import(SoloBlock(1)), Import(SoloBlock(2))], [Import(SoloBlock(3)), Import(SoloBlock(4))];
    ReachesAppend(h, At(SOLO, 16), i, two, j, four);
    ReachesAppend(h, At(SOLO, 16), i + j, four, [Accept], end);
    ReachesAppend(h, GenesisStore(SOLO), Ticks(16), At(SOLO, 16), SoloOps(), end);
    AcceptHealthy(four, SOLO);
    SoloParents();
    SoloTarget(end);
  }

  lemma AcceptHealthy(sv: StoreValue, registry: seq<Validator>)
    requires Healthy(sv, registry)
    ensures StoreInv(SlotHashes(), Act(SlotHashes(), sv, Accept), 1, registry)
  {
    hide StoreInv, SoundHashes;
    SoundHashesExist();
    AcceptKeepsInvariant(SlotHashes(), sv, 1, registry);
  }

  // ---------------------------------------------------------------- a block that cannot be built

  const TRIO: seq<Validator> := [Validator(0, 0), Validator(1, 1), Validator(2, 2)]

  /** Two validators vote for the block of slot 1. */
  function NearVote(v: U64): SignedAttestation {
    SignedAttestation(Attestation(v, AttestationData(1, Checkpoint(2, 1), Checkpoint(1, 0), Checkpoint(1, 0))), 0)
  }

  /** The third votes for the block of slot 3, one slot ahead of the clock. */
  function FarVote(): SignedAttestation {
    SignedAttestation(Attestation(2, AttestationData(3, Checkpoint(4, 3), Checkpoint(4, 3), Checkpoint(1, 0))), 0)
  }

  function TrioPool(): Pool {
    map[0 := NearVote(0), 1 := NearVote(1), 2 := FarVote()]
  }

  ghost function TrioGenesis(): Block {
    GenesisBlock(SlotHashes(), GenesisState(SlotHashes(), 0, TRIO))
  }

  ghost function TrioBlocks(): Blocks {
    map[1 := TrioGenesis(), 2 := ChildBlock(1, 1, 1, []), 4 := ChildBlock(1, 3, 0, [])]
  }

  lemma TrioParents()
    ensures var b := TrioBlocks();
            && b.Keys == {1, 2, 4} && b[1].slot == 0 && b[1].parentRoot == 0
            && b[2].slot == 1 && b[2].parentRoot == 1 && b[4].slot == 3 && b[4].parentRoot == 1
            && SlotsDescend(b)
  {
  }

  lemma TrioStart()
    ensures var sv := At(TRIO, 8);
            && sv.blocks == map[1 := TrioGenesis()] && sv.justified == sv.finalized == Checkpoint(1, 0)
            && sv.known == map[] && sv.pending == map[] && sv.head == 1 && sv.time == 8
            && Tip(sv, 1, 0, [], Work(map[], [], ZERO_CHECKPOINT, ZERO_CHECKPOINT))
  {
  }

  /** Two blocks on genesis, at slots 1 and 3. */
  ghost predicate TrioFork(sv: StoreValue, w: Work) {
    && Healthy(sv, TRIO) && sv.blocks == TrioBlocks() && sv.justified == Checkpoint(1, 0)
    && sv.head == 1 && sv.time == 8 && Tip(sv, 2, 1, [1], w) && Unvoted(w, [true])
  }

  function TrioImports(): seq<StoreOp> {
    [Import(ChildBlock(1, 1, 1, [])), Import(ChildBlock(1, 3, 0, []))]
  }

  lemma TrioForks() returns (sv: StoreValue, w: Work)
    ensures TrioFork(sv, w) && sv.known == map[] && sv.pending == map[]
    ensures Reaches(SlotHashes(), At(TRIO, 8), TrioImports(), sv)
  {
    hide Healthy, Holds, Reaches, At, TrioGenesis, Casts;
    IdleTicks(TRIO, 8);
    TrioStart();
    var sv0, w0 := At(TRIO, 8), Work(map[], [], ZERO_CHECKPOINT, ZERO_CHECKPOINT);
    var sv1, p1, x1, w1 := Extend(sv0, TRIO, 1, 1, 1, [], 0, [], w0);
    assert [] + [1] + Zeros(0) == [1];
    NoVotes([1], 3, x1, w1);
    var sv3, p3, x3, w3 := Extend(sv1, TRIO, 1, 3, 0, [], 0, [], w0);
    NoVotes([] + [1] + Zeros(2), 3, x3, w3);
    var a, b := Import(ChildBlock(1, 1, 1, [])), Import(ChildBlock(1, 3, 0, []));
    ReachesAppend(SlotHashes(), sv0, [a], sv1, [b], sv3);
    assert [a] + [b] == TrioImports();
    sv, w := sv3, w1;
  }

  /** A gossip vote the store takes. */
  lemma TrioVote(sv: StoreValue, w: Work, x: SignedAttestation) returns (sv': StoreValue)
    requires TrioFork(sv, w) && x in [NearVote(0), NearVote(1), FarVote()] && x.message.validatorId !in sv.pending
    ensures sv' == sv.(pending := sv.pending[x.message.validatorId := x]) && TrioFork(sv', w)
    ensures Reaches(SlotHashes(), sv, [StoreOp.Attest(x, false)], sv')
  {
    hide StoreInv, CanDescend, Holds, Reaches, VoteError, TrioBlocks;
    TrioParents();
    AcceptedVoteIsSound(sv, x.message.data);
    HeadHasState(SlotHashes(), sv, 1, TRIO);
    AttestKeepsInvariant(SlotHashes(), sv, 1, TRIO, x, false);
    sv' := Act(SlotHashes(), sv, StoreOp.Attest(x, false));
    HealthyStore(sv', TRIO);
    ReachesOne(SlotHashes(), sv, StoreOp.Attest(x, false));
  }

  lemma TrioHead(votes: Votes)
    requires votes == VoteHeads(TrioPool())
    ensures SlotsDescend(TrioBlocks()) && Head(TrioBlocks(), 1, votes, 0) == 2
  {
    hide TrioBlocks;
    TrioParents();
    var b := TrioBlocks();
    assert VotersFor(b, 0, votes, votes.Keys, 2) == {0, 1};
    assert VotersFor(b, 0, votes, votes.Keys, 4) == {2};
    var kids := Kids(b, 0, votes, 0, 1);
    assert kids == {2, 4};
    var best := Best(b, 0, votes, kids);
    assert Beats(Weight(b, 0, votes, best), best, Weight(b, 0, votes, 2), 2);
    assert best == 2;
    assert Kids(b, 0, votes, 0, 2) == {};
  }

  ghost function TrioDraft(sv: StoreValue): Draft
    requires 2 in sv.states
  {
    Draft(2, 2, 2, sv.states[2])
  }

  /** The store once the three votes are promoted. */
  ghost predicate TrioEnd(sv: StoreValue, w: Work) {
    && Healthy(sv, TRIO) && sv.blocks == TrioBlocks() && sv.head == 2 && sv.known == TrioPool()
    && Tip(sv, 2, 1, [1], w) && Unvoted(w, [true])
  }

  /** The proposer of slot 2 may build on the head, and without votes can. */
  lemma TrioMayBuild(sv: StoreValue, w: Work)
    requires TrioEnd(sv, w)
    ensures MayPropose(sv.blocks[2].slot, |TRIO|, 2, 2) && Grounded(sv, TrioDraft(sv))
    ensures Build(SlotHashes(), TrioDraft(sv), []).Ok?
    ensures Build(SlotHashes(), TrioDraft(sv), []).value.justified == Checkpoint(1, 0)
  {
    hide StoreInv, ChainInv, Candidate, CanDescend, TrioBlocks, TrioPool, Casts, SoundHashes, PendingTable;
    var h, d := SlotHashes(), TrioDraft(sv);
    TrioParents();
    SoundHashesExist();
    NothingFolded(h, sv, d);
    FoldedCandidateIff(h, sv, 1, TRIO, d, []);
    GroundedState(h, sv, 1, TRIO, d);
    var x, u := NextState(h, d.state, 2, 2, 2, [], 1, [1], w);
    NoVotes([1] + [2] + Zeros(0), 3, x, u);
  }

  lemma TrioIncludable(sv: StoreValue, w: Work, post: State)
    requires TrioEnd(sv, w) && post.justified == Checkpoint(1, 0)
    ensures forall v :: v in sv.known ==> Includable(sv, post, [], sv.known[v])
  {
    hide Healthy, Holds;
  }

  /** Whatever the loop collects first holds the far vote, and then the candidate fails. */
  lemma {:induction false} TrioFolds(sv: StoreValue, w: Work, votes: seq<SignedAttestation>)
    requires TrioEnd(sv, w) && Folded(SlotHashes(), sv, TrioDraft(sv), votes)
    ensures votes == [] || Build(SlotHashes(), TrioDraft(sv), votes).Err?
    decreases |votes|
  {
    hide StoreInv, SoundHashes, CanDescend, Build, Holds, TrioBlocks, Includable, MayPropose;
    var h, d := SlotHashes(), TrioDraft(sv);
    if votes != [] {
      var k :| LastRound(h, sv, d, votes, k) && Folded(h, sv, d, votes[..k]);
      TrioFolds(sv, w, votes[..k]);
      assert votes[..k] == [] && votes[k..] == votes;
      TrioMayBuild(sv, w);
      TrioIncludable(sv, w, Build(h, d, []).value);
      FoldedVotes(h, sv, d, votes);
      PooledVotesBounded(sv.known, votes);
      assert sv.known[2] in votes && Late(votes, 2);
      SoundHashesExist();
      FoldedCandidateIff(h, sv, 1, TRIO, d, votes);
    }
  }

  /** The three votes are one round, in any order the pool is read. */
  lemma TrioRound(sv: StoreValue, w: Work)
    requires TrioEnd(sv, w)
    ensures Folded(SlotHashes(), sv, TrioDraft(sv), [NearVote(0), NearVote(1), FarVote()])
  {
    hide StoreInv, CanDescend, Build, Holds, TrioBlocks, Includable, Folded, MayPropose;
    var h, d, out := SlotHashes(), TrioDraft(sv), [NearVote(0), NearVote(1), FarVote()];
    TrioMayBuild(sv, w);
    var post := Build(h, d, []).value;
    TrioIncludable(sv, w, post);
    NothingFolded(h, sv, d);
    assert sv.known[0] == out[0] && sv.known[1] == out[1] && sv.known[2] == out[2];
    assert Round(sv, post, [], out);
    FoldAgain(h, sv, d, [], out);
    assert [] + out == out;
  }

  function TrioOps(): seq<StoreOp> {
    TrioImports() + [StoreOp.Attest(NearVote(0), false)] + [StoreOp.Attest(NearVote(1), false)]
    + [StoreOp.Attest(FarVote(), false)] + [Accept]
  }

  lemma TrioReaches() returns (end: StoreValue, w: Work)
    ensures Reaches(SlotHashes(), GenesisStore(TRIO), Ticks(8) + TrioOps(), end) && TrioEnd(end, w)
  {
    hide Healthy, Holds, Reaches, TrioBlocks, GenesisStore, At, Ticks, TrioImports, Head, SlotsDescend, NearVote, FarVote;
    var h, start := SlotHashes(), At(TRIO, 8);
    IdleTicks(TRIO, 8);
    VotersDiffer();
    var sv0, w0 := TrioForks();
    var sv1 := TrioVote(sv0, w0, NearVote(0));
    var sv2 := TrioVote(sv1, w0, NearVote(1));
    var sv3 := TrioVote(sv2, w0, FarVote());
    var a, b := StoreOp.Attest(NearVote(0), false), StoreOp.Attest(NearVote(1), false);
    var c := StoreOp.Attest(FarVote(), false);
    ReachesAppend(h, start, TrioImports(), sv0, [a], sv1);
    ReachesAppend(h, start, TrioImports() + [a], sv1, [b], sv2);
    ReachesAppend(h, start, TrioImports() + [a] + [b], sv2, [c], sv3);
    HealthyOne(sv3, TRIO);
    end, w := Act(h, sv3, Accept), w0;
    ReachesOne(h, sv3, Accept);
    ReachesAppend(h, start, TrioImports() + [a] + [b] + [c], sv3, [Accept], end);
    ReachesAppend(h, GenesisStore(TRIO), Ticks(8), start, TrioOps(), end);
    assert sv3.known + sv3.pending == TrioPool();
    TrioHead(VoteHeads(TrioPool()));
    AcceptHealthy(sv3, TRIO);
    HealthyStore(end, TRIO);
  }

  lemma VotersDiffer()
    ensures NearVote(0).message.validatorId == 0 && NearVote(1).message.validatorId == 1
    ensures FarVote().message.validatorId == 2
  {
  }

  /** At slot 2 of the clock, with two blocks on genesis: the head is the block of slot 1,
      the validator of slot 2 may propose on it, and yet no order in which the loop can read
      the pool ends in a block: the first round takes in a vote for slot 3. */
  lemma ProposerCannotBuild() returns (end: StoreValue)
    ensures Reaches(SlotHashes(), GenesisStore(TRIO), Ticks(8) + TrioOps(), end)
    ensures StoreInv(SlotHashes(), end, 1, TRIO) && end.head == 2 && 2 in end.blocks && 2 in end.states
    ensures MayPropose(end.blocks[2].slot, |TRIO|, 2, 2) && Grounded(end, TrioDraft(end))
    ensures Folded(SlotHashes(), end, TrioDraft(end), [NearVote(0), NearVote(1), FarVote()])
    ensures Build(SlotHashes(), TrioDraft(end), [NearVote(0), NearVote(1), FarVote()]).Err?
    ensures forall votes, post ::
              (Folded(SlotHashes(), end, TrioDraft(end), votes) &&
               Build(SlotHashes(), TrioDraft(end), votes) == Ok(post)) ==> !Converged(end, votes, post)
  {
    hide StoreInv, Reaches, CanDescend, Build, Folded, TrioBlocks, TrioOps, NearVote, FarVote, MayPropose;
    var w: Work;
    end, w := TrioReaches();
    TrioMayBuild(end, w);
    TrioRound(end, w);
    TrioFolds(end, w, [NearVote(0), NearVote(1), FarVote()]);
    forall votes, post | Folded(SlotHashes(), end, TrioDraft(end), votes)
                         && Build(SlotHashes(), TrioDraft(end), votes) == Ok(post)
      ensures !Converged(end, votes, post)
    {
      TrioFolds(end, w, votes);
      TrioIncludable(end, w, post);
      assert 2 in end.known;
    }
  }
}
