/**
  The fork-choice store as the program holds it: an object whose methods update its
  clock, its vote pools and its block maps. Every method is proved to compute what
  module StoreValues says and to keep the store invariant.
 */
module LiveStore {
  import opened Containers
  import opened Collections
  import opened Justifiability
  import opened Transition
  import opened ChainInvariant
  import opened Sealing
  import opened LiveState
  import opened Ghost
  import opened SafeTarget
  import opened StoreValues
  import opened StoreInvariant
  import opened VoteTarget
  import opened ForkChoiceRule
  import opened StoreRule
  import opened Production
  import opened Convergence
  import opened VotePools

  datatype ProducedBlock = ProducedBlock(
    block: Block, root: Root, parentRoot: Root, postState: State, postStateRoot: Root)

  datatype ProducedVote = ProducedVote(vote: AttestationData, safeTarget: Root)

  class StoreObject {
    const h: Hashes
    ghost const anchor: Root
    ghost const registry: seq<Validator>

    var time: U64
    var genesisTime: U64
    var head: Root
    var safeTarget: Root
    var justified: Checkpoint
    var finalized: Checkpoint
    var blocks: Blocks
    var states: map<Root, State>
    var order: seq<Root>
    var known: Pool
    var pending: Pool

    function Value(): StoreValue
      reads this
    {
      StoreValue(time, genesisTime, head, safeTarget, justified, finalized, blocks, states, order, known, pending)
    }

    ghost predicate Valid()
      reads this
    {
      && SoundHashes(h) && StoreInv(h, Value(), anchor, registry)
      && CanDescend(Value()) && head in states
    }

    // -------------------------------------------------------------- construction

    constructor Seed(h: Hashes, s: State, b: Block, j: Checkpoint, f: Checkpoint)
      requires b.slot * INTERVALS_PER_SLOT <= U64_MAX
      ensures Value() == AnchorStore(h, s, b, j, f)
      ensures this.h == h && anchor == BlockRoot(h, b) && registry == s.validators
    {
      this.h := h;
      anchor := BlockRoot(h, b);
      registry := s.validators;
      time, genesisTime := b.slot * INTERVALS_PER_SLOT, s.genesisTime;
      head, safeTarget, justified, finalized := BlockRoot(h, b), BlockRoot(h, b), j, f;
      blocks, states, order := map[BlockRoot(h, b) := b], map[BlockRoot(h, b) := s], [BlockRoot(h, b)];
      known, pending := map[], map[];
    }

    /** `from_anchor`: checkpoints copied from the state, genesis defaults normalized. */
    static method FromAnchor(h: Hashes, s: State, b: Block)
      returns (r: Result<StoreObject, ForkchoiceError>)
      ensures b.stateRoot != h.state(s) ==> r == Err(AnchorStateRootMismatch(b.stateRoot, h.state(s)))
      ensures b.stateRoot == h.state(s) && b.slot * INTERVALS_PER_SLOT > U64_MAX ==> r == Err(AnchorTimeOverflow(b.slot))
      ensures b.stateRoot == h.state(s) && b.slot * INTERVALS_PER_SLOT <= U64_MAX ==>
                && r.Ok? && fresh(r.value)
                && r.value.Value() == AnchorStore(h, s, b, Normalize(s.justified, b.slot, BlockRoot(h, b)),
                                                  Normalize(s.finalized, b.slot, BlockRoot(h, b)))
      ensures r.Ok? ==>
                && r.value.time == 4 * b.slot && r.value.head == r.value.safeTarget == h.header(HeaderOf(h, b))
                && CopiedFrom(s.justified, b.slot, r.value.head, r.value.justified)
                && CopiedFrom(s.finalized, b.slot, r.value.head, r.value.finalized)
      ensures (&& SoundHashes(h) && |s.validators| <= VALIDATOR_REGISTRY_LIMIT
               && s == GenesisState(h, s.genesisTime, s.validators) && b == GenesisBlock(h, s)) ==>
                r.Ok? && r.value.Valid()
    {
      if b.stateRoot != h.state(s) { return Err(AnchorStateRootMismatch(b.stateRoot, h.state(s))); }
      if b.slot * INTERVALS_PER_SLOT > U64_MAX { return Err(AnchorTimeOverflow(b.slot)); }
      var root := BlockRoot(h, b);
      var store := new StoreObject.Seed(
        h, s, b, Normalize(s.justified, b.slot, root), Normalize(s.finalized, b.slot, root));
      if SoundHashes(h) && |s.validators| <= VALIDATOR_REGISTRY_LIMIT &&
         s == GenesisState(h, s.genesisTime, s.validators) && b == GenesisBlock(h, s)
      {
        GenesisStoreInvariant(h, s.genesisTime, s.validators);
        SafeTargetKeepsInvariant(h, store.Value(), store.anchor, store.registry);
      }
      r := Ok(store);
    }

    /** `from_trusted_head`: both checkpoints pinned to the anchor. */
    static method FromTrustedHead(h: Hashes, s: State, b: Block)
      returns (r: Result<StoreObject, ForkchoiceError>)
      ensures b.stateRoot != h.state(s) ==> r == Err(AnchorStateRootMismatch(b.stateRoot, h.state(s)))
      ensures b.stateRoot == h.state(s) && b.slot * INTERVALS_PER_SLOT > U64_MAX ==> r == Err(AnchorTimeOverflow(b.slot))
      ensures b.stateRoot == h.state(s) && b.slot * INTERVALS_PER_SLOT <= U64_MAX ==>
                && r.Ok? && fresh(r.value)
                && r.value.Value() == AnchorStore(h, s, b, Checkpoint(BlockRoot(h, b), b.slot),
                                                  Checkpoint(BlockRoot(h, b), b.slot))
      ensures r.Ok? ==>
                && r.value.time == 4 * b.slot && r.value.head == r.value.safeTarget == h.header(HeaderOf(h, b))
                && r.value.justified == r.value.finalized == Checkpoint(r.value.head, b.slot)
      ensures (&& b.slot * INTERVALS_PER_SLOT <= U64_MAX && SoundHashes(h) && Seals(h, b, s) && ChainInv(h, s)
               && |s.validators| <= VALIDATOR_REGISTRY_LIMIT) ==> r.Ok? && r.value.Valid()
    {
      if b.stateRoot != h.state(s) { return Err(AnchorStateRootMismatch(b.stateRoot, h.state(s))); }
      if b.slot * INTERVALS_PER_SLOT > U64_MAX { return Err(AnchorTimeOverflow(b.slot)); }
      var c := Checkpoint(BlockRoot(h, b), b.slot);
      var store := new StoreObject.Seed(h, s, b, c, c);
      if SoundHashes(h) && Seals(h, b, s) && ChainInv(h, s) && |s.validators| <= VALIDATOR_REGISTRY_LIMIT {
        AnchorInvariant(h, s, b, c);
        SafeTargetKeepsInvariant(h, store.Value(), store.anchor, store.registry);
      }
      r := Ok(store);
    }

    // -------------------------------------------------------------- head and clock

    method UpdateHead() returns (r: Result<(), ForkchoiceError>)
      requires Valid()
      modifies this`head
      ensures r.Ok? && Value() == StoreValues.UpdateHead(old(Value()))
      ensures SlotsDescend(blocks) && Heaviest(blocks, justified.root, known, head)
    {
      hide Heaviest, SoundHashes, StoreInv, SlotsDescend, Head, NoGap, Acyclic, AllWalksEnd, RunsOffAt,
           GreedyEnd, Weights, BySlot;
      HeadSelectionTotal(h, Value(), anchor, registry, VoteHeads(known));
      HeadRule(h, Value(), anchor, registry);
      var best := GetForkChoiceHead(BySlot(blocks), blocks, justified.root, VoteHeads(known), 0);
      match best {
        case Err(e) => return Err(e);
        case Ok(root) => head := root;
      }
      r := Ok(());
    }

    method AcceptNewVotes() returns (r: Result<(), ForkchoiceError>)
      requires Valid()
      modifies this`known, this`pending, this`head
      ensures Valid()
      ensures r.Ok? && Value() == StoreValues.AcceptNewVotes(old(Value()))
      ensures known == old(known) + old(pending) && pending == map[]
      ensures SlotsDescend(blocks) && Heaviest(blocks, justified.root, known, head)
    {
      hide SoundHashes, StoreInv, SlotsDescend, Head, Heaviest;
      ghost var before := Value();
      AcceptKeepsInvariant(h, before, anchor, registry);
      SafeTargetKeepsInvariant(h, StoreValues.AcceptNewVotes(before), anchor, registry);
      PromotionKeepsInvariant(h, before, anchor, registry);
      known, pending := known + pending, map[];
      r := UpdateHead();
    }

    method UpdateSafeTarget() returns (r: Result<(), ForkchoiceError>)
      requires Valid()
      modifies this`safeTarget
      ensures Valid()
      ensures r.Ok? && Value() == StoreValues.UpdateSafeTarget(old(Value()))
      ensures Safest(blocks, justified.root, pending, |registry|, safeTarget)
    {
      hide Safest, SoundHashes, StoreInv, SlotsDescend, Head, NoGap, Acyclic, AllWalksEnd, RunsOffAt,
           GreedyEnd, Weights, BySlot;
      ghost var before := Value();
      SafeTargetKeepsInvariant(h, before, anchor, registry);
      SafeTargetKeepsInvariant(h, StoreValues.UpdateSafeTarget(before), anchor, registry);
      HeadSelectionTotal(h, before, anchor, registry, VoteHeads(pending));
      SafeRule(h, before, anchor, registry);
      var min := SafeThreshold(|states[head].validators|);
      var best := GetForkChoiceHead(BySlot(blocks), blocks, justified.root, VoteHeads(pending), min);
      match best {
        case Err(e) => return Err(e);
        case Ok(root) => safeTarget := root;
      }
      r := Ok(());
    }

    method TickInterval(hasProposal: bool) returns (r: Result<(), ForkchoiceError>)
      requires Valid()
      modifies this`time, this`known, this`pending, this`head, this`safeTarget
      ensures Valid()
      ensures r.Err? <==> old(time) == U64_MAX
      ensures r.Err? ==> Value() == old(Value())
      ensures r.Ok? ==> StoreValues.TickInterval(old(Value()), hasProposal) == Ok(Value())
    {
      hide SoundHashes, StoreInv, SlotsDescend, StoreValues.AcceptNewVotes, StoreValues.UpdateSafeTarget;
      if time == U64_MAX { return Err(TimeOverflow(time)); }
      ghost var before := Value();
      ClockKeepsInvariant(h, before, before.(time := time + 1), anchor, registry);
      time := time + 1;
      match PhaseOf(time) {
        case Proposal => if hasProposal { r := AcceptNewVotes(); } else { r := Ok(()); }
        case Idle => r := Ok(());
        case RefreshSafeTarget => r := UpdateSafeTarget();
        case PromoteVotes => r := AcceptNewVotes();
      }
    }

    // -------------------------------------------------------------- attestations

    method ProcessAttestation(signed: SignedAttestation, fromBlock: bool) returns (r: Result<bool, ForkchoiceError>)
      requires Valid()
      modifies this`known, this`pending
      ensures Valid()
      ensures var o := StoreValues.ProcessAttestation(old(Value()), signed, fromBlock);
              && (o.Ok? ==> r == Ok(o.value.1) && Value() == o.value.0)
              && (o.Err? ==> r == Err(o.error) && Value() == old(Value()))
    {
      hide SoundHashes, StoreInv, SlotsDescend, VoteError, IndexError;
      AttestKeepsInvariant(h, Value(), anchor, registry, signed, fromBlock);
      var e1 := IndexError(Value(), signed.message.validatorId);
      if e1.Some? { return Err(e1.value); }
      var e2 := VoteError(Value(), signed.message.data);
      if e2.Some? { return Err(e2.value); }
      var v, slot := signed.message.validatorId, signed.message.data.slot;
      if fromBlock {
        var promoted, evicted := IsNewer(known, v, slot), IsOlder(pending, v, slot);
        if promoted { known := known[v := signed]; }
        if evicted { pending := pending - {v}; }
        return Ok(promoted || evicted);
      }
      var newer := IsNewer(pending, v, slot);
      if newer { pending := pending[v := signed]; }
      r := Ok(newer);
    }

    // -------------------------------------------------------------- blocks

    /** `track_block`. The invariant survives every pair the transition produced. */
    method TrackBlock(b: Block, post: State) returns (r: Result<bool, ForkchoiceError>)
      requires Valid()
      modifies this`blocks, this`states, this`order, this`justified, this`finalized
      ensures var o := StoreValues.TrackBlock(h, old(Value()), b, post);
              && (o.Ok? ==> r == Ok(o.value.1) && Value() == o.value.0)
              && (o.Err? ==> r == Err(o.error) && Value() == old(Value()))
      ensures Produced(h, old(Value()), b, post) ==> r.Ok? && Valid()
    {
      hide SoundHashes, StoreInv, SlotsDescend, Produced, BlockRoot, Adopt;
      ghost var before := Value();
      ghost var ok := Produced(h, before, b, post);
      if ok {
        TrackKeepsInvariant(h, before, anchor, registry, b, post);
        SafeTargetKeepsInvariant(h, StoreValues.TrackBlock(h, before, b, post).value.0, anchor, registry);
      }
      if b.stateRoot != h.state(post) { return Err(BlockStateRootMismatch(b.stateRoot, h.state(post))); }
      var root := BlockRoot(h, b);
      if root in blocks { return Ok(false); }
      if b.parentRoot != ZERO_ROOT && b.parentRoot !in blocks { return Err(ParentBlockNotFound(b.parentRoot)); }
      InsertBlock(root, b, post);
      AdoptCheckpoints(post.justified, post.finalized);
      r := Ok(true);
    }

    /** `insert_block` for a root not tracked yet. */
    method InsertBlock(root: Root, b: Block, post: State)
      modifies this`blocks, this`states, this`order
      ensures Value() == old(Value()).(blocks := old(blocks)[root := b], states := old(states)[root := post],
                                       order := old(order) + [root])
    {
      blocks := blocks[root := b];
      states := states[root := post];
      order := order + [root];
    }

    /** `adopt_post_state_checkpoints`. */
    method AdoptCheckpoints(j: Checkpoint, f: Checkpoint)
      modifies this`justified, this`finalized
      ensures Value() == old(Value()).(justified := Adopt(old(blocks), j, old(justified)),
                                       finalized := Adopt(old(blocks), f, old(finalized)))
    {
      if j.slot > justified.slot && j.root in blocks { justified := j; }
      if f.slot > finalized.slot && f.root in blocks { finalized := f; }
    }

    method GetProposalHead() returns (r: Result<Root, ForkchoiceError>)
      requires Valid()
      modifies this`known, this`pending, this`head
      ensures Valid()
      ensures Value() == StoreValues.AcceptNewVotes(old(Value())) && r == Ok(head)
    {
      var accepted := AcceptNewVotes();
      r := Ok(head);
    }

    // -------------------------------------------------------------- vote target

    /** `get_vote_target`: never a missing parent on a valid store; on the head's
        ancestry; justifiable whenever the finalized block is on that ancestry. */
    method GetVoteTarget() returns (r: Result<Checkpoint, ForkchoiceError>)
      requires Valid()
      ensures r.Ok? && Tracked(blocks, r.value) && Ancestor(blocks, r.value.root, head)
      ensures Ancestor(blocks, finalized.root, head) ==>
                r.value.slot >= finalized.slot && JustifiableAfter(r.value.slot, finalized.slot)
      ensures anchor in blocks && ParentsAbove(blocks, blocks[anchor].slot) && blocks[anchor].slot <= finalized.slot
      ensures head in blocks && safeTarget in blocks && r.value.root == VoteTargetOf(Value(), blocks[anchor].slot)
      ensures exists path, i ::
                && TargetPath(blocks, head, blocks[safeTarget].slot, finalized.slot, path, i)
                && path[|path| - 1] == r.value.root
    {
      hide TargetPath, SoundHashes, StoreInv, SlotsDescend, JustifiableAfter, Ancestor, WalkToFloor, WalkToJustifiable;
      StoreParents(h, Value(), anchor, registry);
      ReferencesTracked();
      ghost var low := blocks[anchor].slot;
      TargetProperties(Value(), low);
      ghost var path, i := TargetRule(Value(), low);
      PathNotEmpty(blocks, head, blocks[safeTarget].slot, finalized.slot, path, i);
      var floor := if blocks[safeTarget].slot > finalized.slot then blocks[safeTarget].slot else finalized.slot;
      var first := WalkTowardFloor(low, floor);
      var second := WalkUntilJustifiable(low, first.value);
      var cursor := second.value;
      r := Ok(Checkpoint(cursor, blocks[cursor].slot));
    }

    /** Walk 1: toward the safe target, within the lookback window. */
    method WalkTowardFloor(ghost low: nat, floor: nat) returns (r: Result<Root, ForkchoiceError>)
      requires ParentsAbove(blocks, low) && low <= floor && head in blocks
      ensures r == Ok(WalkToFloor(blocks, low, floor, JUSTIFICATION_LOOKBACK_SLOTS, head))
    {
      hide ParentsAbove;
      var cursor, steps := head, 0;
      while steps < JUSTIFICATION_LOOKBACK_SLOTS && blocks[cursor].slot > floor
        invariant cursor in blocks && steps <= JUSTIFICATION_LOOKBACK_SLOTS
        invariant WalkToFloor(blocks, low, floor, JUSTIFICATION_LOOKBACK_SLOTS - steps, cursor) ==
                  WalkToFloor(blocks, low, floor, JUSTIFICATION_LOOKBACK_SLOTS, head)
      {
        ParentLower(blocks, low, cursor);
        var parent := blocks[cursor].parentRoot;
        if parent !in blocks { return Err(ParentBlockNotFound(parent)); }
        cursor := parent;
        steps := steps + 1;
      }
      r := Ok(cursor);
    }

    /** Walk 2: back until the slot can be justified. */
    method WalkUntilJustifiable(ghost low: nat, start: Root) returns (r: Result<Root, ForkchoiceError>)
      requires ParentsAbove(blocks, low) && low <= finalized.slot && start in blocks
      ensures r == Ok(WalkToJustifiable(blocks, low, finalized.slot, start))
    {
      hide ParentsAbove, JustifiableAfter;
      var cursor := start;
      while blocks[cursor].slot > finalized.slot
        invariant cursor in blocks
        invariant WalkToJustifiable(blocks, low, finalized.slot, cursor) ==
                  WalkToJustifiable(blocks, low, finalized.slot, start)
        decreases blocks[cursor].slot
      {
        var justifiable := IsJustifiableAfter(blocks[cursor].slot, finalized.slot);
        if justifiable { break; }
        ParentLower(blocks, low, cursor);
        var parent := blocks[cursor].parentRoot;
        if parent !in blocks { return Err(ParentBlockNotFound(parent)); }
        cursor := parent;
      }
      r := Ok(cursor);
    }

    lemma ReferencesTracked()
      requires Valid()
      ensures head in blocks && safeTarget in blocks && Tracked(blocks, justified) && Tracked(blocks, finalized)
    {
      hide SoundHashes, ForestInv, CanDescend;
    }

    /** `produce_attestation_vote`. */
    method ProduceAttestationVote(slot: Slot) returns (r: Result<ProducedVote, ForkchoiceError>)
      requires Valid()
      modifies this`known, this`pending, this`head
      ensures Valid() && Value() == StoreValues.AcceptNewVotes(old(Value()))
      ensures r.Ok? && r.value.safeTarget == safeTarget
      ensures var vote := r.value.vote;
              && vote.slot == slot && vote.head.root == head && vote.source == justified
              && Tracked(blocks, vote.head) && Tracked(blocks, vote.target) && Tracked(blocks, vote.source)
              && Ancestor(blocks, vote.target.root, head)
              && anchor in blocks && ParentsAbove(blocks, blocks[anchor].slot) && blocks[anchor].slot <= finalized.slot
              && head in blocks && safeTarget in blocks
              && vote.target.root == VoteTargetOf(Value(), blocks[anchor].slot)
              && (VoteError(Value(), vote).None? <==>
                    justified.slot <= vote.target.slot && slot <= time / INTERVALS_PER_SLOT + 1)
    {
      var proposal := GetProposalHead();
      ReferencesTracked();
      var target := GetVoteTarget();
      r := Ok(ProducedVote(
        AttestationData(slot, Checkpoint(head, blocks[head].slot), target.value, justified), safeTarget));
      OwnVoteAcceptedIff(r.value.vote);
    }

    /** The store accepts a vote of its own shape exactly when the justified slot is not
        past the target's and the vote is at most one slot ahead of the clock. */
    lemma OwnVoteAcceptedIff(vote: AttestationData)
      requires Valid() && vote.source == justified && vote.head.root == head
      requires Tracked(blocks, vote.head) && Tracked(blocks, vote.target) && Ancestor(blocks, vote.target.root, head)
      ensures VoteError(Value(), vote).None? <==>
              justified.slot <= vote.target.slot && vote.slot <= time / INTERVALS_PER_SLOT + 1
    {
      hide SoundHashes, StoreInv, SlotsDescend, VoteError, Head;
      ReferencesTracked();
      JustifiedIsNotZero();
      AncestorSlot(blocks, vote.target.root, head);
      AcceptedVoteIsSound(Value(), vote);
    }

    lemma JustifiedIsNotZero()
      requires Valid()
      ensures justified.root != ZERO_ROOT
    {
      hide CanDescend, StatesReplay, TreeInv, OrderInv, ChainInv, Seals;
      assert PairInv(h, justified.root, blocks[justified.root], states[justified.root], registry);
    }

    // -------------------------------------------------------------- production

    /** `collect_includable_votes`: pooled votes in any order, up to the cap. */
    method CollectIncludableVotes(post: State, already: seq<SignedAttestation>) returns (out: seq<SignedAttestation>)
      requires KeyedByValidator(known)
      ensures Distinct(out) && (out != [] ==> |already| + |out| <= MAX_ATTESTATIONS)
      ensures forall x :: x in out ==> Includable(Value(), post, already, x)
      ensures |already| + |out| < MAX_ATTESTATIONS ==>
                forall v :: v in known && Includable(Value(), post, already, known[v]) ==> known[v] in out
    {
      out := [];
      if |already| >= MAX_ATTESTATIONS { return; }
      var cap := MAX_ATTESTATIONS - |already|;
      var left := known.Keys;
      while left != {} && |out| < cap
        invariant left <= known.Keys && |out| <= cap && Distinct(out)
        invariant forall x :: x in out ==> Includable(Value(), post, already, x) && x.message.validatorId !in left
        invariant forall v :: v in known && v !in left && Includable(Value(), post, already, known[v]) ==> known[v] in out
        decreases |left|
      {
        var v :| v in left;
        left := left - {v};
        var x := known[v];
        if x.message.data.target.root in blocks && x.message.data.source == post.justified && x !in already {
          assert x !in out;
          out := out + [x];
        }
      }
    }

    /** `build_candidate_block`: the candidate's post-state. */
    method BuildCandidate(headRoot: Root, slot: Slot, validator: U64, headState: State, votes: seq<SignedAttestation>)
      returns (r: Result<State, ForkchoiceError>)
      ensures r == Candidate(h, headRoot, slot, validator, headState, votes)
    {
      hide AdvanceSlots, ProcessBlockHeader, ProcessAttestations;
      var candidate := CandidateBlock(headRoot, slot, validator, votes);
      if headState.slot > slot { return Err(StateSlotAheadOfTarget(headState.slot, slot)); }
      var next := new StateObject(headState);
      if headState.slot < slot {
        var advanced := next.ProcessSlots(h, slot);
        match advanced {
          case Err(e) => return Err(StateTransitionFailed(e));
          case Ok(_) =>
        }
      }
      var header := next.ProcessBlockHeader(h, candidate);
      if header.Err? { return Err(StateTransitionFailed(header.error)); }
      var attested := next.ProcessAttestations(candidate.body);
      if attested.Err? { return Err(StateTransitionFailed(attested.error)); }
      r := Ok(next.Value());
    }

    /** `converge_attestations`: rebuild over the included votes and fold in what became
        includable, until nothing does or a candidate fails. */
    method ConvergeAttestations(d: Draft) returns (r: Result<(seq<SignedAttestation>, State), ForkchoiceError>)
      requires KeyedByValidator(known)
      ensures r.Ok? ==>
                && Folded(h, Value(), d, r.value.0) && Build(h, d, r.value.0) == Ok(r.value.1)
                && Converged(Value(), r.value.0, r.value.1)
      ensures r.Err? ==> exists votes :: Folded(h, Value(), d, votes) && Build(h, d, votes) == Err(r.error)
    {
      hide Candidate, Folded, Includable;
      var votes: seq<SignedAttestation> := [];
      NothingFolded(h, Value(), d);
      while true
        invariant Folded(h, Value(), d, votes) && |votes| <= |known|
        decreases |known| - |votes|
      {
        FoldedVotes(h, Value(), d, votes);
        var built := BuildCandidate(d.head, d.slot, d.validator, d.state, votes);
        assert Build(h, d, votes) == built;
        if built.Err? { return Err(built.error); }
        var additions := CollectIncludableVotes(built.value, votes);
        if additions == [] {
          NothingToAdd(Value(), built.value, votes);
          return Ok((votes, built.value));
        }
        FoldAgain(h, Value(), d, votes, additions);
        votes := votes + additions;
        FoldedVotes(h, Value(), d, votes);
        PooledVotesBounded(known, votes);
      }
    }

    /** `produce_block`: the returned block replays on the head's state with root
        checking on, and the store is exactly what importing it and promoting votes
        leaves. A failed call has only promoted votes. */
    method ProduceBlock(slot: Slot, validator: U64) returns (r: Result<ProducedBlock, ForkchoiceError>)
      requires Valid()
      modifies this
      ensures Valid()
      ensures r.Err? ==> Value() == StoreValues.AcceptNewVotes(old(Value()))
      ensures |registry| == 0 ==> r == Err(EmptyRegistry)
      ensures |registry| > 0 && slot % |registry| != validator ==> r == Err(UnauthorizedProposer(validator, slot))
      ensures r.Ok? ==>
                var mid := StoreValues.AcceptNewVotes(old(Value()));
                var b, post := r.value.block, r.value.postState;
                && mid.head in mid.states
                && StateTransition(h, mid.states[mid.head], b, true) == Done(post)
                && b.slot == slot && b.proposerIndex == validator && b.parentRoot == mid.head == r.value.parentRoot
                && r.value.root == BlockRoot(h, b) && r.value.root in blocks
                && r.value.postStateRoot == b.stateRoot == h.state(post)
                && (exists votes ::
                      && b.body == Messages(votes) && Converged(mid, votes, post)
                      && Folded(h, mid, Draft(mid.head, slot, validator, mid.states[mid.head]), votes))
                && Value() == ImportAndAccept(h, mid, b)
      ensures var mid := StoreValues.AcceptNewVotes(old(Value()));
              && mid.head in mid.blocks && mid.head in mid.states
              && var may := MayPropose(mid.blocks[mid.head].slot, |registry|, slot, validator);
                 && (r.Ok? ==> may && NoLateVote(mid, r.value.postState.justified, slot))
                 && (may && NoLateTarget(mid, slot) ==> r.Ok?)
                 && (may && r.Err? ==> LateFold(h, mid, Draft(mid.head, slot, validator, mid.states[mid.head])))
    {
      hide SoundHashes, StoreInv, SlotsDescend, CanDescend, Candidate, StateTransition, Heaviest, Folded, Converged,
           Messages, NoLateVote, LateFold, BlockRoot, StoreValues.AcceptNewVotes, StoreValues.TrackBlock;
      var proposal := GetProposalHead();
      ghost var mid := Value();
      var headRoot := head;
      var headState := states[headRoot];
      HeadFacts();
      if |headState.validators| == 0 { return Err(EmptyRegistry); }
      if slot % |headState.validators| != validator { return Err(UnauthorizedProposer(validator, slot)); }
      ghost var d := Draft(headRoot, slot, validator, headState);
      var converged := ConvergeAttestations(Draft(headRoot, slot, validator, headState));
      if converged.Err? {
        FailedFoldIsLate(h, mid, anchor, registry, d, converged.error);
        return Err(converged.error);
      }
      var votes, post := converged.value.0, converged.value.1;
      ConvergedHasNoLateVote(h, mid, anchor, registry, d, votes, post);
      CandidateReplays(h, headRoot, slot, validator, headState, votes);
      var b := CandidateBlock(headRoot, slot, validator, votes).(stateRoot := h.state(post));
      assert Produced(h, mid, b, post);
      TrackKeepsInvariant(h, mid, anchor, registry, b, post);
      var tracked := TrackBlock(b, post);
      var accepted := AcceptNewVotes();
      r := Ok(ProducedBlock(b, BlockRoot(h, b), headRoot, post, h.state(post)));
    }

    lemma HeadFacts()
      requires Valid()
      ensures head in states && states[head].slot == states[head].header.slot && KeyedByValidator(known)
      ensures head in blocks && states[head].validators == registry
    {
      hide SoundHashes, CanDescend, StatesReplay, TreeInv;
      assert PairInv(h, head, blocks[head], states[head], registry);
    }
  }

  /** The store after importing `b` and promoting the pending votes. */
  ghost function ImportAndAccept(h: Hashes, sv: StoreValue, b: Block): StoreValue {
    var t := ImportBlock(h, sv, b);
    if CanDescend(t) then StoreValues.AcceptNewVotes(t) else t
  }
}
