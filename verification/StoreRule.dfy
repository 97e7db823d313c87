/**
  What the calls of the store decide, told over the blocks, the pools and the clock: which
  votes are taken and where they are filed, which blocks are tracked and which checkpoints
  follow, and what time it is.
 */
module StoreRule {
  import opened Containers
  import opened Transition
  import opened Ghost
  import opened StoreValues
  import opened StoreInvariant

  // ---------------------------------------------------------------- votes

  /** A slot-0 vote with the all-zero source, for the slot-0 justified block. */
  ghost predicate Placeholder(sv: StoreValue, vote: AttestationData) {
    && vote.slot == 0 && vote.source == Checkpoint(0, 0)
    && vote.target == sv.justified == Checkpoint(sv.justified.root, 0) && Tracked(sv.blocks, sv.justified)
  }

  /** A vote is taken exactly when its head and target are tracked at their slots, its
      source is too or stands for the slot-0 anchor, the three slots are in order, and the
      vote is at most one slot ahead of a clock that counts four intervals a slot. */
  lemma VoteTakenIff(sv: StoreValue, vote: AttestationData)
    ensures VoteError(sv, vote).None? <==>
            && (Tracked(sv.blocks, vote.source) || Placeholder(sv, vote))
            && Tracked(sv.blocks, vote.target) && Tracked(sv.blocks, vote.head)
            && vote.source.slot <= vote.target.slot <= vote.head.slot
            && vote.slot <= sv.time / 4 + 1 && sv.time / 4 < U64_MAX
  {
  }

  /** Which error a refused vote gets: the first that applies of an unknown source, target
      or head, a source past its target, a head below it, a wrong slot of source, target or
      head, and the clock. */
  lemma FirstVoteError(sv: StoreValue, vote: AttestationData)
    ensures var e, b := VoteError(sv, vote), sv.blocks;
            var known := vote.source.root in b || Placeholder(sv, vote);
            && (!known ==> e == Some(UnknownSourceBlock(vote.source.root)))
            && (known && vote.target.root !in b ==> e == Some(UnknownTargetBlock(vote.target.root)))
            && (known && vote.target.root in b && vote.head.root !in b ==>
                  e == Some(UnknownAttestationHeadBlock(vote.head.root)))
            && (known && vote.target.root in b && vote.head.root in b && vote.source.slot > vote.target.slot ==>
                  e == Some(SourceSlotExceedsTarget))
            && (e == Some(SourceSlotExceedsTarget) ==>
                  || vote.source.slot > vote.target.slot
                  || (vote.source.root in b && vote.target.root in b
                      && b[vote.source.root].slot > b[vote.target.root].slot))
            && (e.Some? && e.value.HeadSlotBelowTarget? ==>
                  vote.head.slot < vote.target.slot && e.value == HeadSlotBelowTarget(vote.head.slot, vote.target.slot))
            && (e == Some(SourceCheckpointSlotMismatch) ==>
                  !Tracked(b, vote.source) && vote.head.slot >= vote.target.slot)
            && (e == Some(TargetCheckpointSlotMismatch) ==> !Tracked(b, vote.target))
            && (e == Some(HeadCheckpointSlotMismatch) ==> !Tracked(b, vote.head) && Tracked(b, vote.target))
            && (e.Some? && e.value.AttestationTooFarInFuture? ==>
                  vote.slot > sv.time / 4 + 1 && e.value == AttestationTooFarInFuture(vote.slot, sv.time / 4 + 1)
                  && Tracked(b, vote.target) && Tracked(b, vote.head))
  {
  }

  /** Where a taken vote is filed. From a block it becomes the known vote unless that is as
      recent, and drops an older pending one; from gossip it becomes the pending vote unless
      that is as recent. The vote of no other validator moves. */
  lemma FiledVote(sv: StoreValue, x: SignedAttestation, fromBlock: bool, u: U64)
    ensures var r, v, slot := ProcessAttestation(sv, x, fromBlock), x.message.validatorId, x.message.data.slot;
            var registered := sv.head in sv.states && v < |sv.states[sv.head].validators|;
            && (r.Ok? <==> registered && VoteError(sv, x.message.data).None?)
            && (sv.head !in sv.states ==> r == Err(HeadStateNotFound(sv.head)))
            && (sv.head in sv.states && !registered ==>
                  r == Err(ValidatorIndexOutOfRange(v, |sv.states[sv.head].validators|)))
            && (registered && r.Err? ==> Some(r.error) == VoteError(sv, x.message.data))
            && (r.Ok? ==>
                  var known, pending := r.value.0.known, r.value.0.pending;
                  var newKnown := fromBlock && u == v && (v !in sv.known || sv.known[v].message.data.slot < slot);
                  var newPending := !fromBlock && u == v && (v !in sv.pending || sv.pending[v].message.data.slot < slot);
                  var dropped := fromBlock && u == v && v in sv.pending && sv.pending[v].message.data.slot < slot;
                  && r.value.0 == sv.(known := known, pending := pending)
                  && (u in known <==> u in sv.known || newKnown)
                  && (u in known ==> known[u] == if newKnown then x else sv.known[u])
                  && (u in pending <==> (u in sv.pending || newPending) && !dropped)
                  && (u in pending ==> pending[u] == if newPending then x else sv.pending[u]))
  {
    hide VoteError;
  }

  /** A genesis store takes the placeholder vote of every registered validator. */
  lemma GenesisVoteTaken(h: Hashes, time: U64, validators: seq<Validator>, v: U64, signature: nat)
    requires v < |validators|
    ensures var g := GenesisState(h, time, validators);
            var b := GenesisBlock(h, g);
            var root := BlockRoot(h, b);
            var sv := AnchorStore(h, g, b, Normalize(g.justified, 0, root), Normalize(g.finalized, 0, root));
            var vote := AttestationData(0, Checkpoint(root, 0), Checkpoint(root, 0), Checkpoint(0, 0));
            var r := ProcessAttestation(sv, SignedAttestation(Attestation(v, vote), signature), false);
            r.Ok? && v in r.value.0.pending && r.value.0.pending[v].message.data == vote
  {
    var g := GenesisState(h, time, validators);
    var b := GenesisBlock(h, g);
    var root := BlockRoot(h, b);
    var sv := AnchorStore(h, g, b, Normalize(g.justified, 0, root), Normalize(g.finalized, 0, root));
    var vote := AttestationData(0, Checkpoint(root, 0), Checkpoint(root, 0), Checkpoint(0, 0));
    VoteTakenIff(sv, vote);
    FiledVote(sv, SignedAttestation(Attestation(v, vote), signature), false, v);
  }

  // ---------------------------------------------------------------- blocks

  /** A block is refused for a state root that is not its post-state's, then, when it is
      new, for a parent that is not tracked, the zero root aside. A block already tracked
      changes nothing. A new one is added to the maps and the order under its root, and a
      checkpoint of its post-state replaces the store's exactly when it is later and names a
      tracked block, the new one included. */
  lemma TrackedBlock(h: Hashes, sv: StoreValue, b: Block, post: State)
    ensures var r, root := TrackBlock(h, sv, b, post), h.header(HeaderOf(h, b));
            var orphan := b.parentRoot != 0 && b.parentRoot !in sv.blocks;
            && (b.stateRoot != h.state(post) ==> r == Err(BlockStateRootMismatch(b.stateRoot, h.state(post))))
            && (b.stateRoot == h.state(post) && root in sv.blocks ==> r == Ok((sv, false)))
            && (b.stateRoot == h.state(post) && root !in sv.blocks && orphan ==>
                  r == Err(ParentBlockNotFound(b.parentRoot)))
            && (b.stateRoot == h.state(post) && root !in sv.blocks && !orphan ==>
                  && r.Ok? && r.value.1
                  && r.value.0 == sv.(blocks := sv.blocks[root := b], states := sv.states[root := post],
                                      order := sv.order + [root],
                                      justified := r.value.0.justified, finalized := r.value.0.finalized)
                  && Follows(sv.blocks.Keys + {root}, post.justified, sv.justified, r.value.0.justified)
                  && Follows(sv.blocks.Keys + {root}, post.finalized, sv.finalized, r.value.0.finalized))
  {
  }

  /** The candidate follows when it is later and tracked; else the checkpoint stays. */
  ghost predicate Follows(tracked: set<Root>, candidate: Checkpoint, before: Checkpoint, after: Checkpoint) {
    && (candidate.slot > before.slot && candidate.root in tracked ==> after == candidate)
    && (candidate.slot <= before.slot || candidate.root !in tracked ==> after == before)
  }

  // ---------------------------------------------------------------- the clock

  function TicksIn(ops: seq<StoreOp>): nat {
    if ops == [] then 0 else (if ops[0].Tick? then 1 else 0) + TicksIn(ops[1..])
  }

  lemma OnlyTicksMoveTheClock(h: Hashes, sv: StoreValue, op: StoreOp)
    requires CanDescend(sv) && sv.head in sv.states
    ensures Act(h, sv, op).time == if op.Tick? && sv.time < U64_MAX then sv.time + 1 else sv.time
  {
    hide Head, SlotsDescend, VoteError, IndexError, StateTransition, BlockRoot;
  }

  /** A store seeded from a block of slot `k` starts at four times `k`, and over every run
      its clock has moved by the number of ticks, stopping at the largest `u64`. */
  lemma {:induction false} ClockCountsTicks(h: Hashes, sv: StoreValue, ops: seq<StoreOp>, end: StoreValue)
    requires Reaches(h, sv, ops, end)
    ensures end.time == if sv.time + TicksIn(ops) <= U64_MAX then sv.time + TicksIn(ops) else U64_MAX
    decreases |ops|
  {
    hide Act, CanDescend;
    if ops != [] {
      OnlyTicksMoveTheClock(h, sv, ops[0]);
      ClockCountsTicks(h, Act(h, sv, ops[0]), ops[1..], end);
    }
  }

  lemma AnchorClock(h: Hashes, s: State, b: Block, j: Checkpoint, f: Checkpoint, ops: seq<StoreOp>, end: StoreValue)
    requires 4 * b.slot + TicksIn(ops) <= U64_MAX && Reaches(h, AnchorStore(h, s, b, j, f), ops, end)
    ensures end.time == 4 * b.slot + TicksIn(ops)
  {
    hide Reaches;
    ClockCountsTicks(h, AnchorStore(h, s, b, j, f), ops, end);
  }

  /** A seeded checkpoint is the state's own, except that at slot 0 the all-zero one stands
      for the anchor. */
  ghost predicate CopiedFrom(c: Checkpoint, slot: Slot, root: Root, seeded: Checkpoint) {
    && (slot == 0 && c == Checkpoint(0, 0) ==> seeded == Checkpoint(root, 0))
    && (slot > 0 || c != Checkpoint(0, 0) ==> seeded == c)
  }

  /** A seeded store knows its anchor and nothing else: both roots the node follows are the
      anchor's, and no vote has come. */
  lemma SeededStore(h: Hashes, s: State, b: Block, j: Checkpoint, f: Checkpoint)
    requires 4 * b.slot <= U64_MAX
    ensures var sv, root := AnchorStore(h, s, b, j, f), h.header(HeaderOf(h, b));
            && sv.time == 4 * b.slot && sv.genesisTime == s.genesisTime && sv.head == root && sv.safeTarget == root
            && sv.blocks == map[root := b] && sv.states == map[root := s] && sv.order == [root]
            && sv.justified == j && sv.finalized == f && sv.known == map[] && sv.pending == map[]
  {
  }
}
