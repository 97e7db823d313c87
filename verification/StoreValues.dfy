/**
  The fork-choice store as a value, and what each of its operations computes. The
  mutating forms are in module LiveStore.
 */
module StoreValues {
  import opened Containers
  import opened Ghost
  import opened SafeTarget

  /** A vote pool, keyed by validator. */
  type Pool = map<U64, SignedAttestation>

  datatype StoreValue = StoreValue(
    time: U64,
    genesisTime: U64,
    head: Root,
    safeTarget: Root,
    justified: Checkpoint,
    finalized: Checkpoint,
    blocks: Blocks,
    states: map<Root, State>,
    order: seq<Root>,
    known: Pool,
    pending: Pool)

  // ---------------------------------------------------------------- anchor

  /** A default genesis checkpoint stands for the anchor. */
  function Normalize(c: Checkpoint, anchorSlot: Slot, anchorRoot: Root): Checkpoint {
    if anchorSlot == 0 && c == ZERO_CHECKPOINT then Checkpoint(anchorRoot, 0) else c
  }

  function AnchorStore(h: Hashes, s: State, b: Block, justified: Checkpoint, finalized: Checkpoint): StoreValue
    requires b.slot * INTERVALS_PER_SLOT <= U64_MAX
  {
    var root := BlockRoot(h, b);
    StoreValue(b.slot * INTERVALS_PER_SLOT, s.genesisTime, root, root, justified, finalized,
               map[root := b], map[root := s], [root], map[], map[])
  }

  // ---------------------------------------------------------------- head and safe target

  function VoteHeads(pool: Pool): Votes {
    map v | v in pool :: pool[v].message.data.head
  }

  ghost predicate CanDescend(sv: StoreValue) {
    SlotsDescend(sv.blocks) && Resolvable(sv.blocks, sv.justified.root)
  }

  ghost function UpdateHead(sv: StoreValue): StoreValue
    requires CanDescend(sv)
  {
    sv.(head := Head(sv.blocks, sv.justified.root, VoteHeads(sv.known), 0))
  }

  /** Promotes every pending vote, then refreshes the head. */
  ghost function AcceptNewVotes(sv: StoreValue): StoreValue
    requires CanDescend(sv)
  {
    UpdateHead(sv.(known := sv.known + sv.pending, pending := map[]))
  }

  ghost function UpdateSafeTarget(sv: StoreValue): StoreValue
    requires CanDescend(sv) && sv.head in sv.states
  {
    var n := |sv.states[sv.head].validators|;
    sv.(safeTarget := Head(sv.blocks, sv.justified.root, VoteHeads(sv.pending), SafeThreshold(n)))
  }

  datatype Phase = Proposal | Idle | RefreshSafeTarget | PromoteVotes

  function PhaseOf(time: U64): Phase {
    var i := time % INTERVALS_PER_SLOT;
    if i == 0 then Proposal else if i == 1 then Idle else if i == 2 then RefreshSafeTarget else PromoteVotes
  }

  ghost function TickInterval(sv: StoreValue, hasProposal: bool): Result<StoreValue, ForkchoiceError>
    requires CanDescend(sv) && sv.head in sv.states
  {
    if sv.time == U64_MAX then Err(TimeOverflow(sv.time)) else
    var t := sv.(time := sv.time + 1);
    Ok(match PhaseOf(t.time)
       case Proposal => if hasProposal then AcceptNewVotes(t) else t
       case Idle => t
       case RefreshSafeTarget => UpdateSafeTarget(t)
       case PromoteVotes => AcceptNewVotes(t))
  }

  // ---------------------------------------------------------------- attestations

  /** A slot-0 vote with the all-zero source means the tracked slot-0 anchor. */
  predicate IsGenesisPlaceholder(sv: StoreValue, vote: AttestationData) {
    && vote.source == ZERO_CHECKPOINT
    && vote.slot == 0
    && vote.target.slot == 0
    && vote.target.root == sv.justified.root
    && sv.justified.slot == 0
    && sv.justified.root in sv.blocks
    && sv.blocks[sv.justified.root].slot == 0
  }

  function ResolvedSource(sv: StoreValue, vote: AttestationData): Root {
    if IsGenesisPlaceholder(sv, vote) then sv.justified.root else vote.source.root
  }

  /** `validate_attestation`: availability, topology, consistency, time. */
  function VoteError(sv: StoreValue, vote: AttestationData): Option<ForkchoiceError> {
    var source := ResolvedSource(sv, vote);
    if source !in sv.blocks then Some(UnknownSourceBlock(source))
    else if vote.target.root !in sv.blocks then Some(UnknownTargetBlock(vote.target.root))
    else if vote.head.root !in sv.blocks then Some(UnknownAttestationHeadBlock(vote.head.root))
    else
      var sb, tb, hb := sv.blocks[source], sv.blocks[vote.target.root], sv.blocks[vote.head.root];
      if sb.slot > tb.slot || vote.source.slot > vote.target.slot then Some(SourceSlotExceedsTarget)
      else if vote.head.slot < vote.target.slot then Some(HeadSlotBelowTarget(vote.head.slot, vote.target.slot))
      else if sb.slot != vote.source.slot then Some(SourceCheckpointSlotMismatch)
      else if tb.slot != vote.target.slot then Some(TargetCheckpointSlotMismatch)
      else if hb.slot != vote.head.slot then Some(HeadCheckpointSlotMismatch)
      else
        var current: Slot := sv.time / INTERVALS_PER_SLOT;
        if current == U64_MAX then Some(AttestationFutureLimitOverflow(current))
        else if vote.slot > current + 1 then Some(AttestationTooFarInFuture(vote.slot, current + 1))
        else None
  }

  /** `validate_validator_index`. */
  function IndexError(sv: StoreValue, v: U64): Option<ForkchoiceError> {
    if sv.head !in sv.states then Some(HeadStateNotFound(sv.head))
    else if v >= |sv.states[sv.head].validators| then
      Some(ValidatorIndexOutOfRange(v, |sv.states[sv.head].validators|))
    else None
  }

  predicate IsNewer(pool: Pool, v: U64, slot: Slot) {
    v in pool ==> pool[v].message.data.slot < slot
  }

  function InsertIfNewer(pool: Pool, v: U64, signed: SignedAttestation): Pool {
    if IsNewer(pool, v, signed.message.data.slot) then pool[v := signed] else pool
  }

  predicate IsOlder(pool: Pool, v: U64, slot: Slot) {
    v in pool && pool[v].message.data.slot < slot
  }

  function EvictIfOlder(pool: Pool, v: U64, slot: Slot): Pool {
    if IsOlder(pool, v, slot) then pool - {v} else pool
  }

  /** `process_attestation`: the store after the call and whether a pool changed. */
  function ProcessAttestation(sv: StoreValue, signed: SignedAttestation, fromBlock: bool)
    : Result<(StoreValue, bool), ForkchoiceError>
  {
    var v, vote := signed.message.validatorId, signed.message.data;
    var e1 := IndexError(sv, v);
    if e1.Some? then Err(e1.value) else
    var e2 := VoteError(sv, vote);
    if e2.Some? then Err(e2.value) else
    if fromBlock then
      Ok((sv.(known := InsertIfNewer(sv.known, v, signed), pending := EvictIfOlder(sv.pending, v, vote.slot)),
          IsNewer(sv.known, v, vote.slot) || IsOlder(sv.pending, v, vote.slot)))
    else
      Ok((sv.(pending := InsertIfNewer(sv.pending, v, signed)), IsNewer(sv.pending, v, vote.slot)))
  }

  // ---------------------------------------------------------------- blocks

  /** A checkpoint is adopted when it is newer and its root is tracked. */
  function Adopt(blocks: Blocks, candidate: Checkpoint, current: Checkpoint): Checkpoint {
    if candidate.slot > current.slot && candidate.root in blocks then candidate else current
  }

  /** `track_block`: the store after the call and whether the block is new. */
  function TrackBlock(h: Hashes, sv: StoreValue, b: Block, post: State): Result<(StoreValue, bool), ForkchoiceError> {
    if b.stateRoot != h.state(post) then Err(BlockStateRootMismatch(b.stateRoot, h.state(post))) else
    var root := BlockRoot(h, b);
    if root in sv.blocks then Ok((sv, false))
    else if b.parentRoot != ZERO_ROOT && b.parentRoot !in sv.blocks then Err(ParentBlockNotFound(b.parentRoot))
    else
      var blocks := sv.blocks[root := b];
      Ok((sv.(blocks := blocks, states := sv.states[root := post], order := sv.order + [root],
              justified := Adopt(blocks, post.justified, sv.justified),
              finalized := Adopt(blocks, post.finalized, sv.finalized)), true))
  }
}
