/**
  Consensus containers shared by the state transition, the fork-choice store and
  block production, together with the hash functions they are computed under.
 */
module Containers {

  datatype Option<+T> = None | Some(value: T)

  datatype Result<+T, +E> = Ok(value: T) | Err(error: E)

  const U64_MAX: int := 0xFFFF_FFFF_FFFF_FFFF

  type U64 = x: int | 0 <= x <= 0xFFFF_FFFF_FFFF_FFFF

  type Slot = U64

  type Byte = x: int | 0 <= x < 256

  /** A 32-byte root, read as a big-endian number: the byte-wise lexicographic
      order of the program is then the order of the numbers. */
  type Root = nat

  const ZERO_ROOT: Root := 0

  const HISTORICAL_ROOTS_LIMIT: nat := 262144
  const VALIDATOR_REGISTRY_LIMIT: nat := 4096
  const JUSTIFICATIONS_VALIDATORS_LIMIT: nat := 1073741824
  const MAX_ATTESTATIONS: nat := 4096
  const INTERVALS_PER_SLOT: nat := 4
  const JUSTIFICATION_LOOKBACK_SLOTS: nat := 3

  datatype Checkpoint = Checkpoint(root: Root, slot: Slot)

  const ZERO_CHECKPOINT := Checkpoint(ZERO_ROOT, 0)

  datatype AttestationData = AttestationData(
    slot: Slot, head: Checkpoint, target: Checkpoint, source: Checkpoint)

  datatype Attestation = Attestation(validatorId: U64, data: AttestationData)

  /** An attestation with its signature bytes, which nothing here inspects. */
  datatype SignedAttestation = SignedAttestation(message: Attestation, signature: nat)

  datatype BlockHeader = BlockHeader(
    slot: Slot, proposerIndex: U64, parentRoot: Root, stateRoot: Root, bodyRoot: Root)

  datatype Block = Block(
    slot: Slot, proposerIndex: U64, parentRoot: Root, stateRoot: Root, body: seq<Attestation>)

  datatype Validator = Validator(pubkey: nat, index: U64)

  /** The live bits of a bitlist capped at the history limit. */
  type JustifiedBits = bits: seq<bool> | |bits| <= 262144

  /** The live bits of a bitlist capped at the pending-vote limit. */
  type PendingBits = bits: seq<bool> | |bits| <= 1073741824

  /** The consensus state. A bitlist is the sequence of its live bits. */
  datatype State = State(
    genesisTime: U64,
    slot: Slot,
    header: BlockHeader,
    justified: Checkpoint,
    finalized: Checkpoint,
    history: seq<Root>,
    justifiedSlots: JustifiedBits,
    validators: seq<Validator>,
    pendingRoots: seq<Root>,
    pendingVotes: PendingBits)

  /** Hash-tree-root functions, kept abstract: everything is proved for every
      choice of them, and a lemma that needs more of them says so. */
  datatype Hashes = Hashes(
    header: BlockHeader -> Root,
    body: seq<Attestation> -> Root,
    state: State -> Root)

  /** The header a block commits to. A block and its header merkleize the same
      five leaves, so this header's root is the block's root. */
  function HeaderOf(h: Hashes, b: Block): BlockHeader {
    BlockHeader(b.slot, b.proposerIndex, b.parentRoot, b.stateRoot, h.body(b.body))
  }

  function BlockRoot(h: Hashes, b: Block): Root {
    h.header(HeaderOf(h, b))
  }

  datatype AttSlotKind = Source | Target

  datatype StateField = HistoricalBlockHashes | JustifiedSlots | JustificationsValidators

  datatype TransitionError =
    | TargetSlotNotInFuture(current: Slot, target: Slot)
    | BlockSlotMismatch(got: Slot, want: Slot)
    | BlockOlderThanLatest(slot: Slot, latest: Slot)
    | IncorrectBlockProposer(slot: Slot, proposer: U64)
    | BlockParentRootMismatch(slot: Slot, gotRoot: Root, wantRoot: Root)
    | AttestationSlotOutOfRange(kind: AttSlotKind, slot: Slot, len: nat)
    | AttestationValidatorOutOfRange(validator: U64, numValidators: nat)
    | StateBoundExceeded(context: StateField)
    | StateRootMismatch(slot: Slot, gotRoot: Root, wantRoot: Root)
    | NoValidators

  datatype ForkchoiceError =
    | AnchorStateRootMismatch(got: Root, want: Root)
    | AnchorTimeOverflow(slot: Slot)
    | TimeOverflow(time: U64)
    | UnknownSourceBlock(root: Root)
    | UnknownTargetBlock(root: Root)
    | UnknownAttestationHeadBlock(root: Root)
    | SourceSlotExceedsTarget
    | HeadSlotBelowTarget(headSlot: Slot, targetSlot: Slot)
    | SourceCheckpointSlotMismatch
    | TargetCheckpointSlotMismatch
    | HeadCheckpointSlotMismatch
    | AttestationFutureLimitOverflow(currentSlot: Slot)
    | AttestationTooFarInFuture(voteSlot: Slot, limit: Slot)
    | ValidatorIndexOutOfRange(validatorId: U64, numValidators: nat)
    | NoBlocksAvailable
    | UnknownRootBlock(root: Root)
    | ParentBlockNotFound(root: Root)
    | UnauthorizedProposer(validator: U64, slot: Slot)
    | HeadStateNotFound(root: Root)
    | UnknownHeadBlock(root: Root)
    | UnknownSafeTarget(root: Root)
    | BlockStateRootMismatch(got: Root, want: Root)
    | StateSlotAheadOfTarget(stateSlot: Slot, targetSlot: Slot)
    | EmptyRegistry
    | StateTransitionFailed(cause: TransitionError)

  /** What a mutating operation leaves behind: the state after the call, and the
      error when there is one. A failed call may have changed the state. */
  datatype Outcome =
    | Done(after: State)
    | Failed(after: State, error: TransitionError)

  /** The slot-0 state: default in every field but the registry, the genesis time
      and the header's commitment to the empty body. */
  function GenesisState(h: Hashes, genesisTime: U64, validators: seq<Validator>): State {
    State(genesisTime, 0, BlockHeader(0, 0, ZERO_ROOT, ZERO_ROOT, h.body([])),
          ZERO_CHECKPOINT, ZERO_CHECKPOINT, [], [], validators, [], [])
  }

  /** The slot-0 block that commits to a genesis state. */
  function GenesisBlock(h: Hashes, s: State): Block {
    Block(0, 0, ZERO_ROOT, h.state(s), [])
  }
}
