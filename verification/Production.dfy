/**
  Block production as values: the candidate a producer builds on its head, and why
  the block it then publishes replays on every other node.
 */
module Production {
  import opened Containers
  import opened Transition
  import opened ChainInvariant
  import opened Sealing
  import opened StoreValues
  import opened StoreInvariant

  /** The attestations of a list of signed votes, signatures dropped. */
  function Messages(votes: seq<SignedAttestation>): (atts: seq<Attestation>)
    ensures |atts| == |votes| && forall i :: 0 <= i < |votes| ==> atts[i] == votes[i].message
  {
    seq(|votes|, i requires 0 <= i < |votes| => votes[i].message)
  }

  ghost function AdvanceStateToSlot(h: Hashes, s: State, target: Slot): Result<State, ForkchoiceError> {
    if s.slot == target then Ok(s)
    else if s.slot < target then Ok(AdvanceSlots(h, s, target - s.slot))
    else Err(StateSlotAheadOfTarget(s.slot, target))
  }

  function CandidateBlock(headRoot: Root, slot: Slot, validator: U64, votes: seq<SignedAttestation>): Block {
    Block(slot, validator, headRoot, ZERO_ROOT, Messages(votes))
  }

  /** The post-state of a candidate over `votes`, its state root still unset. */
  ghost function Candidate(
      h: Hashes, headRoot: Root, slot: Slot, validator: U64, headState: State, votes: seq<SignedAttestation>)
    : Result<State, ForkchoiceError>
  {
    var b := CandidateBlock(headRoot, slot, validator, votes);
    var s1 := AdvanceStateToSlot(h, headState, slot);
    if s1.Err? then Err(s1.error) else
    var o2 := ProcessBlockHeader(h, s1.value, b);
    if o2.Failed? then Err(StateTransitionFailed(o2.error)) else
    var o3 := ProcessAttestations(o2.after, b.body);
    if o3.Failed? then Err(StateTransitionFailed(o3.error)) else Ok(o3.after)
  }

  /** The header stage does not read the block's own state root. */
  lemma HeaderIgnoresStateRoot(h: Hashes, s: State, b: Block, root: Root)
    ensures ProcessBlockHeader(h, s, b.(stateRoot := root)) == ProcessBlockHeader(h, s, b)
  {
  }

  /** A finished candidate replays: with its state root filled in, the checked state
      transition on the head's state accepts the block and yields the same post-state. */
  lemma CandidateReplays(
      h: Hashes, headRoot: Root, slot: Slot, validator: U64, headState: State, votes: seq<SignedAttestation>)
    requires headState.slot == headState.header.slot
    requires Candidate(h, headRoot, slot, validator, headState, votes).Ok?
    ensures var post := Candidate(h, headRoot, slot, validator, headState, votes).value;
            StateTransition(h, headState,
                            CandidateBlock(headRoot, slot, validator, votes).(stateRoot := h.state(post)), true)
            == Done(post)
  {
    hide ProcessBlockHeader, ProcessAttestations, AdvanceSlots;
    var b := CandidateBlock(headRoot, slot, validator, votes);
    var post := Candidate(h, headRoot, slot, validator, headState, votes).value;
    LaterThanHead(h, headRoot, slot, validator, headState, votes);
    HeaderIgnoresStateRoot(h, AdvanceSlots(h, headState, slot - headState.slot), b, h.state(post));
  }

  /** A candidate at its head's own slot is refused by the header stage. */
  lemma LaterThanHead(
      h: Hashes, headRoot: Root, slot: Slot, validator: U64, headState: State, votes: seq<SignedAttestation>)
    requires headState.slot == headState.header.slot
    requires Candidate(h, headRoot, slot, validator, headState, votes).Ok?
    ensures slot > headState.slot
  {
    hide ProcessAttestations, AdvanceSlots;
  }

  /** The slots and the voter of an attestation lie within a block at `slot`. */
  ghost predicate FitsSlot(att: Attestation, slot: Slot, n: nat) {
    att.data.source.slot < slot && att.data.target.slot < slot && att.validatorId < n
  }

  /** The validator may propose over this head: a later slot within the history limit,
      and its turn. */
  ghost predicate MayPropose(headSlot: Slot, n: nat, slot: Slot, validator: U64) {
    slot > headSlot && slot <= HISTORICAL_ROOTS_LIMIT && n > 0 && slot % n == validator
  }

  /** On a valid store a candidate over any tracked head succeeds exactly when the
      validator may propose and every vote fits below the candidate's slot. */
  lemma CandidateIff(
      h: Hashes, sv: StoreValue, anchor: Root, registry: seq<Validator>,
      headRoot: Root, slot: Slot, validator: U64, votes: seq<SignedAttestation>)
    requires SoundHashes(h) && StoreInv(h, sv, anchor, registry) && headRoot in sv.blocks
    ensures headRoot in sv.states
    ensures Candidate(h, headRoot, slot, validator, sv.states[headRoot], votes).Ok? <==>
            && MayPropose(sv.blocks[headRoot].slot, |registry|, slot, validator)
            && forall x :: x in votes ==> FitsSlot(x.message, slot, |registry|)
  {
    KeysAreRoots(h, sv.blocks, sv.states, registry, sv.order, anchor);
    var b, p := sv.blocks[headRoot], sv.states[headRoot];
    assert PairInv(h, headRoot, b, p, registry);
    assert b.stateRoot != ZERO_ROOT && |registry| <= VALIDATOR_REGISTRY_LIMIT;
    hide *;
    SealedFacts(h, headRoot, b, p, registry);
    CandidateOverSealed(h, b, p, headRoot, slot, validator, votes);
  }

  lemma SealedFacts(h: Hashes, r: Root, b: Block, p: State, registry: seq<Validator>)
    requires PairInv(h, r, b, p, registry)
    ensures r == BlockRoot(h, b) && Seals(h, b, p) && ChainInv(h, p) && p.validators == registry
    ensures p.slot == p.header.slot == b.slot
  {
  }

  lemma CandidateOverSealed(
      h: Hashes, b: Block, p: State, headRoot: Root, slot: Slot, validator: U64, votes: seq<SignedAttestation>)
    requires ChainInv(h, p) && Seals(h, b, p) && b.stateRoot != ZERO_ROOT && headRoot == BlockRoot(h, b)
    requires |p.validators| <= VALIDATOR_REGISTRY_LIMIT && p.slot == p.header.slot
    ensures Candidate(h, headRoot, slot, validator, p, votes).Ok? <==>
            && MayPropose(p.slot, |p.validators|, slot, validator)
            && forall x :: x in votes ==> FitsSlot(x.message, slot, |p.validators|)
  {
    hide ChainInv, Seals, ProcessBlockHeader, ProcessAttestations, AdvanceSlots, BlockRoot, Messages, FitsSlot;
    var c := CandidateBlock(headRoot, slot, validator, votes);
    if slot > p.slot {
      ChildHeaderAcceptedIff(h, b, p, c);
      var s1 := AdvanceSlots(h, p, slot - p.slot);
      if ProcessBlockHeader(h, s1, c).Done? {
        BodySucceedsIff(h, p, s1, ProcessBlockHeader(h, s1, c).after, c);
        MessagesFit(votes, slot, |p.validators|);
      }
    } else if Candidate(h, headRoot, slot, validator, p, votes).Ok? {
      LaterThanHead(h, headRoot, slot, validator, p, votes);
    }
  }

  ghost predicate BodyFits(body: seq<Attestation>, slot: Slot, n: nat) {
    forall att :: att in body ==> FitsSlot(att, slot, n)
  }

  lemma MessagesFit(votes: seq<SignedAttestation>, slot: Slot, n: nat)
    ensures BodyFits(Messages(votes), slot, n) <==> forall x :: x in votes ==> FitsSlot(x.message, slot, n)
  {
    hide FitsSlot;
    var body := Messages(votes);
    assert forall i :: 0 <= i < |votes| ==> body[i] == votes[i].message && body[i] in body;
  }

  /** After the header stage a body succeeds exactly when its votes fit the block's slot. */
  lemma BodySucceedsIff(h: Hashes, p: State, s1: State, s2: State, c: Block)
    requires ChainInv(h, p) && |p.validators| <= VALIDATOR_REGISTRY_LIMIT
    requires p.slot < c.slot && s1 == AdvanceSlots(h, p, c.slot - p.slot)
    requires ProcessBlockHeader(h, s1, c) == Done(s2)
    ensures ProcessAttestations(s2, c.body).Done? <==> BodyFits(c.body, c.slot, |p.validators|)
  {
    hide ProcessAttestations, ProcessBlockHeader, AdvanceSlots, WorkInv, NamesSlot, ParentBelow, PendingSorted;
    SlotsKeepInvariant(h, p, c.slot - p.slot);
    AdvanceSlotsFrame(h, p, c.slot - p.slot);
    HeaderKeepsRegistry(h, s1, c, s2);
    HeaderKeepsInvariant(h, s1, c);
    BatchDoneIff(h, s2, c.body);
  }

  lemma HeaderKeepsRegistry(h: Hashes, s: State, c: Block, t: State)
    requires ProcessBlockHeader(h, s, c) == Done(t)
    ensures t.validators == s.validators && t.header.slot == c.slot
  {
  }
}
