/**
  The two vote pools across calls: what `process_attestation` changes, and what a
  later promotion of the pending votes can do to it.
 */
module VotePools {
  import opened Containers
  import opened Transition
  import opened Ghost
  import opened StoreValues
  import opened StoreInvariant

  ghost function SlotIn(pool: Pool, v: U64): int {
    if v in pool then pool[v].message.data.slot else -1
  }

  /** The returned flag says exactly whether a pool changed, nothing but the pools changes,
      no known slot drops, and no other validator's pending vote moves. */
  lemma AttestationEffect(sv: StoreValue, signed: SignedAttestation, fromBlock: bool)
    requires ProcessAttestation(sv, signed, fromBlock).Ok?
    ensures var (sv', changed) := ProcessAttestation(sv, signed, fromBlock).value;
            var v := signed.message.validatorId;
            && (changed <==> sv' != sv)
            && sv' == sv.(known := sv'.known, pending := sv'.pending)
            && (forall u :: SlotIn(sv.known, u) <= SlotIn(sv'.known, u))
            && (forall u :: u != v ==> SlotIn(sv'.pending, u) == SlotIn(sv.pending, u))
            && (fromBlock ==> SlotIn(sv'.known, v) >= signed.message.data.slot)
            && (!fromBlock ==> SlotIn(sv'.pending, v) >= signed.message.data.slot && sv'.known == sv.known)
  {
    var v, slot := signed.message.validatorId, signed.message.data.slot;
    var sv' := ProcessAttestation(sv, signed, fromBlock).value.0;
    if fromBlock {
      if IsNewer(sv.known, v, slot) { assert sv'.known[v].message.data.slot == slot; }
      if IsOlder(sv.pending, v, slot) { assert v !in sv'.pending && v in sv.pending; }
    } else if IsNewer(sv.pending, v, slot) {
      assert sv'.pending[v].message.data.slot == slot;
    }
  }

  /** Re-applying an accepted attestation changes nothing and reports so. */
  lemma AttestationIdempotent(sv: StoreValue, signed: SignedAttestation, fromBlock: bool)
    requires ProcessAttestation(sv, signed, fromBlock).Ok?
    ensures var sv' := ProcessAttestation(sv, signed, fromBlock).value.0;
            ProcessAttestation(sv', signed, fromBlock) == Ok((sv', false))
  {
    var sv' := ProcessAttestation(sv, signed, fromBlock).value.0;
    assert sv' == sv.(known := sv'.known, pending := sv'.pending);
    ValidationIgnoresPools(sv, sv', signed);
    hide VoteError, IndexError;
  }

  lemma ValidationIgnoresPools(sv: StoreValue, sv': StoreValue, signed: SignedAttestation)
    requires sv' == sv.(known := sv'.known, pending := sv'.pending)
    ensures VoteError(sv', signed.message.data) == VoteError(sv, signed.message.data)
    ensures IndexError(sv', signed.message.validatorId) == IndexError(sv, signed.message.validatorId)
  {
  }

  /** A promotion lowers a validator's known slot exactly when its pending vote is older. */
  lemma PromotionDropsIff(sv: StoreValue, v: U64)
    requires CanDescend(sv)
    ensures SlotIn(AcceptNewVotes(sv).known, v) < SlotIn(sv.known, v) <==>
            v in sv.pending && SlotIn(sv.pending, v) < SlotIn(sv.known, v)
  {
    if v in sv.pending { assert (sv.known + sv.pending)[v] == sv.pending[v]; }
  }

  // ---------------------------------------------------------------- how far a known vote can fall

  /** The pending vote of `v` is older than `floor`. */
  ghost predicate LowPending(sv: StoreValue, v: U64, floor: Slot) {
    v in sv.pending && SlotIn(sv.pending, v) < floor
  }

  /** The operation promotes the pending votes. */
  ghost predicate Promotes(sv: StoreValue, op: StoreOp) {
    op.Accept? || (op.Tick? && sv.time < U64_MAX &&
                   var phase := PhaseOf(sv.time + 1); phase.PromoteVotes? || (phase.Proposal? && op.hasProposal))
  }

  /** The operation is an accepted gossip vote of `v` below `floor`. */
  ghost predicate LowGossip(sv: StoreValue, op: StoreOp, v: U64, floor: Slot) {
    && op.Attest? && !op.fromBlock && op.signed.message.validatorId == v
    && op.signed.message.data.slot < floor && ProcessAttestation(sv, op.signed, false).Ok?
  }

  /** One operation takes the known slot of `v` below `floor` exactly when it promotes an
      older pending vote. */
  lemma KnownFallsIff(h: Hashes, sv: StoreValue, op: StoreOp, v: U64, floor: Slot)
    requires CanDescend(sv) && sv.head in sv.states && SlotIn(sv.known, v) >= floor
    ensures SlotIn(Act(h, sv, op).known, v) < floor <==> Promotes(sv, op) && LowPending(sv, v, floor)
  {
    hide Head, SlotsDescend, VoteError, IndexError, StateTransition, BlockRoot;
    if v in sv.pending { assert (sv.known + sv.pending)[v] == sv.pending[v]; }
  }

  /** A pending vote older than `floor` appears exactly by an accepted gossip vote, while
      none of that validator is pending. */
  lemma LowPendingArisesIff(h: Hashes, sv: StoreValue, op: StoreOp, v: U64, floor: Slot)
    requires CanDescend(sv) && sv.head in sv.states && !LowPending(sv, v, floor)
    ensures LowPending(Act(h, sv, op), v, floor) <==> LowGossip(sv, op, v, floor) && v !in sv.pending
  {
    hide Head, SlotsDescend, VoteError, IndexError, StateTransition, BlockRoot;
  }

  /** Over every run a known slot falls below `floor` only if a gossip vote of that
      validator below `floor` was accepted at some step `i` and promoted at a later one. */
  lemma {:induction false} FallNeedsLowGossip(
      h: Hashes, sv: StoreValue, ops: seq<StoreOp>, end: StoreValue, v: U64, floor: Slot)
    returns (i: nat, at: StoreValue, j: nat, mid: StoreValue)
    requires Reaches(h, sv, ops, end) && SlotIn(sv.known, v) >= floor > SlotIn(end.known, v)
    ensures j < |ops| && Reaches(h, sv, ops[..j], mid) && Promotes(mid, ops[j]) && LowPending(mid, v, floor)
    ensures LowPending(sv, v, floor) || (i < j && Reaches(h, sv, ops[..i], at) && LowGossip(at, ops[i], v, floor))
    decreases |ops|
  {
    hide Act, CanDescend, Promotes, LowPending, LowGossip;
    var next := Act(h, sv, ops[0]);
    KnownFallsIff(h, sv, ops[0], v, floor);
    i, at, j, mid := 0, sv, 0, sv;
    if SlotIn(next.known, v) >= floor {
      var i', at', j', mid' := FallNeedsLowGossip(h, next, ops[1..], end, v, floor);
      j, mid := j' + 1, mid';
      ReachesCons(h, sv, ops, j', mid');
      if !LowPending(sv, v, floor) {
        LowPendingArisesIff(h, sv, ops[0], v, floor);
        if !LowPending(next, v, floor) {
          i, at := i' + 1, at';
          ReachesCons(h, sv, ops, i', at');
        }
      }
    }
  }

  lemma ReachesCons(h: Hashes, sv: StoreValue, ops: seq<StoreOp>, k: nat, mid: StoreValue)
    requires k < |ops| && CanDescend(sv) && sv.head in sv.states
    requires Reaches(h, Act(h, sv, ops[0]), ops[1..][..k], mid)
    ensures Reaches(h, sv, ops[..k + 1], mid)
  {
    hide Act, CanDescend;
    assert ops[..k + 1][1..] == ops[1..][..k];
  }

  /** An on-chain vote holds its validator's known slot up over every run in which no
      older gossip vote of that validator is accepted. */
  lemma OnChainVoteHolds(h: Hashes, sv: StoreValue, signed: SignedAttestation, ops: seq<StoreOp>, end: StoreValue)
    requires ProcessAttestation(sv, signed, true).Ok?
    requires Reaches(h, ProcessAttestation(sv, signed, true).value.0, ops, end)
    requires var after := ProcessAttestation(sv, signed, true).value.0;
             forall i, at :: 0 <= i < |ops| && Reaches(h, after, ops[..i], at) ==>
               !LowGossip(at, ops[i], signed.message.validatorId, signed.message.data.slot)
    ensures SlotIn(end.known, signed.message.validatorId) >= signed.message.data.slot
  {
    hide Reaches, VoteError, IndexError, LowGossip;
    var v, floor, after := signed.message.validatorId, signed.message.data.slot, ProcessAttestation(sv, signed, true).value.0;
    if SlotIn(end.known, v) < floor {
      var i, at, j, mid := FallNeedsLowGossip(h, after, ops, end, v, floor);
    }
  }

  /** What an accepted vote guarantees: all three checkpoints name tracked blocks at
      their own slots, in order, and the vote is at most one slot ahead of the clock. */
  lemma AcceptedVoteIsSound(sv: StoreValue, vote: AttestationData)
    ensures VoteError(sv, vote).None? <==>
            && ResolvedSource(sv, vote) in sv.blocks && vote.target.root in sv.blocks && vote.head.root in sv.blocks
            && sv.blocks[ResolvedSource(sv, vote)].slot == vote.source.slot
            && sv.blocks[vote.target.root].slot == vote.target.slot
            && sv.blocks[vote.head.root].slot == vote.head.slot
            && vote.source.slot <= vote.target.slot <= vote.head.slot
            && sv.time / INTERVALS_PER_SLOT < U64_MAX
            && vote.slot <= sv.time / INTERVALS_PER_SLOT + 1
  {
  }

  // ---------------------------------------------------------------- one slot of ticks

  /** Four ticks from a slot boundary: the safe target is refreshed from the votes that
      were pending, and only then are those votes promoted, once, and the head follows. */
  lemma SlotCycle(h: Hashes, sv: StoreValue, p1: bool, p2: bool, p3: bool, p4: bool, end: StoreValue)
    requires CanDescend(sv) && sv.head in sv.states
    requires sv.time % INTERVALS_PER_SLOT == 0 && sv.time + 4 <= U64_MAX
    requires Reaches(h, sv, [Tick(p1), Tick(p2), Tick(p3), Tick(p4)], end)
    ensures end == sv.(time := sv.time + 4, known := sv.known + sv.pending, pending := map[],
                       safeTarget := UpdateSafeTarget(sv).safeTarget, head := AcceptNewVotes(sv).head)
  {
    hide Head, SlotsDescend, Act, Reaches, PhaseOf;
    var ops := [Tick(p1), Tick(p2), Tick(p3), Tick(p4)];
    RunOne(h, sv, ops, end);
    var a1 := Act(h, sv, Tick(p1));
    PhaseAction(h, sv, p1, Idle);
    RunOne(h, a1, ops[1..], end);
    var a2 := Act(h, a1, Tick(p2));
    PhaseAction(h, a1, p2, RefreshSafeTarget);
    RunOne(h, a2, ops[1..][1..], end);
    var a3 := Act(h, a2, Tick(p3));
    PhaseAction(h, a2, p3, PromoteVotes);
    RunOne(h, a3, ops[1..][1..][1..], end);
    PhaseAction(h, a3, p4, Proposal);
    assert a3.known + map[] == a3.known;
  }

  /** What a tick into each of the four intervals does. */
  lemma PhaseAction(h: Hashes, sv: StoreValue, p: bool, phase: Phase)
    requires CanDescend(sv) && sv.head in sv.states && sv.time < U64_MAX
    requires (sv.time + 1) % 4 == match phase
                                  case Proposal => 0
                                  case Idle => 1
                                  case RefreshSafeTarget => 2
                                  case PromoteVotes => 3
    ensures var t := sv.(time := sv.time + 1);
            Act(h, sv, Tick(p)) ==
            match phase
            case Proposal => if p then AcceptNewVotes(t) else t
            case Idle => t
            case RefreshSafeTarget => UpdateSafeTarget(t)
            case PromoteVotes => AcceptNewVotes(t)
  {
    hide CanDescend, AcceptNewVotes, UpdateSafeTarget;
    assert PhaseOf(sv.time + 1) == phase;
  }

  lemma RunOne(h: Hashes, sv: StoreValue, ops: seq<StoreOp>, end: StoreValue)
    requires ops != [] && Reaches(h, sv, ops, end)
    ensures CanDescend(sv) && sv.head in sv.states && Reaches(h, Act(h, sv, ops[0]), ops[1..], end)
    ensures |ops| == 1 ==> end == Act(h, sv, ops[0])
  {
    hide Act;
  }

  // ---------------------------------------------------------------- an example

  const SOLO: seq<Validator> := [Validator(0, 0)]

  ghost function SoloStore(): StoreValue {
    GenesisStore(SOLO)
  }

  function SoloVote(slot: Slot): SignedAttestation {
    SignedAttestation(
      Attestation(0, AttestationData(slot, Checkpoint(1, 0), Checkpoint(1, 0), Checkpoint(1, 0))), 0)
  }

  lemma SoloStoreIsValid()
    ensures SoundHashes(SlotHashes()) && StoreInv(SlotHashes(), SoloStore(), 1, SOLO)
    ensures CanDescend(SoloStore()) && SoloStore().head in SoloStore().states
  {
    SoundHashesExist();
    GenesisStoreInvariant(SlotHashes(), 0, SOLO);
    hide SoundHashes, StoreInv, CanDescend;
    SafeTargetKeepsInvariant(SlotHashes(), SoloStore(), 1, SOLO);
  }

  /** From a genesis store: an on-chain vote at slot 1, an older gossip vote of the same
      validator, and a promotion, leave the known vote at slot 0. */
  lemma OlderGossipReplacesOnChainVote() returns (mid: StoreValue, end: StoreValue)
    ensures StoreInv(SlotHashes(), SoloStore(), 1, SOLO)
    ensures Reaches(SlotHashes(), SoloStore(), [Attest(SoloVote(1), true)], mid) && SlotIn(mid.known, 0) == 1
    ensures Reaches(SlotHashes(), SoloStore(), [Attest(SoloVote(1), true), Attest(SoloVote(0), false), Accept], end)
    ensures SlotIn(end.known, 0) == 0
  {
    hide SoundHashes, StoreInv, SlotsDescend, Head, VoteError, IndexError, SoloStore, SoloVote;
    var h, sv := SlotHashes(), SoloStore();
    var x, y := SoloVote(1), SoloVote(0);
    SoloStoreIsValid();
    SoloVoteAccepted(sv, 1);
    mid := Act(h, sv, Attest(x, true));
    assert mid.known == map[0 := x] && mid.pending == map[];
    SoloVoteAccepted(mid, 0);
    var low := Act(h, mid, Attest(y, false));
    assert low.pending == map[0 := y];
    end := Act(h, low, Accept);
    assert (low.known + low.pending)[0] == y;
    var ops := [Attest(x, true), Attest(y, false), Accept];
    assert ops[1..] == [Attest(y, false), Accept] && ops[1..][1..] == [Accept];
    assert Reaches(h, end, [], end) && Reaches(h, mid, [], mid);
    assert Reaches(h, low, [Accept], end);
    assert Reaches(h, mid, [Attest(y, false), Accept], end);
  }

  lemma SoloVoteAccepted(sv: StoreValue, slot: Slot)
    requires sv == SoloStore().(known := sv.known, pending := sv.pending) && slot <= 1
    ensures IndexError(sv, 0).None? && VoteError(sv, SoloVote(slot).message.data).None?
    ensures SoloStore().known == map[] && SoloStore().pending == map[]
    ensures SoloVote(slot).message.validatorId == 0 && SoloVote(slot).message.data.slot == slot
  {
    AcceptedVoteIsSound(sv, SoloVote(slot).message.data);
  }
}
