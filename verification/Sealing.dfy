/**
  How a block's root reappears in its children. Block processing leaves the header's
  state root zero; the next slot fills it in; from then on the header's root is the
  root of the block itself, which is what a child must name as its parent.
 */
module Sealing {
  import opened Containers
  import opened Transition
  import opened ChainInvariant

  /** When the state root is not the zero sentinel, slot processing caches it once and
      only moves the slot afterwards. */
  lemma {:induction false} AdvanceSlotsClosed(h: Hashes, s: State, n: nat)
    requires n > 0 && s.slot + n <= U64_MAX && h.state(s) != ZERO_ROOT
    ensures AdvanceSlots(h, s, n) == CacheStateRoot(h, s).(slot := s.slot + n)
  {
    if n > 1 { AdvanceSlotsClosed(h, s, n - 1); }
  }

  /** `p` is the state block `b` leaves behind, and `b` commits to it. */
  ghost predicate Seals(h: Hashes, b: Block, p: State) {
    && p.slot == p.header.slot == b.slot
    && p.header == UnsealedHeader(h, b)
    && h.state(p) == b.stateRoot
  }

  /** A checked transition leaves a state that its block seals. */
  lemma TransitionSeals(h: Hashes, s: State, b: Block)
    requires StateTransition(h, s, b, true).Done?
    ensures Seals(h, b, StateTransition(h, s, b, true).after)
    ensures s.slot < b.slot && StateTransition(h, s, b, true).after.validators == s.validators
  {
    hide StateTransition, ProcessAttestations, AdvanceSlots;
    var s1, s2 := TransitionStages(h, s, b, true);
    AdvanceSlotsFrame(h, s, b.slot - s.slot);
    AttestationsFrame(s2, b.body);
  }

  lemma AttestationsFrame(s: State, atts: seq<Attestation>)
    requires ProcessAttestations(s, atts).Done?
    ensures var t := ProcessAttestations(s, atts).after;
            t.slot == s.slot && t.header == s.header && t.validators == s.validators && t.history == s.history
  {
  }

  /** The genesis pair is sealed. */
  lemma GenesisSeals(h: Hashes, time: U64, validators: seq<Validator>)
    ensures var g := GenesisState(h, time, validators); Seals(h, GenesisBlock(h, g), g)
  {
  }

  /** After any number of slots, the header's root is the sealed block's root. */
  lemma SealedRoot(h: Hashes, b: Block, p: State, n: nat)
    requires Seals(h, b, p) && b.stateRoot != ZERO_ROOT
    requires n > 0 && p.slot + n <= U64_MAX
    ensures h.header(AdvanceSlots(h, p, n).header) == BlockRoot(h, b)
  {
    AdvanceSlotsClosed(h, p, n);
  }

  /** On the state of a sealed block, the header stage accepts a later child exactly
      when the child names that block, its proposer is the round-robin one, and its
      slot is within the history limit. */
  lemma ChildHeaderAcceptedIff(h: Hashes, b: Block, p: State, c: Block)
    requires ChainInv(h, p) && Seals(h, b, p) && b.stateRoot != ZERO_ROOT && c.slot > p.slot
    ensures ProcessBlockHeader(h, AdvanceSlots(h, p, c.slot - p.slot), c).Done? <==>
            && c.parentRoot == BlockRoot(h, b)
            && |p.validators| > 0 && c.slot % |p.validators| == c.proposerIndex
            && c.slot <= HISTORICAL_ROOTS_LIMIT
  {
    var s := AdvanceSlots(h, p, c.slot - p.slot);
    SealedRoot(h, b, p, c.slot - p.slot);
    AdvanceSlotsFrame(h, p, c.slot - p.slot);
    assert |p.history| == |p.justifiedSlots| == p.header.slot;
    hide ChainInv, AdvanceSlots, ProcessBlockHeader;
    HeaderDoneIff(h, s, c);
  }

  lemma HeaderDoneIff(h: Hashes, s: State, c: Block)
    requires |s.history| == |s.justifiedSlots| == s.header.slot < s.slot == c.slot
    ensures ProcessBlockHeader(h, s, c).Done? <==>
            && c.parentRoot == h.header(s.header)
            && |s.validators| > 0 && c.slot % |s.validators| == c.proposerIndex
            && c.slot <= HISTORICAL_ROOTS_LIMIT
  {
  }
}
