/**
  What the stages of the state transition do to each field, told over the fields: the slot
  and the cached state root, the history and the justified bits entry by entry, the seeded
  checkpoints, the errors in the order of their checks, and how the stages make a whole.
 */
module TransitionRule {
  import opened Containers
  import opened Collections
  import opened Tally
  import opened Transition
  import opened ChainInvariant

  // ---------------------------------------------------------------- slots

  /** The first state root that is not zero, hashing the state as it passes the slots from
      `slot` on; zero when there is none among the next `n`. */
  ghost function FirstRoot(h: Hashes, s: State, slot: nat, n: nat): Root
    requires slot + n <= U64_MAX
    decreases n
  {
    if n == 0 then ZERO_ROOT
    else if h.state(s.(slot := slot)) != ZERO_ROOT then h.state(s.(slot := slot))
    else FirstRoot(h, s, slot + 1, n - 1)
  }

  lemma {:induction false} RootCachedOnce(h: Hashes, s: State, n: nat)
    requires s.slot + n <= U64_MAX
    ensures AdvanceSlots(h, s, n) == s.(slot := s.slot + n, header := s.header.(stateRoot :=
              if s.header.stateRoot != ZERO_ROOT then s.header.stateRoot else FirstRoot(h, s, s.slot, n)))
  {
    if n > 0 {
      RootCachedOnce(h, s, n - 1);
      FirstRootExtends(h, s, s.slot, n - 1);
      var t := AdvanceSlots(h, s, n - 1);
      if t.header.stateRoot == ZERO_ROOT { assert t == s.(slot := s.slot + n - 1); }
    }
  }

  lemma {:induction false} FirstRootExtends(h: Hashes, s: State, slot: nat, n: nat)
    requires slot + n + 1 <= U64_MAX
    ensures FirstRoot(h, s, slot, n + 1) ==
            if FirstRoot(h, s, slot, n) != ZERO_ROOT then FirstRoot(h, s, slot, n) else h.state(s.(slot := slot + n))
    decreases n
  {
    if n > 0 { FirstRootExtends(h, s, slot + 1, n - 1); }
  }

  /** Slot processing moves the slot to the target and fills in a state root that is still
      zero, with the root of the state it started from when that is not zero; nothing else
      changes. A target that is not ahead is refused. */
  lemma SlotsRule(h: Hashes, s: State, target: Slot)
    ensures target <= s.slot ==> ProcessSlots(h, s, target) == Failed(s, TargetSlotNotInFuture(s.slot, target))
    ensures target > s.slot ==>
              && ProcessSlots(h, s, target).Done?
              && var t := ProcessSlots(h, s, target).after;
                 && t == s.(slot := target, header := s.header.(stateRoot := t.header.stateRoot))
                 && (s.header.stateRoot != 0 ==> t.header == s.header)
                 && (s.header.stateRoot == 0 ==> t.header.stateRoot == FirstRoot(h, s, s.slot, target - s.slot))
                 && (s.header.stateRoot == 0 && h.state(s) != 0 ==> t.header.stateRoot == h.state(s))
  {
    if target > s.slot {
      RootCachedOnce(h, s, target - s.slot);
      assert s.(slot := s.slot) == s;
    }
  }

  // ---------------------------------------------------------------- header

  /** The checks of the header stage in their order, each with its error; none of them
      changes the state. */
  lemma HeaderErrors(h: Hashes, s: State, b: Block)
    ensures var o, n, parent := ProcessBlockHeader(h, s, b), |s.validators|, h.header(s.header);
            && (b.slot != s.slot ==> o == Failed(s, BlockSlotMismatch(b.slot, s.slot)))
            && (b.slot == s.slot <= s.header.slot ==> o == Failed(s, BlockOlderThanLatest(b.slot, s.header.slot)))
            && (b.slot == s.slot > s.header.slot ==>
                  && (n == 0 ==> o == Failed(s, NoValidators))
                  && (n > 0 && s.slot % n != b.proposerIndex ==>
                        o == Failed(s, IncorrectBlockProposer(s.slot, b.proposerIndex)))
                  && (n > 0 && s.slot % n == b.proposerIndex && b.parentRoot != parent ==>
                        o == Failed(s, BlockParentRootMismatch(b.slot, b.parentRoot, parent)))
                  && (n > 0 && s.slot % n == b.proposerIndex && b.parentRoot == parent
                      && |s.history| + (b.slot - s.header.slot) > 262144 ==>
                        o == Failed(s, StateBoundExceeded(HistoricalBlockHashes))))
  {
  }

  /** A header that passes. The history gains the parent's root and a zero for every slot
      skipped; the bits gain as many, all clear but the first after genesis; the first
      header after genesis gives both checkpoints the parent's root; the new header repeats
      the block with a zero state root; nothing else changes. */
  lemma HeaderEffect(h: Hashes, s: State, b: Block)
    requires ProcessBlockHeader(h, s, b).Done?
    ensures var t, k, j := ProcessBlockHeader(h, s, b).after, |s.history|, |s.justifiedSlots|;
            && b.slot == s.slot > s.header.slot && b.parentRoot == h.header(s.header)
            && |s.validators| > 0 && b.proposerIndex == s.slot % |s.validators|
            && |t.history| == k + (b.slot - s.header.slot) <= 262144
            && |t.justifiedSlots| == j + (b.slot - s.header.slot) <= 262144
            && t.history[..k] == s.history && t.history[k] == b.parentRoot
            && (forall i :: k < i < |t.history| ==> t.history[i] == 0)
            && t.justifiedSlots[..j] == s.justifiedSlots && (t.justifiedSlots[j] <==> s.header.slot == 0)
            && (forall i :: j < i < |t.justifiedSlots| ==> !t.justifiedSlots[i])
            && t.header == BlockHeader(b.slot, b.proposerIndex, b.parentRoot, 0, h.body(b.body))
            && t.justified == Checkpoint(if s.header.slot == 0 then b.parentRoot else s.justified.root, s.justified.slot)
            && t.finalized == Checkpoint(if s.header.slot == 0 then b.parentRoot else s.finalized.root, s.finalized.slot)
            && t == s.(history := t.history, justifiedSlots := t.justifiedSlots, header := t.header,
                       justified := t.justified, finalized := t.finalized)
  {
  }

  // ---------------------------------------------------------------- the whole

  /** A transition succeeds exactly when its stages do, one after the other, and the root,
      if it is checked, is that of the result. A failure is that of the first stage to fail,
      and leaves the state as it was. */
  lemma WholeRule(h: Hashes, s: State, b: Block, validate: bool)
    ensures var o, o1 := StateTransition(h, s, b, validate), ProcessSlots(h, s, b.slot);
            && (o1.Failed? ==> o == Failed(s, o1.error))
            && (o1.Done? ==>
                  var o2 := ProcessBlockHeader(h, o1.after, b);
                  && (o2.Failed? ==> o == Failed(s, o2.error))
                  && (o2.Done? ==>
                        var o3 := ProcessAttestations(o2.after, b.body);
                        && (o3.Failed? ==> o == Failed(s, o3.error))
                        && (o3.Done? ==>
                              var root := h.state(o3.after);
                              o == if validate && b.stateRoot != root
                                   then Failed(s, StateRootMismatch(b.slot, root, b.stateRoot)) else o3)))
  {
    hide ProcessSlots, ProcessBlockHeader, ProcessAttestations;
  }

  // ---------------------------------------------------------------- the stored table

  /** Reading the flat form back, whatever it holds: the row of a root is that at its last
      place in the list. */
  lemma {:induction false} LastRowWins(roots: seq<Root>, bits: seq<bool>, n: nat, i: nat, at: nat)
    requires |bits| == |roots| * n && i < |roots| && at == i * n
    requires forall j :: i < j < |roots| ==> roots[j] != roots[i]
    ensures at + n <= |bits| && roots[i] in Hydrate(roots, bits, n)
    ensures Hydrate(roots, bits, n)[roots[i]] == bits[at..at + n]
    decreases |roots|
  {
    hide Hydrate;
    HydrateUnfolds(roots, bits, n);
    RowFits(|roots|, n, i);
    var front := roots[..|roots| - 1];
    if i < |front| {
      RowFits(|front|, n, i);
      LastRowWins(front, bits[..|bits| - n], n, i, at);
      assert bits[..|bits| - n][at..at + n] == bits[at..at + n];
      assert roots[|roots| - 1] != roots[i];
    } else {
      assert at == |bits| - n;
    }
  }

  /** A batch starts from that table and the stored checkpoints, and one whose flat form has
      the wrong length fails without effect. */
  lemma BatchStart(s: State, atts: seq<Attestation>)
    ensures |s.validators| > 0 && |s.pendingVotes| != |s.pendingRoots| * |s.validators| ==>
              ProcessAttestations(s, atts) == Failed(s, StateBoundExceeded(JustificationsValidators))
    ensures |s.validators| > 0 && |s.pendingVotes| == |s.pendingRoots| * |s.validators| ==>
              PendingWellSized(s) &&
              StartWork(s) == Work(Hydrate(s.pendingRoots, s.pendingVotes, |s.validators|), s.justifiedSlots,
                                   s.justified, s.finalized)
  {
  }

  /** What a batch leaves: the loop's bits and checkpoints, and, if it fits, the loop's table
      in its flat form; nothing else changes. */
  lemma BatchEnd(s: State, atts: seq<Attestation>)
    requires PendingWellSized(s) && ApplyVotes(s.history, |s.validators|, StartWork(s), atts).Ok?
    ensures var u, o := ApplyVotes(s.history, |s.validators|, StartWork(s), atts).value, ProcessAttestations(s, atts);
            && o.after.justifiedSlots == u.bits && o.after.justified == u.justified && o.after.finalized == u.finalized
            && o.after == s.(justifiedSlots := u.bits, justified := u.justified, finalized := u.finalized,
                             pendingRoots := o.after.pendingRoots, pendingVotes := o.after.pendingVotes)
            && (o.Done? <==> |u.table| * |s.validators| <= 1073741824)
            && (o.Failed? ==>
                  && o.error == StateBoundExceeded(JustificationsValidators)
                  && o.after.pendingRoots == s.pendingRoots && o.after.pendingVotes == s.pendingVotes)
            && (o.Done? && |s.validators| > 0 ==>
                  && PendingWellSized(o.after) && PendingTable(o.after) == u.table
                  && StrictlyIncreasing(o.after.pendingRoots))
  {
    hide ApplyVotes, Hydrate, Flatten, Ascending, StrictlyIncreasing;
    var u := ApplyVotes(s.history, |s.validators|, StartWork(s), atts).value;
    if |u.table| * |s.validators| <= 1073741824 && |s.validators| > 0 {
      StoredPendingReadsBack(Commit(s, u), u.table);
    }
  }
}
