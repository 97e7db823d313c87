/**
  What every run of the state machine keeps. A run is any sequence of the four
  public operations, failed calls included, from a genesis state.
 */
module ChainInvariant {
  import opened Containers
  import opened Collections
  import opened Justifiability
  import opened Tally
  import opened Transition

  datatype Op =
    | Slots(target: Slot)
    | Header(block: Block)
    | Attest(atts: seq<Attestation>)
    | Whole(block: Block, validate: bool)

  ghost function Perform(h: Hashes, s: State, op: Op): Outcome {
    match op
    case Slots(target) => ProcessSlots(h, s, target)
    case Header(block) => ProcessBlockHeader(h, s, block)
    case Attest(atts) => ProcessAttestations(s, atts)
    case Whole(block, validate) => StateTransition(h, s, block, validate)
  }

  ghost function Run(h: Hashes, s: State, ops: seq<Op>): State
    decreases |ops|
  {
    if ops == [] then s else Perform(h, Run(h, s, ops[..|ops| - 1]), ops[|ops| - 1]).after
  }

  // ---------------------------------------------------------------- invariant

  /** The checkpoint's bit is set and its root is the history entry of its slot. */
  ghost predicate Anchored(history: seq<Root>, bits: seq<bool>, c: Checkpoint) {
    c.slot < |bits| && c.slot < |history| && bits[c.slot] && c.root == history[c.slot]
  }

  ghost predicate Unjustified(history: seq<Root>, bits: seq<bool>, r: Root, k: nat) {
    k < |history| && k < |bits| && history[k] == r && !bits[k]
  }

  /** A pending row names the root of an unjustified slot and holds some votes, but
      not two thirds of them. */
  ghost predicate RowPending(history: seq<Root>, bits: seq<bool>, n: nat, r: Root, row: seq<bool>) {
    && (exists k: nat :: Unjustified(history, bits, r, k))
    && Supporters(row) != {}
    && !Supermajority(row, n)
  }

  ghost predicate AllPending(history: seq<Root>, bits: seq<bool>, n: nat, t: Table) {
    forall r :: r in t ==> RowPending(history, bits, n, r, t[r])
  }

  ghost predicate WorkInv(history: seq<Root>, n: nat, w: Work) {
    && |w.bits| == |history|
    && RowsOfLength(w.table, n)
    && AllPending(history, w.bits, n, w.table)
    && w.finalized.slot <= w.justified.slot
    && (history != [] ==> Anchored(history, w.bits, w.justified) && Anchored(history, w.bits, w.finalized))
  }

  ghost predicate PendingSorted(s: State) {
    && StrictlyIncreasing(s.pendingRoots)
    && |s.pendingVotes| == |s.pendingRoots| * |s.validators|
    && (|s.validators| == 0 ==> s.pendingRoots == [])
  }

  /** A history entry is zero or the root of some header of that very slot. */
  ghost predicate NamesSlot(h: Hashes, r: Root, k: nat) {
    r == ZERO_ROOT || exists hd: BlockHeader :: hd.slot == k && h.header(hd) == r
  }

  /** A header's parent root is zero or the root of some earlier header. */
  ghost predicate ParentBelow(h: Hashes, hd: BlockHeader) {
    hd.parentRoot == ZERO_ROOT || exists g: BlockHeader :: g.slot < hd.slot && h.header(g) == hd.parentRoot
  }

  ghost predicate ChainInv(h: Hashes, s: State) {
    && |s.history| == |s.justifiedSlots| == s.header.slot <= s.slot
    && ParentBelow(h, s.header)
    && (forall k: nat :: k < |s.history| ==> NamesSlot(h, s.history[k], k))
    && PendingSorted(s)
    && WorkInv(s.history, |s.validators|, StartWork(s))
    && (s.history == [] ==> s.justified == s.finalized == ZERO_CHECKPOINT)
    && (s.history != [] ==> s.justifiedSlots[0])
  }

  /** What one operation may do to a state that satisfies the invariant. */
  ghost predicate Extends(s: State, t: State) {
    && s.history <= t.history
    && s.validators == t.validators && s.genesisTime == t.genesisTime
    && |s.justifiedSlots| <= |t.justifiedSlots|
    && s.finalized.slot <= t.finalized.slot
    && s.slot <= t.slot && s.header.slot <= t.header.slot
    && BitsExtend(s.justifiedSlots, t.justifiedSlots, s.finalized.slot)
  }

  /** No bit is ever cleared, and none at or below the finalized slot is ever set. */
  ghost predicate BitsExtend(a: seq<bool>, b: seq<bool>, finalized: nat) {
    && |a| <= |b|
    && (forall k :: 0 <= k < |a| && a[k] ==> b[k])
    && (forall k :: 0 <= k < |a| && k <= finalized ==> a[k] == b[k])
  }

  // ---------------------------------------------------------------- one vote

  lemma RaisedSupporters(t: Table, root: Root, v: nat, n: nat)
    requires RowsOfLength(t, n) && v < n
    ensures v in Supporters(RaisedRow(t, root, v, n))
    ensures Supporters(RaisedRow(t, root, v, n)) ==
            (if root in t then Supporters(t[root]) else {}) + {v}
  {
    var row := RaisedRow(t, root, v, n);
    assert row[v];
    var base := if root in t then t[root] else Unset(n);
    assert forall j :: 0 <= j < n && j != v ==> row[j] == base[j];
  }

  /** A target the filter accepts lies strictly above the finalized slot. */
  lemma AcceptedAboveFinalized(history: seq<Root>, w: Work, vote: AttestationData)
    requires Anchored(history, w.bits, w.finalized) && Acceptable(history, w, vote)
    ensures vote.target.slot > w.finalized.slot
  {
  }

  /** Finalization never moves back: below the finalized slot a source always has a
      justifiable slot, the finalized one, between it and its target. */
  lemma FinalizedSourceNotBelow(history: seq<Root>, w: Work, vote: AttestationData)
    requires Anchored(history, w.bits, w.finalized) && Acceptable(history, w, vote)
    requires NothingBetween(vote.source.slot, vote.target.slot, w.finalized.slot)
    ensures w.finalized.slot <= vote.source.slot
  {
    AcceptedAboveFinalized(history, w, vote);
    var f := w.finalized.slot;
    assert JustifiableAfter(f, f);
  }

  lemma VoteKeepsPending(history: seq<Root>, n: nat, w: Work, att: Attestation)
    requires WorkInv(history, n, w) && att.validatorId < n
    ensures AllPending(history, ApplyVote(history, n, w, att).bits, n, ApplyVote(history, n, w, att).table)
  {
    var vote := att.data;
    var w' := ApplyVote(history, n, w, att);
    if Acceptable(history, w, vote) {
      var target := vote.target;
      RaisedSupporters(w.table, target.root, att.validatorId, n);
      assert Unjustified(history, w.bits, target.root, target.slot);
      forall r | r in w'.table ensures RowPending(history, w'.bits, n, r, w'.table[r]) {
        if r in w.table && r != target.root {
          assert RowPending(history, w.bits, n, r, w.table[r]);
          var k: nat :| Unjustified(history, w.bits, r, k);
          assert Unjustified(history, w'.bits, r, k);
        } else {
          assert Unjustified(history, w'.bits, r, target.slot);
        }
      }
    }
  }

  lemma VoteKeepsInvariant(history: seq<Root>, n: nat, w: Work, att: Attestation)
    requires WorkInv(history, n, w) && att.validatorId < n
    ensures var w' := ApplyVote(history, n, w, att);
            && WorkInv(history, n, w')
            && w.finalized.slot <= w'.finalized.slot
            && BitsExtend(w.bits, w'.bits, w.finalized.slot)
  {
    VoteKeepsPending(history, n, w, att);
    if Acceptable(history, w, att.data) {
      AcceptedAboveFinalized(history, w, att.data);
      if NothingBetween(att.data.source.slot, att.data.target.slot, w.finalized.slot) {
        FinalizedSourceNotBelow(history, w, att.data);
      }
    }
  }

  lemma {:induction false} VotesKeepInvariant(history: seq<Root>, n: nat, w: Work, atts: seq<Attestation>)
    requires WorkInv(history, n, w)
    requires ApplyVotes(history, n, w, atts).Ok?
    ensures var w' := ApplyVotes(history, n, w, atts).value;
            && WorkInv(history, n, w')
            && w.finalized.slot <= w'.finalized.slot
            && BitsExtend(w.bits, w'.bits, w.finalized.slot)
    ensures history == [] ==> ApplyVotes(history, n, w, atts).value == w
    decreases |atts|
  {
    if atts != [] {
      var front, last := atts[..|atts| - 1], atts[|atts| - 1];
      VotesKeepInvariant(history, n, w, front);
      VoteKeepsInvariant(history, n, ApplyVotes(history, n, w, front).value, last);
    }
  }

  // ---------------------------------------------------------------- pending table

  /** Pending roots are history roots, so the table is no larger than the history. */
  lemma TableNoLargerThanHistory(history: seq<Root>, bits: seq<bool>, n: nat, t: Table)
    requires AllPending(history, bits, n, t)
    ensures |t| <= |history|
  {
    forall r | r in t.Keys ensures r in Elements(history) {
      assert RowPending(history, bits, n, r, t[r]);
      var k: nat :| Unjustified(history, bits, r, k);
    }
    SubsetSize(t.Keys, Elements(history));
    ElementsSize(history);
  }

  lemma TableFits(history: seq<Root>, bits: seq<bool>, n: nat, t: Table)
    requires AllPending(history, bits, n, t)
    requires |history| <= HISTORICAL_ROOTS_LIMIT && n <= VALIDATOR_REGISTRY_LIMIT
    ensures |t| * n <= JUSTIFICATIONS_VALIDATORS_LIMIT
  {
    TableNoLargerThanHistory(history, bits, n, t);
    MulLeft(|t|, HISTORICAL_ROOTS_LIMIT, n);
    assert HISTORICAL_ROOTS_LIMIT * n <= JUSTIFICATIONS_VALIDATORS_LIMIT;
  }

  /** Storing a table on the state and reading it back is the identity. */
  lemma StoredPendingReadsBack(s: State, t: Table)
    requires Storable(s, t)
    requires |s.validators| == 0 ==> t == map[]
    ensures var s' := StorePending(s, t);
            PendingWellSized(s') && PendingSorted(s') && PendingTable(s') == t
  {
    HydrateFlatten(t, |s.validators|);
    FlattenLength(Ascending(t.Keys), t, |s.validators|);
  }

  /** Reading the table off a state and storing it again changes nothing. */
  lemma PendingStoresBack(s: State)
    requires PendingSorted(s)
    ensures PendingWellSized(s) && Storable(s, PendingTable(s)) && StorePending(s, PendingTable(s)) == s
  {
    hide Hydrate, Flatten, Ascending, StrictlyIncreasing;
    var n := |s.validators|;
    if n > 0 {
      FlattenHydrate(s.pendingRoots, s.pendingVotes, n);
      var t := Hydrate(s.pendingRoots, s.pendingVotes, n);
      assert |t| == |t.Keys| == |s.pendingRoots|;
    } else {
      NothingFlattened();
    }
  }

  lemma NothingFlattened()
    ensures var none: set<nat> := {}; Ascending(none) == [] && Flatten([], map[]) == []
  {
  }

  // ---------------------------------------------------------------- operations

  lemma GenesisInvariant(h: Hashes, time: U64, validators: seq<Validator>)
    ensures ChainInv(h, GenesisState(h, time, validators))
  {
    var s := GenesisState(h, time, validators);
    assert 0 * |validators| == 0;
    assert PendingTable(s) == map[];
  }

  /** The invariant reads neither the slot nor the header's own state root. */
  lemma InvariantFrame(h: Hashes, s: State, t: State)
    requires ChainInv(h, s)
    requires t == s.(slot := t.slot, header := t.header)
    requires t.header == s.header.(stateRoot := t.header.stateRoot) && s.slot <= t.slot
    ensures ChainInv(h, t) && Extends(s, t)
  {
    assert StartWork(t) == StartWork(s);
    assert t.header.parentRoot == s.header.parentRoot && t.header.slot == s.header.slot;
  }

  lemma {:induction false} AdvanceSlotsFrame(h: Hashes, s: State, n: nat)
    requires s.slot + n <= U64_MAX
    ensures var t := AdvanceSlots(h, s, n);
            && t == s.(slot := t.slot, header := t.header)
            && t.header == s.header.(stateRoot := t.header.stateRoot)
  {
    if n > 0 { AdvanceSlotsFrame(h, s, n - 1); }
  }

  lemma SlotsKeepInvariant(h: Hashes, s: State, n: nat)
    requires ChainInv(h, s) && s.slot + n <= U64_MAX
    ensures ChainInv(h, AdvanceSlots(h, s, n)) && Extends(s, AdvanceSlots(h, s, n))
  {
    AdvanceSlotsFrame(h, s, n);
    InvariantFrame(h, s, AdvanceSlots(h, s, n));
  }

  lemma SlotsStage(h: Hashes, s: State, target: Slot, s1: State)
    requires ChainInv(h, s) && ProcessSlots(h, s, target) == Done(s1)
    ensures ChainInv(h, s1) && Extends(s, s1) && s1.validators == s.validators
  {
    SlotsKeepInvariant(h, s, target - s.slot);
  }

  /** A failed header changes the state exactly when the gate let the block through
      and the bitlist, unlike the history, has no room for its slots. */
  lemma HeaderFailureMutatesIff(h: Hashes, s: State, b: Block)
    ensures var o := ProcessBlockHeader(h, s, b);
            (o.Failed? && o.after != s) <==>
            (HeaderGate(h, s, b).None? &&
             |s.justifiedSlots| + (b.slot - s.header.slot) > HISTORICAL_ROOTS_LIMIT)
  {
    var o := ProcessBlockHeader(h, s, b);
    if HeaderGate(h, s, b).None? && o.Failed? {
      assert |o.after.history| > |s.history|;
    }
  }

  /** Under the invariant a failed header leaves the state unchanged. */
  lemma HeaderAtomic(h: Hashes, s: State, b: Block)
    requires ChainInv(h, s)
    ensures ProcessBlockHeader(h, s, b).Failed? ==> ProcessBlockHeader(h, s, b).after == s
  {
    HeaderFailureMutatesIff(h, s, b);
  }

  lemma HeaderKeepsInvariant(h: Hashes, s: State, b: Block)
    requires ChainInv(h, s)
    ensures ChainInv(h, ProcessBlockHeader(h, s, b).after) && Extends(s, ProcessBlockHeader(h, s, b).after)
  {
    hide AllPending, PendingTable, NamesSlot, PendingSorted;
    HeaderAtomic(h, s, b);
    var o := ProcessBlockHeader(h, s, b);
    if o.Done? {
      var t := o.after;
      SamePending(s, t);
      HistoryNamesSlots(h, s, t, h.header(s.header));
      assert s.history <= t.history && s.justifiedSlots <= t.justifiedSlots;
      RowsStayPending(s.history, s.justifiedSlots, t.history, t.justifiedSlots, |s.validators|, PendingTable(s));
    }
  }

  lemma SamePending(s: State, t: State)
    requires PendingSorted(s) && s.validators == t.validators
    requires s.pendingRoots == t.pendingRoots && s.pendingVotes == t.pendingVotes
    ensures PendingSorted(t) && PendingWellSized(s) && PendingWellSized(t) && PendingTable(t) == PendingTable(s)
  {
  }

  lemma HistoryNamesSlots(h: Hashes, s: State, t: State, parent: Root)
    requires forall k: nat :: k < |s.history| ==> NamesSlot(h, s.history[k], k)
    requires |s.history| == s.header.slot && parent == h.header(s.header)
    requires s.history + [parent] <= t.history
    requires forall k :: |s.history| < k < |t.history| ==> t.history[k] == ZERO_ROOT
    ensures forall k: nat :: k < |t.history| ==> NamesSlot(h, t.history[k], k)
  {
    forall k: nat | k < |t.history| ensures NamesSlot(h, t.history[k], k) {
      assert k <= |s.history| ==> t.history[k] == (s.history + [parent])[k];
    }
  }

  lemma RowsStayPending(a: seq<Root>, x: seq<bool>, b: seq<Root>, y: seq<bool>, n: nat, t: Table)
    requires a <= b && x <= y && AllPending(a, x, n, t)
    ensures AllPending(b, y, n, t)
  {
    forall r | r in t ensures RowPending(b, y, n, r, t[r]) {
      assert RowPending(a, x, n, r, t[r]);
      var k: nat :| Unjustified(a, x, r, k);
      assert Unjustified(b, y, r, k);
    }
  }

  /** With the registry within its limit a failed batch leaves the state unchanged. */
  lemma AttestationsAtomic(h: Hashes, s: State, atts: seq<Attestation>)
    requires ChainInv(h, s) && |s.validators| <= VALIDATOR_REGISTRY_LIMIT
    ensures ProcessAttestations(s, atts).Failed? ==> ProcessAttestations(s, atts).after == s
  {
    hide ApplyVotes, PendingTable, NamesSlot, ParentBelow;
    var n := |s.validators|;
    var r := ApplyVotes(s.history, n, StartWork(s), atts);
    if r.Ok? {
      VotesKeepInvariant(s.history, n, StartWork(s), atts);
      TableFits(s.history, r.value.bits, n, r.value.table);
    }
  }

  lemma AttestationsKeepInvariant(h: Hashes, s: State, atts: seq<Attestation>)
    requires ChainInv(h, s) && |s.validators| <= VALIDATOR_REGISTRY_LIMIT
    ensures ChainInv(h, ProcessAttestations(s, atts).after) && Extends(s, ProcessAttestations(s, atts).after)
  {
    hide ChainInv, Extends, ApplyVotes, WorkInv, BitsExtend, PendingTable;
    AttestationsAtomic(h, s, atts);
    ExtendsItself(s);
    InvariantWork(h, s);
    var n := |s.validators|;
    if ProcessAttestations(s, atts).Done? {
      VotesKeepInvariant(s.history, n, StartWork(s), atts);
      if n == 0 { NoValidatorNoVotes(s.history, StartWork(s), atts); }
      CommitKeepsInvariant(h, s, ApplyVotes(s.history, n, StartWork(s), atts).value);
    }
  }

  lemma InvariantWork(h: Hashes, s: State)
    requires ChainInv(h, s)
    ensures PendingWellSized(s) && WorkInv(s.history, |s.validators|, StartWork(s))
    ensures |s.validators| == 0 ==> StartWork(s).table == map[]
  {
    hide WorkInv, NamesSlot, ParentBelow;
  }

  /** Committing working copies that satisfy the invariant and storing their table. */
  lemma CommitKeepsInvariant(h: Hashes, s: State, w: Work)
    requires ChainInv(h, s) && WorkInv(s.history, |s.validators|, w)
    requires s.finalized.slot <= w.finalized.slot && BitsExtend(s.justifiedSlots, w.bits, s.finalized.slot)
    requires s.history == [] ==> w == StartWork(s)
    requires |s.validators| == 0 ==> w.table == map[]
    requires Storable(s, w.table)
    ensures var t := StorePending(Commit(s, w), w.table); ChainInv(h, t) && Extends(s, t) && StartWork(t) == w
  {
    hide WorkInv, PendingSorted, PendingTable, NamesSlot, ParentBelow, Ascending, Flatten;
    WorkRows(s.history, |s.validators|, w);
    StoredPendingReadsBack(Commit(s, w), w.table);
  }

  /** A batch that succeeds stores exactly its working copies. */
  lemma BatchWork(h: Hashes, s: State, atts: seq<Attestation>)
    requires ChainInv(h, s) && |s.validators| <= VALIDATOR_REGISTRY_LIMIT && ProcessAttestations(s, atts).Done?
    ensures var t := ProcessAttestations(s, atts).after;
            && PendingWellSized(s) && PendingWellSized(t)
            && ApplyVotes(s.history, |s.validators|, StartWork(s), atts) == Ok(StartWork(t))
  {
    hide ApplyVotes, WorkInv, PendingTable, NamesSlot, ParentBelow, BitsExtend;
    var n, w := |s.validators|, StartWork(s);
    InvariantWork(h, s);
    VotesKeepInvariant(s.history, n, w, atts);
    if n == 0 { NoValidatorNoVotes(s.history, w, atts); }
    CommitKeepsInvariant(h, s, ApplyVotes(s.history, n, w, atts).value);
  }

  lemma WorkRows(history: seq<Root>, n: nat, w: Work)
    requires WorkInv(history, n, w)
    ensures RowsOfLength(w.table, n) && |w.bits| == |history|
  {
  }

  ghost predicate AllInRange(s: State, atts: seq<Attestation>) {
    forall att :: att in atts ==> RangeError(s.history, |s.justifiedSlots|, |s.validators|, att).None?
  }

  lemma {:induction false} RangeDecidesSuccess(history: seq<Root>, n: nat, w: Work, atts: seq<Attestation>)
    requires RowsOfLength(w.table, n)
    ensures ApplyVotes(history, n, w, atts).Ok? <==>
            forall att :: att in atts ==> RangeError(history, |w.bits|, n, att).None?
    decreases |atts|
  {
    if atts != [] {
      var front, last := atts[..|atts| - 1], atts[|atts| - 1];
      assert atts == front + [last];
      hide RangeError, ApplyVote;
      RangeDecidesSuccess(history, n, w, front);
    }
  }

  /** On reachable states a batch succeeds exactly when every vote is in range. */
  lemma BatchDoneIff(h: Hashes, s: State, atts: seq<Attestation>)
    requires ChainInv(h, s) && |s.validators| <= VALIDATOR_REGISTRY_LIMIT
    ensures ProcessAttestations(s, atts).Done? <==> AllInRange(s, atts)
  {
    var n, w := |s.validators|, StartWork(s);
    RangeDecidesSuccess(s.history, n, w, atts);
    if AllInRange(s, atts) {
      VotesKeepInvariant(s.history, n, w, atts);
      var u := ApplyVotes(s.history, n, w, atts).value;
      TableFits(s.history, u.bits, n, u.table);
    }
  }

  lemma NoValidatorNoVotes(history: seq<Root>, w: Work, atts: seq<Attestation>)
    requires RowsOfLength(w.table, 0) && ApplyVotes(history, 0, w, atts).Ok?
    ensures atts == [] && ApplyVotes(history, 0, w, atts) == Ok(w)
  {
  }

  lemma OpKeepsInvariant(h: Hashes, s: State, op: Op)
    requires ChainInv(h, s) && |s.validators| <= VALIDATOR_REGISTRY_LIMIT
    ensures ChainInv(h, Perform(h, s, op).after) && Extends(s, Perform(h, s, op).after)
    ensures Perform(h, s, op).Failed? ==> Perform(h, s, op).after == s
  {
    ExtendsItself(s);
    hide ChainInv, Extends, ProcessBlockHeader, ProcessAttestations, PendingWellSized;
    match op
    case Slots(target) =>
      if target > s.slot { SlotsKeepInvariant(h, s, target - s.slot); }
    case Header(b) =>
      HeaderAtomic(h, s, b);
      HeaderKeepsInvariant(h, s, b);
    case Attest(atts) =>
      AttestationsAtomic(h, s, atts);
      AttestationsKeepInvariant(h, s, atts);
    case Whole(b, validate) =>
      WholeKeepsInvariant(h, s, b, validate);
  }

  lemma StagesKeepInvariant(h: Hashes, s: State, s1: State, s2: State, s3: State, b: Block)
    requires ChainInv(h, s) && |s.validators| <= VALIDATOR_REGISTRY_LIMIT
    requires ProcessSlots(h, s, b.slot) == Done(s1)
    requires ProcessBlockHeader(h, s1, b) == Done(s2)
    requires ProcessAttestations(s2, b.body) == Done(s3)
    ensures ChainInv(h, s3) && Extends(s, s3)
  {
    hide *;
    SlotsStage(h, s, b.slot, s1);
    HeaderKeepsInvariant(h, s1, b);
    ExtendsChains(s, s1, s2);
    AttestationsKeepInvariant(h, s2, b.body);
    ExtendsChains(s, s2, s3);
  }

  /** A successful transition is its three stages in order; a failed one is none. */
  lemma TransitionStages(h: Hashes, s: State, b: Block, validate: bool) returns (s1: State, s2: State)
    requires StateTransition(h, s, b, validate).Done?
    ensures ProcessSlots(h, s, b.slot) == Done(s1)
    ensures ProcessBlockHeader(h, s1, b) == Done(s2)
    ensures ProcessAttestations(s2, b.body) == StateTransition(h, s, b, validate)
    ensures validate ==> h.state(StateTransition(h, s, b, validate).after) == b.stateRoot
  {
    s1 := ProcessSlots(h, s, b.slot).after;
    s2 := ProcessBlockHeader(h, s1, b).after;
  }

  lemma WholeKeepsInvariant(h: Hashes, s: State, b: Block, validate: bool)
    requires ChainInv(h, s) && |s.validators| <= VALIDATOR_REGISTRY_LIMIT
    ensures ChainInv(h, StateTransition(h, s, b, validate).after)
    ensures Extends(s, StateTransition(h, s, b, validate).after)
  {
    var o := StateTransition(h, s, b, validate);
    if o.Done? {
      var s1, s2 := TransitionStages(h, s, b, validate);
      StagesKeepInvariant(h, s, s1, s2, o.after, b);
    } else {
      assert o.after == s;
    }
  }

  lemma ExtendsItself(s: State)
    ensures Extends(s, s)
  {
  }

  lemma ExtendsChains(a: State, b: State, c: State)
    requires Extends(a, b) && Extends(b, c)
    ensures Extends(a, c) && c.validators == a.validators
  {
  }

  // ---------------------------------------------------------------- runs

  /** Every state of every run from genesis satisfies the invariant, and every
      later state of the run extends every earlier one: the finalized slot never
      drops, no justified bit is cleared, no slot at or below the finalized one is
      newly justified, and the history only grows. */
  lemma {:induction false} RunKeepsInvariant(h: Hashes, s: State, ops: seq<Op>, i: nat)
    requires ChainInv(h, s) && |s.validators| <= VALIDATOR_REGISTRY_LIMIT
    requires i <= |ops|
    ensures ChainInv(h, Run(h, s, ops))
    ensures Extends(Run(h, s, ops[..i]), Run(h, s, ops))
    ensures Extends(s, Run(h, s, ops)) && Run(h, s, ops).validators == s.validators
    decreases |ops|
  {
    ExtendsItself(Run(h, s, ops));
    hide ChainInv, Extends, Perform;
    if i == |ops| { assert ops[..i] == ops; }
    if ops != [] {
      var front := ops[..|ops| - 1];
      var mid := Run(h, s, front);
      RunKeepsInvariant(h, s, front, if i < |ops| then i else 0);
      OpKeepsInvariant(h, mid, ops[|ops| - 1]);
      ExtendsChains(s, mid, Run(h, s, ops));
      if i < |ops| {
        assert front[..i] == ops[..i];
        ExtendsChains(Run(h, s, ops[..i]), mid, Run(h, s, ops));
      }
    }
  }

  /** The finalized block of a run stays in the history of every later state. */
  lemma FinalizedIsPermanent(h: Hashes, time: U64, validators: seq<Validator>, ops: seq<Op>, i: nat)
    requires |validators| <= VALIDATOR_REGISTRY_LIMIT && i <= |ops|
    requires Run(h, GenesisState(h, time, validators), ops[..i]).history != []
    ensures var early := Run(h, GenesisState(h, time, validators), ops[..i]);
            var late := Run(h, GenesisState(h, time, validators), ops);
            && early.finalized.slot <= late.finalized.slot <= late.justified.slot
            && late.justified.slot < |late.history| == |late.justifiedSlots|
            && late.history[early.finalized.slot] == early.finalized.root
            && late.justifiedSlots[early.finalized.slot]
  {
    var g := GenesisState(h, time, validators);
    GenesisInvariant(h, time, validators);
    RunKeepsInvariant(h, g, ops, i);
    RunKeepsInvariant(h, g, ops[..i], 0);
  }
}
