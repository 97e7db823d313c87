/**
  The consensus state as the program holds it: an object whose methods update its
  fields. Every method is proved to have exactly the outcome that module
  Transition computes, including what a failed call leaves behind.
 */
module LiveState {
  import opened Containers
  import opened Collections
  import opened Justifiability
  import opened Tally
  import opened Transition

  class StateObject {
    var genesisTime: U64
    var slot: Slot
    var header: BlockHeader
    var justified: Checkpoint
    var finalized: Checkpoint
    var history: seq<Root>
    var justifiedSlots: JustifiedBits
    var validators: seq<Validator>
    var pendingRoots: seq<Root>
    var pendingVotes: PendingBits

    /** The state this object currently holds. */
    function Value(): State
      reads this
    {
      State(genesisTime, slot, header, justified, finalized,
            history, justifiedSlots, validators, pendingRoots, pendingVotes)
    }

    constructor (s: State)
      ensures Value() == s
    {
      genesisTime, slot, header, justified, finalized :=
        s.genesisTime, s.slot, s.header, s.justified, s.finalized;
      history, justifiedSlots, validators, pendingRoots, pendingVotes :=
        s.history, s.justifiedSlots, s.validators, s.pendingRoots, s.pendingVotes;
    }

    method ProcessSlot(h: Hashes)
      modifies this
      ensures Value() == CacheStateRoot(h, old(Value()))
    {
      if header.stateRoot == ZERO_ROOT {
        header := header.(stateRoot := h.state(Value()));
      }
    }

    method ProcessSlots(h: Hashes, target: Slot) returns (r: Result<(), TransitionError>)
      modifies this
      ensures Matches(r, Value(), Transition.ProcessSlots(h, old(Value()), target))
    {
      if target <= slot { return Err(TargetSlotNotInFuture(slot, target)); }
      var steps := target - slot;
      for i := 0 to steps
        invariant Value() == AdvanceSlots(h, old(Value()), i)
      {
        ProcessSlot(h);
        slot := slot + 1;
      }
      r := Ok(());
    }

    method ProcessBlockHeader(h: Hashes, b: Block) returns (r: Result<(), TransitionError>)
      modifies this
      ensures Matches(r, Value(), Transition.ProcessBlockHeader(h, old(Value()), b))
    {
      hide HeaderGate, Zeros, Unset, SeedCheckpoints;
      var refused := CheckHeader(h, b);
      if refused.Some? { return Err(refused.value); }
      GatePassed(h, Value(), b);
      var parent := h.header(header);
      var wasGenesis := header.slot == 0;
      var empty := b.slot - header.slot - 1;
      PushParent(parent);
      if |justifiedSlots| >= HISTORICAL_ROOTS_LIMIT { return Err(StateBoundExceeded(JustifiedSlots)); }
      justifiedSlots := justifiedSlots + [wasGenesis];
      history := history + Zeros(empty);
      var room := PushEmptySlots(empty);
      if !room { return Err(StateBoundExceeded(JustifiedSlots)); }
      header := BlockHeader(b.slot, b.proposerIndex, b.parentRoot, ZERO_ROOT, h.body(b.body));
      r := Ok(());
    }

    /** Records the parent's root, seeding the genesis checkpoints with the first one. */
    method PushParent(parent: Root)
      modifies this`justified, this`finalized, this`history
      ensures Value() == SeedCheckpoints(old(Value()), parent).(history := old(history) + [parent])
    {
      if header.slot == 0 {
        justified := justified.(root := parent);
        finalized := finalized.(root := parent);
      }
      history := history + [parent];
    }

    /** The validation gate: the first check that fails, nothing changed. */
    method CheckHeader(h: Hashes, b: Block) returns (e: Option<TransitionError>)
      ensures e == HeaderGate(h, Value(), b)
    {
      if b.slot != slot { return Some(BlockSlotMismatch(b.slot, slot)); }
      if b.slot <= header.slot { return Some(BlockOlderThanLatest(b.slot, header.slot)); }
      if |validators| == 0 { return Some(NoValidators); }
      if slot % |validators| != b.proposerIndex { return Some(IncorrectBlockProposer(slot, b.proposerIndex)); }
      var parent := h.header(header);
      if b.parentRoot != parent { return Some(BlockParentRootMismatch(b.slot, b.parentRoot, parent)); }
      var empty := b.slot - header.slot - 1;
      if |history| + 1 + empty > HISTORICAL_ROOTS_LIMIT { return Some(StateBoundExceeded(HistoricalBlockHashes)); }
      e := None;
    }

    /** Appends an unset bit per empty slot until the bitlist is full. */
    method PushEmptySlots(empty: nat) returns (fits: bool)
      modifies this`justifiedSlots
      ensures var room := HISTORICAL_ROOTS_LIMIT - |old(justifiedSlots)|;
              && (fits <==> empty <= room)
              && justifiedSlots == old(justifiedSlots) + Unset(if fits then empty else room)
    {
      var i := 0;
      while i < empty
        invariant i <= empty && justifiedSlots == old(justifiedSlots) + Unset(i)
      {
        if |justifiedSlots| >= HISTORICAL_ROOTS_LIMIT { return false; }
        justifiedSlots := justifiedSlots + [false];
        i := i + 1;
      }
      fits := true;
    }

    method ProcessAttestations(atts: seq<Attestation>) returns (r: Result<(), TransitionError>)
      modifies this
      ensures Matches(r, Value(), Transition.ProcessAttestations(old(Value()), atts))
    {
      var n := |validators|;
      var hydrated := TryHydrate(pendingRoots, pendingVotes, n);
      if hydrated.Err? { return Err(hydrated.error); }
      ghost var before := Value();
      assert Work(hydrated.value, justifiedSlots, justified, finalized) == StartWork(before);
      hide ApplyVotes, Hydrate, Flatten, Ascending, RowsOfLength, PendingTable, StartWork, Commit, StorePending;
      var err, table, bits, just, fin := CastVotes(atts, n, hydrated.value, justifiedSlots, justified, finalized);
      if err.Some? { return Err(err.value); }
      r := Settle(table, bits, just, fin);
    }

    /** Commits the working copies, then writes the table back. */
    method Settle(table: Table, bits: JustifiedBits, just: Checkpoint, fin: Checkpoint)
      returns (r: Result<(), TransitionError>)
      requires RowsOfLength(table, |validators|)
      modifies this
      ensures r.Ok? <==> |table| * |old(validators)| <= JUSTIFICATIONS_VALIDATORS_LIMIT
      ensures r.Err? ==> r.error == StateBoundExceeded(JustificationsValidators)
      ensures var committed := Commit(old(Value()), Work(table, bits, just, fin));
              Value() == if r.Ok? then StorePending(committed, table) else committed
    {
      hide Flatten, Ascending;
      justifiedSlots, justified, finalized := bits, just, fin;
      FlattenLength(Ascending(table.Keys), table, |validators|);
      var flat := WriteBack(table, |validators|);
      if flat.Err? { return Err(flat.error); }
      pendingRoots, pendingVotes := flat.value.0, flat.value.1;
      r := Ok(());
    }

    /** The vote loop, over working copies of the table, the bits and the checkpoints. */
    method CastVotes(
        atts: seq<Attestation>, n: nat, table0: Table, bits0: JustifiedBits, just0: Checkpoint, fin0: Checkpoint)
      returns (err: Option<TransitionError>, table: Table, bits: JustifiedBits, just: Checkpoint, fin: Checkpoint)
      requires RowsOfLength(table0, n)
      ensures RowsOfLength(table, n)
      ensures ApplyVotes(history, n, Work(table0, bits0, just0, fin0), atts) ==
              if err.Some? then Err(err.value) else Ok(Work(table, bits, just, fin))
    {
      hide ApplyVote, RangeError, Acceptable, RowsOfLength;
      table, bits, just, fin := table0, bits0, just0, fin0;
      ghost var start := Work(table0, bits0, just0, fin0);
      for i := 0 to |atts|
        invariant RowsOfLength(table, n) && |bits| == |bits0|
        invariant ApplyVotes(history, n, start, atts[..i]) == Ok(Work(table, bits, just, fin))
      {
        assert atts[..i + 1][..i] == atts[..i];
        err := CheckRange(atts[i], |bits0|, |history|, n);
        if err.Some? {
          ErrorSticks(history, n, start, atts, i + 1);
          return;
        }
        table, bits, just, fin := CastVote(atts[i], n, table, bits, just, fin);
      }
      assert atts[..|atts|] == atts;
      err := None;
    }

    /** The loop body for a vote in range: filter, tally, justify, finalize. */
    method CastVote(att: Attestation, n: nat, table0: Table, bits0: JustifiedBits, just0: Checkpoint, fin0: Checkpoint)
      returns (table: Table, bits: JustifiedBits, just: Checkpoint, fin: Checkpoint)
      requires RowsOfLength(table0, n) && att.validatorId < n
      requires att.data.source.slot < |bits0| && att.data.source.slot < |history|
      requires att.data.target.slot < |bits0| && att.data.target.slot < |history|
      ensures Work(table, bits, just, fin) == ApplyVote(history, n, Work(table0, bits0, just0, fin0), att)
      ensures RowsOfLength(table, n) && |bits| == |bits0|
    {
      table, bits, just, fin := table0, bits0, just0, fin0;
      var vote := att.data;
      var accept := IsAcceptable(vote, bits, fin.slot);
      if !accept { return; }
      var row := if vote.target.root in table then table[vote.target.root] else Unset(n);
      row := row[att.validatorId := true];
      table := table[vote.target.root := row];
      var count := CountVotes(row);
      if 3 * count < 2 * n { return; }
      just := vote.target;
      bits := bits[vote.target.slot := true];
      table := table - {vote.target.root};
      assert table == table0 - {vote.target.root};
      var clear := NothingJustifiableBetween(vote.source.slot, vote.target.slot, fin.slot);
      if clear { fin := vote.source; }
    }

    /** The range checks of one vote. */
    method CheckRange(att: Attestation, justLen: nat, histLen: nat, n: nat) returns (e: Option<TransitionError>)
      requires histLen == |history|
      ensures e == RangeError(history, justLen, n, att)
      ensures e.None? ==> att.data.source.slot < justLen && att.data.source.slot < |history|
      ensures e.None? ==> att.data.target.slot < justLen && att.data.target.slot < |history|
      ensures e.None? ==> att.validatorId < n
    {
      var source, target := att.data.source.slot, att.data.target.slot;
      if source >= justLen { return Some(AttestationSlotOutOfRange(Source, source, justLen)); }
      if source >= histLen { return Some(AttestationSlotOutOfRange(Source, source, histLen)); }
      if target >= justLen { return Some(AttestationSlotOutOfRange(Target, target, justLen)); }
      if target >= histLen { return Some(AttestationSlotOutOfRange(Target, target, histLen)); }
      if att.validatorId >= n { return Some(AttestationValidatorOutOfRange(att.validatorId, n)); }
      e := None;
    }

    /** The semantic filter of one vote whose slots are in range. */
    method IsAcceptable(vote: AttestationData, bits: JustifiedBits, finalizedSlot: Slot) returns (b: bool)
      requires vote.source.slot < |bits| && vote.source.slot < |history|
      requires vote.target.slot < |bits| && vote.target.slot < |history|
      ensures forall w: Work {:trigger Acceptable(history, w, vote)} ::
                w.bits == bits && w.finalized.slot == finalizedSlot ==> (b <==> Acceptable(history, w, vote))
    {
      var s, t := vote.source, vote.target;
      var justifiable := IsJustifiableAfter(t.slot, finalizedSlot);
      b := bits[s.slot] && !bits[t.slot] && s.root == history[s.slot] && t.root == history[t.slot]
           && t.slot > s.slot && justifiable;
    }

    /** How many validators a row records. */
    static method CountVotes(row: seq<bool>) returns (count: nat)
      ensures count == |Supporters(row)|
    {
      count := 0;
      for i := 0 to |row|
        invariant count == |Supporters(row[..i])|
      {
        SupportersStep(row, i);
        if row[i] { count := count + 1; }
      }
      assert row[..|row|] == row;
    }

    /** The scan for a justifiable slot strictly between source and target. */
    static method NothingJustifiableBetween(source: Slot, target: Slot, finalizedSlot: Slot) returns (b: bool)
      ensures b <==> NothingBetween(source, target, finalizedSlot)
    {
      var mid := source + 1;
      while mid < target
        invariant source < mid <= target || (mid == source + 1 && target <= source)
        invariant forall m :: source < m < mid ==> !JustifiableAfter(m, finalizedSlot)
        decreases target - mid
      {
        var j := IsJustifiableAfter(mid, finalizedSlot);
        if j { return false; }
        mid := mid + 1;
      }
      b := true;
    }

    method StateTransition(h: Hashes, b: Block, validate: bool) returns (r: Result<(), TransitionError>)
      modifies this
      ensures Matches(r, Value(), Transition.StateTransition(h, old(Value()), b, validate))
    {
      var next := new StateObject(Value());
      var r1 := next.ProcessSlots(h, b.slot);
      if r1.Err? { return r1; }
      var r2 := next.ProcessBlockHeader(h, b);
      if r2.Err? { return r2; }
      var r3 := next.ProcessAttestations(b.body);
      if r3.Err? { return r3; }
      if validate {
        var got := h.state(next.Value());
        if got != b.stateRoot { return Err(StateRootMismatch(b.slot, got, b.stateRoot)); }
      }
      Replace(next.Value());
      r := Ok(());
    }

    method Replace(s: State)
      modifies this
      ensures Value() == s
    {
      genesisTime, slot, header, justified, finalized :=
        s.genesisTime, s.slot, s.header, s.justified, s.finalized;
      history, justifiedSlots, validators, pendingRoots, pendingVotes :=
        s.history, s.justifiedSlots, s.validators, s.pendingRoots, s.pendingVotes;
    }
  }

  /** A call returned `r` and left `after` exactly as the outcome `o` says. */
  ghost predicate Matches(r: Result<(), TransitionError>, after: State, o: Outcome) {
    && after == o.after
    && (r.Ok? <==> o.Done?)
    && (r.Err? ==> o.Failed? && r.error == o.error)
  }

  lemma SupportersStep(row: seq<bool>, i: nat)
    requires i < |row|
    ensures |Supporters(row[..i + 1])| == |Supporters(row[..i])| + if row[i] then 1 else 0
  {
    var a, b := Supporters(row[..i]), Supporters(row[..i + 1]);
    assert forall j :: 0 <= j < i ==> row[..i + 1][j] == row[..i][j];
    if row[i] { assert b == a + {i}; } else { assert b == a; }
  }

  /** Once a prefix of the votes has failed, so has the whole batch. */
  lemma {:induction false} ErrorSticks(history: seq<Root>, n: nat, w: Work, atts: seq<Attestation>, k: nat)
    requires RowsOfLength(w.table, n) && k <= |atts|
    requires ApplyVotes(history, n, w, atts[..k]).Err?
    ensures ApplyVotes(history, n, w, atts) == ApplyVotes(history, n, w, atts[..k])
    decreases |atts|
  {
    if k == |atts| {
      assert atts[..k] == atts;
    } else {
      assert atts[..|atts| - 1][..k] == atts[..k];
      ErrorSticks(history, n, w, atts[..|atts| - 1], k);
    }
  }

  lemma GatePassed(h: Hashes, s: State, b: Block)
    requires HeaderGate(h, s, b).None?
    ensures b.slot > s.header.slot
  {
  }
}
