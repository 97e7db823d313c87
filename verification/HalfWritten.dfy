/**
  Calls that fail after they have written. Both stages that mutate before their last
  check can, from a malformed state, return an error with the state half written; here is
  exactly when, with an input for each. No reachable state is of this kind.
 */
module HalfWritten {
  import opened Containers
  import opened Collections
  import opened Justifiability
  import opened Tally
  import opened Transition
  import opened ChainInvariant
  import opened OrderIndependence

  /** The list fields are within the limits the decoder enforces; the bitlists are by type. */
  ghost predicate Decodable(s: State) {
    && |s.history| <= HISTORICAL_ROOTS_LIMIT && |s.pendingRoots| <= HISTORICAL_ROOTS_LIMIT
    && |s.validators| <= VALIDATOR_REGISTRY_LIMIT
  }

  /** A state whose bitlist is full while its history is still empty. */
  ghost function FullBitlist(h: Hashes): State {
    GenesisState(h, 0, [Validator(0, 0)]).(slot := 1, justifiedSlots := Unset(HISTORICAL_ROOTS_LIMIT))
  }

  /** The gate lets the first block through, the history grows, and the bitlist refuses. */
  lemma HeaderLeavesHalf(h: Hashes)
    ensures var s := FullBitlist(h);
            var o := ProcessBlockHeader(h, s, Block(1, 0, h.header(s.header), ZERO_ROOT, []));
            && Decodable(s) && o.Failed?
            && o.after.history == [h.header(s.header)] && s.history == []
  {
    var s := FullBitlist(h);
    var b := Block(1, 0, h.header(s.header), ZERO_ROOT, []);
    assert HeaderGate(h, s, b).None?;
  }

  /** The pending table a batch leaves behind. */
  ghost function TableAfter(s: State, atts: seq<Attestation>): Table
    requires PendingWellSized(s) && AllInRange(s, atts)
  {
    RangeDecidesSuccess(s.history, |s.validators|, StartWork(s), atts);
    ApplyVotes(s.history, |s.validators|, StartWork(s), atts).value.table
  }

  /** A failed batch changes the state exactly when its votes are in range, some raised row
      has two thirds, and the table that remains is too large to store. */
  lemma BatchFailureMutatesIff(s: State, atts: seq<Attestation>)
    ensures var o := ProcessAttestations(s, atts);
            (o.Failed? && o.after != s) <==>
            && PendingWellSized(s) && AllInRange(s, atts) && !StaysQuiet(s, atts)
            && |TableAfter(s, atts)| * |s.validators| > JUSTIFICATIONS_VALIDATORS_LIMIT
  {
    if PendingWellSized(s) {
      var n, w := |s.validators|, StartWork(s);
      RangeDecidesSuccess(s.history, n, w, atts);
      if AllInRange(s, atts) {
        JustifiesNothingIff(s, atts);
        hide StaysQuiet, RangeError;
        LastJustified(s.history, n, w, atts);
      }
    }
  }

  // ---------------------------------------------------------------- before the call

  ghost function TargetRoots(atts: seq<Attestation>): set<Root> {
    set att | att in atts :: att.data.target.root
  }

  /** Votes add rows for their targets only. */
  lemma {:induction false} RowsFromTargets(history: seq<Root>, n: nat, w: Work, atts: seq<Attestation>)
    requires RowsOfLength(w.table, n) && ApplyVotes(history, n, w, atts).Ok?
    ensures ApplyVotes(history, n, w, atts).value.table.Keys <= w.table.Keys + TargetRoots(atts)
    decreases |atts|
  {
    if atts != [] {
      var front, last := atts[..|atts| - 1], atts[|atts| - 1];
      assert last in atts && forall att :: att in front ==> att in atts;
      RowsFromTargets(history, n, w, front);
      VoteAddsItsRow(history, n, ApplyVotes(history, n, w, front).value, last);
    }
  }

  lemma VoteAddsItsRow(history: seq<Root>, n: nat, w: Work, att: Attestation)
    requires RowsOfLength(w.table, n) && att.validatorId < n
    ensures ApplyVote(history, n, w, att).table.Keys <= w.table.Keys + {att.data.target.root}
  {
  }

  /** On any state: if a row for every stored root and every target fits the flat form, a
      failed batch changes nothing. */
  lemma SmallBatchAtomic(s: State, atts: seq<Attestation>)
    requires |Elements(s.pendingRoots) + TargetRoots(atts)| * |s.validators| <= JUSTIFICATIONS_VALIDATORS_LIMIT
    ensures ProcessAttestations(s, atts).Failed? ==> ProcessAttestations(s, atts).after == s
  {
    hide ApplyVotes, Hydrate;
    if PendingWellSized(s) {
      var n, w := |s.validators|, StartWork(s);
      var r := ApplyVotes(s.history, n, w, atts);
      if r.Ok? {
        RowsFromTargets(s.history, n, w, atts);
        var all := Elements(s.pendingRoots) + TargetRoots(atts);
        assert w.table.Keys <= Elements(s.pendingRoots);
        SubsetSize(r.value.table.Keys, all);
        MulLeft(|r.value.table.Keys|, |all|, n);
      }
    }
  }

  // ---------------------------------------------------------------- an example

  const REGISTRY: nat := VALIDATOR_REGISTRY_LIMIT
  const ROWS: nat := HISTORICAL_ROOTS_LIMIT

  function Everyone(n: nat): (row: seq<bool>)
    ensures |row| == n
  {
    seq(n, _ => true)
  }

  lemma EveryoneIsMost(n: nat)
    ensures Supermajority(Everyone(n), n)
  {
    assert Supporters(Everyone(n)) == Indices(n);
  }

  predicate IsRow(k: nat, r: Root) {
    6 <= r < 6 + k
  }

  /** The `k` roots from 6 on. */
  ghost function RowRoots(k: nat): (roots: set<Root>)
    ensures forall r :: r in roots <==> 6 <= r < 6 + k
  {
    set r: nat | 6 <= r < 6 + k && IsRow(k, r)
  }

  lemma {:induction false} RowRootsSize(k: nat)
    ensures |RowRoots(k)| == k
  {
    if k > 0 {
      RowRootsSize(k - 1);
      assert RowRoots(k) == RowRoots(k - 1) + {5 + k};
    } else {
      assert RowRoots(k) == {};
    }
  }

  /** As many rows as the flat form has room for; the first is unanimous. */
  ghost function FullTable(): (t: Table)
    ensures RowsOfLength(t, REGISTRY) && t.Keys == RowRoots(ROWS)
  {
    map r | r in RowRoots(ROWS) :: if r == 6 then Everyone(REGISTRY) else Unset(REGISTRY)
  }

  ghost function Crowded(h: Hashes): State {
    GenesisState(h, 0, seq(REGISTRY, _ => Validator(0, 0)))
    .(history := [5, 6, 300007, 300008], justifiedSlots := [true, false, false, false])
  }

  lemma FullTableFits(h: Hashes)
    ensures |FullTable()| == ROWS && Storable(Crowded(h), FullTable())
  {
    RowRootsSize(ROWS);
    assert |FullTable()| == |FullTable().Keys|;
  }

  /** A full registry, and a pending bitlist that is full to its last bit. */
  ghost function CrowdedState(h: Hashes): State {
    FullTableFits(h);
    StorePending(Crowded(h), FullTable())
  }

  function CrowdedVote(slot: Slot, root: Root): Attestation {
    Attestation(0, AttestationData(slot, Checkpoint(root, slot), Checkpoint(root, slot), Checkpoint(5, 0)))
  }

  /** A vote for a unanimous row justifies its slot and drops the row. */
  lemma UnanimousVote(history: seq<Root>, n: nat, w: Work)
    requires n > 0 && RowsOfLength(w.table, n) && 6 in w.table && w.table[6] == Everyone(n)
    requires history == [5, 6, 300007, 300008] && w.bits == [true, false, false, false] && w.finalized.slot == 0
    ensures var u := ApplyVote(history, n, w, CrowdedVote(1, 6));
            u.table == w.table - {6} && u.bits == [true, true, false, false] && u.finalized.slot == 0
  {
    hide Supermajority;
    assert JustifiableAfter(1, 0);
    assert Acceptable(history, w, CrowdedVote(1, 6).data);
    assert RaisedRow(w.table, 6, 0, n) == Everyone(n);
    EveryoneIsMost(n);
  }

  /** A vote for a target without a row adds one. */
  lemma FreshVote(history: seq<Root>, n: nat, w: Work, slot: Slot)
    requires n >= 2 && RowsOfLength(w.table, n) && 2 <= slot <= 3
    requires history == [5, 6, 300007, 300008] && w.bits == [true, true, false, false] && w.finalized.slot == 0
    requires history[slot] !in w.table
    ensures var u := ApplyVote(history, n, w, CrowdedVote(slot, history[slot]));
            u == w.(table := u.table) && u.table.Keys == w.table.Keys + {history[slot]}
  {
    assert JustifiableAfter(2, 0) && JustifiableAfter(3, 0);
    var att := CrowdedVote(slot, history[slot]);
    assert Acceptable(history, w, att.data);
    var row := RaisedRow(w.table, history[slot], 0, n);
    assert Supporters(row) == {0};
  }

  lemma ThreeVotes(history: seq<Root>, n: nat, w: Work, a: Attestation, b: Attestation, c: Attestation)
    requires RowsOfLength(w.table, n)
    requires forall x :: x in [a, b, c] ==> RangeError(history, |w.bits|, n, x).None?
    ensures a.validatorId < n && b.validatorId < n && c.validatorId < n
    ensures ApplyVotes(history, n, w, [a, b, c]) ==
            Ok(ApplyVote(history, n, ApplyVote(history, n, ApplyVote(history, n, w, a), b), c))
  {
    hide ApplyVote;
    assert a in [a, b, c] && b in [a, b, c] && c in [a, b, c];
    assert [a, b, c][..2] == [a, b] && [a, b][..1] == [a] && [a][..0] == [];
    assert ApplyVotes(history, n, w, [a]) == Ok(ApplyVote(history, n, w, a));
    assert ApplyVotes(history, n, w, [a, b]) == Ok(ApplyVote(history, n, ApplyVote(history, n, w, a), b));
  }

  /** One row goes, two come. */
  lemma CrowdedVotes(history: seq<Root>, n: nat, w: Work, atts: seq<Attestation>)
    requires n >= 2 && RowsOfLength(w.table, n) && 6 in w.table && w.table[6] == Everyone(n)
    requires 300007 !in w.table && 300008 !in w.table
    requires history == [5, 6, 300007, 300008] && w.bits == [true, false, false, false] && w.finalized.slot == 0
    requires atts == [CrowdedVote(1, 6), CrowdedVote(2, 300007), CrowdedVote(3, 300008)]
    ensures ApplyVotes(history, n, w, atts).Ok?
    ensures var u := ApplyVotes(history, n, w, atts).value;
            |u.table| == |w.table| + 1 && u.bits == [true, true, false, false]
  {
    hide ApplyVote, ApplyVotes;
    ThreeVotes(history, n, w, atts[0], atts[1], atts[2]);
    UnanimousVote(history, n, w);
    var x := ApplyVote(history, n, w, atts[0]);
    FreshVote(history, n, x, 2);
    var y := ApplyVote(history, n, x, atts[1]);
    FreshVote(history, n, y, 3);
    var z := ApplyVote(history, n, y, atts[2]);
    assert z.table.Keys == w.table.Keys - {6} + {300007} + {300008};
    assert |z.table| == |z.table.Keys| && |w.table| == |w.table.Keys|;
  }

  lemma CrowdStored(h: Hashes)
    ensures var s := CrowdedState(h);
            && Decodable(s) && PendingWellSized(s) && |s.validators| == REGISTRY
            && |s.pendingVotes| == JUSTIFICATIONS_VALIDATORS_LIMIT && s.history == [5, 6, 300007, 300008]
            && StartWork(s) == Work(FullTable(), [true, false, false, false], ZERO_CHECKPOINT, ZERO_CHECKPOINT)
  {
    hide Hydrate, Flatten, Ascending, PendingTable, FullTable;
    FullTableFits(h);
    StoredPendingReadsBack(Crowded(h), FullTable());
  }

  lemma LateFailure(s: State, atts: seq<Attestation>, u: Work)
    requires PendingWellSized(s) && ApplyVotes(s.history, |s.validators|, StartWork(s), atts) == Ok(u)
    requires |u.table| * |s.validators| > JUSTIFICATIONS_VALIDATORS_LIMIT
    ensures ProcessAttestations(s, atts).Failed? && ProcessAttestations(s, atts).after.justifiedSlots == u.bits
  {
    hide ApplyVotes, PendingTable;
  }

  /** On a state the decoder accepts, three votes justify slot 1, drop its row and add two,
      and the table no longer fits. */
  lemma BatchLeavesHalf(h: Hashes)
    ensures var s := CrowdedState(h);
            var o := ProcessAttestations(s, [CrowdedVote(1, 6), CrowdedVote(2, 300007), CrowdedVote(3, 300008)]);
            && Decodable(s) && |s.pendingVotes| == JUSTIFICATIONS_VALIDATORS_LIMIT && o.Failed?
            && o.after.justifiedSlots == [true, true, false, false] && s.justifiedSlots == [true, false, false, false]
  {
    hide ApplyVotes, ProcessAttestations, CrowdedState, PendingTable, CrowdedVote;
    var s := CrowdedState(h);
    var atts := [CrowdedVote(1, 6), CrowdedVote(2, 300007), CrowdedVote(3, 300008)];
    CrowdStored(h);
    FullTableFits(h);
    CrowdedVotes(s.history, REGISTRY, StartWork(s), atts);
    LateFailure(s, atts, ApplyVotes(s.history, REGISTRY, StartWork(s), atts).value);
  }
}
