/**
  Who stands behind a justified slot. The ballots of a run are the votes its
  successful calls accepted; every slot justified after genesis is backed by two
  thirds of the registry, so two chains that justify different blocks at one slot
  share a third of the registry as double voters.
 */
module Quorum {
  import opened Containers
  import opened Collections
  import opened Tally
  import opened Transition
  import opened ChainInvariant

  /** Accepted votes: the validator and the target it named. */
  type Ballots = set<(nat, Checkpoint)>

  ghost function AcceptedVotes(history: seq<Root>, n: nat, w: Work, atts: seq<Attestation>): Ballots
    requires RowsOfLength(w.table, n)
    decreases |atts|
  {
    if atts == [] then {} else
    var front, last := atts[..|atts| - 1], atts[|atts| - 1];
    var earlier := AcceptedVotes(history, n, w, front);
    var r := ApplyVotes(history, n, w, front);
    if r.Ok? && last.validatorId < n && Acceptable(history, r.value, last.data)
    then earlier + {(last.validatorId, last.data.target)} else earlier
  }

  ghost function BatchVotes(s: State, atts: seq<Attestation>): Ballots {
    if PendingWellSized(s) then AcceptedVotes(s.history, |s.validators|, StartWork(s), atts) else {}
  }

  /** The votes one operation accepts; a failed operation accepts none. */
  ghost function OpVotes(h: Hashes, s: State, op: Op): Ballots {
    if Perform(h, s, op).Failed? then {} else
    match op
    case Slots(_) => {}
    case Header(_) => {}
    case Attest(atts) => BatchVotes(s, atts)
    case Whole(b, _) => BatchVotes(ProcessBlockHeader(h, ProcessSlots(h, s, b.slot).after, b).after, b.body)
  }

  ghost function RunVotes(h: Hashes, s: State, ops: seq<Op>): Ballots
    decreases |ops|
  {
    if ops == [] then {} else
    RunVotes(h, s, ops[..|ops| - 1]) + OpVotes(h, Run(h, s, ops[..|ops| - 1]), ops[|ops| - 1])
  }

  ghost predicate Voted(log: Ballots, v: nat, r: Root) {
    exists c: Checkpoint :: (v, c) in log && c.root == r
  }

  /** The validators with an accepted vote that names root `r`. */
  ghost function Backers(log: Ballots, n: nat, r: Root): (v: set<nat>)
    ensures forall j :: j in v <==> 0 <= j < n && Voted(log, j, r)
  {
    set j | j in Indices(n) && Voted(log, j, r)
  }

  // ---------------------------------------------------------------- invariant

  ghost predicate RowsBacked(t: Table, log: Ballots) {
    forall r, j :: r in t && j in Supporters(t[r]) ==> Voted(log, j, r)
  }

  ghost predicate SlotsBacked(history: seq<Root>, bits: seq<bool>, n: nat, log: Ballots) {
    forall k: nat :: 0 < k < |bits| && k < |history| && bits[k] ==> 3 * |Backers(log, n, history[k])| >= 2 * n
  }

  ghost predicate BallotsInHistory(history: seq<Root>, n: nat, log: Ballots) {
    forall v: nat, c: Checkpoint :: (v, c) in log ==> v < n && c.slot < |history| && history[c.slot] == c.root
  }

  ghost predicate QuorumInv(history: seq<Root>, n: nat, w: Work, log: Ballots) {
    RowsBacked(w.table, log) && SlotsBacked(history, w.bits, n, log) && BallotsInHistory(history, n, log)
  }

  lemma BackersGrow(a: Ballots, b: Ballots, n: nat, r: Root)
    requires a <= b
    ensures |Backers(a, n, r)| <= |Backers(b, n, r)|
  {
    forall j | j in Backers(a, n, r) ensures j in Backers(b, n, r) {
      var c: Checkpoint :| (j, c) in a && c.root == r;
      assert (j, c) in b;
    }
    SubsetSize(Backers(a, n, r), Backers(b, n, r));
  }

  lemma QuorumGrows(history: seq<Root>, n: nat, w: Work, a: Ballots, b: Ballots)
    requires QuorumInv(history, n, w, a) && a <= b && BallotsInHistory(history, n, b)
    ensures QuorumInv(history, n, w, b)
  {
    forall r, j | r in w.table && j in Supporters(w.table[r]) ensures Voted(b, j, r) {
      var c: Checkpoint :| (j, c) in a && c.root == r;
      assert (j, c) in b;
    }
    forall k: nat | 0 < k < |w.bits| && k < |history| && w.bits[k]
      ensures 3 * |Backers(b, n, history[k])| >= 2 * n
    {
      BackersGrow(a, b, n, history[k]);
    }
  }

  /** The raised row is backed by the ballots and the new vote. */
  lemma RaisedRowBacked(t: Table, n: nat, v: nat, target: Checkpoint, log: Ballots)
    requires RowsOfLength(t, n) && v < n && RowsBacked(t, log) && (v, target) in log
    ensures forall j :: j in Supporters(RaisedRow(t, target.root, v, n)) ==> j < n && Voted(log, j, target.root)
  {
    RaisedSupporters(t, target.root, v, n);
    assert Voted(log, v, target.root);
  }

  /** A vote short of two thirds only raises its row. */
  lemma RaisedRowKeepsQuorum(history: seq<Root>, n: nat, w: Work, v: nat, target: Checkpoint, log: Ballots)
    requires RowsOfLength(w.table, n) && v < n && QuorumInv(history, n, w, log) && (v, target) in log
    ensures QuorumInv(history, n, w.(table := w.table[target.root := RaisedRow(w.table, target.root, v, n)]), log)
  {
    hide RaisedRow, Supporters, Voted, SlotsBacked, BallotsInHistory;
    RaisedRowBacked(w.table, n, v, target, log);
  }

  /** A vote that reaches two thirds justifies a slot its backers stand behind. */
  lemma JustifyingKeepsQuorum(history: seq<Root>, n: nat, w: Work, x: Work, v: nat, target: Checkpoint, log: Ballots)
    requires RowsOfLength(w.table, n) && v < n && QuorumInv(history, n, w, log) && (v, target) in log
    requires target.slot < |history| && target.slot < |w.bits| && target.root == history[target.slot]
    requires Supermajority(RaisedRow(w.table, target.root, v, n), n)
    requires x.table == w.table - {target.root} && x.bits == w.bits[target.slot := true]
    ensures QuorumInv(history, n, x, log)
  {
    hide RaisedRow, Supporters, Voted, BallotsInHistory;
    var row := RaisedRow(w.table, target.root, v, n);
    RaisedRowBacked(w.table, n, v, target, log);
    SubsetSize(Supporters(row), Backers(log, n, target.root));
  }

  /** An accepted vote keeps the quorum invariant once its ballot is counted. */
  lemma VoteKeepsQuorum(history: seq<Root>, n: nat, w: Work, att: Attestation, log: Ballots)
    requires WorkInv(history, n, w) && att.validatorId < n && QuorumInv(history, n, w, log)
    requires Acceptable(history, w, att.data)
    ensures QuorumInv(history, n, ApplyVote(history, n, w, att), log + {(att.validatorId, att.data.target)})
  {
    hide QuorumInv, RaisedRow, Supermajority, NothingBetween, AllPending, Anchored;
    var target, v := att.data.target, att.validatorId;
    var log' := log + {(v, target)};
    BallotCounted(history, n, w, v, target, log);
    if Supermajority(RaisedRow(w.table, target.root, v, n), n) {
      JustifyingKeepsQuorum(history, n, w, ApplyVote(history, n, w, att), v, target, log');
    } else {
      RaisedRowKeepsQuorum(history, n, w, v, target, log');
    }
  }

  lemma BallotCounted(history: seq<Root>, n: nat, w: Work, v: nat, target: Checkpoint, log: Ballots)
    requires QuorumInv(history, n, w, log) && v < n && target.slot < |history| && history[target.slot] == target.root
    ensures QuorumInv(history, n, w, log + {(v, target)})
  {
    hide RowsBacked, SlotsBacked;
    QuorumGrows(history, n, w, log, log + {(v, target)});
  }

  lemma {:induction false} VotesKeepQuorum(history: seq<Root>, n: nat, w: Work, atts: seq<Attestation>, log: Ballots)
    requires WorkInv(history, n, w) && QuorumInv(history, n, w, log)
    requires ApplyVotes(history, n, w, atts).Ok?
    ensures QuorumInv(history, n, ApplyVotes(history, n, w, atts).value, log + AcceptedVotes(history, n, w, atts))
    decreases |atts|
  {
    if atts == [] {
      assert log + AcceptedVotes(history, n, w, atts) == log;
    } else {
      var front, last := atts[..|atts| - 1], atts[|atts| - 1];
      VotesKeepQuorum(history, n, w, front, log);
      VotesKeepInvariant(history, n, w, front);
      var u := ApplyVotes(history, n, w, front).value;
      var log1 := log + AcceptedVotes(history, n, w, front);
      if Acceptable(history, u, last.data) {
        VoteKeepsQuorum(history, n, u, last, log1);
        assert log + AcceptedVotes(history, n, w, atts) == log1 + {(last.validatorId, last.data.target)};
      }
    }
  }

  // ---------------------------------------------------------------- runs

  ghost predicate StateQuorum(s: State, log: Ballots)
    requires PendingWellSized(s)
  {
    QuorumInv(s.history, |s.validators|, StartWork(s), log)
  }

  /** New slots start unjustified, so they need no backers. */
  lemma QuorumSurvivesNewSlots(a: State, b: State, log: Ballots)
    requires PendingWellSized(a) && StateQuorum(a, log)
    requires a.history <= b.history && |a.history| == |a.justifiedSlots| && |b.history| == |b.justifiedSlots|
    requires a.validators == b.validators && a.pendingRoots == b.pendingRoots && a.pendingVotes == b.pendingVotes
    requires forall k: nat :: 0 < k < |b.justifiedSlots| && b.justifiedSlots[k] ==>
               k < |a.justifiedSlots| && a.justifiedSlots[k]
    ensures PendingWellSized(b) && StateQuorum(b, log)
  {
    assert PendingTable(b) == PendingTable(a);
  }

  lemma HeaderKeepsQuorum(h: Hashes, s: State, b: Block, log: Ballots)
    requires ChainInv(h, s) && StateQuorum(s, log)
    requires ProcessBlockHeader(h, s, b).Done?
    ensures PendingWellSized(ProcessBlockHeader(h, s, b).after)
    ensures StateQuorum(ProcessBlockHeader(h, s, b).after, log)
  {
    hide StateQuorum, PendingTable;
    QuorumSurvivesNewSlots(s, ProcessBlockHeader(h, s, b).after, log);
  }

  lemma BatchKeepsQuorum(h: Hashes, s: State, atts: seq<Attestation>, log: Ballots)
    requires ChainInv(h, s) && |s.validators| <= VALIDATOR_REGISTRY_LIMIT && StateQuorum(s, log)
    requires ProcessAttestations(s, atts).Done?
    ensures ChainInv(h, ProcessAttestations(s, atts).after)
    ensures StateQuorum(ProcessAttestations(s, atts).after, log + BatchVotes(s, atts))
  {
    AttestationsKeepInvariant(h, s, atts);
    var n := |s.validators|;
    VotesKeepQuorum(s.history, n, StartWork(s), atts, log);
    VotesKeepInvariant(s.history, n, StartWork(s), atts);
    var w := ApplyVotes(s.history, n, StartWork(s), atts).value;
    if n == 0 { NoValidatorNoVotes(s.history, StartWork(s), atts); }
    StoredPendingReadsBack(Commit(s, w), w.table);
    assert StartWork(ProcessAttestations(s, atts).after) == w;
  }

  lemma QuorumFrame(s: State, t: State, log: Ballots)
    requires PendingWellSized(s) && StateQuorum(s, log)
    requires t == s.(slot := t.slot, header := t.header)
    ensures PendingWellSized(t) && StateQuorum(t, log)
  {
    assert StartWork(t) == StartWork(s);
  }

  lemma SlotsKeepQuorum(h: Hashes, s: State, target: Slot, s1: State, log: Ballots)
    requires ChainInv(h, s) && StateQuorum(s, log) && ProcessSlots(h, s, target) == Done(s1)
    ensures PendingWellSized(s1) && StateQuorum(s1, log)
  {
    AdvanceSlotsFrame(h, s, target - s.slot);
    QuorumFrame(s, s1, log);
  }

  lemma WholeKeepsQuorum(h: Hashes, s: State, s1: State, s2: State, b: Block, log: Ballots)
    requires ChainInv(h, s) && |s.validators| <= VALIDATOR_REGISTRY_LIMIT && StateQuorum(s, log)
    requires ProcessSlots(h, s, b.slot) == Done(s1)
    requires ProcessBlockHeader(h, s1, b) == Done(s2)
    requires ProcessAttestations(s2, b.body).Done?
    ensures ChainInv(h, ProcessAttestations(s2, b.body).after)
    ensures StateQuorum(ProcessAttestations(s2, b.body).after, log + BatchVotes(s2, b.body))
  {
    SameRegistry(h, s, s1, s2, b);
    hide *;
    SlotsStage(h, s, b.slot, s1);
    SlotsKeepQuorum(h, s, b.slot, s1, log);
    HeaderKeepsInvariant(h, s1, b);
    HeaderKeepsQuorum(h, s1, b, log);
    BatchKeepsQuorum(h, s2, b.body, log);
  }

  lemma SameRegistry(h: Hashes, s: State, s1: State, s2: State, b: Block)
    requires ProcessSlots(h, s, b.slot) == Done(s1) && ProcessBlockHeader(h, s1, b) == Done(s2)
    ensures s2.validators == s1.validators == s.validators
  {
    AdvanceSlotsFrame(h, s, b.slot - s.slot);
  }

  lemma OpKeepsQuorum(h: Hashes, s: State, op: Op, log: Ballots)
    requires ChainInv(h, s) && |s.validators| <= VALIDATOR_REGISTRY_LIMIT && StateQuorum(s, log)
    ensures PendingWellSized(Perform(h, s, op).after)
    ensures StateQuorum(Perform(h, s, op).after, log + OpVotes(h, s, op))
  {
    OpKeepsInvariant(h, s, op);
    var o := Perform(h, s, op);
    hide ChainInv, StateQuorum, ProcessSlots, ProcessBlockHeader, ProcessAttestations, BatchVotes, PendingTable;
    if o.Failed? || op.Slots? || op.Header? {
      assert log + OpVotes(h, s, op) == log;
    }
    if o.Done? {
      match op
      case Slots(target) => SlotsKeepQuorum(h, s, target, o.after, log);
      case Header(b) => HeaderKeepsQuorum(h, s, b, log);
      case Attest(atts) => BatchKeepsQuorum(h, s, atts, log);
      case Whole(b, validate) =>
        var s1, s2 := TransitionStages(h, s, b, validate);
        WholeKeepsQuorum(h, s, s1, s2, b, log);
    }
  }

  /** In every state reached from genesis, each justified slot after slot 0 is backed
      by at least two thirds of the registry: distinct validators whose accepted
      votes in this run name that slot's root. */
  lemma {:induction false} RunQuorum(h: Hashes, time: U64, validators: seq<Validator>, ops: seq<Op>)
    requires |validators| <= VALIDATOR_REGISTRY_LIMIT
    ensures var g := GenesisState(h, time, validators);
            && ChainInv(h, Run(h, g, ops)) && Run(h, g, ops).validators == validators
            && StateQuorum(Run(h, g, ops), RunVotes(h, g, ops))
    decreases |ops|
  {
    var g := GenesisState(h, time, validators);
    GenesisInvariant(h, time, validators);
    RunKeepsInvariant(h, g, ops, 0);
    if ops != [] {
      RunQuorum(h, time, validators, ops[..|ops| - 1]);
      OpKeepsQuorum(h, Run(h, g, ops[..|ops| - 1]), ops[|ops| - 1], RunVotes(h, g, ops[..|ops| - 1]));
    }
  }

  // ---------------------------------------------------------------- two chains

  /** Equal header roots come from headers of one slot. */
  ghost predicate RootsBindSlots(h: Hashes) {
    forall a: BlockHeader, b: BlockHeader :: h.header(a) == h.header(b) ==> a.slot == b.slot
  }

  /** The validator has two accepted votes for one target slot and different roots. */
  ghost predicate DoubleVoted(a: Ballots, b: Ballots, v: nat, k: nat) {
    exists c: Checkpoint, d: Checkpoint ::
      (v, c) in a && (v, d) in b && c.slot == d.slot == k && c.root != d.root
  }

  ghost function DoubleVoters(a: Ballots, b: Ballots, n: nat, k: nat): set<nat> {
    set j | j in Indices(n) && DoubleVoted(a, b, j, k)
  }

  /** When roots bind slots, a ballot for a non-zero history root names its slot. */
  lemma BallotNamesSlot(h: Hashes, s: State, log: Ballots, v: nat, k: nat)
    requires ChainInv(h, s) && StateQuorum(s, log) && RootsBindSlots(h)
    requires k < |s.history| && s.history[k] != ZERO_ROOT && Voted(log, v, s.history[k])
    ensures exists c: Checkpoint :: (v, c) in log && c.slot == k && c.root == s.history[k]
  {
    var c: Checkpoint :| (v, c) in log && c.root == s.history[k];
    assert s.history[c.slot] == c.root;
    assert NamesSlot(h, s.history[c.slot], c.slot) && NamesSlot(h, s.history[k], k);
    assert c.slot == k;
  }

  /** Two chains from one genesis that justify different non-zero roots at one slot
      have at least a third of the registry double voting for that target slot. */
  lemma ConflictingJustification(
      h: Hashes, time: U64, validators: seq<Validator>, opsA: seq<Op>, opsB: seq<Op>, k: nat)
    requires |validators| <= VALIDATOR_REGISTRY_LIMIT && RootsBindSlots(h)
    requires var a, b := Run(h, GenesisState(h, time, validators), opsA), Run(h, GenesisState(h, time, validators), opsB);
             && 0 < k < |a.justifiedSlots| && k < |b.justifiedSlots| && k < |a.history| && k < |b.history|
             && a.justifiedSlots[k] && b.justifiedSlots[k]
             && a.history[k] != b.history[k] && a.history[k] != ZERO_ROOT && b.history[k] != ZERO_ROOT
    ensures var g := GenesisState(h, time, validators);
            3 * |DoubleVoters(RunVotes(h, g, opsA), RunVotes(h, g, opsB), |validators|, k)| >= |validators|
  {
    var g, n := GenesisState(h, time, validators), |validators|;
    RunQuorum(h, time, validators, opsA);
    RunQuorum(h, time, validators, opsB);
    var a, b := Run(h, g, opsA), Run(h, g, opsB);
    var logA, logB := RunVotes(h, g, opsA), RunVotes(h, g, opsB);
    var va, vb := Backers(logA, n, a.history[k]), Backers(logB, n, b.history[k]);
    CommonMembers(va, vb, Indices(n));
    forall v | v in va * vb ensures v in DoubleVoters(logA, logB, n, k) {
      BallotNamesSlot(h, a, logA, v, k);
      BallotNamesSlot(h, b, logB, v, k);
    }
    SubsetSize(va * vb, DoubleVoters(logA, logB, n, k));
  }
}
