/**
  What each state-transition operation computes, as a function from the state
  before the call to the outcome. The mutating forms are in module LiveState.
 */
module Transition {
  import opened Containers
  import opened Collections
  import opened Justifiability
  import opened Tally

  // ---------------------------------------------------------------- slots

  /** `process_slot`: fills in the header's state root when it is still zero. */
  ghost function CacheStateRoot(h: Hashes, s: State): State {
    if s.header.stateRoot == ZERO_ROOT then s.(header := s.header.(stateRoot := h.state(s))) else s
  }

  ghost function NextSlot(h: Hashes, s: State): State
    requires s.slot < U64_MAX
  {
    var t := CacheStateRoot(h, s);
    t.(slot := t.slot + 1)
  }

  ghost function AdvanceSlots(h: Hashes, s: State, n: nat): (r: State)
    requires s.slot + n <= U64_MAX
    ensures r.slot == s.slot + n
  {
    if n == 0 then s else NextSlot(h, AdvanceSlots(h, s, n - 1))
  }

  /** `process_slots`. */
  ghost function ProcessSlots(h: Hashes, s: State, target: Slot): Outcome {
    if target <= s.slot then Failed(s, TargetSlotNotInFuture(s.slot, target))
    else Done(AdvanceSlots(h, s, target - s.slot))
  }

  // ---------------------------------------------------------------- header

  /** The validation gate of `process_block_header`. */
  ghost function HeaderGate(h: Hashes, s: State, b: Block): Option<TransitionError> {
    if b.slot != s.slot then Some(BlockSlotMismatch(b.slot, s.slot))
    else if b.slot <= s.header.slot then Some(BlockOlderThanLatest(b.slot, s.header.slot))
    else if |s.validators| == 0 then Some(NoValidators)
    else if s.slot % |s.validators| != b.proposerIndex then Some(IncorrectBlockProposer(s.slot, b.proposerIndex))
    else if b.parentRoot != h.header(s.header) then
      Some(BlockParentRootMismatch(b.slot, b.parentRoot, h.header(s.header)))
    else if |s.history| + 1 + (b.slot - s.header.slot - 1) > HISTORICAL_ROOTS_LIMIT then
      Some(StateBoundExceeded(HistoricalBlockHashes))
    else None
  }

  function Zeros(k: nat): (s: seq<Root>)
    ensures |s| == k && forall i :: 0 <= i < k ==> s[i] == ZERO_ROOT
  {
    seq(k, _ => ZERO_ROOT)
  }

  /** The first block fixes the root of the two genesis checkpoints. */
  ghost function SeedCheckpoints(s: State, parent: Root): State {
    if s.header.slot == 0 then
      s.(justified := s.justified.(root := parent), finalized := s.finalized.(root := parent))
    else s
  }

  /** The header a block leaves on the state, its state root not yet known. */
  ghost function UnsealedHeader(h: Hashes, b: Block): BlockHeader {
    BlockHeader(b.slot, b.proposerIndex, b.parentRoot, ZERO_ROOT, h.body(b.body))
  }

  /** `process_block_header`. The bitlist errors come after the first mutation. */
  ghost function ProcessBlockHeader(h: Hashes, s: State, b: Block): Outcome {
    var gate := HeaderGate(h, s, b);
    if gate.Some? then Failed(s, gate.value) else
    var parent := h.header(s.header);
    var empty := b.slot - s.header.slot - 1;
    var first := s.header.slot == 0;
    var s1 := SeedCheckpoints(s, parent).(history := s.history + [parent]);
    if |s.justifiedSlots| >= HISTORICAL_ROOTS_LIMIT then Failed(s1, StateBoundExceeded(JustifiedSlots)) else
    var s2 := s1.(history := s1.history + Zeros(empty));
    var room := HISTORICAL_ROOTS_LIMIT - |s.justifiedSlots| - 1;
    if empty > room then
      Failed(s2.(justifiedSlots := s.justifiedSlots + [first] + Unset(room)), StateBoundExceeded(JustifiedSlots))
    else
      Done(s2.(justifiedSlots := s.justifiedSlots + [first] + Unset(empty), header := UnsealedHeader(h, b)))
  }

  // ---------------------------------------------------------------- attestations

  /** The working copies of one `process_attestations` call. */
  datatype Work = Work(table: Table, bits: JustifiedBits, justified: Checkpoint, finalized: Checkpoint)

  /** The range checks of one vote, in order; any failure aborts the call. */
  ghost function RangeError(history: seq<Root>, justLen: nat, n: nat, att: Attestation): Option<TransitionError> {
    var source, target := att.data.source.slot, att.data.target.slot;
    if source >= justLen then Some(AttestationSlotOutOfRange(Source, source, justLen))
    else if source >= |history| then Some(AttestationSlotOutOfRange(Source, source, |history|))
    else if target >= justLen then Some(AttestationSlotOutOfRange(Target, target, justLen))
    else if target >= |history| then Some(AttestationSlotOutOfRange(Target, target, |history|))
    else if att.validatorId >= n then Some(AttestationValidatorOutOfRange(att.validatorId, n))
    else None
  }

  /** The semantic filter: a vote that fails it is skipped. */
  ghost predicate Acceptable(history: seq<Root>, w: Work, vote: AttestationData) {
    var source, target := vote.source, vote.target;
    && source.slot < |w.bits| && source.slot < |history|
    && target.slot < |w.bits| && target.slot < |history|
    && w.bits[source.slot]
    && !w.bits[target.slot]
    && source.root == history[source.slot]
    && target.root == history[target.slot]
    && target.slot > source.slot
    && JustifiableAfter(target.slot, w.finalized.slot)
  }

  /** The target's row once the validator's bit is raised. */
  ghost function RaisedRow(t: Table, root: Root, v: nat, n: nat): (row: seq<bool>)
    requires RowsOfLength(t, n) && v < n
    ensures |row| == n
  {
    (if root in t then t[root] else Unset(n))[v := true]
  }

  ghost predicate Supermajority(row: seq<bool>, n: nat) {
    3 * |Supporters(row)| >= 2 * n
  }

  ghost predicate NothingBetween(source: nat, target: nat, finalized: nat) {
    forall mid :: source < mid < target ==> !JustifiableAfter(mid, finalized)
  }

  /** One vote: tally it, and on a supermajority justify its target and perhaps
      finalize its source. The finalized slot read here is the live one. */
  ghost function ApplyVote(history: seq<Root>, n: nat, w: Work, att: Attestation): (w': Work)
    requires RowsOfLength(w.table, n) && att.validatorId < n
    ensures RowsOfLength(w'.table, n) && |w'.bits| == |w.bits|
  {
    var vote := att.data;
    if !Acceptable(history, w, vote) then w else
    var row := RaisedRow(w.table, vote.target.root, att.validatorId, n);
    if !Supermajority(row, n) then w.(table := w.table[vote.target.root := row]) else
    Work(w.table - {vote.target.root},
         w.bits[vote.target.slot := true],
         vote.target,
         if NothingBetween(vote.source.slot, vote.target.slot, w.finalized.slot)
         then vote.source else w.finalized)
  }

  ghost function ApplyVotes(history: seq<Root>, n: nat, w: Work, atts: seq<Attestation>)
    : (r: Result<Work, TransitionError>)
    requires RowsOfLength(w.table, n)
    ensures r.Ok? ==> RowsOfLength(r.value.table, n) && |r.value.bits| == |w.bits|
    decreases |atts|
  {
    if atts == [] then Ok(w) else
    var front, last := atts[..|atts| - 1], atts[|atts| - 1];
    var r := ApplyVotes(history, n, w, front);
    if r.Err? then r else
    var e := RangeError(history, |w.bits|, n, last);
    if e.Some? then Err(e.value) else Ok(ApplyVote(history, n, r.value, last))
  }

  ghost predicate PendingWellSized(s: State) {
    |s.validators| > 0 ==> |s.pendingVotes| == |s.pendingRoots| * |s.validators|
  }

  /** The pending-vote table of a state. */
  ghost function PendingTable(s: State): (t: Table)
    requires PendingWellSized(s)
    ensures RowsOfLength(t, |s.validators|)
  {
    if |s.validators| == 0 then map[] else Hydrate(s.pendingRoots, s.pendingVotes, |s.validators|)
  }

  ghost function StartWork(s: State): (w: Work)
    requires PendingWellSized(s)
    ensures RowsOfLength(w.table, |s.validators|)
  {
    Work(PendingTable(s), s.justifiedSlots, s.justified, s.finalized)
  }

  ghost function Commit(s: State, w: Work): State {
    s.(justifiedSlots := w.bits, justified := w.justified, finalized := w.finalized)
  }

  /** The flat form of the table fits its bitlist. */
  ghost predicate Storable(s: State, t: Table) {
    RowsOfLength(t, |s.validators|) && |t| * |s.validators| <= JUSTIFICATIONS_VALIDATORS_LIMIT
  }

  ghost function StorePending(s: State, t: Table): State
    requires Storable(s, t)
  {
    FlattenLength(Ascending(t.Keys), t, |s.validators|);
    s.(pendingRoots := Ascending(t.Keys), pendingVotes := Flatten(Ascending(t.Keys), t))
  }

  /** `process_attestations`. The write-back error comes after the commit. */
  ghost function ProcessAttestations(s: State, atts: seq<Attestation>): Outcome {
    if !PendingWellSized(s) then Failed(s, StateBoundExceeded(JustificationsValidators)) else
    var r := ApplyVotes(s.history, |s.validators|, StartWork(s), atts);
    if r.Err? then Failed(s, r.error) else
    var w := r.value;
    if |w.table| * |s.validators| > JUSTIFICATIONS_VALIDATORS_LIMIT then
      Failed(Commit(s, w), StateBoundExceeded(JustificationsValidators))
    else Done(StorePending(Commit(s, w), w.table))
  }

  // ---------------------------------------------------------------- driver

  /** `state_transition`: all three stages on a copy, swapped in on success. */
  ghost function StateTransition(h: Hashes, s: State, b: Block, validate: bool): Outcome {
    var o1 := ProcessSlots(h, s, b.slot);
    if o1.Failed? then Failed(s, o1.error) else
    var o2 := ProcessBlockHeader(h, o1.after, b);
    if o2.Failed? then Failed(s, o2.error) else
    var o3 := ProcessAttestations(o2.after, b.body);
    if o3.Failed? then Failed(s, o3.error) else
    if validate && h.state(o3.after) != b.stateRoot then
      Failed(s, StateRootMismatch(b.slot, h.state(o3.after), b.stateRoot))
    else o3
  }
}
