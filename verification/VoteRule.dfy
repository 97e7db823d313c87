/**
  The vote loop told without its own filter: which votes count, what a vote that counts
  does, which batches fail and with which error. Everything is said in the terms of the
  stored bits, the history and the distance from finality.
 */
module VoteRule {
  import opened Containers
  import opened Collections
  import opened Justifiability
  import opened Tally
  import opened Transition
  import opened ChainInvariant

  /** The slot's distance from finality is at most five, the square of `k`, or `k` times
      its successor. */
  ghost predicate Distance(slot: nat, finalized: nat, k: nat) {
    var d := slot - finalized;
    0 <= d && (d <= 5 || d == k * k || d == k * (k + 1))
  }

  /** Some slot strictly between is at a justifiable distance. */
  ghost predicate Interrupted(source: nat, target: nat, finalized: nat) {
    exists mid: nat, k: nat :: source < mid < target && Distance(mid, finalized, k)
  }

  /** A vote that runs forward from a justified slot to one that is not, both roots being
      those of the history. */
  ghost predicate Forward(history: seq<Root>, bits: seq<bool>, vote: AttestationData) {
    var source, target := vote.source, vote.target;
    && source.slot < target.slot < |bits| && target.slot < |history|
    && bits[source.slot] && !bits[target.slot]
    && source.root == history[source.slot] && target.root == history[target.slot]
  }

  /** The validators already marked for `r`. */
  ghost function MarkedFor(t: Table, n: nat, r: Root): set<nat>
    requires RowsOfLength(t, n)
  {
    set j | j in Indices(n) && r in t && t[r][j]
  }

  /** Every row but that of `r` is the same in both tables. */
  ghost predicate OthersSame(a: Table, b: Table, r: Root) {
    forall q :: q != r ==> (q in a <==> q in b) && (q in a ==> a[q] == b[q])
  }

  lemma DistanceWitness(slot: nat, finalized: nat) returns (k: nat)
    ensures JustifiableAfter(slot, finalized) ==> Distance(slot, finalized, k)
  {
    k := 0;
    if JustifiableAfter(slot, finalized) {
      var d := slot - finalized;
      if IsSquare(d) { k :| Square(k) == d; } else if IsPronic(d) { k :| Pronic(k) == d; }
    }
  }

  lemma DistanceSuffices(slot: nat, finalized: nat, k: nat)
    requires Distance(slot, finalized, k)
    ensures JustifiableAfter(slot, finalized)
  {
    assert Square(k) == k * k && Pronic(k) == k * (k + 1);
  }

  lemma MarksAreSupporters(t: Table, n: nat, r: Root)
    requires RowsOfLength(t, n)
    ensures MarkedFor(t, n, r) == if r in t then Supporters(t[r]) else {}
  {
  }

  // ---------------------------------------------------------------- votes that count

  lemma ForwardIsAccepted(history: seq<Root>, w: Work, vote: AttestationData, k: nat)
    requires Forward(history, w.bits, vote) && Distance(vote.target.slot, w.finalized.slot, k)
    ensures Acceptable(history, w, vote)
  {
    hide JustifiableAfter, Distance;
    DistanceSuffices(vote.target.slot, w.finalized.slot, k);
  }

  /** The marks of the raised row. */
  lemma RaisedMarks(t: Table, n: nat, r: Root, v: nat)
    requires RowsOfLength(t, n) && v < n
    ensures Supporters(RaisedRow(t, r, v, n)) == MarkedFor(t, n, r) + {v}
    ensures var u := t[r := RaisedRow(t, r, v, n)]; RowsOfLength(u, n) && MarkedFor(u, n, r) == MarkedFor(t, n, r) + {v}
  {
    RaisedSupporters(t, r, v, n);
    MarksAreSupporters(t, n, r);
    MarksAreSupporters(t[r := RaisedRow(t, r, v, n)], n, r);
  }

  /** A forward vote at a justifiable distance counts. It marks its validator; with two
      thirds marked it justifies its target instead, dropping the row, and otherwise
      nothing else moves. */
  lemma VoteCounts(history: seq<Root>, n: nat, w: Work, att: Attestation, k: nat)
    requires RowsOfLength(w.table, n) && att.validatorId < n
    requires Forward(history, w.bits, att.data)
    requires Distance(att.data.target.slot, w.finalized.slot, k)
    ensures var u, target := ApplyVote(history, n, w, att), att.data.target;
            var marks := MarkedFor(w.table, n, target.root) + {att.validatorId as nat};
            && OthersSame(w.table, u.table, target.root)
            && (3 * |marks| >= 2 * n ==>
                  target.root !in u.table && u.bits == w.bits[target.slot := true] && u.justified == target)
            && (3 * |marks| < 2 * n ==>
                  && target.root in u.table && MarkedFor(u.table, n, target.root) == marks
                  && u.bits == w.bits && u.justified == w.justified && u.finalized == w.finalized)
  {
    hide Acceptable, Distance, NothingBetween, RaisedRow, MarkedFor, Supporters;
    ForwardIsAccepted(history, w, att.data, k);
    RaisedMarks(w.table, n, att.data.target.root, att.validatorId);
  }

  /** A vote that is not forward, or at no justifiable distance, changes nothing. Turned
      round: whatever changes something is a forward vote, and its distance has a witness. */
  lemma OnlyCountingVotesAct(history: seq<Root>, n: nat, w: Work, att: Attestation) returns (k: nat)
    requires RowsOfLength(w.table, n) && att.validatorId < n
    ensures ApplyVote(history, n, w, att) != w ==>
              Forward(history, w.bits, att.data) && Distance(att.data.target.slot, w.finalized.slot, k)
  {
    hide JustifiableAfter;
    k := DistanceWitness(att.data.target.slot, w.finalized.slot);
  }

  /** A justifying vote finalizes its source exactly when no slot strictly between source
      and target is at a justifiable distance from the finalized slot of that moment. */
  lemma FinalizesIff(history: seq<Root>, n: nat, w: Work, att: Attestation, k: nat)
    requires RowsOfLength(w.table, n) && att.validatorId < n
    requires Forward(history, w.bits, att.data)
    requires Distance(att.data.target.slot, w.finalized.slot, k)
    requires 3 * |MarkedFor(w.table, n, att.data.target.root) + {att.validatorId as nat}| >= 2 * n
    ensures ApplyVote(history, n, w, att).finalized ==
            if Interrupted(att.data.source.slot, att.data.target.slot, w.finalized.slot)
            then w.finalized else att.data.source
  {
    hide Acceptable, Distance, NothingBetween, RaisedRow, MarkedFor, Supporters, Interrupted;
    ForwardIsAccepted(history, w, att.data, k);
    RaisedMarks(w.table, n, att.data.target.root, att.validatorId);
    InterruptedIff(att.data.source.slot, att.data.target.slot, w.finalized.slot);
  }

  lemma InterruptedIff(source: nat, target: nat, finalized: nat)
    ensures Interrupted(source, target, finalized) <==> !NothingBetween(source, target, finalized)
  {
    hide Distance, JustifiableAfter;
    if !NothingBetween(source, target, finalized) {
      var mid: nat :| source < mid < target && JustifiableAfter(mid, finalized);
      var k := DistanceWitness(mid, finalized);
      assert Distance(mid, finalized, k);
    }
    if mid: nat, k: nat :| source < mid < target && Distance(mid, finalized, k) {
      DistanceSuffices(mid, finalized, k);
    }
  }

  // ---------------------------------------------------------------- batches

  /** The range checks of one vote. */
  ghost predicate InRange(s: State, att: Attestation) {
    var len := if |s.justifiedSlots| < |s.history| then |s.justifiedSlots| else |s.history|;
    att.data.source.slot < len && att.data.target.slot < len && att.validatorId < |s.validators|
  }

  /** A batch over a well-sized pending table passes its loop exactly when every vote is in
      range, and otherwise fails without effect. */
  lemma LoopPassesIff(s: State, atts: seq<Attestation>)
    requires PendingWellSized(s)
    ensures ApplyVotes(s.history, |s.validators|, StartWork(s), atts).Ok? <==>
            forall att :: att in atts ==> InRange(s, att)
    ensures (exists att :: att in atts && !InRange(s, att)) ==>
              ProcessAttestations(s, atts).Failed? && ProcessAttestations(s, atts).after == s
  {
    RangeDecidesSuccess(s.history, |s.validators|, StartWork(s), atts);
    assert forall att :: InRange(s, att) <==> RangeError(s.history, |s.justifiedSlots|, |s.validators|, att).None?;
  }

  /** The bitlist is asked before the history. */
  ghost function OutOfRange(s: State, kind: AttSlotKind, slot: Slot): TransitionError {
    AttestationSlotOutOfRange(kind, slot, if slot >= |s.justifiedSlots| then |s.justifiedSlots| else |s.history|)
  }

  /** The error is that of the first vote out of range: its source, then its target, then
      its validator. */
  lemma FirstErrorWins(s: State, atts: seq<Attestation>, i: nat)
    requires PendingWellSized(s) && i < |atts| && !InRange(s, atts[i])
    requires forall j :: 0 <= j < i ==> InRange(s, atts[j])
    ensures var o, vote := ProcessAttestations(s, atts), atts[i].data;
            var len := if |s.justifiedSlots| < |s.history| then |s.justifiedSlots| else |s.history|;
            && o.Failed? && o.after == s
            && (vote.source.slot >= len ==>
                  o.error == OutOfRange(s, Source, vote.source.slot))
            && (vote.source.slot < len <= vote.target.slot ==>
                  o.error == OutOfRange(s, Target, vote.target.slot))
            && (vote.source.slot < len && vote.target.slot < len ==>
                  o.error == AttestationValidatorOutOfRange(atts[i].validatorId, |s.validators|))
  {
    var n, w := |s.validators|, StartWork(s);
    FirstErrorInLoop(s.history, n, w, atts, i);
  }

  lemma {:induction false} FirstErrorInLoop(history: seq<Root>, n: nat, w: Work, atts: seq<Attestation>, i: nat)
    requires RowsOfLength(w.table, n) && i < |atts| && RangeError(history, |w.bits|, n, atts[i]).Some?
    requires forall j :: 0 <= j < i ==> RangeError(history, |w.bits|, n, atts[j]).None?
    ensures ApplyVotes(history, n, w, atts) == Err(RangeError(history, |w.bits|, n, atts[i]).value)
    decreases |atts|
  {
    hide RangeError, ApplyVote;
    var front := atts[..|atts| - 1];
    if i < |front| {
      FirstErrorInLoop(history, n, w, front, i);
    } else {
      assert forall att :: att in front ==> RangeError(history, |w.bits|, n, att).None?;
      RangeDecidesSuccess(history, n, w, front);
    }
  }

  /** A batch that is stored is its votes one by one, from the first: reading the stored
      table back after the votes before the last and casting the last gives the outcome. */
  lemma BatchStepByStep(h: Hashes, s: State, front: seq<Attestation>, last: Attestation)
    requires ChainInv(h, s) && |s.validators| <= VALIDATOR_REGISTRY_LIMIT
    requires ProcessAttestations(s, front + [last]).Done?
    ensures ProcessAttestations(s, front).Done?
    ensures ProcessAttestations(s, front + [last]) == ProcessAttestations(ProcessAttestations(s, front).after, [last])
  {
    var all := front + [last];
    assert all[..|all| - 1] == front;
    BatchDoneIff(h, s, all);
    BatchDoneIff(h, s, front);
    hide ApplyVote, RangeError, PendingTable, ChainInv, StorePending;
    BatchWork(h, s, front);
    BatchWork(h, s, all);
    var t := ProcessAttestations(s, front).after;
    AttestationsKeepInvariant(h, s, front);
    SameFrame(s, front);
    assert [last][..0] == [];
    LastVote(s, t, all, front, last);
  }

  lemma SameFrame(s: State, atts: seq<Attestation>)
    requires ProcessAttestations(s, atts).Done?
    ensures var t := ProcessAttestations(s, atts).after;
            && t == s.(justifiedSlots := t.justifiedSlots, justified := t.justified, finalized := t.finalized,
                       pendingRoots := t.pendingRoots, pendingVotes := t.pendingVotes)
  {
  }

  lemma LastVote(s: State, t: State, all: seq<Attestation>, front: seq<Attestation>, last: Attestation)
    requires PendingWellSized(s) && PendingWellSized(t) && all == front + [last]
    requires t == s.(justifiedSlots := t.justifiedSlots, justified := t.justified, finalized := t.finalized,
                     pendingRoots := t.pendingRoots, pendingVotes := t.pendingVotes)
    requires ApplyVotes(s.history, |s.validators|, StartWork(s), front) == Ok(StartWork(t))
    requires ProcessAttestations(s, all).Done?
    ensures ProcessAttestations(t, [last]) == ProcessAttestations(s, all)
  {
    hide ApplyVote, RangeError, PendingTable, Ascending, Flatten;
    assert all[..|all| - 1] == front && all[|all| - 1] == last && [last][..0] == [];
    var n := |s.validators|;
    assert ApplyVotes(s.history, n, StartWork(t), []) == Ok(StartWork(t));
    assert ApplyVotes(s.history, n, StartWork(t), [last]) == ApplyVotes(s.history, n, StartWork(s), all);
  }
}
