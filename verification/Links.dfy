/**
  What stands behind finality. The links of a run are the accepted votes that completed
  the two thirds of their target, in order, each with the finalized slot of its moment.
  They explain a state: which slots are justified, which was justified last, and that the
  finalized checkpoint is the source of the last link with nothing justifiable in between.
  One such vote is enough; the other voters need not share its source.
 */
module Links {
  import opened Containers
  import opened Collections
  import opened Justifiability
  import opened Tally
  import opened Transition
  import opened ChainInvariant
  import opened OrderIndependence
  import Quorum

  datatype Link = Link(voter: nat, vote: AttestationData, floor: Slot)

  /** The vote completes the two thirds of its target. */
  ghost predicate Completes(history: seq<Root>, n: nat, w: Work, att: Attestation)
    requires RowsOfLength(w.table, n)
  {
    && att.validatorId < n && Acceptable(history, w, att.data)
    && Supermajority(RaisedRow(w.table, att.data.target.root, att.validatorId, n), n)
  }

  ghost function VoteLinks(history: seq<Root>, n: nat, w: Work, atts: seq<Attestation>): seq<Link>
    requires RowsOfLength(w.table, n)
    decreases |atts|
  {
    if atts == [] then [] else
    var front, last := atts[..|atts| - 1], atts[|atts| - 1];
    var earlier, r := VoteLinks(history, n, w, front), ApplyVotes(history, n, w, front);
    if r.Ok? && Completes(history, n, r.value, last)
    then earlier + [Link(last.validatorId, last.data, r.value.finalized.slot)] else earlier
  }

  ghost function BatchLinks(s: State, atts: seq<Attestation>): seq<Link> {
    if PendingWellSized(s) then VoteLinks(s.history, |s.validators|, StartWork(s), atts) else []
  }

  /** The links one operation adds; a failed operation adds none. */
  ghost function OpLinks(h: Hashes, s: State, op: Op): seq<Link> {
    if Perform(h, s, op).Failed? then [] else
    match op
    case Slots(_) => []
    case Header(_) => []
    case Attest(atts) => BatchLinks(s, atts)
    case Whole(b, _) => BatchLinks(ProcessBlockHeader(h, ProcessSlots(h, s, b.slot).after, b).after, b.body)
  }

  ghost function RunLinks(h: Hashes, s: State, ops: seq<Op>): seq<Link>
    decreases |ops|
  {
    if ops == [] then [] else
    RunLinks(h, s, ops[..|ops| - 1]) + OpLinks(h, Run(h, s, ops[..|ops| - 1]), ops[|ops| - 1])
  }

  // ---------------------------------------------------------------- what links say

  ghost predicate Finalizes(l: Link) {
    NothingBetween(l.vote.source.slot, l.vote.target.slot, l.floor)
  }

  /** The source of the last finalizing link, or nothing. */
  ghost function Finalized(links: seq<Link>): Option<Checkpoint> {
    if links == [] then None else
    var last := links[|links| - 1];
    if Finalizes(last) then Some(last.vote.source) else Finalized(links[..|links| - 1])
  }

  ghost function FloorOf(links: seq<Link>): Slot {
    var f := Finalized(links);
    if f.Some? then f.value.slot else 0
  }

  ghost predicate Targets(links: seq<Link>, k: nat) {
    exists l :: l in links && l.vote.target.slot == k
  }

  /** A link runs forward between history entries, from slot 0 or an earlier link's target,
      to a new target, under the finality that the links before it explain. */
  ghost predicate LinkSound(history: seq<Root>, before: seq<Link>, l: Link) {
    var source, target := l.vote.source, l.vote.target;
    && source.slot < target.slot < |history|
    && source.root == history[source.slot] && target.root == history[target.slot]
    && (source.slot == 0 || Targets(before, source.slot)) && !Targets(before, target.slot)
    && l.floor == FloorOf(before) && JustifiableAfter(target.slot, l.floor)
    && (Finalizes(l) ==> l.floor <= source.slot)
  }

  ghost predicate LinksSound(history: seq<Root>, links: seq<Link>) {
    forall i :: 0 <= i < |links| ==> LinkSound(history, links[..i], links[i])
  }

  /** The links explain the bits and both checkpoints. */
  ghost predicate Explains(links: seq<Link>, w: Work) {
    && (forall k: nat :: 0 < k < |w.bits| ==> (w.bits[k] <==> Targets(links, k)))
    && (if links == [] then w.justified.slot == 0 else w.justified == links[|links| - 1].vote.target)
    && (var f := Finalized(links); if f.None? then w.finalized.slot == 0 else w.finalized == f.value)
  }

  ghost predicate LinkInv(history: seq<Root>, w: Work, links: seq<Link>) {
    LinksSound(history, links) && Explains(links, w)
  }

  // ---------------------------------------------------------------- votes

  /** The completing vote as the next link. */
  lemma NextLinkSound(history: seq<Root>, n: nat, w: Work, att: Attestation, links: seq<Link>)
    requires WorkInv(history, n, w) && LinkInv(history, w, links) && Completes(history, n, w, att)
    ensures LinkSound(history, links, Link(att.validatorId, att.data, w.finalized.slot))
  {
    hide Supermajority, RaisedRow, LinksSound, AllPending;
    if NothingBetween(att.data.source.slot, att.data.target.slot, w.finalized.slot) {
      FinalizedSourceNotBelow(history, w, att.data);
    }
  }

  lemma SoundOneMore(history: seq<Root>, links: seq<Link>, l: Link)
    requires LinksSound(history, links) && LinkSound(history, links, l)
    ensures LinksSound(history, links + [l])
  {
    hide LinkSound;
    var more := links + [l];
    forall i | 0 <= i < |more| ensures LinkSound(history, more[..i], more[i]) {
      if i < |links| { assert more[..i] == links[..i]; } else { assert more[..i] == links; }
    }
  }

  lemma TargetsOneMore(links: seq<Link>, l: Link, k: nat)
    ensures Targets(links + [l], k) <==> Targets(links, k) || l.vote.target.slot == k
  {
    if Targets(links, k) {
      var x :| x in links && x.vote.target.slot == k;
      assert x in links + [l];
    }
    assert l in links + [l];
  }

  lemma CompletingVoteExplained(history: seq<Root>, n: nat, w: Work, att: Attestation, links: seq<Link>)
    requires RowsOfLength(w.table, n) && Explains(links, w) && Completes(history, n, w, att)
    ensures Explains(links + [Link(att.validatorId, att.data, w.finalized.slot)], ApplyVote(history, n, w, att))
  {
    hide Supermajority, RaisedRow, NothingBetween;
    var l := Link(att.validatorId, att.data, w.finalized.slot);
    var more, x := links + [l], ApplyVote(history, n, w, att);
    assert more[..|more| - 1] == links && more[|more| - 1] == l;
    forall k: nat | 0 < k < |x.bits| ensures x.bits[k] <==> Targets(more, k) {
      hide Targets;
      TargetsOneMore(links, l, k);
    }
  }

  lemma {:induction false} VotesKeepLinks(history: seq<Root>, n: nat, w: Work, atts: seq<Attestation>, links: seq<Link>)
    requires WorkInv(history, n, w) && LinkInv(history, w, links) && ApplyVotes(history, n, w, atts).Ok?
    ensures LinkInv(history, ApplyVotes(history, n, w, atts).value, links + VoteLinks(history, n, w, atts))
    decreases |atts|
  {
    hide LinksSound, Explains, Completes, WorkInv, ApplyVote, RangeError;
    WorkRows(history, n, w);
    if atts == [] {
      assert links + [] == links;
    } else {
      var front, last := atts[..|atts| - 1], atts[|atts| - 1];
      VotesKeepLinks(history, n, w, front, links);
      VotesKeepInvariant(history, n, w, front);
      ValidatorInRange(history, |w.bits|, n, last);
      var u, so := ApplyVotes(history, n, w, front).value, links + VoteLinks(history, n, w, front);
      if Completes(history, n, u, last) {
        var l := Link(last.validatorId, last.data, u.finalized.slot);
        NextLinkSound(history, n, u, last, so);
        SoundOneMore(history, so, l);
        CompletingVoteExplained(history, n, u, last, so);
        assert links + VoteLinks(history, n, w, atts) == so + [l];
      } else {
        QuietVoteExplained(history, n, u, last, so);
      }
    }
  }

  lemma QuietVoteExplained(history: seq<Root>, n: nat, w: Work, att: Attestation, links: seq<Link>)
    requires RowsOfLength(w.table, n) && att.validatorId < n && Explains(links, w) && !Completes(history, n, w, att)
    ensures Explains(links, ApplyVote(history, n, w, att))
  {
    hide Supermajority, RaisedRow, NothingBetween, Targets;
  }

  // ---------------------------------------------------------------- runs

  ghost predicate StateLinks(s: State, links: seq<Link>)
    requires PendingWellSized(s)
  {
    LinkInv(s.history, StartWork(s), links)
  }

  lemma LongerHistory(a: seq<Root>, b: seq<Root>, links: seq<Link>)
    requires a <= b && LinksSound(a, links)
    ensures LinksSound(b, links)
  {
    hide Finalizes, Targets, FloorOf, JustifiableAfter;
    forall i | 0 <= i < |links| ensures LinkSound(b, links[..i], links[i]) {
      assert LinkSound(a, links[..i], links[i]);
    }
  }

  lemma TargetsInHistory(history: seq<Root>, links: seq<Link>, k: nat)
    requires LinksSound(history, links) && Targets(links, k)
    ensures 0 < k < |history|
  {
    var l :| l in links && l.vote.target.slot == k;
    var i :| 0 <= i < |links| && links[i] == l;
    assert LinkSound(history, links[..i], links[i]);
  }

  /** New slots are unjustified, and the roots of the genesis checkpoints may be filled in
      while there is no link. */
  lemma NewSlotsExplained(history: seq<Root>, w: Work, x: Work, links: seq<Link>)
    requires LinksSound(history, links) && Explains(links, w) && |history| == |w.bits|
    requires w.bits <= x.bits && forall k :: 0 < k < |x.bits| && k >= |w.bits| ==> !x.bits[k]
    requires x.justified.slot == w.justified.slot && x.finalized.slot == w.finalized.slot
    requires history != [] ==> x.justified == w.justified && x.finalized == w.finalized
    ensures Explains(links, x)
  {
    hide LinksSound, Targets;
    forall k: nat | 0 < k < |x.bits| ensures x.bits[k] <==> Targets(links, k) {
      if Targets(links, k) { TargetsInHistory(history, links, k); }
    }
    if links != [] {
      assert Targets(links, links[0].vote.target.slot) by { FirstTarget(links); }
      TargetsInHistory(history, links, links[0].vote.target.slot);
    }
  }

  lemma FirstTarget(links: seq<Link>)
    requires links != []
    ensures Targets(links, links[0].vote.target.slot)
  {
    assert links[0] in links;
  }

  lemma HeaderKeepsLinks(h: Hashes, s: State, b: Block, links: seq<Link>)
    requires ChainInv(h, s) && StateLinks(s, links) && ProcessBlockHeader(h, s, b).Done?
    ensures PendingWellSized(ProcessBlockHeader(h, s, b).after)
    ensures StateLinks(ProcessBlockHeader(h, s, b).after, links)
  {
    hide WorkInv, PendingTable, NamesSlot, ParentBelow, LinksSound, Explains, StrictlyIncreasing;
    var t := ProcessBlockHeader(h, s, b).after;
    SamePending(s, t);
    assert s.history <= t.history && s.justifiedSlots <= t.justifiedSlots;
    LongerHistory(s.history, t.history, links);
    NewSlotsExplained(s.history, StartWork(s), StartWork(t), links);
  }

  lemma BatchKeepsLinks(h: Hashes, s: State, atts: seq<Attestation>, links: seq<Link>)
    requires ChainInv(h, s) && |s.validators| <= VALIDATOR_REGISTRY_LIMIT && StateLinks(s, links)
    requires ProcessAttestations(s, atts).Done?
    ensures ChainInv(h, ProcessAttestations(s, atts).after)
    ensures StateLinks(ProcessAttestations(s, atts).after, links + BatchLinks(s, atts))
  {
    hide LinkInv, WorkInv, ApplyVotes, PendingTable, ProcessAttestations, ChainInv;
    AttestationsKeepInvariant(h, s, atts);
    InvariantWork(h, s);
    BatchWork(h, s, atts);
    BatchHistory(s, atts);
    VotesKeepLinks(s.history, |s.validators|, StartWork(s), atts, links);
  }

  lemma BatchHistory(s: State, atts: seq<Attestation>)
    ensures ProcessAttestations(s, atts).after.history == s.history
  {
  }

  lemma SlotsKeepLinks(h: Hashes, s: State, target: Slot, s1: State, links: seq<Link>)
    requires ChainInv(h, s) && StateLinks(s, links) && ProcessSlots(h, s, target) == Done(s1)
    ensures PendingWellSized(s1) && StateLinks(s1, links) && s1.validators == s.validators
  {
    hide LinkInv, WorkInv, PendingTable, NamesSlot, ParentBelow;
    AdvanceSlotsFrame(h, s, target - s.slot);
    SamePending(s, s1);
  }

  lemma WholeKeepsLinks(h: Hashes, s: State, s1: State, s2: State, b: Block, links: seq<Link>)
    requires ChainInv(h, s) && |s.validators| <= VALIDATOR_REGISTRY_LIMIT && StateLinks(s, links)
    requires ProcessSlots(h, s, b.slot) == Done(s1)
    requires ProcessBlockHeader(h, s1, b) == Done(s2) && s2.validators == s.validators
    requires ProcessAttestations(s2, b.body).Done?
    ensures PendingWellSized(ProcessAttestations(s2, b.body).after)
    ensures StateLinks(ProcessAttestations(s2, b.body).after, links + BatchLinks(s2, b.body))
  {
    hide *;
    SlotsStage(h, s, b.slot, s1);
    SlotsKeepLinks(h, s, b.slot, s1, links);
    HeaderKeepsInvariant(h, s1, b);
    HeaderKeepsLinks(h, s1, b, links);
    BatchKeepsLinks(h, s2, b.body, links);
    InvariantWork(h, ProcessAttestations(s2, b.body).after);
  }

  lemma OpKeepsLinks(h: Hashes, s: State, op: Op, links: seq<Link>)
    requires ChainInv(h, s) && |s.validators| <= VALIDATOR_REGISTRY_LIMIT && StateLinks(s, links)
    ensures PendingWellSized(Perform(h, s, op).after)
    ensures StateLinks(Perform(h, s, op).after, links + OpLinks(h, s, op))
  {
    hide ChainInv, StateLinks, ProcessSlots, ProcessBlockHeader, ProcessAttestations, BatchLinks, PendingTable;
    OpKeepsInvariant(h, s, op);
    var o := Perform(h, s, op);
    InvariantWork(h, o.after);
    if o.Failed? || op.Slots? || op.Header? { assert links + OpLinks(h, s, op) == links; }
    if o.Done? {
      match op
      case Slots(target) => SlotsKeepLinks(h, s, target, o.after, links);
      case Header(b) => HeaderKeepsLinks(h, s, b, links);
      case Attest(atts) => BatchKeepsLinks(h, s, atts, links);
      case Whole(b, validate) =>
        var s1, s2 := TransitionStages(h, s, b, validate);
        Quorum.SameRegistry(h, s, s1, s2, b);
        WholeKeepsLinks(h, s, s1, s2, b, links);
    }
  }

  /** Every state reached from genesis is explained by the links of its run. */
  lemma {:induction false} RunExplained(h: Hashes, time: U64, validators: seq<Validator>, ops: seq<Op>)
    requires |validators| <= VALIDATOR_REGISTRY_LIMIT
    ensures var g := GenesisState(h, time, validators);
            && ChainInv(h, Run(h, g, ops)) && PendingWellSized(Run(h, g, ops))
            && StateLinks(Run(h, g, ops), RunLinks(h, g, ops))
    decreases |ops|
  {
    hide ChainInv, LinkInv, Perform, PendingTable, OpLinks;
    var g := GenesisState(h, time, validators);
    GenesisInvariant(h, time, validators);
    RunKeepsInvariant(h, g, ops, 0);
    InvariantWork(h, Run(h, g, ops));
    if ops == [] {
      GenesisExplained(h, time, validators);
    } else {
      var front := ops[..|ops| - 1];
      RunExplained(h, time, validators, front);
      RunKeepsInvariant(h, g, front, 0);
      OpKeepsLinks(h, Run(h, g, front), ops[|ops| - 1], RunLinks(h, g, front));
    }
  }

  lemma GenesisExplained(h: Hashes, time: U64, validators: seq<Validator>)
    ensures PendingWellSized(GenesisState(h, time, validators)) && StateLinks(GenesisState(h, time, validators), [])
  {
  }

  // ---------------------------------------------------------------- finality

  lemma {:induction false} FinalizedIsSource(links: seq<Link>)
    requires Finalized(links).Some?
    ensures exists i :: 0 <= i < |links| && Finalizes(links[i]) && links[i].vote.source == Finalized(links).value
  {
    hide Finalizes;
    var n := |links| - 1;
    if !Finalizes(links[n]) {
      FinalizedIsSource(links[..n]);
      var i :| 0 <= i < n && Finalizes(links[..n][i]) && links[..n][i].vote.source == Finalized(links[..n]).value;
      assert links[i] == links[..n][i];
    }
  }

  lemma {:induction false} LinksAccumulate(h: Hashes, s: State, ops: seq<Op>, i: nat)
    requires i <= |ops|
    ensures RunLinks(h, s, ops[..i]) <= RunLinks(h, s, ops)
    decreases |ops|
  {
    hide OpLinks;
    if i == |ops| {
      assert ops[..i] == ops;
    } else {
      assert ops[..|ops| - 1][..i] == ops[..i];
      LinksAccumulate(h, s, ops[..|ops| - 1], i);
    }
  }

  /** Whatever a run finalizes above slot 0, at any moment, was the source of an accepted
      vote of the run that justified a later slot, with nothing justifiable between the two
      under the finality of that vote's moment, which was not above the source. The target
      is in the history and stays justified. */
  lemma FinalizedHasLink(h: Hashes, time: U64, validators: seq<Validator>, ops: seq<Op>, i: nat) returns (l: Link)
    requires |validators| <= VALIDATOR_REGISTRY_LIMIT && i <= |ops|
    requires Run(h, GenesisState(h, time, validators), ops[..i]).finalized.slot > 0
    ensures var g := GenesisState(h, time, validators);
            var early, late := Run(h, g, ops[..i]), Run(h, g, ops);
            && l in RunLinks(h, g, ops) && l.vote.source == early.finalized
            && l.vote.source.slot < l.vote.target.slot && l.floor <= l.vote.source.slot
            && NothingBetween(l.vote.source.slot, l.vote.target.slot, l.floor)
            && l.vote.target.slot < |late.history| == |late.justifiedSlots|
            && late.history[l.vote.target.slot] == l.vote.target.root && late.justifiedSlots[l.vote.target.slot]
  {
    hide ChainInv, RunLinks, Run, PendingTable, LinkInv;
    var g := GenesisState(h, time, validators);
    RunExplained(h, time, validators, ops[..i]);
    RunExplained(h, time, validators, ops);
    LinksAccumulate(h, g, ops, i);
    var early, late := Run(h, g, ops[..i]), Run(h, g, ops);
    var k := LinkOfFinality(early.history, StartWork(early), RunLinks(h, g, ops[..i]));
    l := RunLinks(h, g, ops)[k];
    BitsAsLong(h, late);
    LinkStands(late.history, StartWork(late), RunLinks(h, g, ops), k);
  }

  lemma LinkOfFinality(history: seq<Root>, w: Work, links: seq<Link>) returns (k: nat)
    requires LinkInv(history, w, links) && w.finalized.slot > 0
    ensures k < |links| && Finalizes(links[k]) && links[k].vote.source == w.finalized
  {
    hide Finalizes, LinksSound, Targets;
    FinalizedIsSource(links);
    k :| 0 <= k < |links| && Finalizes(links[k]) && links[k].vote.source == Finalized(links).value;
  }

  lemma LinkStands(history: seq<Root>, w: Work, links: seq<Link>, k: nat)
    requires LinkInv(history, w, links) && |history| == |w.bits| && k < |links|
    ensures var l := links[k];
            && l in links && l.vote.source.slot < l.vote.target.slot < |history|
            && history[l.vote.target.slot] == l.vote.target.root && w.bits[l.vote.target.slot]
            && (Finalizes(l) ==> l.floor <= l.vote.source.slot)
  {
    hide Finalizes, FloorOf, Finalized, JustifiableAfter;
    assert LinkSound(history, links[..k], links[k]);
    assert Targets(links, links[k].vote.target.slot);
  }

  lemma BitsAsLong(h: Hashes, s: State)
    requires ChainInv(h, s)
    ensures |s.history| == |s.justifiedSlots|
  {
    hide WorkInv, PendingSorted, NamesSlot, ParentBelow;
  }

  // ---------------------------------------------------------------- an example

  /** Three validators and three past slots, the first two justified. */
  ghost function Trio(): State {
    GenesisState(SlotPlusFive(), 0, [Validator(0, 0), Validator(1, 1), Validator(2, 2)])
    .(slot := 3, header := BlockHeader(3, 0, 7, ZERO_ROOT, ZERO_ROOT), history := [5, 6, 7],
      justifiedSlots := [true, true, false], justified := Checkpoint(6, 1), finalized := Checkpoint(5, 0))
  }

  function TrioVote(v: U64, source: Checkpoint): Attestation {
    Attestation(v, AttestationData(2, Checkpoint(7, 2), Checkpoint(7, 2), source))
  }

  lemma TrioInvariant()
    ensures ChainInv(SlotPlusFive(), Trio())
    ensures StartWork(Trio()) == Work(map[], [true, true, false], Checkpoint(6, 1), Checkpoint(5, 0))
  {
    var h, s := SlotPlusFive(), Trio();
    assert PendingTable(s) == map[];
    assert h.header(BlockHeader(2, 0, 0, 0, 0)) == 7;
    forall k: nat | k < 3 ensures NamesSlot(h, s.history[k], k) {
      assert h.header(BlockHeader(k, 0, 0, 0, 0)) == s.history[k];
    }
  }

  /** The first vote only raises the row; the second completes it. */
  lemma TrioVotes(history: seq<Root>, w: Work)
    requires history == [5, 6, 7] && w == Work(map[], [true, true, false], Checkpoint(6, 1), Checkpoint(5, 0))
    ensures var a, b := TrioVote(0, Checkpoint(5, 0)), TrioVote(1, Checkpoint(6, 1));
            var x := ApplyVote(history, 3, w, a);
            && !Completes(history, 3, w, a) && x == w.(table := map[7 := [true, false, false]])
            && Completes(history, 3, x, b)
            && ApplyVote(history, 3, x, b) == Work(map[], [true, true, true], Checkpoint(7, 2), Checkpoint(6, 1))
  {
    Near();
    hide JustifiableAfter;
    var none: Table := map[];
    assert RaisedRow(none, 7, 0, 3) == [true, false, false];
    assert Supporters([true, false, false]) == {0};
    var t: Table := map[7 := [true, false, false]];
    assert RaisedRow(t, 7, 1, 3) == [true, true, false];
    assert Supporters([true, true, false]) == {0, 1};
    assert t - {7} == none;
  }

  /** On a state that satisfies the chain invariant, two of three validators vote for slot
      2, one from slot 0 and one from slot 1. The second vote completes the two thirds and
      finalizes slot 1, though no other validator voted from it. */
  lemma OneLinkFinalizes()
    ensures ChainInv(SlotPlusFive(), Trio())
    ensures var s, a, b := Trio(), TrioVote(0, Checkpoint(5, 0)), TrioVote(1, Checkpoint(6, 1));
            && ProcessAttestations(s, [a, b]).Done? && BatchLinks(s, [a, b]) == [Link(1, b.data, 0)]
            && s.finalized == Checkpoint(5, 0) && ProcessAttestations(s, [a, b]).after.finalized == Checkpoint(6, 1)
            && |s.validators| == 3 && a.data.source != b.data.source
  {
    hide ChainInv, PendingTable, ApplyVote, Completes;
    var history, w := [5, 6, 7], Work(map[], [true, true, false], Checkpoint(6, 1), Checkpoint(5, 0));
    var a, b := TrioVote(0, Checkpoint(5, 0)), TrioVote(1, Checkpoint(6, 1));
    TrioInvariant();
    TrioVotes(history, w);
    assert [a, b][..1] == [a] && [a][..0] == [];
    assert ApplyVotes(history, 3, w, [a]) == Ok(ApplyVote(history, 3, w, a));
    assert VoteLinks(history, 3, w, [a]) == [];
    assert ApplyVotes(history, 3, w, [a, b]) == Ok(ApplyVote(history, 3, ApplyVote(history, 3, w, a), b));
  }
}
