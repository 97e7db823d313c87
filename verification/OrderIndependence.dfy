/**
  When the order of a batch of votes matters. In-range votes that justify nothing, which
  can be told before the call, leave the identical state in every order. Votes that
  justify two or more slots end differently in some other order. Modules OneTarget and
  OrderMatters settle the case of exactly one.
 */
module OrderIndependence {
  import opened Containers
  import opened Collections
  import opened Justifiability
  import opened Tally
  import opened Transition
  import opened ChainInvariant

  /** The (validator, target root) marks a batch leaves when nothing is justified. */
  ghost function Marks(history: seq<Root>, w: Work, atts: seq<Attestation>): set<(nat, Root)> {
    set att | att in atts && Acceptable(history, w, att.data) :: (att.validatorId, att.data.target.root)
  }

  ghost predicate Marked(t0: Table, marks: set<(nat, Root)>, r: Root, j: nat) {
    (r in t0 && j < |t0[r]| && t0[r][j]) || (j, r) in marks
  }

  /** `t` is `t0` with exactly the marks raised. */
  ghost predicate Raised(t0: Table, t: Table, n: nat, marks: set<(nat, Root)>) {
    && (forall r :: r in t <==> r in t0 || exists v :: (v, r) in marks)
    && RowsOfLength(t, n)
    && (forall r, j :: r in t && 0 <= j < n ==> (t[r][j] <==> Marked(t0, marks, r, j)))
  }

  /** No marked row reaches a supermajority. */
  ghost predicate Quiet(t: Table, n: nat, marks: set<(nat, Root)>) {
    forall v, r :: (v, r) in marks ==> r in t && !Supermajority(t[r], n)
  }

  lemma MarksStep(history: seq<Root>, w: Work, front: seq<Attestation>, last: Attestation)
    ensures Marks(history, w, front + [last]) ==
            Marks(history, w, front) + Mark(history, w, last)
  {
  }

  lemma RaiseOne(t0: Table, t: Table, n: nat, marks: set<(nat, Root)>, r: Root, v: nat)
    requires Raised(t0, t, n, marks) && v < n
    ensures Raised(t0, t[r := RaisedRow(t, r, v, n)], n, marks + {(v, r)})
  {
    var t' := t[r := RaisedRow(t, r, v, n)];
    var marks' := marks + {(v, r)};
    forall q ensures q in t' <==> q in t0 || exists u :: (u, q) in marks' {
      if q == r { assert (v, q) in marks'; }
      if u :| (u, q) in marks { assert (u, q) in marks'; }
    }
    forall q, j | q in t' && 0 <= j < n ensures t'[q][j] <==> Marked(t0, marks', q, j) {
      if q == r && j != v {
        if r in t { assert t'[q][j] == t[q][j]; } else { assert !t'[q][j]; assert (j, q) !in marks; }
      }
    }
  }

  lemma RaisedUnique(t0: Table, a: Table, b: Table, n: nat, marks: set<(nat, Root)>)
    requires Raised(t0, a, n, marks) && Raised(t0, b, n, marks)
    ensures a == b
  {
    assert a.Keys == b.Keys;
    forall r | r in a ensures a[r] == b[r] {
      assert forall j :: 0 <= j < n ==> a[r][j] == b[r][j];
    }
  }

  lemma {:induction false} BitsOnlyGrow(history: seq<Root>, n: nat, w: Work, atts: seq<Attestation>)
    requires RowsOfLength(w.table, n) && ApplyVotes(history, n, w, atts).Ok?
    ensures forall k :: 0 <= k < |w.bits| && w.bits[k] ==> ApplyVotes(history, n, w, atts).value.bits[k]
    decreases |atts|
  {
    if atts != [] { BitsOnlyGrow(history, n, w, atts[..|atts| - 1]); }
  }

  /** A vote that justifies nothing changes only its mark. */
  lemma QuietVote(history: seq<Root>, n: nat, w: Work, att: Attestation)
    requires RowsOfLength(w.table, n) && att.validatorId < n && Acceptable(history, w, att.data)
    requires ApplyVote(history, n, w, att).bits == w.bits
    ensures var row := RaisedRow(w.table, att.data.target.root, att.validatorId, n);
            && !Supermajority(row, n)
            && ApplyVote(history, n, w, att) == w.(table := w.table[att.data.target.root := row])
  {
  }

  ghost function Mark(history: seq<Root>, w: Work, att: Attestation): set<(nat, Root)> {
    if Acceptable(history, w, att.data) then {(att.validatorId as nat, att.data.target.root)} else {}
  }

  /** The filter reads only the bits and the finalized slot. */
  lemma FilterFrame(history: seq<Root>, w: Work, u: Work, vote: AttestationData)
    requires u == w.(table := u.table)
    ensures Acceptable(history, u, vote) <==> Acceptable(history, w, vote)
  {
  }

  lemma QuietStep(history: seq<Root>, n: nat, w: Work, u: Work, att: Attestation, marks: set<(nat, Root)>)
    requires RowsOfLength(u.table, n) && att.validatorId < n
    requires u == w.(table := u.table) && Raised(w.table, u.table, n, marks) && Quiet(u.table, n, marks)
    requires ApplyVote(history, n, u, att).bits == w.bits
    ensures var x := ApplyVote(history, n, u, att);
            && x == w.(table := x.table)
            && Raised(w.table, x.table, n, marks + Mark(history, w, att))
            && Quiet(x.table, n, marks + Mark(history, w, att))
  {
    FilterFrame(history, w, u, att.data);
    if Acceptable(history, u, att.data) {
      QuietVote(history, n, u, att);
      RaiseOne(w.table, u.table, n, marks, att.data.target.root, att.validatorId);
    } else {
      assert marks + Mark(history, w, att) == marks;
    }
  }

  /** A batch that justifies nothing leaves exactly its marks, in quiet rows. */
  lemma {:induction false} QuietBatch(history: seq<Root>, n: nat, w: Work, atts: seq<Attestation>)
    requires RowsOfLength(w.table, n) && ApplyVotes(history, n, w, atts).Ok?
    requires ApplyVotes(history, n, w, atts).value.bits == w.bits
    ensures var u := ApplyVotes(history, n, w, atts).value;
            && u == w.(table := u.table)
            && Raised(w.table, u.table, n, Marks(history, w, atts))
            && Quiet(u.table, n, Marks(history, w, atts))
    ensures forall att :: att in atts ==> RangeError(history, |w.bits|, n, att).None?
    decreases |atts|
  {
    if atts != [] {
      var front, last := atts[..|atts| - 1], atts[|atts| - 1];
      assert atts == front + [last];
      ValidatorInRange(history, |w.bits|, n, last);
      BitsOnlyGrow(history, n, w, front);
      var u := ApplyVotes(history, n, w, front).value;
      VoteOnlySetsBits(history, n, u, last);
      assert u.bits == w.bits;
      hide Raised, Quiet, ApplyVote, Marks, Mark, RangeError;
      QuietBatch(history, n, w, front);
      MarksStep(history, w, front, last);
      QuietStep(history, n, w, u, last, Marks(history, w, front));
    }
  }

  lemma ValidatorInRange(history: seq<Root>, justLen: nat, n: nat, att: Attestation)
    requires RangeError(history, justLen, n, att).None?
    ensures att.validatorId < n
  {
  }

  lemma VoteOnlySetsBits(history: seq<Root>, n: nat, w: Work, att: Attestation)
    requires RowsOfLength(w.table, n) && att.validatorId < n
    ensures forall k :: 0 <= k < |w.bits| && w.bits[k] ==> ApplyVote(history, n, w, att).bits[k]
  {
  }

  lemma InsideStep(
      history: seq<Root>, n: nat, w: Work, u: Work, att: Attestation, few: set<(nat, Root)>,
      full: Table, marks: set<(nat, Root)>)
    requires RowsOfLength(u.table, n) && att.validatorId < n
    requires u == w.(table := u.table) && Raised(w.table, u.table, n, few)
    requires Raised(w.table, full, n, marks) && Quiet(full, n, marks)
    requires few + Mark(history, w, att) <= marks
    ensures var x := ApplyVote(history, n, u, att);
            x == w.(table := x.table) && Raised(w.table, x.table, n, few + Mark(history, w, att))
  {
    FilterFrame(history, w, u, att.data);
    if Acceptable(history, u, att.data) {
      var r, v := att.data.target.root, att.validatorId as nat;
      RaiseOne(w.table, u.table, n, few, r, v);
      assert (v, r) in marks;
      RowInside(w.table, u.table[r := RaisedRow(u.table, r, v, n)], full, n, few + {(v, r)}, marks, r);
    } else {
      assert few + Mark(history, w, att) == few;
    }
  }

  /** Marks that fit inside a quiet table justify nothing on the way. */
  lemma {:induction false} BatchInsideQuietTable(
      history: seq<Root>, n: nat, w: Work, atts: seq<Attestation>, full: Table, marks: set<(nat, Root)>)
    requires RowsOfLength(w.table, n) && Raised(w.table, full, n, marks) && Quiet(full, n, marks)
    requires Marks(history, w, atts) <= marks
    requires forall att :: att in atts ==> RangeError(history, |w.bits|, n, att).None?
    ensures ApplyVotes(history, n, w, atts).Ok?
    ensures var u := ApplyVotes(history, n, w, atts).value;
            u == w.(table := u.table) && Raised(w.table, u.table, n, Marks(history, w, atts))
    decreases |atts|
  {
    if atts != [] {
      var front, last := atts[..|atts| - 1], atts[|atts| - 1];
      assert atts == front + [last];
      ValidatorInRange(history, |w.bits|, n, last);
      hide Raised, Quiet, ApplyVote, Marks, Mark, RangeError;
      MarksStep(history, w, front, last);
      BatchInsideQuietTable(history, n, w, front, full, marks);
      var u := ApplyVotes(history, n, w, front).value;
      InsideStep(history, n, w, u, last, Marks(history, w, front), full, marks);
    }
  }

  /** More marks in a row only means more supporters. */
  lemma RowInside(t0: Table, a: Table, b: Table, n: nat, few: set<(nat, Root)>, many: set<(nat, Root)>, r: Root)
    requires Raised(t0, a, n, few) && Raised(t0, b, n, many) && few <= many
    requires r in a && r in b && !Supermajority(b[r], n)
    ensures !Supermajority(a[r], n)
  {
    forall j | j in Supporters(a[r]) ensures j in Supporters(b[r]) {
      assert Marked(t0, few, r, j);
      assert Marked(t0, many, r, j);
    }
    SubsetSize(Supporters(a[r]), Supporters(b[r]));
  }

  // ---------------------------------------------------------------- before the call

  /** The table with the marks raised. */
  ghost function RaisedTable(t0: Table, n: nat, marks: set<(nat, Root)>): (t: Table)
    requires RowsOfLength(t0, n)
    ensures Raised(t0, t, n, marks)
  {
    map r | r in t0.Keys + MarkedRoots(marks) :: seq(n, j requires 0 <= j < n => Marked(t0, marks, r, j))
  }

  ghost function MarkedRoots(marks: set<(nat, Root)>): (roots: set<Root>)
    ensures forall r :: r in roots <==> exists v :: (v, r) in marks
  {
    set m | m in marks :: m.1
  }

  /** No row of the stored table, with the batch's votes raised in it, has two thirds. */
  ghost predicate StaysQuiet(s: State, atts: seq<Attestation>)
    requires PendingWellSized(s)
  {
    var n, marks := |s.validators|, Marks(s.history, StartWork(s), atts);
    Quiet(RaisedTable(PendingTable(s), n, marks), n, marks)
  }

  /** A batch with a vote out of range fails without effect in every order. */
  lemma OutOfRangeInEveryOrder(s: State, a: seq<Attestation>, b: seq<Attestation>)
    requires multiset(a) == multiset(b) && !AllInRange(s, a)
    ensures ProcessAttestations(s, b).Failed? && ProcessAttestations(s, b).after == s
  {
    var att :| att in a && RangeError(s.history, |s.justifiedSlots|, |s.validators|, att).Some?;
    assert att in multiset(b);
    if PendingWellSized(s) { RangeDecidesSuccess(s.history, |s.validators|, StartWork(s), b); }
  }

  /** In-range votes justify nothing exactly when no raised row has two thirds. */
  lemma JustifiesNothingIff(s: State, atts: seq<Attestation>)
    requires PendingWellSized(s) && AllInRange(s, atts)
    ensures ProcessAttestations(s, atts).after.justifiedSlots == s.justifiedSlots <==> StaysQuiet(s, atts)
  {
    var n, w := |s.validators|, StartWork(s);
    var marks := Marks(s.history, w, atts);
    RangeDecidesSuccess(s.history, n, w, atts);
    hide Raised, Quiet, Marks, ApplyVotes, RangeError;
    var full := RaisedTable(w.table, n, marks);
    if StaysQuiet(s, atts) { BatchInsideQuietTable(s.history, n, w, atts, full, marks); }
    var u := ApplyVotes(s.history, n, w, atts).value;
    if u.bits == w.bits {
      QuietBatch(s.history, n, w, atts);
      RaisedUnique(w.table, u.table, full, n, marks);
    }
  }

  /** In-range votes that justify nothing leave the identical state in every order. */
  lemma PermutationInvariant(s: State, a: seq<Attestation>, b: seq<Attestation>)
    requires multiset(a) == multiset(b)
    requires PendingWellSized(s) && AllInRange(s, a) && StaysQuiet(s, a)
    ensures ProcessAttestations(s, b) == ProcessAttestations(s, a)
  {
    hide Raised, Quiet, ApplyVotes, RangeError, ProcessAttestations, PendingTable;
    var n, w := |s.validators|, StartWork(s);
    forall att | att in b ensures att in a { assert att in multiset(b); }
    forall att | att in a ensures att in b { assert att in multiset(a); }
    var marks := Marks(s.history, w, a);
    assert marks == Marks(s.history, w, b);
    var full := RaisedTable(w.table, n, marks);
    BatchInsideQuietTable(s.history, n, w, a, full, marks);
    BatchInsideQuietTable(s.history, n, w, b, full, marks);
    RaisedUnique(w.table, ApplyVotes(s.history, n, w, a).value.table,
                 ApplyVotes(s.history, n, w, b).value.table, n, marks);
    SameWorkSameOutcome(s, a, b);
  }

  lemma SameWorkSameOutcome(s: State, a: seq<Attestation>, b: seq<Attestation>)
    requires PendingWellSized(s)
    requires ApplyVotes(s.history, |s.validators|, StartWork(s), a) ==
             ApplyVotes(s.history, |s.validators|, StartWork(s), b)
    ensures ProcessAttestations(s, a) == ProcessAttestations(s, b)
  {
    hide ApplyVotes, PendingTable;
  }

  /** The row of `r` has two thirds once the marks are raised. */
  ghost predicate Crossed(t0: Table, n: nat, marks: set<(nat, Root)>, r: Root)
    requires RowsOfLength(t0, n)
  {
    var t := RaisedTable(t0, n, marks);
    r in t && Supermajority(t[r], n)
  }

  lemma RaisedTableStep(t0: Table, n: nat, marks: set<(nat, Root)>, r: Root, v: nat)
    requires RowsOfLength(t0, n) && v < n
    ensures var t := RaisedTable(t0, n, marks);
            RaisedTable(t0, n, marks + {(v, r)}) == t[r := RaisedRow(t, r, v, n)]
  {
    hide Raised, RaisedRow;
    var t := RaisedTable(t0, n, marks);
    RaiseOne(t0, t, n, marks, r, v);
    RaisedUnique(t0, t[r := RaisedRow(t, r, v, n)], RaisedTable(t0, n, marks + {(v, r)}), n, marks + {(v, r)});
  }

  lemma CrossedGrows(t0: Table, n: nat, few: set<(nat, Root)>, many: set<(nat, Root)>, r: Root)
    requires RowsOfLength(t0, n) && few <= many && Crossed(t0, n, few, r)
    ensures Crossed(t0, n, many, r)
  {
    var a, b := RaisedTable(t0, n, few), RaisedTable(t0, n, many);
    if v :| (v, r) in few { assert (v, r) in many; }
    assert r in b;
    if !Supermajority(b[r], n) { RowInside(t0, a, b, n, few, many, r); }
  }

  // ---------------------------------------------------------------- two or more targets

  ghost predicate NewlySet(a: seq<bool>, b: seq<bool>, k: nat) {
    k < |a| && k < |b| && !a[k] && b[k]
  }

  ghost predicate Aimed(atts: seq<Attestation>, k: nat) {
    exists att :: att in atts && att.data.target.slot == k
  }

  /** Only votes aimed at a slot justify it, and the justified checkpoint is the slot
      justified last. */
  lemma {:induction false} LastJustified(history: seq<Root>, n: nat, w: Work, atts: seq<Attestation>)
    requires RowsOfLength(w.table, n) && ApplyVotes(history, n, w, atts).Ok?
    ensures var u := ApplyVotes(history, n, w, atts).value;
            && (forall k: nat :: NewlySet(w.bits, u.bits, k) ==> Aimed(atts, k))
            && (u.bits == w.bits ==> u.justified == w.justified && u.finalized == w.finalized)
            && (u.bits != w.bits ==> NewlySet(w.bits, u.bits, u.justified.slot))
    decreases |atts|
  {
    if atts != [] {
      var front, last := atts[..|atts| - 1], atts[|atts| - 1];
      assert atts == front + [last];
      LastJustified(history, n, w, front);
      BitsOnlyGrow(history, n, w, front);
      BitsOnlyGrow(history, n, w, atts);
      var v, u := ApplyVotes(history, n, w, front).value, ApplyVotes(history, n, w, atts).value;
      VoteSetsItsTarget(history, n, v, last);
      assert last in atts;
      forall k: nat | NewlySet(w.bits, u.bits, k) ensures Aimed(atts, k) {
        if v.bits[k] {
          assert NewlySet(w.bits, v.bits, k);
          var att :| att in front && att.data.target.slot == k;
          assert att in atts;
        }
      }
    }
  }

  lemma VoteSetsItsTarget(history: seq<Root>, n: nat, w: Work, att: Attestation)
    requires RowsOfLength(w.table, n) && att.validatorId < n
    ensures var x := ApplyVote(history, n, w, att);
            || (x.bits == w.bits && x.justified == w.justified && x.finalized == w.finalized)
            || (NewlySet(w.bits, x.bits, att.data.target.slot) && x.bits == w.bits[att.data.target.slot := true]
                && x.justified == att.data.target)
  {
  }

  /** The votes that satisfy `p`, in order. */
  ghost function Pick(atts: seq<Attestation>, p: Attestation -> bool): (r: seq<Attestation>)
    ensures forall att :: att in r <==> att in atts && p(att)
  {
    if atts == [] then [] else
    var last := atts[|atts| - 1];
    Pick(atts[..|atts| - 1], p) + if p(last) then [last] else []
  }

  lemma {:induction false} PickSplits(atts: seq<Attestation>, p: Attestation -> bool, q: Attestation -> bool)
    requires forall att :: q(att) <==> !p(att)
    ensures multiset(Pick(atts, p)) + multiset(Pick(atts, q)) == multiset(atts)
  {
    if atts != [] {
      assert atts == atts[..|atts| - 1] + [atts[|atts| - 1]];
      PickSplits(atts[..|atts| - 1], p, q);
    }
  }

  /** The votes of `atts` that are, or are not, aimed at slot `k`. */
  ghost function Votes(atts: seq<Attestation>, k: nat, aimed: bool): (r: seq<Attestation>)
    ensures forall att :: att in r <==> att in atts && ((att.data.target.slot == k) == aimed)
  {
    Pick(atts, (att: Attestation) => (att.data.target.slot == k) == aimed)
  }

  lemma SplitIsPermutation(atts: seq<Attestation>, k: nat)
    ensures multiset(Votes(atts, k, true) + Votes(atts, k, false)) == multiset(atts)
    ensures multiset(Votes(atts, k, false) + Votes(atts, k, true)) == multiset(atts)
  {
    hide Pick;
    PickSplits(atts, (att: Attestation) => (att.data.target.slot == k) == true,
               (att: Attestation) => (att.data.target.slot == k) == false);
  }

  lemma {:induction false} VotesInTwoParts(history: seq<Root>, n: nat, w: Work, a: seq<Attestation>, b: seq<Attestation>)
    requires RowsOfLength(w.table, n) && ApplyVotes(history, n, w, a + b).Ok?
    ensures ApplyVotes(history, n, w, a).Ok?
    ensures ApplyVotes(history, n, w, a + b) == ApplyVotes(history, n, ApplyVotes(history, n, w, a).value, b)
    decreases |b|
  {
    if b == [] {
      assert a + b == a;
    } else {
      var front, last := b[..|b| - 1], b[|b| - 1];
      assert (a + b)[..|a + b| - 1] == a + front && (a + b)[|a + b| - 1] == last;
      VotesInTwoParts(history, n, w, a, front);
    }
  }

  /** Putting the votes for the slot justified last in front leaves another outcome. */
  lemma FrontedVotesDiffer(history: seq<Root>, n: nat, w: Work, atts: seq<Attestation>, other: nat)
    requires RowsOfLength(w.table, n) && ApplyVotes(history, n, w, atts).Ok?
    requires var u := ApplyVotes(history, n, w, atts).value;
             NewlySet(w.bits, u.bits, other) && other != u.justified.slot
    ensures var u := ApplyVotes(history, n, w, atts).value;
            var t := u.justified.slot;
            var r := ApplyVotes(history, n, w, Votes(atts, t, true) + Votes(atts, t, false));
            r.Ok? && (r.value.bits != u.bits || r.value.justified != u.justified)
  {
    var u := ApplyVotes(history, n, w, atts).value;
    var t := u.justified.slot;
    var front, back := Votes(atts, t, true), Votes(atts, t, false);
    RangeDecidesSuccess(history, n, w, atts);
    RangeDecidesSuccess(history, n, w, front + back);
    VotesInTwoParts(history, n, w, front, back);
    var v := ApplyVotes(history, n, w, front).value;
    hide ApplyVotes, RangeError;
    LastJustified(history, n, w, front);
    LastJustified(history, n, v, back);
    assert !NewlySet(w.bits, v.bits, other);
  }

  /** A batch that justifies two or more slots ends differently in some other order. */
  lemma TwoTargetsShowOrder(s: State, a: seq<Attestation>, j: nat, k: nat) returns (b: seq<Attestation>)
    requires PendingWellSized(s) && AllInRange(s, a) && j != k
    requires var t := ProcessAttestations(s, a).after;
             NewlySet(s.justifiedSlots, t.justifiedSlots, j) && NewlySet(s.justifiedSlots, t.justifiedSlots, k)
    ensures multiset(b) == multiset(a)
    ensures var x, y := ProcessAttestations(s, a).after, ProcessAttestations(s, b).after;
            x.justified != y.justified || x.justifiedSlots != y.justifiedSlots
  {
    var n, w := |s.validators|, StartWork(s);
    RangeDecidesSuccess(s.history, n, w, a);
    var t := ApplyVotes(s.history, n, w, a).value.justified.slot;
    b := Votes(a, t, true) + Votes(a, t, false);
    SplitIsPermutation(a, t);
    FrontedVotesDiffer(s.history, n, w, a, if j == t then k else j);
  }

  // ---------------------------------------------------------------- an example

  ghost function SlotPlusFive(): Hashes {
    Hashes((hd: BlockHeader) => hd.slot + 5, (body: seq<Attestation>) => 1, (s: State) => 1)
  }

  /** One validator and three past slots, the first justified. */
  ghost function ThreeSlots(): State {
    GenesisState(SlotPlusFive(), 0, [Validator(0, 0)])
    .(slot := 3, header := BlockHeader(3, 0, 7, ZERO_ROOT, ZERO_ROOT), history := [5, 6, 7],
      justifiedSlots := [true, false, false], justified := Checkpoint(5, 0), finalized := Checkpoint(5, 0))
  }

  function VoteFor(slot: Slot, root: Root): Attestation {
    Attestation(0, AttestationData(slot, Checkpoint(root, slot), Checkpoint(root, slot), Checkpoint(5, 0)))
  }

  lemma ThreeSlotsInvariant()
    ensures ChainInv(SlotPlusFive(), ThreeSlots())
    ensures StartWork(ThreeSlots()) == Work(map[], [true, false, false], Checkpoint(5, 0), Checkpoint(5, 0))
  {
    var h, s := SlotPlusFive(), ThreeSlots();
    assert PendingTable(s) == map[];
    assert h.header(BlockHeader(2, 0, 0, 0, 0)) == 7;
    forall k: nat | k < 3 ensures NamesSlot(h, s.history[k], k) {
      assert h.header(BlockHeader(k, 0, 0, 0, 0)) == s.history[k];
    }
  }

  /** With one validator an accepted vote justifies its target at once. */
  lemma LoneVote(history: seq<Root>, w: Work, att: Attestation)
    requires w.table == map[] && att.validatorId == 0 && Acceptable(history, w, att.data)
    ensures var x := ApplyVote(history, 1, w, att);
            && x.table == map[] && x.bits == w.bits[att.data.target.slot := true] && x.justified == att.data.target
            && x.finalized in {att.data.source, w.finalized}
  {
    var row := RaisedRow(w.table, att.data.target.root, 0, 1);
    assert row == [true];
    assert Supporters(row) == {0};
  }

  lemma Near()
    ensures JustifiableAfter(1, 0) && JustifiableAfter(2, 0)
  {
  }

  lemma TwoVotes(history: seq<Root>, w: Work, a: Attestation, b: Attestation)
    requires w.table == map[]
    requires RangeError(history, |w.bits|, 1, a).None? && RangeError(history, |w.bits|, 1, b).None?
    ensures ApplyVotes(history, 1, w, [a, b]) == Ok(ApplyVote(history, 1, ApplyVote(history, 1, w, a), b))
  {
    hide ApplyVote;
    assert [a, b][..1] == [a] && [a][..0] == [];
    assert ApplyVotes(history, 1, w, [a]) == Ok(ApplyVote(history, 1, w, a));
  }

  /** On a state that satisfies the chain invariant, two votes of one validator from slot
      0, for slots 1 and 2, end on the target that came last. */
  lemma OrderShows()
    ensures ChainInv(SlotPlusFive(), ThreeSlots())
    ensures var s, a, b := ThreeSlots(), VoteFor(1, 6), VoteFor(2, 7);
            && ProcessAttestations(s, [a, b]).Done? && ProcessAttestations(s, [b, a]).Done?
            && ProcessAttestations(s, [a, b]).after.justified == Checkpoint(7, 2)
            && ProcessAttestations(s, [b, a]).after.justified == Checkpoint(6, 1)
  {
    hide ApplyVote, JustifiableAfter, ChainInv, PendingTable;
    var history, w := [5, 6, 7], Work(map[], [true, false, false], Checkpoint(5, 0), Checkpoint(5, 0));
    var a, b := VoteFor(1, 6), VoteFor(2, 7);
    ThreeSlotsInvariant();
    Near();
    LoneVote(history, w, a);
    LoneVote(history, w, b);
    LoneVote(history, ApplyVote(history, 1, w, a), b);
    LoneVote(history, ApplyVote(history, 1, w, b), a);
    TwoVotes(history, w, a, b);
    TwoVotes(history, w, b, a);
  }
}
