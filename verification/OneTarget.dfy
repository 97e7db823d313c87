/**
  Batches of votes that justify exactly one slot. Such a batch leaves the same state in
  every order if the votes that could complete the two thirds agree on what they finalize,
  and every vote whose acceptance depends on whether the slot is justified yet only repeats
  a mark that is there in any case. Module OrderMatters shows that nothing less will do.
 */
module OneTarget {
  import opened Containers
  import opened Tally
  import opened Transition
  import opened OrderIndependence

  /** Where the question arises: no stored row has two thirds yet. */
  ghost predicate Open(history: seq<Root>, n: nat, w: Work, t: Slot) {
    && RowsOfLength(w.table, n) && n > 0 && t < |history| && t < |w.bits|
    && (forall r :: r in w.table ==> !Supermajority(w.table[r], n))
  }

  /** The checkpoint a vote for `t` finalizes when it completes the two thirds. */
  ghost function Finality(w: Work, t: Slot, vote: AttestationData): Checkpoint {
    if NothingBetween(vote.source.slot, t, w.finalized.slot) then vote.source else w.finalized
  }

  /** The working copies, their table aside, once `t` is justified and `f` finalized. */
  ghost function Later(history: seq<Root>, w: Work, t: Slot, f: Checkpoint): Work
    requires t < |history| && t < |w.bits|
  {
    w.(bits := w.bits[t := true], justified := Checkpoint(history[t], t), finalized := f)
  }

  ghost predicate Before(history: seq<Root>, w: Work, att: Attestation) {
    Acceptable(history, w, att.data)
  }

  ghost predicate Afterwards(history: seq<Root>, w: Work, t: Slot, f: Checkpoint, att: Attestation)
    requires t < |history| && t < |w.bits|
  {
    Acceptable(history, Later(history, w, t, f), att.data)
  }

  function MarkOf(att: Attestation): (nat, Root) {
    (att.validatorId, att.data.target.root)
  }

  /** The marks of accepted votes for `t`. */
  ghost function AimedMarks(history: seq<Root>, w: Work, atts: seq<Attestation>, t: Slot): set<(nat, Root)> {
    set att | att in atts && att.data.target.slot == t && Before(history, w, att) :: MarkOf(att)
  }

  /** The marks of votes for other roots that are accepted at either time. */
  ghost function BothMarks(history: seq<Root>, w: Work, atts: seq<Attestation>, t: Slot, f: Checkpoint)
    : set<(nat, Root)>
    requires t < |history| && t < |w.bits|
  {
    set att | att in atts && Elsewhere(history, t, att) && Before(history, w, att) && Afterwards(history, w, t, f, att)
      :: MarkOf(att)
  }

  /** A vote for another slot with another root. */
  ghost predicate Elsewhere(history: seq<Root>, t: Slot, att: Attestation)
    requires t < |history|
  {
    att.data.target.slot != t && att.data.target.root != history[t]
  }

  /** A vote for another slot with the root of `t`. Only empty slots, which all have the
      zero root, share one. */
  ghost predicate Shares(history: seq<Root>, t: Slot, att: Attestation)
    requires t < |history|
  {
    att.data.target.slot != t && att.data.target.root == history[t]
  }

  /** A vote for another root that is accepted at some time. */
  ghost predicate Touches(history: seq<Root>, w: Work, t: Slot, f: Checkpoint, att: Attestation)
    requires t < |history| && t < |w.bits|
  {
    Elsewhere(history, t, att) && (Before(history, w, att) || Afterwards(history, w, t, f, att))
  }

  /** A vote for `t` that could be the one to complete the two thirds. */
  ghost predicate Decides(history: seq<Root>, w: Work, t: Slot, att: Attestation)
    requires t < |history|
  {
    att.data.target.slot == t && Before(history, w, att) && !Marked(w.table, {}, history[t], att.validatorId)
  }

  /** A vote that shares the row of `t` changes nothing: it is refused once `t` is
      justified, and until then only repeats a stored mark. */
  ghost predicate Idle(history: seq<Root>, w: Work, t: Slot, f: Checkpoint, att: Attestation)
    requires t < |history| && t < |w.bits|
  {
    && !Afterwards(history, w, t, f, att)
    && (Before(history, w, att) ==> Marked(w.table, {}, history[t], att.validatorId))
  }

  /** The condition, told before the call: the votes for `t` reach two thirds, those that
      could complete them agree on finality, a vote for another root leaves no trace of
      when it came and justifies nothing, and a vote that shares the root of `t` is idle. */
  ghost predicate OnlyTarget(history: seq<Root>, n: nat, w: Work, atts: seq<Attestation>, t: Slot, f: Checkpoint)
    requires Open(history, n, w, t)
  {
    var both := BothMarks(history, w, atts, t, f);
    && Crossed(w.table, n, AimedMarks(history, w, atts, t), history[t])
    && (forall att :: att in atts && Decides(history, w, t, att) ==> f == Finality(w, t, att.data))
    && (forall att :: att in atts && Touches(history, w, t, f, att) ==>
          && Marked(w.table, both, att.data.target.root, att.validatorId)
          && !Crossed(w.table, n, both, att.data.target.root))
    && (forall att :: att in atts && Shares(history, t, att) ==> Idle(history, w, t, f, att))
  }

  // ---------------------------------------------------------------- rows

  /** A raised row depends on the marks of its own root only. */
  lemma OwnMarksOnly(t0: Table, n: nat, a: set<(nat, Root)>, b: set<(nat, Root)>, r: Root)
    requires RowsOfLength(t0, n) && forall v :: (v, r) in a <==> (v, r) in b
    ensures r in RaisedTable(t0, n, a) <==> r in RaisedTable(t0, n, b)
    ensures r in RaisedTable(t0, n, a) ==> RaisedTable(t0, n, a)[r] == RaisedTable(t0, n, b)[r]
    ensures Crossed(t0, n, a, r) <==> Crossed(t0, n, b, r)
  {
    var x, y := RaisedTable(t0, n, a), RaisedTable(t0, n, b);
    if r in x {
      assert forall j :: 0 <= j < n ==> x[r][j] == y[r][j];
      assert x[r] == y[r];
    }
  }

  /** Dropping one root's row, the marks of that root do not matter. */
  lemma OtherRowsAgree(t0: Table, n: nat, a: set<(nat, Root)>, b: set<(nat, Root)>, root: Root)
    requires RowsOfLength(t0, n) && forall v, r :: r != root ==> ((v, r) in a <==> (v, r) in b)
    ensures RaisedTable(t0, n, a) - {root} == RaisedTable(t0, n, b) - {root}
  {
    hide Raised, RaisedTable;
    forall r | r != root
      ensures r in RaisedTable(t0, n, a) <==> r in RaisedTable(t0, n, b)
      ensures r in RaisedTable(t0, n, a) ==> RaisedTable(t0, n, a)[r] == RaisedTable(t0, n, b)[r]
    {
      OwnMarksOnly(t0, n, a, b, r);
    }
  }

  /** Marks that are raised anyway add nothing. */
  lemma CoveredMarks(t0: Table, n: nat, a: set<(nat, Root)>, b: set<(nat, Root)>)
    requires RowsOfLength(t0, n) && b <= a && forall v, r :: (v, r) in a ==> Marked(t0, b, r, v)
    ensures RaisedTable(t0, n, a) == RaisedTable(t0, n, b)
  {
    var x := RaisedTable(t0, n, a);
    assert Raised(t0, x, n, b) by {
      forall r ensures r in x <==> r in t0 || exists v :: (v, r) in b {
        if v :| (v, r) in b { assert (v, r) in a; }
        if v :| (v, r) in a { assert Marked(t0, b, r, v); }
      }
      forall r, j | r in x && 0 <= j < n ensures x[r][j] <==> Marked(t0, b, r, j) {
        assert (j, r) in a ==> Marked(t0, b, r, j);
      }
    }
    RaisedUnique(t0, x, RaisedTable(t0, n, b), n, b);
  }

  // ---------------------------------------------------------------- every order

  /** The working copies after accepted votes for `t` with marks `aimed` and accepted votes
      for other slots with marks `others`. */
  ghost function Expected(
      history: seq<Root>, n: nat, w: Work, aimed: set<(nat, Root)>, others: set<(nat, Root)>,
      t: Slot, f: Checkpoint): Work
    requires Open(history, n, w, t)
  {
    if Crossed(w.table, n, aimed, history[t])
    then Later(history, w, t, f).(table := RaisedTable(w.table, n, others) - {history[t]})
    else w.(table := RaisedTable(w.table, n, others + aimed))
  }

  ghost predicate RootIs(marks: set<(nat, Root)>, root: Root) {
    forall v, r :: (v, r) in marks ==> r == root
  }

  ghost predicate RootIsNot(marks: set<(nat, Root)>, root: Root) {
    forall v :: (v, root) !in marks
  }

  /** A mark that is already there does not cross. */
  lemma OldMarkDoesNotCross(t0: Table, n: nat, aimed: set<(nat, Root)>, v: nat, root: Root)
    requires RowsOfLength(t0, n) && Marked(t0, {}, root, v) && !Crossed(t0, n, aimed, root)
    ensures !Crossed(t0, n, aimed + {(v, root)}, root)
  {
    var a := aimed + {(v, root)};
    forall u, r | (u, r) in a ensures Marked(t0, aimed, r, u) { assert (u, r) in aimed || (u == v && r == root); }
    CoveredMarks(t0, n, a, aimed);
  }

  /** A vote for `t` raises its row, or justifies `t`, or comes too late. */
  lemma AimedStep(
      history: seq<Root>, n: nat, w: Work, aimed: set<(nat, Root)>, others: set<(nat, Root)>,
      t: Slot, f: Checkpoint, att: Attestation)
    requires Open(history, n, w, t) && att.validatorId < n && att.data.target.slot == t
    requires RootIs(aimed, history[t]) && RootIsNot(others, history[t])
    requires Decides(history, w, t, att) ==> f == Finality(w, t, att.data)
    ensures var aimed' := if Before(history, w, att) then aimed + {MarkOf(att)} else aimed;
            ApplyVote(history, n, Expected(history, n, w, aimed, others, t, f), att) ==
            Expected(history, n, w, aimed', others, t, f)
  {
    var u, root, v := Expected(history, n, w, aimed, others, t, f), history[t], att.validatorId as nat;
    if Before(history, w, att) {
      assert MarkOf(att) == (v, root);
      var aimed' := aimed + {(v, root)};
      assert Acceptable(history, u, att.data) <==> !Crossed(w.table, n, aimed, root);
      hide Acceptable, NothingBetween, Raised, RaisedTable, Marked;
      if Crossed(w.table, n, aimed, root) {
        CrossedGrows(w.table, n, aimed, aimed', root);
      } else {
        RaisedTableStep(w.table, n, others + aimed, root, v);
        assert others + aimed + {(v, root)} == others + aimed';
        OwnMarksOnly(w.table, n, others + aimed', aimed', root);
        OtherRowsAgree(w.table, n, others + aimed, others, root);
        if Crossed(w.table, n, aimed', root) && Marked(w.table, {}, root, v) {
          OldMarkDoesNotCross(w.table, n, aimed, v, root);
        }
      }
    } else {
      assert !Acceptable(history, u, att.data);
    }
  }

  lemma AcceptedRoot(history: seq<Root>, w: Work, vote: AttestationData)
    requires Acceptable(history, w, vote)
    ensures vote.target.slot < |history| && vote.target.root == history[vote.target.slot]
  {
  }

  /** A vote for another root, while `t` is not justified. */
  lemma OtherBefore(
      history: seq<Root>, n: nat, w: Work, aimed: set<(nat, Root)>, others: set<(nat, Root)>,
      t: Slot, f: Checkpoint, att: Attestation)
    requires Open(history, n, w, t) && att.validatorId < n && Elsewhere(history, t, att)
    requires RootIs(aimed, history[t]) && RootIsNot(others, history[t]) && !Crossed(w.table, n, aimed, history[t])
    requires Before(history, w, att) ==> !Crossed(w.table, n, others + {MarkOf(att)}, att.data.target.root)
    ensures var others' := if Before(history, w, att) then others + {MarkOf(att)} else others;
            && ApplyVote(history, n, Expected(history, n, w, aimed, others, t, f), att) ==
               Expected(history, n, w, aimed, others', t, f)
            && RootIsNot(others', history[t])
  {
    hide Acceptable, NothingBetween, Raised, RaisedTable, Marked;
    var u := Expected(history, n, w, aimed, others, t, f);
    FilterFrame(history, w, u, att.data);
    if Before(history, w, att) {
      var r, v := att.data.target.root, att.validatorId as nat;
      var others' := others + {(v, r)};
      RaisedTableStep(w.table, n, others + aimed, r, v);
      assert others + aimed + {(v, r)} == others' + aimed;
      OwnMarksOnly(w.table, n, others' + aimed, others', r);
    }
  }

  /** A vote for another root, once `t` is justified. */
  lemma OtherAfter(
      history: seq<Root>, n: nat, w: Work, aimed: set<(nat, Root)>, others: set<(nat, Root)>,
      t: Slot, f: Checkpoint, att: Attestation)
    requires Open(history, n, w, t) && att.validatorId < n && Elsewhere(history, t, att)
    requires RootIs(aimed, history[t]) && RootIsNot(others, history[t]) && Crossed(w.table, n, aimed, history[t])
    requires Afterwards(history, w, t, f, att) ==> !Crossed(w.table, n, others + {MarkOf(att)}, att.data.target.root)
    ensures var others' := if Afterwards(history, w, t, f, att) then others + {MarkOf(att)} else others;
            && ApplyVote(history, n, Expected(history, n, w, aimed, others, t, f), att) ==
               Expected(history, n, w, aimed, others', t, f)
            && RootIsNot(others', history[t])
  {
    hide Acceptable, NothingBetween, RaisedTable, Marked;
    var u, root := Expected(history, n, w, aimed, others, t, f), history[t];
    FilterFrame(history, Later(history, w, t, f), u, att.data);
    if Afterwards(history, w, t, f, att) {
      var r, v := att.data.target.root, att.validatorId as nat;
      RaisedTableStep(w.table, n, others, r, v);
      var table := RaisedTable(w.table, n, others);
      assert RaisedRow(u.table, r, v, n) == RaisedRow(table, r, v, n);
      assert table[r := RaisedRow(table, r, v, n)] - {root} == (table - {root})[r := RaisedRow(table, r, v, n)];
    }
  }

  /** An idle vote leaves the working copies as they are. */
  lemma IdleStep(
      history: seq<Root>, n: nat, w: Work, aimed: set<(nat, Root)>, others: set<(nat, Root)>,
      t: Slot, f: Checkpoint, att: Attestation)
    requires Open(history, n, w, t) && att.validatorId < n && Shares(history, t, att) && Idle(history, w, t, f, att)
    requires RootIs(aimed, history[t]) && RootIsNot(others, history[t])
    ensures var u := Expected(history, n, w, aimed, others, t, f); ApplyVote(history, n, u, att) == u
  {
    hide Acceptable, NothingBetween, Raised, RaisedTable;
    var u, root, v := Expected(history, n, w, aimed, others, t, f), history[t], att.validatorId as nat;
    if Crossed(w.table, n, aimed, root) {
      FilterFrame(history, Later(history, w, t, f), u, att.data);
    } else {
      FilterFrame(history, w, u, att.data);
      if Before(history, w, att) {
        var marks := others + aimed;
        forall j, r | (j, r) in marks + {(v, root)} ensures Marked(w.table, marks, r, j) {
          assert (j, r) in marks || (j == v && r == root);
        }
        CoveredMarks(w.table, n, marks + {(v, root)}, marks);
        RaisedTableStep(w.table, n, marks, root, v);
        OwnMarksOnly(w.table, n, marks, aimed, root);
      }
    }
  }

  /** Marks of touching votes of the batch. */
  ghost predicate FromBatch(
      history: seq<Root>, w: Work, all: seq<Attestation>, t: Slot, f: Checkpoint, marks: set<(nat, Root)>)
    requires t < |history| && t < |w.bits|
  {
    forall v, r :: (v, r) in marks ==>
      exists att :: att in all && Touches(history, w, t, f, att) && MarkOf(att) == (v, r)
  }

  lemma BatchMarksCovered(
      history: seq<Root>, n: nat, w: Work, all: seq<Attestation>, t: Slot, f: Checkpoint, marks: set<(nat, Root)>)
    requires Open(history, n, w, t) && OnlyTarget(history, n, w, all, t, f) && FromBatch(history, w, all, t, f, marks)
    ensures forall v, r :: (v, r) in marks ==> Marked(w.table, BothMarks(history, w, all, t, f), r, v)
    ensures forall v, r :: (v, r) in marks ==> !Crossed(w.table, n, marks, r)
  {
    var both := BothMarks(history, w, all, t, f);
    forall v, r | (v, r) in marks
      ensures Marked(w.table, both, r, v) && !Crossed(w.table, n, both, r)
    {
      var att :| att in all && Touches(history, w, t, f, att) && MarkOf(att) == (v, r);
    }
    CoveredMarks(w.table, n, both + marks, both);
    forall v, r | (v, r) in marks ensures !Crossed(w.table, n, marks, r) {
      if Crossed(w.table, n, marks, r) { CrossedGrows(w.table, n, marks, both + marks, r); }
    }
  }

  lemma NothingExpected(history: seq<Root>, n: nat, w: Work, all: seq<Attestation>, t: Slot, f: Checkpoint)
    requires Open(history, n, w, t)
    ensures Expected(history, n, w, AimedMarks(history, w, [], t), {}, t, f) == w
    ensures BothMarks(history, w, [], t, f) == {} && FromBatch(history, w, all, t, f, {})
  {
    var none: set<(nat, Root)> := {};
    assert AimedMarks(history, w, [], t) == none == none + none;
    RaisedUnique(w.table, w.table, RaisedTable(w.table, n, none), n, none);
  }

  lemma AimedAtRoot(history: seq<Root>, w: Work, atts: seq<Attestation>, t: Slot)
    requires t < |history|
    ensures RootIs(AimedMarks(history, w, atts, t), history[t])
  {
  }

  lemma LastAimed(history: seq<Root>, w: Work, front: seq<Attestation>, last: Attestation, t: Slot, f: Checkpoint)
    requires t < |history| && t < |w.bits| && last.data.target.slot == t
    ensures AimedMarks(history, w, front + [last], t) ==
            if Before(history, w, last) then AimedMarks(history, w, front, t) + {MarkOf(last)}
            else AimedMarks(history, w, front, t)
    ensures BothMarks(history, w, front + [last], t, f) == BothMarks(history, w, front, t, f)
  {
    hide Before, Afterwards;
  }

  lemma LastOther(history: seq<Root>, w: Work, front: seq<Attestation>, last: Attestation, t: Slot, f: Checkpoint)
    requires t < |history| && t < |w.bits| && Elsewhere(history, t, last)
    ensures AimedMarks(history, w, front + [last], t) == AimedMarks(history, w, front, t)
    ensures BothMarks(history, w, front + [last], t, f) ==
            BothMarks(history, w, front, t, f) +
            if Before(history, w, last) && Afterwards(history, w, t, f, last) then {MarkOf(last)} else {}
  {
    hide Before, Afterwards;
  }

  lemma LastShared(history: seq<Root>, w: Work, front: seq<Attestation>, last: Attestation, t: Slot, f: Checkpoint)
    requires t < |history| && t < |w.bits| && Shares(history, t, last)
    ensures AimedMarks(history, w, front + [last], t) == AimedMarks(history, w, front, t)
    ensures BothMarks(history, w, front + [last], t, f) == BothMarks(history, w, front, t, f)
  {
    hide Before, Afterwards;
  }

  lemma ConditionApplies(
      history: seq<Root>, n: nat, w: Work, all: seq<Attestation>, t: Slot, f: Checkpoint, att: Attestation)
    requires Open(history, n, w, t) && OnlyTarget(history, n, w, all, t, f) && att in all
    ensures Decides(history, w, t, att) ==> f == Finality(w, t, att.data)
    ensures Shares(history, t, att) ==> Idle(history, w, t, f, att)
  {
  }

  lemma MoreFromBatch(
      history: seq<Root>, w: Work, all: seq<Attestation>, t: Slot, f: Checkpoint, marks: set<(nat, Root)>,
      att: Attestation)
    requires t < |history| && t < |w.bits| && FromBatch(history, w, all, t, f, marks)
    requires att in all && Touches(history, w, t, f, att)
    ensures FromBatch(history, w, all, t, f, marks + {MarkOf(att)})
  {
    hide Touches;
    forall v, r | (v, r) in marks + {MarkOf(att)}
      ensures exists x :: x in all && Touches(history, w, t, f, x) && MarkOf(x) == (v, r)
    {
      if (v, r) !in marks { assert MarkOf(att) == (v, r); }
    }
  }

  lemma {:induction false} BatchInAnyOrder(
      history: seq<Root>, n: nat, w: Work, atts: seq<Attestation>, all: seq<Attestation>, t: Slot, f: Checkpoint)
    returns (others: set<(nat, Root)>)
    requires Open(history, n, w, t) && OnlyTarget(history, n, w, all, t, f)
    requires forall att :: att in atts ==> att in all && RangeError(history, |w.bits|, n, att).None?
    ensures ApplyVotes(history, n, w, atts) ==
            Ok(Expected(history, n, w, AimedMarks(history, w, atts, t), others, t, f))
    ensures BothMarks(history, w, atts, t, f) <= others && FromBatch(history, w, all, t, f, others)
    ensures RootIsNot(others, history[t])
    decreases |atts|
  {
    hide OnlyTarget, ApplyVote, Crossed, RangeError, Expected, FromBatch, Acceptable;
    if atts == [] {
      others := {};
      NothingExpected(history, n, w, all, t, f);
    } else {
      var front, last := atts[..|atts| - 1], atts[|atts| - 1];
      assert atts == front + [last];
      ValidatorInRange(history, |w.bits|, n, last);
      others := BatchInAnyOrder(history, n, w, front, all, t, f);
      var aimed := AimedMarks(history, w, front, t);
      AimedAtRoot(history, w, front, t);
      if last.data.target.slot == t {
        LastAimed(history, w, front, last, t, f);
        ConditionApplies(history, n, w, all, t, f, last);
        AimedStep(history, n, w, aimed, others, t, f, last);
      } else if Shares(history, t, last) {
        LastShared(history, w, front, last, t, f);
        ConditionApplies(history, n, w, all, t, f, last);
        IdleStep(history, n, w, aimed, others, t, f, last);
      } else {
        LastOther(history, w, front, last, t, f);
        if Touches(history, w, t, f, last) {
          MoreFromBatch(history, w, all, t, f, others, last);
          BatchMarksCovered(history, n, w, all, t, f, others + {MarkOf(last)});
        }
        if Crossed(w.table, n, aimed, history[t]) {
          OtherAfter(history, n, w, aimed, others, t, f, last);
          if Afterwards(history, w, t, f, last) { others := others + {MarkOf(last)}; }
        } else {
          OtherBefore(history, n, w, aimed, others, t, f, last);
          if Before(history, w, last) { others := others + {MarkOf(last)}; }
        }
      }
    }
  }

  /** What such a batch leaves, in whatever order. */
  ghost function Settlement(history: seq<Root>, n: nat, w: Work, all: seq<Attestation>, t: Slot, f: Checkpoint): Work
    requires Open(history, n, w, t)
  {
    Later(history, w, t, f).(table := RaisedTable(w.table, n, BothMarks(history, w, all, t, f)) - {history[t]})
  }

  lemma OneOutcome(
      history: seq<Root>, n: nat, w: Work, atts: seq<Attestation>, all: seq<Attestation>, t: Slot, f: Checkpoint)
    requires Open(history, n, w, t) && OnlyTarget(history, n, w, all, t, f)
    requires forall att :: att in atts <==> att in all
    requires forall att :: att in atts ==> RangeError(history, |w.bits|, n, att).None?
    ensures ApplyVotes(history, n, w, atts) == Ok(Settlement(history, n, w, all, t, f))
  {
    hide ApplyVotes, RangeError, RaisedTable, Acceptable;
    var others := BatchInAnyOrder(history, n, w, atts, all, t, f);
    assert AimedMarks(history, w, atts, t) == AimedMarks(history, w, all, t);
    assert BothMarks(history, w, atts, t, f) == BothMarks(history, w, all, t, f);
    BatchMarksCovered(history, n, w, all, t, f, others);
    CoveredMarks(w.table, n, others, BothMarks(history, w, all, t, f));
  }
}
