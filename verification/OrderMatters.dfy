/**
  Exactly when the order of a batch of votes matters: it does not if and only if the votes
  justify nothing, or justify one slot under the condition of module OneTarget. The hard
  half builds, from any failure of that condition, orders that end differently.
 */
module OrderMatters {
  import opened Containers
  import opened Justifiability
  import opened Tally
  import opened Transition
  import opened ChainInvariant
  import opened Quorum
  import opened OrderIndependence
  import opened OneTarget

  // ---------------------------------------------------------------- counting a row

  /** The supporters of the row of `r` once the marks are raised. */
  ghost function SupportOf(t0: Table, n: nat, marks: set<(nat, Root)>, r: Root): set<nat>
    requires RowsOfLength(t0, n)
  {
    var t := RaisedTable(t0, n, marks);
    if r in t then Supporters(t[r]) else {}
  }

  lemma CrossedByCount(t0: Table, n: nat, marks: set<(nat, Root)>, r: Root)
    requires RowsOfLength(t0, n) && n > 0
    ensures Crossed(t0, n, marks, r) <==> 3 * |SupportOf(t0, n, marks, r)| >= 2 * n
  {
  }

  lemma SupportStep(t0: Table, n: nat, marks: set<(nat, Root)>, r: Root, v: nat)
    requires RowsOfLength(t0, n) && v < n
    ensures SupportOf(t0, n, marks + {(v, r)}, r) == SupportOf(t0, n, marks, r) + {v}
    ensures v in SupportOf(t0, n, marks, r) <==> Marked(t0, marks, r, v)
  {
    RaisedTableStep(t0, n, marks, r, v);
    RaisedSupporters(RaisedTable(t0, n, marks), r, v, n);
  }

  /** If a fresh voter does not cross, no other single vote does in their place. */
  lemma OneShort(t0: Table, n: nat, a: set<(nat, Root)>, d: nat, x: nat, r: Root)
    requires RowsOfLength(t0, n) && n > 0 && d < n && x < n && !Marked(t0, a, r, x)
    requires !Crossed(t0, n, a + {(x, r)}, r)
    ensures !Crossed(t0, n, a, r) && !Crossed(t0, n, a + {(d, r)}, r)
  {
    hide Crossed, SupportOf, Marked;
    SupportStep(t0, n, a, r, x);
    SupportStep(t0, n, a, r, d);
    CrossedByCount(t0, n, a, r);
    CrossedByCount(t0, n, a + {(x, r)}, r);
    CrossedByCount(t0, n, a + {(d, r)}, r);
  }

  lemma NothingCrossed(history: seq<Root>, n: nat, w: Work, t: Slot, r: Root)
    requires Open(history, n, w, t)
    ensures !Crossed(w.table, n, {}, r)
  {
    var none: set<(nat, Root)> := {};
    RaisedUnique(w.table, w.table, RaisedTable(w.table, n, none), n, none);
  }

  /** Whoever votes for `t` leaves a mark at its root, if any. */
  lemma MarksOfAimed(history: seq<Root>, w: Work, votes: seq<Attestation>, t: Slot)
    requires t < |history| && forall att :: att in votes ==> att.data.target.slot == t
    ensures Marks(history, w, votes) == AimedMarks(history, w, votes, t)
    ensures RootIs(Marks(history, w, votes), history[t])
    ensures forall v, r :: (v, r) in Marks(history, w, votes) ==>
              exists att :: att in votes && att.validatorId as nat == v
  {
    forall v, r | (v, r) in Marks(history, w, votes) ensures exists att :: att in votes && att.validatorId as nat == v {
      var att :| att in votes && Acceptable(history, w, att.data) && MarkOf(att) == (v, r);
    }
    assert Marks(history, w, votes) == AimedMarks(history, w, votes, t);
  }

  ghost predicate AimedByOthers(n: nat, votes: seq<Attestation>, t: Slot, x: nat) {
    forall att :: att in votes ==> att.data.target.slot == t && att.validatorId as nat != x && att.validatorId < n
  }

  lemma StillShort(history: seq<Root>, n: nat, w: Work, front: seq<Attestation>, last: Attestation, t: Slot, x: nat)
    requires Open(history, n, w, t) && x < n && !Marked(w.table, {}, history[t], x)
    requires AimedByOthers(n, front + [last], t, x)
    requires !Crossed(w.table, n, Marks(history, w, front) + {(x, history[t])}, history[t])
    ensures !Crossed(w.table, n, Marks(history, w, front + [last]), history[t])
  {
    hide Crossed, Acceptable, Marks, RootIs;
    assert last in front + [last] && forall att :: att in front ==> att in front + [last];
    var a := Marks(history, w, front);
    MarksOfAimed(history, w, front, t);
    assert (x, history[t]) !in a;
    OneShort(w.table, n, a, last.validatorId, x, history[t]);
    MarksStep(history, w, front, last);
    if Acceptable(history, w, last.data) {
      AcceptedRoot(history, w, last.data);
    } else {
      assert a + Mark(history, w, last) == a;
    }
  }

  /** Among votes for `t` there is a first point at which the voter `x` would cross. */
  lemma {:induction false} JustBefore(
      history: seq<Root>, n: nat, w: Work, votes: seq<Attestation>, t: Slot, x: nat) returns (k: nat)
    requires Open(history, n, w, t) && x < n && !Marked(w.table, {}, history[t], x)
    requires AimedByOthers(n, votes, t, x)
    requires Crossed(w.table, n, Marks(history, w, votes) + {(x, history[t])}, history[t])
    ensures k <= |votes| && !Crossed(w.table, n, Marks(history, w, votes[..k]), history[t])
    ensures Crossed(w.table, n, Marks(history, w, votes[..k]) + {(x, history[t])}, history[t])
    decreases |votes|
  {
    hide Crossed, Acceptable, Marks, Marked;
    if votes == [] {
      k := 0;
      NothingCrossed(history, n, w, t, history[t]);
      NoMarks(history, w);
      assert votes[..0] == votes;
    } else {
      var front, last := votes[..|votes| - 1], votes[|votes| - 1];
      assert votes == front + [last];
      if Crossed(w.table, n, Marks(history, w, front) + {(x, history[t])}, history[t]) {
        k := JustBefore(history, n, w, front, t, x);
        assert front[..k] == votes[..k];
      } else {
        StillShort(history, n, w, front, last, t, x);
        k := |votes|;
        assert votes[..k] == votes;
      }
    }
  }

  lemma NoMarks(history: seq<Root>, w: Work)
    ensures Marks(history, w, []) == {}
  {
  }

  // ---------------------------------------------------------------- parts of a batch

  /** A batch that sets the bit of `t` and no other, cut in two. */
  lemma TwoParts(
      history: seq<Root>, n: nat, w: Work, p: seq<Attestation>, q: seq<Attestation>, t: Slot, u: Work)
    requires RowsOfLength(w.table, n) && t < |w.bits| && ApplyVotes(history, n, w, p + q) == Ok(u)
    requires u.bits == w.bits[t := true]
    ensures ApplyVotes(history, n, w, p).Ok?
    ensures var x := ApplyVotes(history, n, w, p).value;
            && ApplyVotes(history, n, x, q) == Ok(u)
            && x.bits == (if x.bits[t] then u.bits else w.bits)
            && (x.bits[t] ==> x.finalized == u.finalized && x.justified == u.justified)
  {
    hide ApplyVotes;
    VotesInTwoParts(history, n, w, p, q);
    var x := ApplyVotes(history, n, w, p).value;
    BitsOnlyGrow(history, n, w, p);
    BitsOnlyGrow(history, n, x, q);
    LastJustified(history, n, x, q);
  }

  /** Votes for `t` that justify something have two thirds. */
  lemma AimedVotesCross(history: seq<Root>, n: nat, w: Work, votes: seq<Attestation>, t: Slot)
    requires Open(history, n, w, t) && ApplyVotes(history, n, w, votes).Ok?
    requires forall att :: att in votes ==> att.data.target.slot == t
    requires ApplyVotes(history, n, w, votes).value.bits != w.bits
    ensures Crossed(w.table, n, Marks(history, w, votes), history[t])
  {
    hide ApplyVotes, Marks, Crossed;
    var marks := Marks(history, w, votes);
    if !Crossed(w.table, n, marks, history[t]) { ShortVotes(history, n, w, votes, t); }
  }

  /** Votes for `t` short of two thirds only raise its row. */
  lemma ShortVotes(history: seq<Root>, n: nat, w: Work, votes: seq<Attestation>, t: Slot)
    requires Open(history, n, w, t) && ApplyVotes(history, n, w, votes).Ok?
    requires forall att :: att in votes ==> att.data.target.slot == t
    requires !Crossed(w.table, n, Marks(history, w, votes), history[t])
    ensures ApplyVotes(history, n, w, votes) == Ok(w.(table := RaisedTable(w.table, n, Marks(history, w, votes))))
  {
    hide ApplyVotes, Marks, RangeError;
    var marks := Marks(history, w, votes);
    var full := RaisedTable(w.table, n, marks);
    RangeDecidesSuccess(history, n, w, votes);
    MarksOfAimed(history, w, votes, t);
    BatchInsideQuietTable(history, n, w, votes, full, marks);
    RaisedUnique(w.table, ApplyVotes(history, n, w, votes).value.table, full, n, marks);
  }

  /** A vote that completes the two thirds of a row justifies its target, and for `t`
      settles finality. */
  lemma CompletingVote(history: seq<Root>, n: nat, w: Work, pre: seq<Attestation>, att: Attestation, t: Slot)
    requires Open(history, n, w, t) && ApplyVotes(history, n, w, pre + [att]).Ok? && att.validatorId < n
    requires forall x :: x in pre ==> x.data.target.slot == t
    requires att.data.target.root == history[t] && Before(history, w, att)
    requires !Crossed(w.table, n, Marks(history, w, pre), history[t])
    requires Crossed(w.table, n, Marks(history, w, pre) + {(att.validatorId as nat, history[t])}, history[t])
    ensures var y := ApplyVotes(history, n, w, pre + [att]).value;
            && att.data.target.slot < |y.bits| && y.bits[att.data.target.slot]
            && (att.data.target.slot == t ==> y.finalized == Finality(w, t, att.data))
  {
    hide Marks, Crossed, RaisedTable, Acceptable, ApplyVote, RangeError, Finality;
    assert (pre + [att])[..|pre + [att]| - 1] == pre;
    ShortVotes(history, n, w, pre, t);
    CrossingVote(history, n, w, Marks(history, w, pre), att, t);
  }

  lemma CrossingVote(history: seq<Root>, n: nat, w: Work, marks: set<(nat, Root)>, att: Attestation, t: Slot)
    requires Open(history, n, w, t) && att.validatorId < n
    requires att.data.target.root == history[t] && Before(history, w, att)
    requires Crossed(w.table, n, marks + {(att.validatorId as nat, history[t])}, history[t])
    ensures var y := ApplyVote(history, n, w.(table := RaisedTable(w.table, n, marks)), att);
            && att.data.target.slot < |y.bits| && y.bits[att.data.target.slot]
            && (att.data.target.slot == t ==> y.finalized == Finality(w, t, att.data))
  {
    hide RaisedTable, NothingBetween;
    RaisedTableStep(w.table, n, marks, history[t], att.validatorId);
  }

  lemma {:induction false} RejectedVotes(history: seq<Root>, n: nat, w: Work, atts: seq<Attestation>)
    requires RowsOfLength(w.table, n) && ApplyVotes(history, n, w, atts).Ok?
    requires forall att :: att in atts ==> !Before(history, w, att)
    ensures ApplyVotes(history, n, w, atts) == Ok(w)
    decreases |atts|
  {
    hide Acceptable, RangeError;
    if atts != [] {
      assert atts[|atts| - 1] in atts;
      RejectedVotes(history, n, w, atts[..|atts| - 1]);
    }
  }

  /** Votes for `t` leave the rows of other roots alone. */
  lemma {:induction false} OtherRowsStay(
      history: seq<Root>, n: nat, w: Work, votes: seq<Attestation>, t: Slot, r: Root)
    requires RowsOfLength(w.table, n) && ApplyVotes(history, n, w, votes).Ok?
    requires t < |history| && r != history[t] && forall att :: att in votes ==> att.data.target.slot == t
    ensures var u := ApplyVotes(history, n, w, votes).value;
            r in w.table ==> r in u.table && u.table[r] == w.table[r]
    decreases |votes|
  {
    if votes != [] {
      var front, last := votes[..|votes| - 1], votes[|votes| - 1];
      assert last in votes;
      OtherRowsStay(history, n, w, front, t, r);
    }
  }

  // ---------------------------------------------------------------- what agreement forces

  /** Every order of the batch succeeds with `u`, which has the bit of `t` set and no
      other new bit. */
  ghost predicate Settled(history: seq<Root>, n: nat, w: Work, all: seq<Attestation>, t: Slot, u: Work)
    requires Open(history, n, w, t)
  {
    && !w.bits[t] && u.bits == w.bits[t := true]
    && (forall b: seq<Attestation> :: multiset(b) == multiset(all) ==> ApplyVotes(history, n, w, b) == Ok(u))
  }

  lemma SettledOrder(
      history: seq<Root>, n: nat, w: Work, all: seq<Attestation>, t: Slot, u: Work,
      p: seq<Attestation>, q: seq<Attestation>)
    requires Open(history, n, w, t) && Settled(history, n, w, all, t, u) && multiset(p + q) == multiset(all)
    ensures ApplyVotes(history, n, w, p).Ok?
    ensures var x := ApplyVotes(history, n, w, p).value;
            && ApplyVotes(history, n, x, q) == Ok(u)
            && x.bits == (if x.bits[t] then u.bits else w.bits)
            && (x.bits[t] ==> x.finalized == u.finalized && x.justified == u.justified)
  {
    hide ApplyVotes;
    assert ApplyVotes(history, n, w, p + q) == Ok(u);
    TwoParts(history, n, w, p, q, t, u);
  }

  lemma SettledInRange(history: seq<Root>, n: nat, w: Work, all: seq<Attestation>, t: Slot, u: Work)
    requires Open(history, n, w, t) && Settled(history, n, w, all, t, u)
    ensures forall att :: att in all ==> RangeError(history, |w.bits|, n, att).None? && att.validatorId < n
  {
    hide ApplyVotes;
    assert ApplyVotes(history, n, w, all) == Ok(u);
    RangeDecidesSuccess(history, n, w, all);
  }

  /** Votes for another slot do not justify `t`. */
  lemma NotAimedNotSet(history: seq<Root>, n: nat, w: Work, votes: seq<Attestation>, t: Slot)
    requires RowsOfLength(w.table, n) && ApplyVotes(history, n, w, votes).Ok? && t < |w.bits| && !w.bits[t]
    requires forall att :: att in votes ==> att.data.target.slot != t
    ensures !ApplyVotes(history, n, w, votes).value.bits[t]
  {
    hide ApplyVotes;
    LastJustified(history, n, w, votes);
    assert NewlySet(w.bits, ApplyVotes(history, n, w, votes).value.bits, t) ==> Aimed(votes, t);
  }

  /** The votes for `t` alone have two thirds. */
  lemma AimedReachTwoThirds(history: seq<Root>, n: nat, w: Work, all: seq<Attestation>, t: Slot, u: Work)
    requires Open(history, n, w, t) && Settled(history, n, w, all, t, u)
    ensures Crossed(w.table, n, AimedMarks(history, w, all, t), history[t])
  {
    var aimed, others := Votes(all, t, true), Votes(all, t, false);
    assert AimedMarks(history, w, aimed, t) == AimedMarks(history, w, all, t);
    hide ApplyVotes, Crossed, Acceptable, Votes;
    SplitIsPermutation(all, t);
    SettledOrder(history, n, w, all, t, u, aimed, others);
    var x := ApplyVotes(history, n, w, aimed).value;
    if !x.bits[t] { NotAimedNotSet(history, n, x, others, t); }
    MarksOfAimed(history, w, aimed, t);
    AimedVotesCross(history, n, w, aimed, t);
  }

  /** Votes for `t` by validators other than `x`, and the rest of the batch. */
  ghost function ByOthers(all: seq<Attestation>, t: Slot, x: nat): (r: seq<Attestation>)
    ensures forall att :: att in r <==> att in all && att.data.target.slot == t && att.validatorId as nat != x
  {
    Pick(all, (att: Attestation) => att.data.target.slot == t && att.validatorId as nat != x)
  }

  lemma TakeOut(s: seq<Attestation>, att: Attestation) returns (rest: seq<Attestation>)
    requires att in s
    ensures multiset([att]) + multiset(rest) == multiset(s)
  {
    var i :| 0 <= i < |s| && s[i] == att;
    rest := s[..i] + s[i + 1..];
    assert s == s[..i] + [att] + s[i + 1..];
  }

  lemma OneOut(all: seq<Attestation>, t: Slot, att: Attestation) returns (rest: seq<Attestation>)
    requires att in all
    ensures multiset(ByOthers(all, t, att.validatorId)) + (multiset([att]) + multiset(rest)) == multiset(all)
  {
    hide Pick;
    var x := att.validatorId as nat;
    var p := (a: Attestation) => a.data.target.slot == t && a.validatorId as nat != x;
    var q := (a: Attestation) => !(a.data.target.slot == t && a.validatorId as nat != x);
    PickSplits(all, p, q);
    rest := TakeOut(Pick(all, q), att);
  }

  lemma Rearranged(d: seq<Attestation>, k: nat, att: Attestation, tail: seq<Attestation>)
    requires k <= |d|
    ensures multiset(d[..k] + [att] + (d[k..] + tail)) == multiset(d) + (multiset([att]) + multiset(tail))
  {
    assert d == d[..k] + d[k..];
  }

  /** An order in which a given fresh vote comes when one more completes the two thirds. */
  lemma OrderWithFreshVote(history: seq<Root>, n: nat, w: Work, all: seq<Attestation>, t: Slot, att: Attestation)
    returns (pre: seq<Attestation>, rest: seq<Attestation>)
    requires Open(history, n, w, t) && att in all && !Marked(w.table, {}, history[t], att.validatorId)
    requires forall a :: a in all ==> a.validatorId < n
    requires Crossed(w.table, n, AimedMarks(history, w, all, t), history[t])
    ensures multiset(pre + [att] + rest) == multiset(all)
    ensures forall a :: a in pre ==> a.data.target.slot == t
    ensures !Crossed(w.table, n, Marks(history, w, pre), history[t])
    ensures Crossed(w.table, n, Marks(history, w, pre) + {(att.validatorId as nat, history[t])}, history[t])
  {
    hide Crossed, Marked, Marks, AimedMarks, ByOthers, Acceptable;
    var x, root := att.validatorId as nat, history[t];
    var d := ByOthers(all, t, x);
    var marks := Marks(history, w, d) + {(x, root)};
    AllButOne(history, w, all, t, x);
    CrossedGrows(w.table, n, AimedMarks(history, w, all, t), marks, root);
    var k := JustBefore(history, n, w, d, t, x);
    var tail := OneOut(all, t, att);
    pre, rest := d[..k], d[k..] + tail;
    Rearranged(d, k, att, tail);
  }

  lemma AllButOne(history: seq<Root>, w: Work, all: seq<Attestation>, t: Slot, x: nat)
    requires t < |history|
    ensures AimedMarks(history, w, all, t) <= Marks(history, w, ByOthers(all, t, x)) + {(x, history[t])}
  {
    hide ByOthers;
  }

  /** Every vote that could complete the two thirds finalizes what the outcome has. */
  lemma DecidersForced(history: seq<Root>, n: nat, w: Work, all: seq<Attestation>, t: Slot, u: Work, att: Attestation)
    requires Open(history, n, w, t) && Settled(history, n, w, all, t, u)
    requires att in all && Decides(history, w, t, att)
    ensures u.finalized == Finality(w, t, att.data)
  {
    hide ApplyVotes, Crossed, Marks, AimedMarks, Finality, Acceptable, RangeError, Marked;
    SettledInRange(history, n, w, all, t, u);
    AimedReachTwoThirds(history, n, w, all, t, u);
    var pre, rest := OrderWithFreshVote(history, n, w, all, t, att);
    SettledOrder(history, n, w, all, t, u, pre + [att], rest);
    AcceptedRoot(history, w, att.data);
    CompletingVote(history, n, w, pre, att, t);
  }

  /** A vote that shares the root of `t` and is accepted at first repeats a stored mark:
      a fresh one could complete the two thirds and justify its own slot instead. */
  lemma SharedMarkForced(history: seq<Root>, n: nat, w: Work, all: seq<Attestation>, t: Slot, u: Work, att: Attestation)
    requires Open(history, n, w, t) && Settled(history, n, w, all, t, u)
    requires att in all && Shares(history, t, att) && Before(history, w, att)
    ensures Marked(w.table, {}, history[t], att.validatorId)
  {
    if !Marked(w.table, {}, history[t], att.validatorId) {
      hide ApplyVotes, Crossed, Marks, AimedMarks, Finality, RangeError, Marked;
      SettledInRange(history, n, w, all, t, u);
      AimedReachTwoThirds(history, n, w, all, t, u);
      var pre, rest := OrderWithFreshVote(history, n, w, all, t, att);
      SettledOrder(history, n, w, all, t, u, pre + [att], rest);
      CompletingVote(history, n, w, pre, att, t);
    }
  }

  lemma MarksFrame(history: seq<Root>, w: Work, u: Work, atts: seq<Attestation>)
    requires u == w.(table := u.table)
    ensures Marks(history, u, atts) == Marks(history, w, atts)
  {
  }

  /** The votes for `t` alone justify it and leave every other row. */
  lemma AimedAlone(history: seq<Root>, n: nat, w: Work, all: seq<Attestation>, t: Slot, u: Work)
    requires Open(history, n, w, t) && Settled(history, n, w, all, t, u)
    ensures ApplyVotes(history, n, w, Votes(all, t, true)) ==
            Ok(Later(history, w, t, u.finalized).(table := w.table - {history[t]}))
  {
    hide ApplyVotes, Settled, Crossed, Finality, Before, Afterwards, RangeError, Votes, RaisedTable;
    var aimed, f := Votes(all, t, true), u.finalized;
    SettledInRange(history, n, w, all, t, u);
    AimedReachTwoThirds(history, n, w, all, t, u);
    assert AimedMarks(history, w, aimed, t) == AimedMarks(history, w, all, t);
    forall att | att in aimed && Decides(history, w, t, att) ensures f == Finality(w, t, att.data) {
      DecidersForced(history, n, w, all, t, u, att);
    }
    OneOutcome(history, n, w, aimed, aimed, t, f);
    var none: set<(nat, Root)> := {};
    assert BothMarks(history, w, aimed, t, f) == none;
    RaisedUnique(w.table, w.table, RaisedTable(w.table, n, none), n, none);
  }

  /** After the votes for `t`, other votes that justify nothing leave exactly their marks. */
  lemma AfterAimed(
      history: seq<Root>, n: nat, w: Work, all: seq<Attestation>, t: Slot, u: Work, q: seq<Attestation>)
    requires Open(history, n, w, t) && Settled(history, n, w, all, t, u)
    requires ApplyVotes(history, n, w, Votes(all, t, true) + q) == Ok(u)
    ensures var marks := Marks(history, Later(history, w, t, u.finalized), q);
            && Raised(w.table - {history[t]}, u.table, n, marks) && Quiet(u.table, n, marks)
  {
    hide ApplyVotes, Raised, Quiet, Marks, Votes;
    AimedAlone(history, n, w, all, t, u);
    TwoParts(history, n, w, Votes(all, t, true), q, t, u);
    var x := ApplyVotes(history, n, w, Votes(all, t, true)).value;
    QuietBatch(history, n, x, q);
    MarksFrame(history, Later(history, w, t, u.finalized), x, q);
  }

  ghost predicate Standing(table: Table, n: nat, r: Root, v: nat)
    requires RowsOfLength(table, n)
  {
    r in table && v < n && table[r][v]
  }

  lemma AcceptedMark(history: seq<Root>, w: Work, atts: seq<Attestation>, att: Attestation)
    requires att in atts && Before(history, w, att)
    ensures MarkOf(att) in Marks(history, w, atts)
  {
  }

  /** A vote accepted once `t` is justified leaves its mark in some order. */
  lemma LateMarkStands(history: seq<Root>, n: nat, w: Work, all: seq<Attestation>, t: Slot, u: Work, att: Attestation)
    requires Open(history, n, w, t) && Settled(history, n, w, all, t, u) && RowsOfLength(u.table, n)
    requires att in all && att.data.target.slot != t && Afterwards(history, w, t, u.finalized, att)
    requires att.validatorId < n
    ensures Standing(u.table, n, att.data.target.root, att.validatorId)
  {
    hide ApplyVotes, Marks, Quiet, Votes, Acceptable;
    var others := Votes(all, t, false);
    AcceptedMark(history, Later(history, w, t, u.finalized), others, att);
    SplitIsPermutation(all, t);
    AfterAimed(history, n, w, all, t, u, others);
  }

  /** Votes for `t` that justify it drop its row. */
  lemma {:induction false} RowDropped(history: seq<Root>, n: nat, w: Work, votes: seq<Attestation>, t: Slot)
    requires RowsOfLength(w.table, n) && ApplyVotes(history, n, w, votes).Ok?
    requires t < |history| && t < |w.bits| && !w.bits[t] && forall att :: att in votes ==> att.data.target.slot == t
    ensures var u := ApplyVotes(history, n, w, votes).value; u.bits[t] ==> history[t] !in u.table
    decreases |votes|
  {
    if votes != [] {
      var front, last := votes[..|votes| - 1], votes[|votes| - 1];
      assert last in votes;
      RowDropped(history, n, w, front, t);
    }
  }

  /** A vote that shares the root of `t` is refused once `t` is justified: else one order
      leaves a row at that root and another does not. */
  lemma SharedRefused(history: seq<Root>, n: nat, w: Work, all: seq<Attestation>, t: Slot, u: Work, att: Attestation)
    requires Open(history, n, w, t) && Settled(history, n, w, all, t, u) && RowsOfLength(u.table, n)
    requires att in all && Shares(history, t, att) && att.validatorId < n
    ensures !Afterwards(history, w, t, u.finalized, att)
  {
    hide ApplyVotes, Votes, Acceptable;
    if Afterwards(history, w, t, u.finalized, att) {
      LateMarkStands(history, n, w, all, t, u, att);
      var aimed, others := Votes(all, t, true), Votes(all, t, false);
      SplitIsPermutation(all, t);
      SettledOrder(history, n, w, all, t, u, others, aimed);
      NotAimedNotSet(history, n, w, others, t);
      RowDropped(history, n, ApplyVotes(history, n, w, others).value, aimed, t);
    }
  }

  /** A vote accepted before `t` is justified leaves its mark in some order. */
  lemma EarlyMarkStands(history: seq<Root>, n: nat, w: Work, all: seq<Attestation>, t: Slot, u: Work, att: Attestation)
    requires Open(history, n, w, t) && Settled(history, n, w, all, t, u) && RowsOfLength(u.table, n)
    requires att in all && att.data.target.slot != t && Before(history, w, att)
    requires att.validatorId < n && att.data.target.root != history[t]
    ensures Standing(u.table, n, att.data.target.root, att.validatorId)
  {
    hide ApplyVotes, Marks, Quiet, Votes, Acceptable;
    var aimed, others := Votes(all, t, true), Votes(all, t, false);
    AcceptedMark(history, w, others, att);
    SplitIsPermutation(all, t);
    SettledOrder(history, n, w, all, t, u, others, aimed);
    NotAimedNotSet(history, n, w, others, t);
    QuietBatch(history, n, w, others);
    var y := ApplyVotes(history, n, w, others).value;
    OtherRowsStay(history, n, y, aimed, t, att.data.target.root);
  }

  /** With the votes rejected at first put in front, only marks accepted at either time
      are left. */
  lemma BothMarksStand(history: seq<Root>, n: nat, w: Work, all: seq<Attestation>, t: Slot, u: Work)
    requires Open(history, n, w, t) && Settled(history, n, w, all, t, u)
    ensures var both := BothMarks(history, w, all, t, u.finalized);
            Raised(w.table - {history[t]}, u.table, n, both) && Quiet(u.table, n, both)
  {
    var p, q := (a: Attestation) => Before(history, w, a), (a: Attestation) => !Before(history, w, a);
    var aimed, others := Votes(all, t, true), Votes(all, t, false);
    var rest, early := Pick(others, p), Pick(others, q);
    assert ApplyVotes(history, n, w, all) == Ok(u);
    NeverAfterwards(history, n, w, all, t, u);
    EitherTime(history, w, all, t, u.finalized, rest);
    hide ApplyVotes, Marks, BothMarks, Raised, Quiet, Votes, Pick, Before;
    PickSplits(others, p, q);
    SplitIsPermutation(all, t);
    assert multiset(early + (aimed + rest)) == multiset(all);
    SettledOrder(history, n, w, all, t, u, early, aimed + rest);
    RejectedVotes(history, n, w, early);
    AfterAimed(history, n, w, all, t, u, rest);
  }

  lemma NeverAfterwards(history: seq<Root>, n: nat, w: Work, all: seq<Attestation>, t: Slot, u: Work)
    requires Open(history, n, w, t) && Settled(history, n, w, all, t, u) && RowsOfLength(u.table, n)
    ensures forall att :: att in all && Shares(history, t, att) ==> !Afterwards(history, w, t, u.finalized, att)
  {
    hide Settled, RangeError, Acceptable;
    SettledInRange(history, n, w, all, t, u);
    forall att | att in all && Shares(history, t, att) ensures !Afterwards(history, w, t, u.finalized, att) {
      SharedRefused(history, n, w, all, t, u, att);
    }
  }

  lemma EitherTime(history: seq<Root>, w: Work, all: seq<Attestation>, t: Slot, f: Checkpoint, rest: seq<Attestation>)
    requires t < |history| && t < |w.bits|
    requires forall att :: att in rest <==> att in all && att.data.target.slot != t && Before(history, w, att)
    requires forall att :: att in all && Shares(history, t, att) ==> !Afterwards(history, w, t, f, att)
    ensures Marks(history, Later(history, w, t, f), rest) == BothMarks(history, w, all, t, f)
  {
    hide Acceptable, Later;
  }

  /** A row of `u` other than that of `t` is the row with the marks raised. */
  lemma SameRow(t0: Table, table: Table, n: nat, marks: set<(nat, Root)>, root: Root, r: Root)
    requires RowsOfLength(t0, n) && Raised(t0 - {root}, table, n, marks) && r != root && r in table
    ensures r in RaisedTable(t0, n, marks) && RaisedTable(t0, n, marks)[r] == table[r]
  {
    var full := RaisedTable(t0, n, marks);
    forall j | 0 <= j < n ensures full[r][j] == table[r][j] {
      assert Marked(t0, marks, r, j) <==> Marked(t0 - {root}, marks, r, j);
    }
  }

  lemma TouchesForced(history: seq<Root>, n: nat, w: Work, all: seq<Attestation>, t: Slot, u: Work, att: Attestation)
    requires Open(history, n, w, t) && Settled(history, n, w, all, t, u) && RowsOfLength(u.table, n)
    requires att in all && Touches(history, w, t, u.finalized, att) && att.validatorId < n
    ensures var both := BothMarks(history, w, all, t, u.finalized);
            && Marked(w.table, both, att.data.target.root, att.validatorId)
            && !Crossed(w.table, n, both, att.data.target.root)
  {
    hide Settled, BothMarks, Acceptable, RaisedTable;
    var r, v, root := att.data.target.root, att.validatorId as nat, history[t];
    var both := BothMarks(history, w, all, t, u.finalized);
    if Before(history, w, att) {
      EarlyMarkStands(history, n, w, all, t, u, att);
    } else {
      LateMarkStands(history, n, w, all, t, u, att);
    }
    BothMarksStand(history, n, w, all, t, u);
    assert Marked(w.table - {root}, both, r, v);
    SameRow(w.table, u.table, n, both, root, r);
    if Crossed(w.table, n, both, r) {
      var none: set<(nat, Root)> := {};
      OwnMarksOnly(w.table, n, both, none, r);
      NothingCrossed(history, n, w, t, r);
    }
  }

  /** The condition is necessary. */
  lemma AgreementForces(history: seq<Root>, n: nat, w: Work, all: seq<Attestation>, t: Slot, u: Work)
    requires Open(history, n, w, t) && Settled(history, n, w, all, t, u)
    ensures OnlyTarget(history, n, w, all, t, u.finalized)
  {
    assert ApplyVotes(history, n, w, all) == Ok(u);
    hide ApplyVotes, Settled, Crossed, Finality, Touches, Decides, RangeError, BothMarks, AimedMarks;
    SettledInRange(history, n, w, all, t, u);
    AimedReachTwoThirds(history, n, w, all, t, u);
    forall att | att in all && Decides(history, w, t, att) ensures u.finalized == Finality(w, t, att.data) {
      DecidersForced(history, n, w, all, t, u, att);
    }
    forall att | att in all && Touches(history, w, t, u.finalized, att)
      ensures var both := BothMarks(history, w, all, t, u.finalized);
              && Marked(w.table, both, att.data.target.root, att.validatorId)
              && !Crossed(w.table, n, both, att.data.target.root)
    {
      TouchesForced(history, n, w, all, t, u, att);
    }
    NeverAfterwards(history, n, w, all, t, u);
    forall att | att in all && Shares(history, t, att) ensures Idle(history, w, t, u.finalized, att) {
      if Before(history, w, att) { SharedMarkForced(history, n, w, all, t, u, att); }
    }
  }

  // ---------------------------------------------------------------- exactly when

  /** The condition with finality read off some deciding vote. */
  ghost predicate Agreed(history: seq<Root>, n: nat, w: Work, all: seq<Attestation>, t: Slot)
    requires Open(history, n, w, t)
  {
    exists att :: att in all && Decides(history, w, t, att) &&
      OnlyTarget(history, n, w, all, t, Finality(w, t, att.data))
  }

  /** Two thirds that were not there before need a vote that could complete them. */
  lemma SomeoneDecides(history: seq<Root>, n: nat, w: Work, all: seq<Attestation>, t: Slot)
    requires Open(history, n, w, t) && Crossed(w.table, n, AimedMarks(history, w, all, t), history[t])
    ensures exists att :: att in all && Decides(history, w, t, att)
  {
    if forall att :: att in all ==> !Decides(history, w, t, att) {
      var none: set<(nat, Root)> := {};
      var aimed := AimedMarks(history, w, all, t);
      forall v, r | (v, r) in aimed ensures Marked(w.table, none, r, v) {
        var att :| att in all && att.data.target.slot == t && Before(history, w, att) && MarkOf(att) == (v, r);
        assert !Decides(history, w, t, att);
      }
      hide Acceptable, RaisedTable, AimedMarks;
      CoveredMarks(w.table, n, aimed, none);
      NothingCrossed(history, n, w, t, history[t]);
    }
  }

  /** In-range votes justify `t` alone, with one outcome in every order, exactly when the
      condition holds. */
  lemma OneOutcomeIff(history: seq<Root>, n: nat, w: Work, all: seq<Attestation>, t: Slot)
    requires Open(history, n, w, t) && !w.bits[t]
    requires forall att :: att in all ==> RangeError(history, |w.bits|, n, att).None?
    ensures (exists u :: Settled(history, n, w, all, t, u)) <==> Agreed(history, n, w, all, t)
  {
    hide ApplyVotes, OnlyTarget, Decides, Finality, RangeError, RaisedTable;
    if u :| Settled(history, n, w, all, t, u) {
      AgreementForces(history, n, w, all, t, u);
      AimedReachTwoThirds(history, n, w, all, t, u);
      SomeoneDecides(history, n, w, all, t);
      var att :| att in all && Decides(history, w, t, att);
      DecidersForced(history, n, w, all, t, u, att);
    }
    if Agreed(history, n, w, all, t) {
      var att :| att in all && Decides(history, w, t, att) &&
                 OnlyTarget(history, n, w, all, t, Finality(w, t, att.data));
      var f := Finality(w, t, att.data);
      forall b: seq<Attestation> | multiset(b) == multiset(all)
        ensures ApplyVotes(history, n, w, b) == Ok(Settlement(history, n, w, all, t, f))
      {
        SameVotes(b, all);
        OneOutcome(history, n, w, b, all, t, f);
      }
      assert Settled(history, n, w, all, t, Settlement(history, n, w, all, t, f));
    }
  }

  lemma SameVotes(a: seq<Attestation>, b: seq<Attestation>)
    requires multiset(a) == multiset(b)
    ensures forall att :: att in a <==> att in b
  {
    forall att ensures att in a <==> att in b {
      assert att in multiset(a) <==> att in multiset(b);
    }
  }

  // ---------------------------------------------------------------- on states

  /** A slot that holds a block shares its root with no other slot, so no accepted vote
      shares it either. */
  lemma BlockHasOwnRoot(h: Hashes, s: State, t: Slot)
    requires ChainInv(h, s) && RootsBindSlots(h) && t < |s.history| && s.history[t] != ZERO_ROOT
    ensures forall k :: 0 <= k < |s.history| && k != t ==> s.history[k] != s.history[t]
    ensures forall w, att :: Before(s.history, w, att) ==> !Shares(s.history, t, att)
  {
    hide WorkInv, PendingSorted;
    assert NamesSlot(h, s.history[t], t);
    forall k | 0 <= k < |s.history| && k != t ensures s.history[k] != s.history[t] {
      assert NamesSlot(h, s.history[k], k);
    }
  }

  /** The batch justifies `t` alone and the votes agree on everything that could differ. */
  ghost predicate SettlesOne(s: State, a: seq<Attestation>, t: Slot)
    requires PendingWellSized(s)
  {
    var n, w := |s.validators|, StartWork(s);
    Open(s.history, n, w, t) && !w.bits[t] && Agreed(s.history, n, w, a, t)
  }

  lemma InvariantOpen(h: Hashes, s: State, t: Slot)
    requires ChainInv(h, s) && |s.validators| > 0 && t < |s.history|
    ensures PendingWellSized(s) && Open(s.history, |s.validators|, StartWork(s), t)
  {
    hide NamesSlot, ParentBelow;
    InvariantWork(h, s);
  }

  lemma InvariantLengths(h: Hashes, s: State)
    requires ChainInv(h, s)
    ensures |s.history| == |s.justifiedSlots|
  {
    hide WorkInv, PendingSorted, NamesSlot, ParentBelow;
  }

  /** The outcome of a batch determines the working copies. */
  lemma OutcomeShowsWork(h: Hashes, s: State, a: seq<Attestation>)
    requires ChainInv(h, s) && |s.validators| <= VALIDATOR_REGISTRY_LIMIT && AllInRange(s, a)
    ensures var x := ProcessAttestations(s, a);
            && x.Done? && PendingWellSized(s) && PendingWellSized(x.after)
            && ApplyVotes(s.history, |s.validators|, StartWork(s), a) == Ok(StartWork(x.after))
  {
    hide ChainInv, PendingTable, RangeError, ProcessAttestations;
    BatchDoneIff(h, s, a);
    BatchWork(h, s, a);
  }

  ghost predicate SameInEveryOrder(s: State, a: seq<Attestation>) {
    forall b: seq<Attestation> :: multiset(b) == multiset(a) ==> ProcessAttestations(s, b) == ProcessAttestations(s, a)
  }

  /** Votes that settle one slot give one outcome, with that slot's bit set. */
  lemma SettlingIsStable(s: State, a: seq<Attestation>, t: Slot)
    requires PendingWellSized(s) && AllInRange(s, a) && SettlesOne(s, a, t)
    ensures SameInEveryOrder(s, a)
    ensures ProcessAttestations(s, a).after.justifiedSlots == s.justifiedSlots[t := true]
  {
    hide ApplyVotes, Agreed, RangeError, PendingTable;
    var n, w := |s.validators|, StartWork(s);
    OneOutcomeIff(s.history, n, w, a, t);
    var u :| Settled(s.history, n, w, a, t, u);
    assert ApplyVotes(s.history, n, w, a) == Ok(u);
  }

  /** One outcome that justifies one slot comes only from votes that settle it. */
  lemma StableMeansSettling(h: Hashes, s: State, a: seq<Attestation>, t: Slot)
    requires ChainInv(h, s) && 0 < |s.validators| <= VALIDATOR_REGISTRY_LIMIT && AllInRange(s, a)
    requires t < |s.history| && !s.justifiedSlots[t] && SameInEveryOrder(s, a)
    requires ProcessAttestations(s, a).after.justifiedSlots == s.justifiedSlots[t := true]
    ensures PendingWellSized(s) && SettlesOne(s, a, t)
  {
    hide ApplyVotes, Agreed, RangeError, PendingTable, ProcessAttestations, ChainInv;
    InvariantOpen(h, s, t);
    OutcomeShowsWork(h, s, a);
    var n, w, u := |s.validators|, StartWork(s), StartWork(ProcessAttestations(s, a).after);
    forall b: seq<Attestation> | multiset(b) == multiset(a) ensures ApplyVotes(s.history, n, w, b) == Ok(u) {
      SameVotes(b, a);
      OutcomeShowsWork(h, s, b);
    }
    assert Settled(s.history, n, w, a, t, u);
    OneOutcomeIff(s.history, n, w, a, t);
  }

  /** Only slots a vote is aimed at become justified, and at most one if the order does
      not matter. */
  lemma StableJustifiesAtMostOne(s: State, a: seq<Attestation>) returns (t: Slot)
    requires PendingWellSized(s) && AllInRange(s, a) && SameInEveryOrder(s, a)
    requires ProcessAttestations(s, a).after.justifiedSlots != s.justifiedSlots
    ensures Aimed(a, t) && t < |s.justifiedSlots| && !s.justifiedSlots[t]
    ensures ProcessAttestations(s, a).after.justifiedSlots == s.justifiedSlots[t := true]
  {
    hide ApplyVotes, RangeError, PendingTable;
    var n, w, bits := |s.validators|, StartWork(s), ProcessAttestations(s, a).after.justifiedSlots;
    RangeDecidesSuccess(s.history, n, w, a);
    LastJustified(s.history, n, w, a);
    BitsOnlyGrow(s.history, n, w, a);
    var u := ApplyVotes(s.history, n, w, a).value;
    t := u.justified.slot;
    assert NewlySet(w.bits, u.bits, t);
    forall k | 0 <= k < |bits| && k != t ensures bits[k] == s.justifiedSlots[k] {
      if bits[k] != s.justifiedSlots[k] {
        var b := TwoTargetsShowOrder(s, a, k, t);
        assert false;
      }
    }
  }

  /** The order of in-range votes does not matter exactly when they justify nothing or
      settle one slot. */
  lemma OrderIrrelevantIff(h: Hashes, s: State, a: seq<Attestation>)
    requires ChainInv(h, s) && |s.validators| <= VALIDATOR_REGISTRY_LIMIT && AllInRange(s, a)
    ensures PendingWellSized(s)
    ensures SameInEveryOrder(s, a) <==> StaysQuiet(s, a) || exists t :: SettlesOne(s, a, t)
  {
    hide ApplyVotes, Agreed, PendingTable, ProcessAttestations, ChainInv, SettlesOne, StaysQuiet;
    InvariantWork(h, s);
    if StaysQuiet(s, a) {
      forall b: seq<Attestation> | multiset(b) == multiset(a)
        ensures ProcessAttestations(s, b) == ProcessAttestations(s, a)
      {
        PermutationInvariant(s, a, b);
      }
    }
    if t :| SettlesOne(s, a, t) { SettlingIsStable(s, a, t); }
    if SameInEveryOrder(s, a) && !StaysQuiet(s, a) {
      JustifiesNothingIff(s, a);
      var t := StableJustifiesAtMostOne(s, a);
      InvariantLengths(h, s);
      StableMeansSettling(h, s, a, t);
    }
  }

  // ---------------------------------------------------------------- an example

  /** The three slots with the second justified as well. */
  ghost function TwoJustified(): State {
    ThreeSlots().(justifiedSlots := [true, true, false], justified := Checkpoint(6, 1))
  }

  function VoteFrom(source: Checkpoint): Attestation {
    Attestation(0, AttestationData(2, Checkpoint(7, 2), Checkpoint(7, 2), source))
  }

  lemma TwoJustifiedInvariant()
    ensures ChainInv(SlotPlusFive(), TwoJustified())
    ensures StartWork(TwoJustified()) == Work(map[], [true, true, false], Checkpoint(6, 1), Checkpoint(5, 0))
  {
    ThreeSlotsInvariant();
    assert PendingTable(TwoJustified()) == PendingTable(ThreeSlots());
  }

  /** On a state that satisfies the chain invariant, two votes that justify one and the same
      slot, from slots 0 and 1, finalize slot 1 in one order and not in the other. */
  lemma OneSlotOrderShows()
    ensures ChainInv(SlotPlusFive(), TwoJustified())
    ensures var s, a, b := TwoJustified(), VoteFrom(Checkpoint(5, 0)), VoteFrom(Checkpoint(6, 1));
            var x, y := ProcessAttestations(s, [a, b]), ProcessAttestations(s, [b, a]);
            && x.Done? && y.Done? && x.after.justifiedSlots == y.after.justifiedSlots == [true, true, true]
            && x.after.finalized == Checkpoint(5, 0) && y.after.finalized == Checkpoint(6, 1)
  {
    hide ApplyVote, ChainInv, PendingTable;
    var history, w := [5, 6, 7], Work(map[], [true, true, false], Checkpoint(6, 1), Checkpoint(5, 0));
    var a, b := VoteFrom(Checkpoint(5, 0)), VoteFrom(Checkpoint(6, 1));
    TwoJustifiedInvariant();
    LoneVoteFinality(history, w, a);
    LoneVoteFinality(history, w, b);
    TwoVotes(history, w, a, b);
    TwoVotes(history, w, b, a);
  }

  /** The lone validator's vote for slot 2, and whatever vote for it comes next. */
  lemma LoneVoteFinality(history: seq<Root>, w: Work, att: Attestation)
    requires history == [5, 6, 7] && w == Work(map[], [true, true, false], Checkpoint(6, 1), Checkpoint(5, 0))
    requires att == VoteFrom(Checkpoint(5, 0)) || att == VoteFrom(Checkpoint(6, 1))
    ensures var x := ApplyVote(history, 1, w, att);
            && x.table == map[] && x.bits == [true, true, true]
            && x.finalized == (if att.data.source.slot == 0 then Checkpoint(5, 0) else Checkpoint(6, 1))
            && forall late: Attestation :: late.validatorId < 1 && late.data.target.slot == 2 ==>
                 ApplyVote(history, 1, x, late) == x
  {
    hide JustifiableAfter;
    Near();
    LoneVote(history, w, att);
    assert JustifiableAfter(1, 0);
    assert att.data.source.slot == 0 ==> 0 < 1 < 2 && !NothingBetween(0, 2, 0);
  }
}
