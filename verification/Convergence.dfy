/**
  The convergence loop of block production as values: the vote lists it can reach, why a
  list it stops at leaves nothing out, and exactly what can make a candidate fail.
 */
module Convergence {
  import opened Containers
  import opened Collections
  import opened Transition
  import opened ChainInvariant
  import opened Sealing
  import opened Ghost
  import opened StoreValues
  import opened StoreInvariant
  import opened Production

  /** What a candidate is built from, besides its votes. */
  datatype Draft = Draft(head: Root, slot: Slot, validator: U64, state: State)

  ghost function Build(h: Hashes, d: Draft, votes: seq<SignedAttestation>): Result<State, ForkchoiceError> {
    Candidate(h, d.head, d.slot, d.validator, d.state, votes)
  }

  /** `x` is a pooled vote the producer may add to a candidate with post-state `post`. */
  ghost predicate Includable(sv: StoreValue, post: State, already: seq<SignedAttestation>, x: SignedAttestation) {
    && InPool(sv.known, x)
    && x.message.data.target.root in sv.blocks
    && x.message.data.source == post.justified
    && x !in already
  }

  ghost predicate InPool(pool: Pool, x: SignedAttestation) {
    x.message.validatorId in pool && pool[x.message.validatorId] == x
  }

  ghost predicate KeyedByValidator(pool: Pool) {
    forall v :: v in pool ==> pool[v].message.validatorId == v
  }

  /** The stable result of the convergence loop: distinct pooled votes within the cap,
      and every pooled vote left out has an untracked target, a source other than the
      final justified checkpoint, or was cut by the cap. */
  ghost predicate Converged(sv: StoreValue, votes: seq<SignedAttestation>, post: State) {
    && Distinct(votes) && |votes| <= MAX_ATTESTATIONS
    && (forall x :: x in votes ==> InPool(sv.known, x))
    && (forall v :: v in sv.known ==>
          || sv.known[v] in votes
          || sv.known[v].message.data.target.root !in sv.blocks
          || sv.known[v].message.data.source != post.justified
          || |votes| == MAX_ATTESTATIONS)
  }

  ghost function Voters(votes: seq<SignedAttestation>): (ids: seq<U64>)
    ensures |ids| == |votes| && forall i :: 0 <= i < |ids| ==> ids[i] == votes[i].message.validatorId
  {
    seq(|votes|, i requires 0 <= i < |votes| => votes[i].message.validatorId)
  }

  /** Distinct votes of one pool have distinct validators of that pool. */
  lemma VotersAreDistinct(pool: Pool, votes: seq<SignedAttestation>)
    requires Distinct(votes) && forall x :: x in votes ==> InPool(pool, x)
    ensures Elements(Voters(votes)) <= pool.Keys && |Elements(Voters(votes))| == |votes|
  {
    var ids := Voters(votes);
    forall i, j | 0 <= i < j < |ids| ensures ids[i] != ids[j] {
      assert InPool(pool, votes[i]) && InPool(pool, votes[j]);
    }
    forall v | v in Elements(ids) ensures v in pool.Keys {
      var i :| 0 <= i < |ids| && ids[i] == v;
      assert InPool(pool, votes[i]);
    }
    ElementsSize(ids);
  }

  lemma PooledVotesBounded(pool: Pool, votes: seq<SignedAttestation>)
    requires Distinct(votes) && forall x :: x in votes ==> InPool(pool, x)
    ensures |votes| <= |pool|
  {
    VotersAreDistinct(pool, votes);
    SubsetSize(Elements(Voters(votes)), pool.Keys);
  }

  lemma AppendDistinct<T>(a: seq<T>, b: seq<T>)
    requires Distinct(a) && Distinct(b) && forall x :: x in b ==> x !in a
    ensures Distinct(a + b)
  {
    var s := a + b;
    forall i, j | 0 <= i < j < |s| ensures s[i] != s[j] {
      if i < |a| <= j { assert s[j] in b && s[i] in a; }
    }
  }

  // ---------------------------------------------------------------- rounds

  /** One round of additions: distinct includable votes within the cap, all of them when
      the cap is not reached. */
  ghost predicate Round(sv: StoreValue, post: State, already: seq<SignedAttestation>, out: seq<SignedAttestation>) {
    && out != [] && Distinct(out) && |already| + |out| <= MAX_ATTESTATIONS
    && (forall x :: x in out ==> Includable(sv, post, already, x))
    && (|already| + |out| < MAX_ATTESTATIONS ==>
          forall v :: v in sv.known && Includable(sv, post, already, sv.known[v]) ==> sv.known[v] in out)
  }

  /** `votes` is what some number of rounds over successful candidates collects. */
  ghost predicate Folded(h: Hashes, sv: StoreValue, d: Draft, votes: seq<SignedAttestation>)
    decreases |votes|
  {
    votes == [] || exists k :: LastRound(h, sv, d, votes, k) && Folded(h, sv, d, votes[..k])
  }

  ghost predicate LastRound(h: Hashes, sv: StoreValue, d: Draft, votes: seq<SignedAttestation>, k: int) {
    0 <= k < |votes| && Build(h, d, votes[..k]).Ok? && Round(sv, Build(h, d, votes[..k]).value, votes[..k], votes[k..])
  }

  lemma NothingFolded(h: Hashes, sv: StoreValue, d: Draft)
    ensures Folded(h, sv, d, [])
  {
  }

  lemma FoldAgain(h: Hashes, sv: StoreValue, d: Draft, votes: seq<SignedAttestation>, out: seq<SignedAttestation>)
    requires Folded(h, sv, d, votes) && Build(h, d, votes).Ok? && Round(sv, Build(h, d, votes).value, votes, out)
    ensures Folded(h, sv, d, votes + out)
  {
    hide Build, Round;
    var all := votes + out;
    assert all[..|votes|] == votes && all[|votes|..] == out;
    RoundNotEmpty(sv, Build(h, d, votes).value, votes, out);
    assert LastRound(h, sv, d, all, |votes|);
  }

  lemma RoundNotEmpty(sv: StoreValue, post: State, already: seq<SignedAttestation>, out: seq<SignedAttestation>)
    requires Round(sv, post, already, out)
    ensures out != []
  {
  }

  /** Folded votes are distinct pooled votes within the cap. */
  lemma {:induction false} FoldedVotes(h: Hashes, sv: StoreValue, d: Draft, votes: seq<SignedAttestation>)
    requires Folded(h, sv, d, votes)
    ensures Distinct(votes) && |votes| <= MAX_ATTESTATIONS && forall x :: x in votes ==> InPool(sv.known, x)
    decreases |votes|
  {
    hide Build;
    if votes != [] {
      var k :| LastRound(h, sv, d, votes, k) && Folded(h, sv, d, votes[..k]);
      FoldedVotes(h, sv, d, votes[..k]);
      assert votes == votes[..k] + votes[k..];
      forall x | x in votes[k..] ensures x !in votes[..k] && InPool(sv.known, x) {
        assert Includable(sv, Build(h, d, votes[..k]).value, votes[..k], x);
      }
      AppendDistinct(votes[..k], votes[k..]);
    }
  }

  /** How a vote came into the list: it is pooled, its target is tracked, and its source is
      the justified checkpoint of the candidate over the votes before its round. */
  ghost predicate CameIn(h: Hashes, sv: StoreValue, d: Draft, votes: seq<SignedAttestation>, i: nat, k: nat) {
    && k <= i < |votes| && InPool(sv.known, votes[i]) && votes[i].message.data.target.root in sv.blocks
    && Build(h, d, votes[..k]).Ok? && votes[i].message.data.source == Build(h, d, votes[..k]).value.justified
  }

  lemma {:induction false} EachVoteCameIn(h: Hashes, sv: StoreValue, d: Draft, votes: seq<SignedAttestation>, i: nat)
    returns (k: nat)
    requires Folded(h, sv, d, votes) && i < |votes|
    ensures CameIn(h, sv, d, votes, i, k)
    decreases |votes|
  {
    hide Build;
    var m :| LastRound(h, sv, d, votes, m) && Folded(h, sv, d, votes[..m]);
    if i < m {
      k := EachVoteCameIn(h, sv, d, votes[..m], i);
      assert votes[..m][..k] == votes[..k];
    } else {
      k := m;
      assert votes[i] == votes[m..][i - m] && votes[i] in votes[m..];
      assert Includable(sv, Build(h, d, votes[..m]).value, votes[..m], votes[i]);
    }
  }

  lemma NothingToAdd(sv: StoreValue, post: State, votes: seq<SignedAttestation>)
    requires Distinct(votes) && |votes| <= MAX_ATTESTATIONS && KeyedByValidator(sv.known)
    requires forall x :: x in votes ==> InPool(sv.known, x)
    requires |votes| < MAX_ATTESTATIONS ==> forall v :: v in sv.known ==> !Includable(sv, post, votes, sv.known[v])
    ensures Converged(sv, votes, post)
  {
  }

  // ---------------------------------------------------------------- success and failure

  /** A successful candidate's justified slot lies below its own. */
  lemma JustifiedBelowCandidate(h: Hashes, d: Draft, votes: seq<SignedAttestation>)
    requires ChainInv(h, d.state) && d.state.slot == d.state.header.slot
    requires |d.state.validators| <= VALIDATOR_REGISTRY_LIMIT && Build(h, d, votes).Ok?
    ensures Build(h, d, votes).value.justified.slot < d.slot
  {
    hide Candidate, StateTransition, NamesSlot, ParentBelow, PendingSorted, AllPending;
    CandidateReplays(h, d.head, d.slot, d.validator, d.state, votes);
    var post := Build(h, d, votes).value;
    var b := CandidateBlock(d.head, d.slot, d.validator, votes).(stateRoot := h.state(post));
    WholeKeepsInvariant(h, d.state, b, true);
    TransitionSeals(h, d.state, b);
    assert post.header.slot == d.slot && |post.history| == d.slot > 0;
    assert Anchored(post.history, post.justifiedSlots, post.justified);
  }

  /** The draft builds on a tracked block of a valid store. */
  ghost predicate Grounded(sv: StoreValue, d: Draft) {
    d.head in sv.blocks && d.head in sv.states && d.state == sv.states[d.head]
  }

  lemma GroundedState(h: Hashes, sv: StoreValue, anchor: Root, registry: seq<Validator>, d: Draft)
    requires StoreInv(h, sv, anchor, registry) && Grounded(sv, d)
    ensures ChainInv(h, d.state) && d.state.slot == d.state.header.slot && d.state.validators == registry
    ensures |registry| <= VALIDATOR_REGISTRY_LIMIT && PoolInv(sv.blocks, |registry|, sv.known)
  {
    hide StatesReplay, TreeInv, OrderInv, ChainInv;
    assert PairInv(h, d.head, sv.blocks[d.head], sv.states[d.head], registry);
  }

  /** Every folded vote has its source and voter in range. */
  lemma {:induction false} FoldedInRange(
      h: Hashes, sv: StoreValue, anchor: Root, registry: seq<Validator>, d: Draft, votes: seq<SignedAttestation>)
    requires StoreInv(h, sv, anchor, registry) && Grounded(sv, d) && Folded(h, sv, d, votes)
    ensures forall x :: x in votes ==> x.message.data.source.slot < d.slot && x.message.validatorId < |registry|
    decreases |votes|
  {
    hide StoreInv, ChainInv, Build, Grounded;
    if votes != [] {
      var k :| LastRound(h, sv, d, votes, k) && Folded(h, sv, d, votes[..k]);
      FoldedInRange(h, sv, anchor, registry, d, votes[..k]);
      GroundedState(h, sv, anchor, registry, d);
      JustifiedBelowCandidate(h, d, votes[..k]);
      var post := Build(h, d, votes[..k]).value;
      forall x | x in votes ensures x.message.data.source.slot < d.slot && x.message.validatorId < |registry| {
        if x !in votes[..k] {
          assert votes == votes[..k] + votes[k..];
          assert Includable(sv, post, votes[..k], x);
        }
      }
    }
  }

  /** No pooled vote from `source` with a tracked target reaches the slot. */
  ghost predicate NoLateVote(sv: StoreValue, source: Checkpoint, slot: Slot) {
    forall v :: v in sv.known ==>
      var vote := sv.known[v].message.data;
      vote.source == source && vote.target.root in sv.blocks ==> vote.target.slot < slot
  }

  /** No pooled vote at all with a tracked target reaches the slot. */
  ghost predicate NoLateTarget(sv: StoreValue, slot: Slot) {
    forall v :: v in sv.known && sv.known[v].message.data.target.root in sv.blocks ==>
      sv.known[v].message.data.target.slot < slot
  }

  ghost predicate Late(votes: seq<SignedAttestation>, slot: Slot) {
    exists x :: x in votes && x.message.data.target.slot >= slot
  }

  /** Some vote list the loop can reach holds a vote whose target is not below the slot. */
  ghost predicate LateFold(h: Hashes, sv: StoreValue, d: Draft) {
    exists votes :: Folded(h, sv, d, votes) && Late(votes, d.slot)
  }

  /** Over folded votes a candidate fails exactly when the validator may not propose or a
      vote's target is not below the candidate's slot. */
  lemma FoldedCandidateIff(
      h: Hashes, sv: StoreValue, anchor: Root, registry: seq<Validator>, d: Draft, votes: seq<SignedAttestation>)
    requires SoundHashes(h) && StoreInv(h, sv, anchor, registry) && Grounded(sv, d) && Folded(h, sv, d, votes)
    ensures Build(h, d, votes).Ok? <==>
            MayPropose(sv.blocks[d.head].slot, |registry|, d.slot, d.validator) && !Late(votes, d.slot)
  {
    hide SoundHashes, StoreInv, Folded, Candidate, MayPropose;
    FoldedInRange(h, sv, anchor, registry, d, votes);
    CandidateIff(h, sv, anchor, registry, d.head, d.slot, d.validator, votes);
  }

  lemma FailedFoldIsLate(
      h: Hashes, sv: StoreValue, anchor: Root, registry: seq<Validator>, d: Draft, error: ForkchoiceError)
    requires SoundHashes(h) && StoreInv(h, sv, anchor, registry) && Grounded(sv, d)
    requires exists votes :: Folded(h, sv, d, votes) && Build(h, d, votes) == Err(error)
    ensures MayPropose(sv.blocks[d.head].slot, |registry|, d.slot, d.validator) ==>
              LateFold(h, sv, d) && !NoLateTarget(sv, d.slot)
  {
    hide SoundHashes, StoreInv, Folded, Build, MayPropose, Includable;
    var votes :| Folded(h, sv, d, votes) && Build(h, d, votes) == Err(error);
    FoldedCandidateIff(h, sv, anchor, registry, d, votes);
    if MayPropose(sv.blocks[d.head].slot, |registry|, d.slot, d.validator) {
      var x: SignedAttestation :| x in votes && x.message.data.target.slot >= d.slot;
      FoldedTargetsTracked(h, sv, d, votes);
      FoldedVotes(h, sv, d, votes);
    }
  }

  lemma {:induction false} FoldedTargetsTracked(h: Hashes, sv: StoreValue, d: Draft, votes: seq<SignedAttestation>)
    requires Folded(h, sv, d, votes)
    ensures forall x :: x in votes ==> x.message.data.target.root in sv.blocks
    decreases |votes|
  {
    hide Build;
    if votes != [] {
      var k :| LastRound(h, sv, d, votes, k) && Folded(h, sv, d, votes[..k]);
      FoldedTargetsTracked(h, sv, d, votes[..k]);
      assert votes == votes[..k] + votes[k..];
      forall x | x in votes[k..] ensures x.message.data.target.root in sv.blocks {
        assert Includable(sv, Build(h, d, votes[..k]).value, votes[..k], x);
      }
    }
  }

  /** With at most as many validators as the cap allows votes, the cap never cuts one. */
  lemma CapNeverCuts(blocks: Blocks, n: nat, pool: Pool, votes: seq<SignedAttestation>, v: U64)
    requires PoolInv(blocks, n, pool) && n <= MAX_ATTESTATIONS == |votes| && v in pool
    requires Distinct(votes) && forall x :: x in votes ==> InPool(pool, x)
    ensures pool[v] in votes
  {
    var ids := Voters(votes);
    VotersAreDistinct(pool, votes);
    SubsetSizeOfKeys(pool.Keys, n);
    EqualBySize(Elements(ids), pool.Keys);
    var i :| 0 <= i < |ids| && ids[i] == v;
    assert votes[i] in votes && InPool(pool, votes[i]);
  }

  lemma ConvergedHasNoLateVote(
      h: Hashes, sv: StoreValue, anchor: Root, registry: seq<Validator>, d: Draft,
      votes: seq<SignedAttestation>, post: State)
    requires SoundHashes(h) && StoreInv(h, sv, anchor, registry) && Grounded(sv, d)
    requires Folded(h, sv, d, votes) && Build(h, d, votes) == Ok(post) && Converged(sv, votes, post)
    ensures MayPropose(sv.blocks[d.head].slot, |registry|, d.slot, d.validator)
    ensures NoLateVote(sv, post.justified, d.slot)
  {
    hide SoundHashes, StoreInv, Folded, Build, MayPropose, ChainInv;
    FoldedCandidateIff(h, sv, anchor, registry, d, votes);
    GroundedState(h, sv, anchor, registry, d);
    forall v | v in sv.known && sv.known[v].message.data.source == post.justified
               && sv.known[v].message.data.target.root in sv.blocks
      ensures sv.known[v].message.data.target.slot < d.slot
    {
      if |votes| == MAX_ATTESTATIONS { CapNeverCuts(sv.blocks, |registry|, sv.known, votes, v); }
      assert sv.known[v] in votes;
    }
  }
}
