/**
  LMD-GHOST head selection. The program accumulates weights by walking each vote
  back to the origin's slot, filters a children map by the threshold and descends
  greedily. Over any block map whose parent links do not cycle, that is a greedy descent
  by the number of votes whose walk visits a block, whatever order the maps are read in.
  When tracked parents also sit at lower slots, as after every accepted block, it is
  recursive GHOST: a block's weight is the number of validators whose vote has it as an
  ancestor.
 */
module Ghost {
  import opened Containers

  type Blocks = map<Root, Block>
  type Votes = map<U64, Checkpoint>

  // ---------------------------------------------------------------- ancestry

  /** A tracked parent sits at a strictly lower slot. */
  ghost predicate SlotsDescend(blocks: Blocks) {
    forall r :: r in blocks && blocks[r].parentRoot in blocks ==> blocks[blocks[r].parentRoot].slot < blocks[r].slot
  }

  ghost function Depth(blocks: Blocks, r: Root): nat {
    if r in blocks then blocks[r].slot + 1 else 0
  }

  /** `a` is `d` or an ancestor of `d`, along tracked blocks. */
  ghost predicate Ancestor(blocks: Blocks, a: Root, d: Root)
    requires SlotsDescend(blocks)
    decreases Depth(blocks, d)
  {
    d in blocks && (a == d || Ancestor(blocks, a, blocks[d].parentRoot))
  }

  lemma {:induction false} AncestorSlot(blocks: Blocks, a: Root, d: Root)
    requires SlotsDescend(blocks) && Ancestor(blocks, a, d)
    ensures a in blocks && blocks[a].slot <= blocks[d].slot
    ensures a != d ==> blocks[a].slot < blocks[d].slot
    decreases Depth(blocks, d)
  {
    if a != d { AncestorSlot(blocks, a, blocks[d].parentRoot); }
  }

  lemma {:induction false} AncestorTransitive(blocks: Blocks, a: Root, b: Root, c: Root)
    requires SlotsDescend(blocks) && Ancestor(blocks, a, b) && Ancestor(blocks, b, c)
    ensures Ancestor(blocks, a, c)
    decreases Depth(blocks, c)
  {
    if b != c { AncestorTransitive(blocks, a, b, blocks[c].parentRoot); }
  }

  /** Two ancestors of one block are related. */
  lemma {:induction false} AncestorsLinear(blocks: Blocks, a: Root, b: Root, d: Root)
    requires SlotsDescend(blocks) && Ancestor(blocks, a, d) && Ancestor(blocks, b, d)
    ensures Ancestor(blocks, a, b) || Ancestor(blocks, b, a)
    decreases Depth(blocks, d)
  {
    if a != d && b != d { AncestorsLinear(blocks, a, b, blocks[d].parentRoot); }
  }

  // ---------------------------------------------------------------- reference

  /** The validator's vote counts for `b`: `b` is above the origin's slot and the
      voted block descends from it. */
  ghost predicate Supports(blocks: Blocks, rootSlot: nat, votes: Votes, v: U64, b: Root)
    requires SlotsDescend(blocks)
  {
    v in votes && b in blocks && blocks[b].slot > rootSlot && Ancestor(blocks, b, votes[v].root)
  }

  ghost function VotersFor(blocks: Blocks, rootSlot: nat, votes: Votes, among: set<U64>, b: Root): set<U64>
    requires SlotsDescend(blocks)
  {
    set v | v in among && Supports(blocks, rootSlot, votes, v, b)
  }

  ghost function Weight(blocks: Blocks, rootSlot: nat, votes: Votes, b: Root): nat
    requires SlotsDescend(blocks)
  {
    |VotersFor(blocks, rootSlot, votes, votes.Keys, b)|
  }

  ghost function Kids(blocks: Blocks, rootSlot: nat, votes: Votes, minScore: nat, c: Root): set<Root>
    requires SlotsDescend(blocks)
  {
    set r | r in blocks && blocks[r].parentRoot == c && Weight(blocks, rootSlot, votes, r) >= minScore
  }

  /** `(weight, root)` of `a` is at least that of `b`. */
  predicate Beats(wa: nat, a: Root, wb: nat, b: Root) {
    wa > wb || (wa == wb && a >= b)
  }

  ghost predicate IsBest(blocks: Blocks, rootSlot: nat, votes: Votes, kids: set<Root>, r: Root)
    requires SlotsDescend(blocks)
  {
    r in kids && forall q :: q in kids ==>
      Beats(Weight(blocks, rootSlot, votes, r), r, Weight(blocks, rootSlot, votes, q), q)
  }

  lemma {:induction false} BestExists(blocks: Blocks, rootSlot: nat, votes: Votes, kids: set<Root>)
    requires SlotsDescend(blocks) && kids != {}
    ensures exists r :: IsBest(blocks, rootSlot, votes, kids, r)
    decreases |kids|
  {
    var x :| x in kids;
    var rest := kids - {x};
    assert kids == rest + {x};
    if rest == {} {
      assert IsBest(blocks, rootSlot, votes, kids, x);
    } else {
      BestExists(blocks, rootSlot, votes, rest);
      var y :| IsBest(blocks, rootSlot, votes, rest, y);
      var wx, wy := Weight(blocks, rootSlot, votes, x), Weight(blocks, rootSlot, votes, y);
      assert IsBest(blocks, rootSlot, votes, kids, if Beats(wx, x, wy, y) then x else y);
    }
  }

  ghost function Best(blocks: Blocks, rootSlot: nat, votes: Votes, kids: set<Root>): (r: Root)
    requires SlotsDescend(blocks) && kids != {}
    ensures IsBest(blocks, rootSlot, votes, kids, r)
  {
    BestExists(blocks, rootSlot, votes, kids);
    var r :| IsBest(blocks, rootSlot, votes, kids, r);
    r
  }

  /** Recursive GHOST: step to the best qualifying child until there is none. */
  ghost function Descend(blocks: Blocks, rootSlot: nat, votes: Votes, minScore: nat, c: Root): (r: Root)
    requires SlotsDescend(blocks) && c in blocks
    ensures r in blocks
    decreases U64_MAX - blocks[c].slot
  {
    var kids := Kids(blocks, rootSlot, votes, minScore, c);
    if kids == {} then c else
    Descend(blocks, rootSlot, votes, minScore, Best(blocks, rootSlot, votes, kids))
  }

  // ---------------------------------------------------------------- origin

  ghost predicate IsOrigin(blocks: Blocks, r: Root) {
    r in blocks && forall q :: q in blocks ==>
      blocks[r].slot < blocks[q].slot || (blocks[r].slot == blocks[q].slot && r <= q)
  }

  lemma {:induction false} OriginExists(blocks: Blocks)
    requires blocks != map[]
    ensures exists r :: IsOrigin(blocks, r)
    decreases |blocks|
  {
    var x :| x in blocks;
    var rest := blocks - {x};
    assert blocks.Keys == rest.Keys + {x};
    if rest == map[] {
      assert IsOrigin(blocks, x);
    } else {
      OriginExists(rest);
      var y :| IsOrigin(rest, y);
      var low := blocks[x].slot < blocks[y].slot || (blocks[x].slot == blocks[y].slot && x <= y);
      assert IsOrigin(blocks, if low then x else y);
    }
  }

  /** `min_block_root`: lowest slot, then smallest root. */
  method MinBlockRoot(blocks: Blocks) returns (r: Option<Root>)
    ensures r.None? <==> blocks == map[]
    ensures r.Some? ==> IsOrigin(blocks, r.value)
  {
    r := None;
    var left := blocks.Keys;
    while left != {}
      invariant left <= blocks.Keys
      invariant r.None? <==> left == blocks.Keys
      invariant r.Some? ==> r.value in blocks
      invariant r.Some? ==> forall q :: q in blocks && q !in left ==>
          blocks[r.value].slot < blocks[q].slot || (blocks[r.value].slot == blocks[q].slot && r.value <= q)
      decreases |left|
    {
      var q :| q in left;
      left := left - {q};
      if r.None? || blocks[q].slot < blocks[r.value].slot || (blocks[q].slot == blocks[r.value].slot && q < r.value) {
        r := Some(q);
      }
    }
  }

  // ---------------------------------------------------------------- weights

  /** The walk from `d` reaches the origin's slot without leaving the block map. */
  ghost predicate WalkStays(blocks: Blocks, rootSlot: nat, d: Root)
    requires SlotsDescend(blocks)
    decreases Depth(blocks, d)
  {
    d in blocks && (blocks[d].slot <= rootSlot || WalkStays(blocks, rootSlot, blocks[d].parentRoot))
  }

  /** Every vote for a tracked block can be walked back to the origin's slot. */
  ghost predicate NoGap(blocks: Blocks, rootSlot: nat, votes: Votes)
    requires SlotsDescend(blocks)
  {
    forall v :: v in votes && votes[v].root in blocks ==> WalkStays(blocks, rootSlot, votes[v].root)
  }

  function WeightOf(weights: map<Root, nat>, b: Root): nat {
    if b in weights then weights[b] else 0
  }

  // ---------------------------------------------------------------- acyclic block maps

  /** A block map with a rank that falls along parent links, so that they do not cycle. */
  datatype Forest = Forest(blocks: Blocks, rank: Root -> nat, top: nat)

  ghost predicate Acyclic(f: Forest) {
    forall r :: r in f.blocks ==>
      f.rank(r) <= f.top &&
      (f.blocks[r].parentRoot in f.blocks ==> f.rank(f.blocks[r].parentRoot) < f.rank(r))
  }

  /** Where parents sit at lower slots the slot itself is a rank. */
  ghost function BySlot(blocks: Blocks): (f: Forest)
    ensures f.blocks == blocks && (SlotsDescend(blocks) ==> Acyclic(f))
  {
    Forest(blocks, r => if r in blocks then blocks[r].slot else 0, U64_MAX)
  }

  ghost function Height(f: Forest, r: Root): nat {
    if r in f.blocks then f.rank(r) + 1 else 0
  }

  /** The walk from `d` down to the origin's slot passes `b`. */
  ghost predicate Visits(f: Forest, rootSlot: nat, b: Root, d: Root)
    requires Acyclic(f)
    decreases Height(f, d)
  {
    d in f.blocks && f.blocks[d].slot > rootSlot && (b == d || Visits(f, rootSlot, b, f.blocks[d].parentRoot))
  }

  ghost predicate WalkEnds(f: Forest, rootSlot: nat, d: Root)
    requires Acyclic(f)
    decreases Height(f, d)
  {
    d in f.blocks && (f.blocks[d].slot <= rootSlot || WalkEnds(f, rootSlot, f.blocks[d].parentRoot))
  }

  lemma {:induction false} VisitsRank(f: Forest, rootSlot: nat, b: Root, d: Root)
    requires Acyclic(f) && Visits(f, rootSlot, b, d)
    ensures b in f.blocks && f.rank(b) <= f.rank(d)
    decreases Height(f, d)
  {
    if b != d { VisitsRank(f, rootSlot, b, f.blocks[d].parentRoot); }
  }

  lemma {:induction false} VisitsParent(f: Forest, rootSlot: nat, b: Root, d: Root)
    requires Acyclic(f) && Visits(f, rootSlot, b, d)
    requires b in f.blocks && f.blocks[b].parentRoot in f.blocks && f.blocks[f.blocks[b].parentRoot].slot > rootSlot
    ensures Visits(f, rootSlot, f.blocks[b].parentRoot, d)
    decreases Height(f, d)
  {
    if b == d {
      assert Visits(f, rootSlot, f.blocks[b].parentRoot, f.blocks[d].parentRoot);
    } else {
      VisitsParent(f, rootSlot, b, f.blocks[d].parentRoot);
    }
  }

  /** The votes of `among` whose walk passes `b`. */
  ghost function VisitorsOf(f: Forest, rootSlot: nat, votes: Votes, among: set<U64>, b: Root): set<U64>
    requires Acyclic(f)
  {
    set v | v in among && v in votes && Visits(f, rootSlot, b, votes[v].root)
  }

  ghost predicate WeightsHold(f: Forest, rootSlot: nat, votes: Votes, among: set<U64>, weights: map<Root, nat>)
    requires Acyclic(f)
  {
    forall b :: b in f.blocks ==> WeightOf(weights, b) == |VisitorsOf(f, rootSlot, votes, among, b)|
  }

  /** Every walk from a tracked vote ends, or else one runs off the map at `m`. */
  ghost predicate AllWalksEnd(f: Forest, rootSlot: nat, votes: Votes)
    requires Acyclic(f)
  {
    forall v :: v in votes && votes[v].root in f.blocks ==> WalkEnds(f, rootSlot, votes[v].root)
  }

  ghost predicate RunsOffAt(f: Forest, rootSlot: nat, votes: Votes, m: Root)
    requires Acyclic(f)
  {
    && m !in f.blocks
    && (exists v, b :: v in votes && b in f.blocks && f.blocks[b].parentRoot == m && Visits(f, rootSlot, b, votes[v].root))
  }

  lemma OneMoreVisitor(f: Forest, rootSlot: nat, votes: Votes, among: set<U64>, v: U64, b: Root)
    requires Acyclic(f) && v in votes && v !in among
    ensures |VisitorsOf(f, rootSlot, votes, among + {v}, b)| ==
            |VisitorsOf(f, rootSlot, votes, among, b)| + if Visits(f, rootSlot, b, votes[v].root) then 1 else 0
  {
    var x := VisitorsOf(f, rootSlot, votes, among, b);
    var y := VisitorsOf(f, rootSlot, votes, among + {v}, b);
    if Visits(f, rootSlot, b, votes[v].root) { assert y == x + {v}; } else { assert y == x; }
  }

  /** What has been counted and what the walk still has to pass add up. */
  ghost predicate Balanced(
      f: Forest, rootSlot: nat, before: map<Root, nat>, weights: map<Root, nat>, start: Root, cursor: Root)
    requires Acyclic(f)
  {
    forall b :: b in f.blocks ==>
      WeightOf(weights, b) + (if Visits(f, rootSlot, b, cursor) then 1 else 0) ==
      WeightOf(before, b) + (if Visits(f, rootSlot, b, start) then 1 else 0)
  }

  lemma StepUp(f: Forest, rootSlot: nat, before: map<Root, nat>, weights: map<Root, nat>, start: Root, cursor: Root)
    requires Acyclic(f) && cursor in f.blocks && f.blocks[cursor].slot > rootSlot
    requires Balanced(f, rootSlot, before, weights, start, cursor)
    ensures Balanced(f, rootSlot, before, weights[cursor := WeightOf(weights, cursor) + 1], start,
                     f.blocks[cursor].parentRoot)
  {
    var parent := f.blocks[cursor].parentRoot;
    if Visits(f, rootSlot, cursor, parent) { VisitsRank(f, rootSlot, cursor, parent); }
    forall b | b in f.blocks
      ensures Visits(f, rootSlot, b, cursor) <==> b == cursor || Visits(f, rootSlot, b, parent)
    {
    }
  }

  /** One vote: walk back from the voted block, bumping every block passed. */
  method AddVote(ghost f: Forest, blocks: Blocks, rootSlot: Slot, start: Root, before: map<Root, nat>)
    returns (missing: Option<Root>, weights: map<Root, nat>)
    requires f.blocks == blocks && Acyclic(f) && start in blocks
    ensures missing.None? <==> WalkEnds(f, rootSlot, start)
    ensures missing.None? ==> forall b :: b in blocks ==>
              WeightOf(weights, b) == WeightOf(before, b) + if Visits(f, rootSlot, b, start) then 1 else 0
    ensures missing.Some? ==> missing.value !in blocks
    ensures missing.Some? ==>
              exists b :: b in blocks && blocks[b].parentRoot == missing.value && Visits(f, rootSlot, b, start)
  {
    weights := before;
    var cursor := start;
    while blocks[cursor].slot > rootSlot
      invariant cursor in blocks && Balanced(f, rootSlot, before, weights, start, cursor)
      invariant blocks[cursor].slot > rootSlot ==> Visits(f, rootSlot, cursor, start)
      invariant WalkEnds(f, rootSlot, start) <==> WalkEnds(f, rootSlot, cursor)
      decreases f.rank(cursor)
    {
      StepUp(f, rootSlot, before, weights, start, cursor);
      weights := weights[cursor := WeightOf(weights, cursor) + 1];
      var parent := blocks[cursor].parentRoot;
      if parent !in blocks { return Some(parent), weights; }
      if blocks[parent].slot > rootSlot { VisitsParent(f, rootSlot, cursor, start); }
      cursor := parent;
    }
    missing := None;
  }

  /** Step 1: the weight of every block, votes taken in any order. */
  method Accumulate(ghost f: Forest, blocks: Blocks, rootSlot: Slot, votes: Votes)
    returns (r: Result<map<Root, nat>, Root>)
    requires f.blocks == blocks && Acyclic(f)
    ensures r.Ok? <==> AllWalksEnd(f, rootSlot, votes)
    ensures r.Ok? ==> WeightsHold(f, rootSlot, votes, votes.Keys, r.value)
    ensures r.Err? ==> RunsOffAt(f, rootSlot, votes, r.error)
  {
    hide Visits, WalkEnds, VisitorsOf, Acyclic;
    var weights: map<Root, nat> := map[];
    var left := votes.Keys;
    NoVisitors(f, rootSlot, votes);
    assert votes.Keys - left == {};
    while left != {}
      invariant left <= votes.Keys
      invariant WeightsHold(f, rootSlot, votes, votes.Keys - left, weights)
      invariant forall v :: v in votes && v !in left && votes[v].root in blocks ==> WalkEnds(f, rootSlot, votes[v].root)
      decreases |left|
    {
      var v :| v in left;
      ghost var done := votes.Keys - left;
      assert votes.Keys - (left - {v}) == done + {v};
      OneMoreVisitorEach(f, rootSlot, votes, done, v);
      if votes[v].root !in blocks { UntrackedVisitsNothing(f, rootSlot, votes[v].root); }
      left := left - {v};
      if votes[v].root in blocks {
        var missing, next := AddVote(f, blocks, rootSlot, votes[v].root, weights);
        if missing.Some? { return Err(missing.value); }
        weights := next;
      }
    }
    assert votes.Keys - {} == votes.Keys;
    r := Ok(weights);
  }

  lemma NoVisitors(f: Forest, rootSlot: nat, votes: Votes)
    requires Acyclic(f)
    ensures WeightsHold(f, rootSlot, votes, {}, map[])
  {
    forall b | b in f.blocks ensures |VisitorsOf(f, rootSlot, votes, {}, b)| == 0 {
      assert VisitorsOf(f, rootSlot, votes, {}, b) == {};
    }
  }

  lemma UntrackedVisitsNothing(f: Forest, rootSlot: nat, d: Root)
    requires Acyclic(f) && d !in f.blocks
    ensures forall b :: !Visits(f, rootSlot, b, d)
  {
  }

  lemma OneMoreVisitorEach(f: Forest, rootSlot: nat, votes: Votes, among: set<U64>, v: U64)
    requires Acyclic(f) && v in votes && v !in among
    ensures forall b :: b in f.blocks ==>
              |VisitorsOf(f, rootSlot, votes, among + {v}, b)| ==
              |VisitorsOf(f, rootSlot, votes, among, b)| + if Visits(f, rootSlot, b, votes[v].root) then 1 else 0
  {
    forall b | b in f.blocks ensures
      |VisitorsOf(f, rootSlot, votes, among + {v}, b)| ==
      |VisitorsOf(f, rootSlot, votes, among, b)| + if Visits(f, rootSlot, b, votes[v].root) then 1 else 0
    {
      OneMoreVisitor(f, rootSlot, votes, among, v, b);
    }
  }

  // ---------------------------------------------------------------- children

  function ListAt(children: map<Root, seq<Root>>, c: Root): seq<Root> {
    if c in children then children[c] else []
  }

  /** Step 2: the children map, filtered by the threshold. */
  method FilterChildren(blocks: Blocks, weights: map<Root, nat>, minScore: nat)
    returns (children: map<Root, seq<Root>>)
    ensures forall c, r :: r in ListAt(children, c) <==>
              r in blocks && blocks[r].parentRoot == c && WeightOf(weights, r) >= minScore
  {
    children := map[];
    assert forall c :: ListAt(children, c) == [];
    var left := blocks.Keys;
    while left != {}
      invariant left <= blocks.Keys
      invariant forall c, r :: r in ListAt(children, c) <==>
                  r in blocks && r !in left && blocks[r].parentRoot == c && WeightOf(weights, r) >= minScore
      decreases |left|
    {
      var q :| q in left;
      left := left - {q};
      if WeightOf(weights, q) >= minScore {
        var p := blocks[q].parentRoot;
        ghost var before := children;
        children := children[p := ListAt(children, p) + [q]];
        assert forall c :: ListAt(children, c) == if c == p then ListAt(before, p) + [q] else ListAt(before, c);
      }
    }
  }

  /** The child of greatest `(weight, root)`. */
  method MaxChild(kids: seq<Root>, weights: map<Root, nat>) returns (best: Root)
    requires kids != []
    ensures best in kids
    ensures forall q :: q in kids ==> Beats(WeightOf(weights, best), best, WeightOf(weights, q), q)
  {
    best := kids[0];
    for i := 1 to |kids|
      invariant best in kids
      invariant forall j :: 0 <= j < i ==> Beats(WeightOf(weights, best), best, WeightOf(weights, kids[j]), kids[j])
    {
      if Beats(WeightOf(weights, kids[i]), kids[i], WeightOf(weights, best), best) { best := kids[i]; }
    }
  }

  // ---------------------------------------------------------------- head

  /** The descent has a block to start from. */
  ghost predicate Resolvable(blocks: Blocks, root: Root) {
    if root == ZERO_ROOT then blocks != map[] else root in blocks
  }

  /** That block: the given root, or the lowest block when the root is zero. */
  ghost function Origin(blocks: Blocks, root: Root): (r: Root)
    requires Resolvable(blocks, root)
    ensures r in blocks
  {
    if root == ZERO_ROOT then
      OriginExists(blocks);
      var r: Root :| IsOrigin(blocks, r);
      r
    else root
  }

  /** The head by recursive GHOST. */
  ghost function Head(blocks: Blocks, root: Root, votes: Votes, minScore: nat): (r: Root)
    requires SlotsDescend(blocks) && Resolvable(blocks, root)
    ensures r in blocks
  {
    var origin := Origin(blocks, root);
    Descend(blocks, blocks[origin].slot, votes, minScore, origin)
  }

  // ---------------------------------------------------------------- greedy descent

  ghost predicate GreedyKid(f: Forest, weights: map<Root, nat>, minScore: nat, c: Root, r: Root) {
    r in f.blocks && f.blocks[r].parentRoot == c && WeightOf(weights, r) >= minScore
  }

  /** The qualifying child of `c` with the greatest `(weight, root)`. */
  ghost predicate GreedyStep(f: Forest, weights: map<Root, nat>, minScore: nat, c: Root, r: Root) {
    && GreedyKid(f, weights, minScore, c, r)
    && forall q :: GreedyKid(f, weights, minScore, c, q) ==> Beats(WeightOf(weights, r), r, WeightOf(weights, q), q)
  }

  ghost predicate Stuck(f: Forest, weights: map<Root, nat>, minScore: nat, c: Root) {
    forall r :: !GreedyStep(f, weights, minScore, c, r)
  }

  /** `end` is where stepping to the best qualifying child from `c` stops. */
  ghost predicate GreedyEnd(f: Forest, weights: map<Root, nat>, minScore: nat, c: Root, end: Root)
    requires Acyclic(f) && c in f.blocks
    decreases f.top - f.rank(c)
  {
    if Stuck(f, weights, minScore, c) then end == c
    else exists r :: GreedyStep(f, weights, minScore, c, r) && GreedyEnd(f, weights, minScore, r, end)
  }

  /** The weights of every tracked block. */
  ghost function Weights(f: Forest, rootSlot: nat, votes: Votes): map<Root, nat>
    requires Acyclic(f)
  {
    map b | b in f.blocks :: |VisitorsOf(f, rootSlot, votes, votes.Keys, b)|
  }

  /** Steps 2 and 3: the filtered children map and the greedy descent. */
  method DescendFrom(ghost f: Forest, blocks: Blocks, start: Root, weights: map<Root, nat>, minScore: nat)
    returns (current: Root)
    requires f.blocks == blocks && Acyclic(f) && start in blocks
    ensures current in blocks && GreedyEnd(f, weights, minScore, start, current)
  {
    var children := FilterChildren(blocks, weights, minScore);
    current := start;
    ghost var path := [start];
    while ListAt(children, current) != []
      invariant current in blocks && path != [] && path[0] == start && path[|path| - 1] == current
      invariant forall i :: 0 <= i < |path| ==> path[i] in blocks
      invariant forall i :: 0 <= i < |path| - 1 ==> GreedyStep(f, weights, minScore, path[i], path[i + 1])
      decreases f.top - f.rank(current)
    {
      var best := MaxChild(ListAt(children, current), weights);
      assert GreedyStep(f, weights, minScore, current, best);
      path := path + [best];
      current := best;
    }
    assert Stuck(f, weights, minScore, current);
    PathIsGreedy(f, weights, minScore, path);
  }

  lemma {:induction false} PathIsGreedy(f: Forest, weights: map<Root, nat>, minScore: nat, path: seq<Root>)
    requires Acyclic(f) && path != [] && forall i :: 0 <= i < |path| ==> path[i] in f.blocks
    requires forall i :: 0 <= i < |path| - 1 ==> GreedyStep(f, weights, minScore, path[i], path[i + 1])
    requires Stuck(f, weights, minScore, path[|path| - 1])
    ensures GreedyEnd(f, weights, minScore, path[0], path[|path| - 1])
    decreases |path|
  {
    if |path| > 1 {
      PathIsGreedy(f, weights, minScore, path[1..]);
      assert GreedyStep(f, weights, minScore, path[0], path[1]);
    }
  }

  /** The descent reads only the weights of tracked blocks. */
  lemma {:induction false} GreedyFrame(
      f: Forest, a: map<Root, nat>, b: map<Root, nat>, minScore: nat, c: Root, end: Root)
    requires Acyclic(f) && c in f.blocks && forall r :: r in f.blocks ==> WeightOf(a, r) == WeightOf(b, r)
    requires GreedyEnd(f, a, minScore, c, end)
    ensures GreedyEnd(f, b, minScore, c, end)
    decreases f.top - f.rank(c)
  {
    assert forall r :: GreedyStep(f, a, minScore, c, r) <==> GreedyStep(f, b, minScore, c, r);
    if !Stuck(f, a, minScore, c) {
      var r :| GreedyStep(f, a, minScore, c, r) && GreedyEnd(f, a, minScore, r, end);
      GreedyFrame(f, a, b, minScore, r, end);
    }
  }

  /** The order in which the maps are read does not show: there is one end. */
  lemma {:induction false} GreedyEndUnique(
      f: Forest, weights: map<Root, nat>, minScore: nat, c: Root, x: Root, y: Root)
    requires Acyclic(f) && c in f.blocks
    requires GreedyEnd(f, weights, minScore, c, x) && GreedyEnd(f, weights, minScore, c, y)
    ensures x == y
    decreases f.top - f.rank(c)
  {
    if !Stuck(f, weights, minScore, c) {
      var r :| GreedyStep(f, weights, minScore, c, r) && GreedyEnd(f, weights, minScore, r, x);
      var q :| GreedyStep(f, weights, minScore, c, q) && GreedyEnd(f, weights, minScore, q, y);
      assert r == q;
      GreedyEndUnique(f, weights, minScore, r, x, y);
    }
  }

  /** `get_fork_choice_head`, over any block map whose parent links do not cycle. */
  method GetForkChoiceHead(ghost f: Forest, blocks: Blocks, root: Root, votes: Votes, minScore: nat)
    returns (r: Result<Root, ForkchoiceError>)
    requires f.blocks == blocks && Acyclic(f)
    ensures !Resolvable(blocks, root) ==>
              r == Err(if root == ZERO_ROOT then NoBlocksAvailable else UnknownRootBlock(root))
    ensures Resolvable(blocks, root) ==>
              var origin := Origin(blocks, root);
              var rootSlot := blocks[origin].slot;
              && (r.Ok? <==> AllWalksEnd(f, rootSlot, votes))
              && (r.Ok? ==> GreedyEnd(f, Weights(f, rootSlot, votes), minScore, origin, r.value))
              && (r.Err? ==> r.error.ParentBlockNotFound? && RunsOffAt(f, rootSlot, votes, r.error.root))
    ensures SlotsDescend(blocks) && Resolvable(blocks, root) ==>
              && (r.Ok? <==> NoGap(blocks, blocks[Origin(blocks, root)].slot, votes))
              && (r.Ok? ==> r.value == Head(blocks, root, votes, minScore))
  {
    hide Acyclic, Visits, WalkEnds, GreedyEnd, SlotsDescend, Head, NoGap;
    var start := root;
    if root == ZERO_ROOT {
      var m := MinBlockRoot(blocks);
      if m.None? { return Err(NoBlocksAvailable); }
      start := m.value;
    } else if root !in blocks {
      return Err(UnknownRootBlock(root));
    }
    assert start == Origin(blocks, root);
    var rootSlot := blocks[start].slot;
    if SlotsDescend(blocks) { WalksAgree(f, rootSlot, votes); }
    var accumulated := Accumulate(f, blocks, rootSlot, votes);
    if accumulated.Err? { return Err(ParentBlockNotFound(accumulated.error)); }
    var head := DescendFrom(f, blocks, start, accumulated.value, minScore);
    GreedyFrame(f, accumulated.value, Weights(f, rootSlot, votes), minScore, start, head);
    if SlotsDescend(blocks) { GreedyIsHead(f, root, votes, minScore, head); }
    r := Ok(head);
  }

  // ---------------------------------------------------------------- parents at lower slots

  lemma {:induction false} VisitsIff(f: Forest, rootSlot: nat, b: Root, d: Root)
    requires Acyclic(f) && SlotsDescend(f.blocks)
    ensures Visits(f, rootSlot, b, d) <==>
            b in f.blocks && f.blocks[b].slot > rootSlot && Ancestor(f.blocks, b, d)
    decreases Depth(f.blocks, d)
  {
    if d in f.blocks {
      VisitsIff(f, rootSlot, b, f.blocks[d].parentRoot);
      if Ancestor(f.blocks, b, d) { AncestorSlot(f.blocks, b, d); }
    }
  }

  lemma {:induction false} WalkEndsIff(f: Forest, rootSlot: nat, d: Root)
    requires Acyclic(f) && SlotsDescend(f.blocks)
    ensures WalkEnds(f, rootSlot, d) <==> WalkStays(f.blocks, rootSlot, d)
    decreases Depth(f.blocks, d)
  {
    if d in f.blocks { WalkEndsIff(f, rootSlot, f.blocks[d].parentRoot); }
  }

  lemma WalksAgree(f: Forest, rootSlot: nat, votes: Votes)
    requires Acyclic(f) && SlotsDescend(f.blocks)
    ensures AllWalksEnd(f, rootSlot, votes) <==> NoGap(f.blocks, rootSlot, votes)
  {
    forall v | v in votes ensures WalkEnds(f, rootSlot, votes[v].root) <==> WalkStays(f.blocks, rootSlot, votes[v].root) {
      WalkEndsIff(f, rootSlot, votes[v].root);
    }
  }

  lemma WeightsAgree(f: Forest, rootSlot: nat, votes: Votes, b: Root)
    requires Acyclic(f) && SlotsDescend(f.blocks) && b in f.blocks
    ensures WeightOf(Weights(f, rootSlot, votes), b) == Weight(f.blocks, rootSlot, votes, b)
  {
    forall v | v in votes ensures Visits(f, rootSlot, b, votes[v].root) <==> Supports(f.blocks, rootSlot, votes, v, b) {
      VisitsIff(f, rootSlot, b, votes[v].root);
    }
    assert VisitorsOf(f, rootSlot, votes, votes.Keys, b) == VotersFor(f.blocks, rootSlot, votes, votes.Keys, b);
  }

  /** With parents at lower slots the greedy descent is recursive GHOST. */
  lemma {:induction false} GreedyIsDescend(f: Forest, rootSlot: nat, votes: Votes, minScore: nat, c: Root, end: Root)
    requires Acyclic(f) && SlotsDescend(f.blocks) && c in f.blocks
    requires GreedyEnd(f, Weights(f, rootSlot, votes), minScore, c, end)
    ensures end == Descend(f.blocks, rootSlot, votes, minScore, c)
    decreases f.top - f.rank(c)
  {
    var weights := Weights(f, rootSlot, votes);
    KidsAgree(f, rootSlot, votes, minScore, c);
    hide Weights, Weight;
    var kids := Kids(f.blocks, rootSlot, votes, minScore, c);
    if kids != {} {
      var best := Best(f.blocks, rootSlot, votes, kids);
      assert GreedyStep(f, weights, minScore, c, best);
      var r :| GreedyStep(f, weights, minScore, c, r) && GreedyEnd(f, weights, minScore, r, end);
      assert r == best;
      GreedyIsDescend(f, rootSlot, votes, minScore, r, end);
    }
  }

  lemma KidsAgree(f: Forest, rootSlot: nat, votes: Votes, minScore: nat, c: Root)
    requires Acyclic(f) && SlotsDescend(f.blocks)
    ensures forall r :: r in f.blocks ==>
              WeightOf(Weights(f, rootSlot, votes), r) == Weight(f.blocks, rootSlot, votes, r)
    ensures forall r :: r in Kids(f.blocks, rootSlot, votes, minScore, c) <==>
              GreedyKid(f, Weights(f, rootSlot, votes), minScore, c, r)
  {
    forall r | r in f.blocks
      ensures WeightOf(Weights(f, rootSlot, votes), r) == Weight(f.blocks, rootSlot, votes, r)
    {
      WeightsAgree(f, rootSlot, votes, r);
    }
    hide Weights, Weight;
  }

  lemma GreedyIsHead(f: Forest, root: Root, votes: Votes, minScore: nat, end: Root)
    requires Acyclic(f) && SlotsDescend(f.blocks) && Resolvable(f.blocks, root)
    requires var origin := Origin(f.blocks, root);
             GreedyEnd(f, Weights(f, f.blocks[origin].slot, votes), minScore, origin, end)
    ensures end == Head(f.blocks, root, votes, minScore)
  {
    var origin := Origin(f.blocks, root);
    GreedyIsDescend(f, f.blocks[origin].slot, votes, minScore, origin, end);
  }

  /** The head descends from the origin, and with no threshold it is a leaf. */
  lemma {:induction false} DescendReaches(blocks: Blocks, rootSlot: nat, votes: Votes, minScore: nat, c: Root)
    requires SlotsDescend(blocks) && c in blocks
    ensures Ancestor(blocks, c, Descend(blocks, rootSlot, votes, minScore, c))
    ensures minScore == 0 ==>
              forall r :: r in blocks ==> blocks[r].parentRoot != Descend(blocks, rootSlot, votes, minScore, c)
    decreases U64_MAX - blocks[c].slot
  {
    var kids := Kids(blocks, rootSlot, votes, minScore, c);
    if kids == {} {
      forall r | r in blocks && minScore == 0 ensures blocks[r].parentRoot != c { assert r !in kids; }
    } else {
      var best := Best(blocks, rootSlot, votes, kids);
      DescendReaches(blocks, rootSlot, votes, minScore, best);
      AncestorTransitive(blocks, c, best, Descend(blocks, rootSlot, votes, minScore, c));
    }
  }
}
