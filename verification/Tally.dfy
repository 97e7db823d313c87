/**
  The pending-vote table. On the state it is a sorted list of target roots beside
  one flat bitlist that packs a row of `n` bits per root; during a call it is a map
  from target root to row. Hydrating and flattening are mutual inverses.
 */
module Tally {
  import opened Containers
  import opened Collections

  type Table = map<Root, seq<bool>>

  /** The validators a row records a vote from. */
  ghost function Supporters(row: seq<bool>): (v: set<nat>) {
    set j: nat | j < |row| && row[j]
  }

  ghost predicate RowsOfLength(t: Table, n: nat) {
    forall r :: r in t ==> |t[r]| == n
  }

  lemma RowFits(rows: nat, n: nat, i: nat)
    requires i < rows
    ensures i * n + n <= rows * n
  {
    assert (i + 1) * n == i * n + n;
    MulLeft(i + 1, rows, n);
  }

  lemma MulLeft(a: nat, b: nat, n: nat)
    requires a <= b
    ensures a * n <= b * n
  {
  }

  // ---------------------------------------------------------------- hydrate

  /** The table a `(roots, bits)` pair hydrates to: the last `n` bits are the last
      root's row, and a repeated root keeps its last row. */
  ghost function Hydrate(roots: seq<Root>, bits: seq<bool>, n: nat): (t: Table)
    requires |bits| == |roots| * n
    ensures RowsOfLength(t, n) && t.Keys == Elements(roots)
    decreases |roots|
  {
    if roots == [] then map[] else
      var front, last := roots[..|roots| - 1], roots[|roots| - 1];
      RowFits(|roots|, n, |front|);
      assert |roots| * n == |front| * n + n && roots == front + [last];
      Hydrate(front, bits[..|bits| - n], n)[last := bits[|bits| - n..]]
  }

  lemma HydrateUnfolds(roots: seq<Root>, bits: seq<bool>, n: nat)
    requires roots != [] && |bits| == |roots| * n
    ensures var front := roots[..|roots| - 1];
            && |bits| - n == |front| * n >= 0
            && Hydrate(roots, bits, n) == Hydrate(front, bits[..|bits| - n], n)[roots[|roots| - 1] := bits[|bits| - n..]]
  {
    RowFits(|roots|, n, |roots| - 1);
    assert |roots| * n == (|roots| - 1) * n + n;
  }

  /** One more row of the flat form. */
  lemma HydrateStep(roots: seq<Root>, bits: seq<bool>, n: nat, i: nat, base: nat)
    requires i < |roots| && base == i * n && |bits| == |roots| * n
    ensures base + n == (i + 1) * n <= |bits|
    ensures Hydrate(roots[..i + 1], bits[..base + n], n) ==
            Hydrate(roots[..i], bits[..base], n)[roots[i] := bits[base..base + n]]
  {
    RowFits(|roots|, n, i);
    assert base + n == (i + 1) * n;
    hide Hydrate;
    assert roots[..i + 1][..i] == roots[..i];
    assert bits[..base + n][..base] == bits[..base] && bits[..base + n][base..] == bits[base..base + n];
    HydrateUnfolds(roots[..i + 1], bits[..base + n], n);
  }

  /** `Justifications::try_from`. */
  method TryHydrate(roots: seq<Root>, bits: seq<bool>, n: nat) returns (r: Result<Table, TransitionError>)
    ensures n == 0 ==> r == Ok(map[])
    ensures n > 0 ==> (r.Ok? <==> |bits| == |roots| * n)
    ensures n > 0 && r.Ok? ==> r.value == Hydrate(roots, bits, n)
    ensures r.Err? ==> r.error == StateBoundExceeded(JustificationsValidators)
  {
    var table: Table := map[];
    if n == 0 { return Ok(table); }
    if |bits| != |roots| * n { return Err(StateBoundExceeded(JustificationsValidators)); }
    var base := 0;
    for i := 0 to |roots|
      invariant base == i * n <= |bits|
      invariant table == Hydrate(roots[..i], bits[..base], n)
    {
      HydrateStep(roots, bits, n, i, base);
      var votes := ReadRow(bits, base, n);
      table := table[roots[i] := votes];
      base := base + n;
    }
    assert roots[..|roots|] == roots && bits[..base] == bits;
    r := Ok(table);
  }

  method ReadRow(bits: seq<bool>, base: nat, n: nat) returns (votes: seq<bool>)
    requires base + n <= |bits|
    ensures votes == bits[base..base + n]
  {
    votes := seq(n, _ => false);
    for j := 0 to n
      invariant |votes| == n
      invariant forall k :: 0 <= k < j ==> votes[k] == bits[base + k]
    {
      votes := votes[j := bits[base + j]];
    }
  }

  // ---------------------------------------------------------------- flatten

  /** The rows of `roots`, in that order, laid end to end. */
  ghost function Flatten(roots: seq<Root>, t: Table): seq<bool>
    requires forall r :: r in roots ==> r in t
  {
    if roots == [] then [] else Flatten(roots[..|roots| - 1], t) + t[roots[|roots| - 1]]
  }

  lemma {:induction false} FlattenLength(roots: seq<Root>, t: Table, n: nat)
    requires RowsOfLength(t, n)
    requires forall r :: r in roots ==> r in t
    ensures |Flatten(roots, t)| == |roots| * n
  {
    if roots != [] {
      FlattenLength(roots[..|roots| - 1], t, n);
      assert |roots| * n == (|roots| - 1) * n + n;
    }
  }

  /** The flat layout: bit `i*n + j` is validator `j`'s vote for root `i`. */
  lemma {:induction false} FlattenRow(roots: seq<Root>, t: Table, n: nat, i: nat)
    requires RowsOfLength(t, n)
    requires forall r :: r in roots ==> r in t
    requires i < |roots|
    ensures |Flatten(roots, t)| == |roots| * n && i * n + n <= |roots| * n
    ensures Flatten(roots, t)[i * n..i * n + n] == t[roots[i]]
  {
    FlattenLength(roots, t, n);
    RowFits(|roots|, n, i);
    var front := roots[..|roots| - 1];
    FlattenLength(front, t, n);
    if i < |front| {
      FlattenRow(front, t, n, i);
    }
  }

  /** `Justifications::write_back`: the new `(roots, bits)` pair, roots ascending. */
  method WriteBack(t: Table, n: nat) returns (r: Result<(seq<Root>, seq<bool>), TransitionError>)
    requires RowsOfLength(t, n)
    ensures r.Ok? <==> |t| * n <= JUSTIFICATIONS_VALIDATORS_LIMIT
    ensures r.Ok? ==> r.value == (Ascending(t.Keys), Flatten(Ascending(t.Keys), t))
    ensures r.Err? ==> r.error == StateBoundExceeded(JustificationsValidators)
  {
    var total := |t| * n;
    if total > JUSTIFICATIONS_VALIDATORS_LIMIT { return Err(StateBoundExceeded(JustificationsValidators)); }
    var roots := InOrder(t.Keys);
    var flat := Pack(roots, t, n);
    r := Ok((roots, flat));
  }

  function Unset(k: nat): (s: seq<bool>)
    ensures |s| == k && forall i :: 0 <= i < k ==> !s[i]
  {
    seq(k, _ => false)
  }

  /** One more row still fits under the total. */
  lemma PrefixRoom(roots: seq<Root>, t: Table, n: nat, i: nat)
    requires RowsOfLength(t, n) && (forall r :: r in roots ==> r in t) && i < |roots|
    ensures |Flatten(roots[..i], t)| + n <= |roots| * n
  {
    FlattenLength(roots[..i], t, n);
    RowFits(|roots|, n, i);
  }

  lemma FlattenNothing(t: Table)
    ensures Flatten([], t) == []
  {
  }

  lemma FlattenStep(roots: seq<Root>, t: Table, i: nat)
    requires (forall r :: r in roots ==> r in t) && i < |roots|
    ensures Flatten(roots[..i + 1], t) == Flatten(roots[..i], t) + t[roots[i]]
  {
    assert roots[..i + 1][..i] == roots[..i];
  }

  /** Packs the rows of `roots` into an all-zero bitlist. */
  method Pack(roots: seq<Root>, t: Table, n: nat) returns (flat: seq<bool>)
    requires RowsOfLength(t, n) && forall r :: r in roots ==> r in t
    ensures flat == Flatten(roots, t)
  {
    hide Unset, Flatten;
    var total := |roots| * n;
    flat := Unset(total);
    var base := 0;
    ghost var done := [];
    FlattenNothing(t);
    for i := 0 to |roots|
      invariant |done| == base <= total && done == Flatten(roots[..i], t)
      invariant flat == done + Unset(total - base)
    {
      PrefixRoom(roots, t, n, i);
      flat := SetRow(flat, done, base, t[roots[i]]);
      FlattenStep(roots, t, i);
      done := done + t[roots[i]];
      base := base + n;
    }
    assert roots[..|roots|] == roots;
    FlattenLength(roots, t, n);
    assert |Unset(0)| == 0 && done + Unset(0) == done;
  }

  /** `roots` lists, in order, the members of `keys` below everything in `left`. */
  ghost predicate Listed(keys: set<Root>, left: set<Root>, roots: seq<Root>) {
    && left <= keys
    && StrictlyIncreasing(roots)
    && Elements(roots) == keys - left
    && forall x, y :: x in keys - left && y in left ==> x < y
  }

  lemma ListNext(keys: set<Root>, left: set<Root>, roots: seq<Root>, root: Root)
    requires Listed(keys, left, roots) && IsMin(left, root)
    ensures Listed(keys, left - {root}, roots + [root])
  {
    forall x | x in roots ensures x < root { assert x in Elements(roots); }
    AppendLarger(roots, root);
  }

  /** The iteration order of the ordered map: keys ascending. */
  method InOrder(keys: set<Root>) returns (roots: seq<Root>)
    ensures roots == Ascending(keys)
  {
    roots := [];
    var left := keys;
    while left != {}
      invariant Listed(keys, left, roots)
      decreases |left|
    {
      MinExists(left);
      var root :| root in left && IsMin(left, root);
      ListNext(keys, left, roots, root);
      roots := roots + [root];
      left := left - {root};
    }
    AscendingUnique(roots, Ascending(keys));
  }

  /** The inner loop of `write_back`: raises the bits of one row. */
  method SetRow(bits: seq<bool>, ghost done: seq<bool>, base: nat, votes: seq<bool>) returns (flat: seq<bool>)
    requires |done| == base && base + |votes| <= |bits|
    requires bits == done + Unset(|bits| - base)
    ensures |flat| == |bits|
    ensures flat == done + votes + Unset(|bits| - base - |votes|)
  {
    flat := bits;
    for j := 0 to |votes|
      invariant |flat| == |bits|
      invariant flat == done + votes[..j] + Unset(|bits| - base - j)
    {
      if votes[j] { flat := flat[base + j := true]; }
    }
    assert votes[..|votes|] == votes;
  }

  lemma AppendLarger(roots: seq<Root>, root: Root)
    requires StrictlyIncreasing(roots) && forall x :: x in roots ==> x < root
    ensures StrictlyIncreasing(roots + [root]) && Elements(roots + [root]) == Elements(roots) + {root}
  {
    var s := roots + [root];
    forall i, j | 0 <= i < j < |s| ensures s[i] < s[j] {
      assert s[i] == roots[i] && roots[i] in roots;
    }
  }

  // ---------------------------------------------------------------- inverses

  lemma {:induction false} HydrateFlattenOver(roots: seq<Root>, t: Table, n: nat)
    requires RowsOfLength(t, n) && forall r :: r in roots ==> r in t
    ensures |Flatten(roots, t)| == |roots| * n
    ensures forall r :: r in roots ==> r in Hydrate(roots, Flatten(roots, t), n)
    ensures forall r :: r in roots ==> Hydrate(roots, Flatten(roots, t), n)[r] == t[r]
    decreases |roots|
  {
    FlattenLength(roots, t, n);
    if roots != [] {
      var front, last := roots[..|roots| - 1], roots[|roots| - 1];
      HydrateFlattenOver(front, t, n);
      assert roots == front + [last];
      var bits := Flatten(roots, t);
      assert bits[..|bits| - n] == Flatten(front, t) && bits[|bits| - n..] == t[last];
    }
  }

  /** Flattening a table and hydrating the result gives the table back. */
  lemma HydrateFlatten(t: Table, n: nat)
    requires RowsOfLength(t, n)
    ensures |Flatten(Ascending(t.Keys), t)| == |Ascending(t.Keys)| * n
    ensures Hydrate(Ascending(t.Keys), Flatten(Ascending(t.Keys), t), n) == t
  {
    hide Hydrate, Flatten, Ascending;
    var roots := Ascending(t.Keys);
    HydrateFlattenOver(roots, t, n);
    assert Hydrate(roots, Flatten(roots, t), n).Keys == t.Keys;
  }

  lemma {:induction false} FlattenFrame(roots: seq<Root>, t: Table, u: Table)
    requires forall r :: r in roots ==> r in t && r in u && t[r] == u[r]
    ensures Flatten(roots, t) == Flatten(roots, u)
    decreases |roots|
  {
    if roots != [] { FlattenFrame(roots[..|roots| - 1], t, u); }
  }

  lemma {:induction false} FlattenHydrateOver(roots: seq<Root>, bits: seq<bool>, n: nat)
    requires Distinct(roots) && |bits| == |roots| * n
    ensures forall r :: r in roots ==> r in Hydrate(roots, bits, n)
    ensures Flatten(roots, Hydrate(roots, bits, n)) == bits
    decreases |roots|
  {
    hide Hydrate, Elements;
    if roots == [] {
      assert bits == [];
    } else {
      var front, last := roots[..|roots| - 1], roots[|roots| - 1];
      HydrateUnfolds(roots, bits, n);
      var low := bits[..|bits| - n];
      FlattenHydrateOver(front, low, n);
      assert roots == front + [last];
      FlattenFrame(front, Hydrate(roots, bits, n), Hydrate(front, low, n));
    }
  }

  /** Hydrating a sorted pair and flattening the result gives the pair back. */
  lemma FlattenHydrate(roots: seq<Root>, bits: seq<bool>, n: nat)
    requires StrictlyIncreasing(roots) && |bits| == |roots| * n
    ensures Ascending(Hydrate(roots, bits, n).Keys) == roots
    ensures forall r :: r in roots ==> r in Hydrate(roots, bits, n)
    ensures Flatten(roots, Hydrate(roots, bits, n)) == bits
  {
    FlattenHydrateOver(roots, bits, n);
    AscendingUnique(Ascending(Hydrate(roots, bits, n).Keys), roots);
  }
}
