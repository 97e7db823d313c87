/** Facts about finite sets and sequences used across the project. */
module Collections {

  ghost function Elements<T>(s: seq<T>): set<T> { set x | x in s }

  ghost predicate StrictlyIncreasing(s: seq<nat>) {
    forall i, j :: 0 <= i < j < |s| ==> s[i] < s[j]
  }

  ghost predicate Distinct<T>(s: seq<T>) {
    forall i, j :: 0 <= i < j < |s| ==> s[i] != s[j]
  }

  /** Inclusion-exclusion for two subsets of a finite set. */
  lemma CommonMembers<T>(a: set<T>, b: set<T>, all: set<T>)
    requires a <= all && b <= all
    ensures |a * b| + |all| >= |a| + |b|
  {
    assert |a + b| + |a * b| == |a| + |b|;
    SubsetSize(a + b, all);
  }

  lemma {:induction false} SubsetSize<T>(a: set<T>, b: set<T>)
    requires a <= b
    ensures |a| <= |b|
    decreases |a|
  {
    if a != {} {
      var x :| x in a;
      SubsetSize(a - {x}, b - {x});
    }
  }

  lemma EqualBySize<T>(a: set<T>, b: set<T>)
    requires a <= b && |a| >= |b|
    ensures a == b
  {
    if x :| x in b && x !in a { SubsetSize(a, b - {x}); }
  }

  /** The indices below `n`. */
  ghost function Indices(n: nat): (s: set<nat>)
    ensures |s| == n && forall j :: j in s <==> 0 <= j < n
  {
    if n == 0 then {} else Indices(n - 1) + {n - 1}
  }

  lemma {:induction false} ElementsSize<T>(s: seq<T>)
    ensures |Elements(s)| <= |s|
    ensures Distinct(s) ==> |Elements(s)| == |s|
  {
    if s != [] {
      var front, last := s[..|s| - 1], s[|s| - 1];
      ElementsSize(front);
      assert s == front + [last];
      assert Elements(s) == Elements(front) + {last};
    }
  }

  predicate IsMin(s: set<nat>, m: nat) {
    m in s && forall x :: x in s ==> m <= x
  }

  ghost function Min(s: set<nat>): (m: nat)
    requires s != {}
    ensures IsMin(s, m)
  {
    MinExists(s);
    var m :| IsMin(s, m);
    m
  }

  lemma {:induction false} MinExists(s: set<nat>)
    requires s != {}
    ensures exists m :: IsMin(s, m)
    decreases |s|
  {
    var y :| y in s;
    var rest := s - {y};
    assert s == rest + {y};
    if rest == {} {
      assert IsMin(s, y);
    } else {
      MinExists(rest);
      var m :| IsMin(rest, m);
      assert IsMin(s, if m <= y then m else y);
    }
  }

  lemma PrependSmaller(m: nat, rest: seq<nat>)
    requires StrictlyIncreasing(rest) && forall x :: x in rest ==> m < x
    ensures StrictlyIncreasing([m] + rest) && Elements([m] + rest) == {m} + Elements(rest)
  {
    var r := [m] + rest;
    forall i, j | 0 <= i < j < |r| ensures r[i] < r[j] {
      assert r[j] == rest[j - 1];
      if i > 0 { assert r[i] == rest[i - 1]; } else { assert rest[j - 1] in rest; }
    }
  }

  lemma AboveMin(s: set<nat>, m: nat, rest: seq<nat>)
    requires IsMin(s, m) && forall x :: x in rest <==> x in s - {m}
    ensures forall x :: x in rest ==> m < x
  {
  }

  /** The members of a finite set in ascending order. */
  ghost function Ascending(s: set<nat>): (r: seq<nat>)
    ensures StrictlyIncreasing(r) && Elements(r) == s && |r| == |s|
    ensures forall x :: x in r <==> x in s
    decreases |s|
  {
    if s == {} then [] else
      var m := Min(s);
      var rest := Ascending(s - {m});
      AboveMin(s, m, rest);
      PrependSmaller(m, rest);
      [m] + rest
  }

  /** A finite set has only one ascending listing. */
  lemma {:induction false} AscendingUnique(a: seq<nat>, b: seq<nat>)
    requires StrictlyIncreasing(a) && StrictlyIncreasing(b)
    requires Elements(a) == Elements(b)
    ensures a == b
    decreases |a|
  {
    assert b != [] ==> b[0] in Elements(b);
    if a != [] {
      assert a[0] in Elements(b);
      assert b != [] && b[0] in Elements(a);
      assert a[0] == b[0];
      var x := a[0];
      assert Elements(a[1..]) == Elements(a) - {x} by {
        assert a == [x] + a[1..];
        assert forall i :: 0 <= i < |a[1..]| ==> a[1..][i] == a[i + 1] > x;
      }
      assert Elements(b[1..]) == Elements(b) - {x} by {
        assert b == [x] + b[1..];
        assert forall i :: 0 <= i < |b[1..]| ==> b[1..][i] == b[i + 1] > x;
      }
      AscendingUnique(a[1..], b[1..]);
      assert a == [x] + a[1..] && b == [x] + b[1..];
    }
  }
}
