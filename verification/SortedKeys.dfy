/** A finite set of integer keys as the ascending sequence an ORDER BY returns. */
module SortedKeys {
  import opened Common

  ghost predicate Increasing(q: seq<int>) {
    forall i, j :: 0 <= i < j < |q| ==> q[i] < q[j]
  }

  lemma {:induction false} LeastExists(s: set<int>)
    requires s != {}
    ensures exists m :: m in s && forall x :: x in s ==> m <= x
  {
    var y := AnyOf(s);
    if s == {y} {
    } else {
      LeastExists(s - {y});
      var m :| m in s - {y} && forall x :: x in s - {y} ==> m <= x;
      assert forall x :: x in s ==> x == y || x in s - {y};
      if y < m { assert forall x :: x in s ==> y <= x; } else { assert forall x :: x in s ==> m <= x; }
    }
  }

  function Least(s: set<int>): (m: int)
    requires s != {}
    ensures m in s && forall x :: x in s ==> m <= x
  {
    LeastExists(s);
    var m :| m in s && forall x :: x in s ==> m <= x;
    m
  }

  function Ascending(s: set<int>): seq<int> {
    if s == {} then [] else [Least(s)] + Ascending(s - {Least(s)})
  }

  lemma ConsIncreasing(x: int, q: seq<int>)
    requires Increasing(q) && forall i :: 0 <= i < |q| ==> x < q[i]
    ensures Increasing([x] + q)
  {
  }

  lemma {:induction false} AscendingIsSorted(s: set<int>)
    ensures Increasing(Ascending(s))
    ensures forall x :: x in Ascending(s) <==> x in s
    ensures |Ascending(s)| == |s|
    decreases s
  {
    if s != {} {
      var m := Least(s);
      AscendingIsSorted(s - {m});
      forall i | 0 <= i < |Ascending(s - {m})| ensures m < Ascending(s - {m})[i] {
        assert Ascending(s - {m})[i] in s - {m};
      }
      ConsIncreasing(m, Ascending(s - {m}));
    }
  }

  /** An increasing sequence is determined by its members. */
  lemma {:induction false} IncreasingIsUnique(a: seq<int>, b: seq<int>)
    requires Increasing(a) && Increasing(b) && forall x :: x in a <==> x in b
    ensures a == b
  {
    assert a != [] ==> a[0] in a && a[0] in b;
    assert b != [] ==> b[0] in b && b[0] in a;
    if a != [] && b != [] {
      assert a[0] in b && b[0] in a;
      assert a[0] == b[0];
      forall x ensures x in a[1..] <==> x in b[1..] {
        assert x in a <==> x == a[0] || x in a[1..];
        assert x in b <==> x == b[0] || x in b[1..];
        assert a[0] !in a[1..] && b[0] !in b[1..];
      }
      IncreasingIsUnique(a[1..], b[1..]);
    }
  }

  lemma TailMembers(q: seq<int>, n: nat, x: int)
    requires Increasing(q) && 1 <= n <= |q|
    ensures x in q[n..] <==> x in q && x > q[n - 1]
  {
    if x in q && x > q[n - 1] {
      var i :| 0 <= i < |q| && q[i] == x;
      assert q[n..][i - n] == x;
    }
  }

  /** Dropping the first n keys of a scan is scanning from the last of them. */
  lemma ScanResumes(s: set<int>, n: nat)
    requires 1 <= n <= |Ascending(s)|
    ensures Ascending(s)[n..] == Ascending(set x | x in s && x > Ascending(s)[n - 1])
  {
    var q := Ascending(s);
    var rest := set x | x in s && x > q[n - 1];
    AscendingIsSorted(s);
    AscendingIsSorted(rest);
    forall x ensures x in q[n..] <==> x in Ascending(rest) { TailMembers(q, n, x); }
    IncreasingIsUnique(q[n..], Ascending(rest));
  }
}
