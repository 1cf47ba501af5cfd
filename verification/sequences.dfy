/** Sequences without repetition, and the last place a value occurs. */
module Sequences {

  predicate Distinct<T(==)>(s: seq<T>) { s == [] || (s[0] !in s[1..] && Distinct(s[1..])) }

  function Without<T(==)>(s: seq<T>, v: T): (r: seq<T>)
  {
    if s == [] then [] else if s[0] == v then Without(s[1..], v) else [s[0]] + Without(s[1..], v)
  }

  function LastUse<T(==)>(adds: seq<T>, v: T): (i: nat)
    requires v in adds
    ensures i < |adds| && adds[i] == v
    ensures forall j :: i < j < |adds| ==> adds[j] != v
  {
    if adds[|adds| - 1] == v then |adds| - 1 else LastUse(adds[..|adds| - 1], v)
  }

  lemma {:induction false} InWithout<T>(s: seq<T>, v: T, x: T)
    ensures x in Without(s, v) <==> x in s && x != v
  {
    if s != [] {
      assert s == [s[0]] + s[1..];
      InWithout(s[1..], v, x);
    }
  }

  lemma SameMembersWithout<T>(s: seq<T>, v: T)
    ensures forall x :: x in Without(s, v) <==> x in s && x != v
  {
  }

  lemma {:induction false} WithoutAbsent<T>(s: seq<T>, v: T)
    requires v !in s
    ensures Without(s, v) == s
  {
    if s != [] {
      WithoutAbsent(s[1..], v);
    }
  }

  lemma {:induction false} WithoutIsDistinct<T>(s: seq<T>, v: T)
    requires Distinct(s)
    ensures Distinct(Without(s, v)) && Distinct(Without(s, v) + [v])
    ensures v in s ==> |Without(s, v)| == |s| - 1
  {
    if s != [] {
      WithoutIsDistinct(s[1..], v);
      if s[0] == v {
        WithoutAbsent(s[1..], v);
      } else {
        var w := Without(s[1..], v);
        InWithout(s[1..], v, s[0]);
        assert ([s[0]] + w)[1..] == w && ([s[0]] + w + [v])[1..] == w + [v];
      }
    }
  }

  lemma {:induction false} WithoutConcat<T>(a: seq<T>, b: seq<T>, v: T)
    ensures Without(a + b, v) == Without(a, v) + Without(b, v)
  {
    if a == [] {
      assert a + b == b;
    } else {
      assert (a + b)[1..] == a[1..] + b;
      WithoutConcat(a[1..], b, v);
    }
  }

  lemma {:induction false} DistinctParts<T>(a: seq<T>, b: seq<T>, v: T)
    requires Distinct(a + b)
    ensures Distinct(b) && (v in b ==> v !in a)
  {
    if a == [] {
      assert a + b == b;
    } else {
      assert (a + b)[1..] == a[1..] + b;
      DistinctParts(a[1..], b, v);
    }
  }

  /** Removing a value is cutting it out at its index. */
  lemma {:induction false} WithoutAt<T>(s: seq<T>, k: nat)
    requires k < |s| && Distinct(s)
    ensures Without(s, s[k]) == s[..k] + s[k + 1..]
  {
    if k == 0 {
      WithoutAbsent(s[1..], s[0]);
    } else {
      assert s[k] == s[1..][k - 1];
      WithoutAt(s[1..], k - 1);
    }
  }

  lemma {:induction false} DistinctIndices<T>(s: seq<T>, i: nat, j: nat)
    requires Distinct(s) && i < j < |s|
    ensures s[i] != s[j]
  {
    if i == 0 {
      assert s[j] == s[1..][j - 1];
    } else {
      DistinctIndices(s[1..], i - 1, j - 1);
    }
  }

  lemma {:induction false} DistinctAppend<T>(s: seq<T>, v: T)
    requires Distinct(s) && v !in s
    ensures Distinct(s + [v])
  {
    if s != [] {
      assert (s + [v])[1..] == s[1..] + [v];
      DistinctAppend(s[1..], v);
    }
  }

  lemma IndexBefore<T>(ks: seq<T>, n: nat, x: T) returns (i: nat)
    requires n <= |ks| && x in ks && x !in ks[n..]
    ensures i < n && ks[i] == x
  {
    i :| i < |ks| && ks[i] == x;
  }

  lemma IndexFrom<T>(ks: seq<T>, n: nat, x: T) returns (j: nat)
    requires n <= |ks| && x in ks[n..]
    ensures n <= j < |ks| && ks[j] == x
  {
    var m :| 0 <= m < |ks| - n && ks[n..][m] == x;
    j := n + m;
  }

  lemma NotInDrop<T>(s: seq<T>, n: nat, v: T)
    requires v !in s && n <= |s|
    ensures v !in s[n..]
  {
  }

  lemma {:induction false} DistinctConcat<T>(a: seq<T>, b: seq<T>)
    requires Distinct(a) && Distinct(b) && forall x :: x in a ==> x !in b
    ensures Distinct(a + b)
  {
    if a == [] {
      assert a + b == b;
    } else {
      assert (a + b)[1..] == a[1..] + b;
      DistinctConcat(a[1..], b);
    }
  }

  lemma {:induction false} DistinctInit<T>(s: seq<T>)
    requires s != [] && Distinct(s)
    ensures Distinct(s[..|s| - 1]) && s[|s| - 1] !in s[..|s| - 1]
  {
    if |s| > 1 {
      DistinctInit(s[1..]);
      var t := s[..|s| - 1];
      assert t[1..] == s[1..][..|s| - 2];
      assert t == [s[0]] + t[1..];
    }
  }

  /** At the start, and after each element. */
  predicate AtEveryPoint<T>(s: seq<T>, holds: seq<T> -> bool) { forall i :: 0 <= i <= |s| ==> holds(s[..i]) }

  lemma AtOneMorePoint<T>(s: seq<T>, holds: seq<T> -> bool)
    ensures AtEveryPoint(s, holds) ==> holds(s)
    ensures s == [] && holds(s) ==> AtEveryPoint(s, holds)
    ensures s != [] ==> (AtEveryPoint(s, holds) <==> AtEveryPoint(s[..|s| - 1], holds) && holds(s))
  {
    assert s[..|s|] == s;
    if s != [] {
      var before := s[..|s| - 1];
      assert forall i :: 0 <= i <= |before| ==> s[..i] == before[..i];
    }
  }
}
