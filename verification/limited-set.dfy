/** The bounded set that remembers which records were already loaded. */
module LimitedSets {
  import opened Sequences

  function Last<T>(s: seq<T>, n: nat): seq<T> { if |s| <= n then s else s[|s| - n..] }

  /** As many as there are, up to `n`, from the end. */
  lemma LastIsSuffix<T>(s: seq<T>, n: nat)
    ensures |Last(s, n)| == if |s| < n then |s| else n
    ensures Last(s, n) == s[|s| - |Last(s, n)|..]
  {
  }

  /** A number of at most zero still admits the value that was just added. */
  function Capacity(maxSize: int): nat { if maxSize < 1 then 1 else maxSize }

  /** The order after one add: a known value moves to the back, a new one pushes out the oldest. */
  function AddTo<T(==)>(order: seq<T>, v: T, capacity: nat): seq<T>
    requires capacity >= 1
  {
    if v in order then Without(order, v) + [v]
    else if |order| >= capacity && order != [] then order[1..] + [v]
    else order + [v]
  }

  function AddAll<T(==)>(adds: seq<T>, capacity: nat): seq<T>
    requires capacity >= 1
  {
    if adds == [] then [] else AddTo(AddAll(adds[..|adds| - 1], capacity), adds[|adds| - 1], capacity)
  }

  // ----- the trace specification

  /** The distinct values of a trace, ordered by their last occurrence. */
  function Recent<T(==)>(adds: seq<T>): seq<T>
  {
    if adds == [] then [] else Without(Recent(adds[..|adds| - 1]), adds[|adds| - 1]) + [adds[|adds| - 1]]
  }

  lemma {:induction false} RecentIsDistinct<T>(adds: seq<T>)
    ensures Distinct(Recent(adds))
  {
    if adds != [] {
      RecentIsDistinct(adds[..|adds| - 1]);
      WithoutIsDistinct(Recent(adds[..|adds| - 1]), adds[|adds| - 1]);
    }
  }

  lemma {:induction false} InRecent<T>(adds: seq<T>, v: T)
    ensures v in Recent(adds) <==> v in adds
  {
    if adds != [] {
      var before, last := adds[..|adds| - 1], adds[|adds| - 1];
      assert adds == before + [last];
      InRecent(before, v);
      InWithout(Recent(before), last, v);
    }
  }

  /** `Recent` holds exactly the added values, each once, ordered by their last add. */
  lemma {:induction false} RecentIsOrdered<T>(adds: seq<T>, i: nat, j: nat)
    requires i < j < |Recent(adds)|
    ensures Recent(adds)[i] in adds && Recent(adds)[j] in adds
    ensures LastUse(adds, Recent(adds)[i]) < LastUse(adds, Recent(adds)[j])
  {
    var before, v := adds[..|adds| - 1], adds[|adds| - 1];
    var earlier, r := Recent(before), Recent(adds);
    LastUseOfKept(adds, r[i]);
    if j < |r| - 1 {
      LastUseOfKept(adds, r[j]);
      RecentIsDistinct(before);
      var i', j' := IndexBeforeCut(earlier, v, i, j);
      RecentIsOrdered(before, i', j');
    }
  }

  lemma LastUseOfKept<T>(adds: seq<T>, x: T)
    requires adds != [] && x in Without(Recent(adds[..|adds| - 1]), adds[|adds| - 1])
    ensures x in adds[..|adds| - 1] && x in adds && x != adds[|adds| - 1]
    ensures LastUse(adds, x) == LastUse(adds[..|adds| - 1], x)
  {
    InWithout(Recent(adds[..|adds| - 1]), adds[|adds| - 1], x);
    InRecent(adds[..|adds| - 1], x);
  }

  lemma IndexBeforeCut<T>(s: seq<T>, v: T, i: nat, j: nat) returns (i': nat, j': nat)
    requires Distinct(s) && i < j < |Without(s, v)|
    ensures i' < j' < |s| && s[i'] == Without(s, v)[i] && s[j'] == Without(s, v)[j]
  {
    if v in s {
      var k :| 0 <= k < |s| && s[k] == v;
      WithoutAt(s, k);
      i', j' := if i < k then i else i + 1, if j < k then j else j + 1;
    } else {
      WithoutAbsent(s, v);
      i', j' := i, j;
    }
  }

  lemma LastOfConcat<T>(a: seq<T>, b: seq<T>)
    ensures Last(a + b, |b|) == b
  {
  }

  /** The value is among the last ones already: it moves to their back. */
  lemma LastAfterRecent<T>(head: seq<T>, tail: seq<T>, v: T)
    requires Distinct(head + tail) && v in tail
    ensures AddTo(tail, v, |tail|) == Last(Without(head + tail, v) + [v], |tail|)
  {
    DistinctParts(head, tail, v);
    WithoutConcat(head, tail, v);
    WithoutAbsent(head, v);
    WithoutIsDistinct(tail, v);
    assert head + Without(tail, v) + [v] == head + (Without(tail, v) + [v]);
    LastOfConcat(head, Without(tail, v) + [v]);
  }

  lemma LastShifts<T>(head: seq<T>, tail: seq<T>, v: T)
    requires tail != []
    ensures Last(head + tail + [v], |tail|) == tail[1..] + [v]
  {
  }

  /** The value is known but not among the last ones: it pushes out the first of them. */
  lemma LastAfterForgotten<T>(head: seq<T>, tail: seq<T>, v: T)
    requires v !in tail && tail != []
    ensures AddTo(tail, v, |tail|) == Last(Without(head + tail, v) + [v], |tail|)
  {
    WithoutConcat(head, tail, v);
    WithoutAbsent(tail, v);
    LastShifts(Without(head, v), tail, v);
  }

  lemma LastWhileRoom<T>(r: seq<T>, v: T, capacity: nat)
    requires Distinct(r) && v in r && 1 <= |r| <= capacity
    ensures AddTo(r, v, capacity) == Last(Without(r, v) + [v], capacity)
  {
    WithoutIsDistinct(r, v);
  }

  lemma LastAfterKnown<T>(r: seq<T>, v: T, capacity: nat)
    requires Distinct(r) && v in r && capacity >= 1
    ensures AddTo(Last(r, capacity), v, capacity) == Last(Without(r, v) + [v], capacity)
  {
    if |r| <= capacity {
      LastWhileRoom(r, v, capacity);
    } else {
      var head, tail := r[..|r| - capacity], r[|r| - capacity..];
      assert r == head + tail;
      assert Last(r, capacity) == tail;
      if v in tail { LastAfterRecent(head, tail, v); } else { LastAfterForgotten(head, tail, v); }
    }
  }

  lemma LastAfterNew<T>(r: seq<T>, v: T, capacity: nat)
    requires v !in Last(r, capacity) && capacity >= 1
    ensures AddTo(Last(r, capacity), v, capacity) == Last(r + [v], capacity)
  {
  }

  /** After any adds to an empty set, the order is the last `capacity` distinct values by most recent add. */
  lemma {:induction false} AddAllKeepsMostRecent<T>(adds: seq<T>, capacity: nat)
    requires capacity >= 1
    ensures AddAll(adds, capacity) == Last(Recent(adds), capacity)
  {
    if adds != [] {
      var before, v := adds[..|adds| - 1], adds[|adds| - 1];
      AddAllKeepsMostRecent(before, capacity);
      RecentIsDistinct(before);
      if v in Recent(before) {
        LastAfterKnown(Recent(before), v, capacity);
      } else {
        WithoutAbsent(Recent(before), v);
        NotInDrop(Recent(before), |Recent(before)| - |Last(Recent(before), capacity)|, v);
        LastAfterNew(Recent(before), v, capacity);
      }
    }
  }

  /** What survives was added more recently than what was pushed out. */
  lemma KeptAreNewerThanDropped<T>(adds: seq<T>, capacity: nat, kept: T, dropped: T)
    requires capacity >= 1
    requires kept in AddAll(adds, capacity) && dropped in adds && dropped !in AddAll(adds, capacity)
    ensures kept in adds && LastUse(adds, dropped) < LastUse(adds, kept)
  {
    AddAllKeepsMostRecent(adds, capacity);
    InRecent(adds, dropped);
    var r := Recent(adds);
    var cut := |r| - |Last(r, capacity)|;
    assert Last(r, capacity) == r[cut..];
    var i := IndexBefore(r, cut, dropped);
    var j := IndexFrom(r, cut, kept);
    RecentIsOrdered(adds, i, j);
  }

  class LimitedSet<T(==,!new)> {
    const maxSize: int
    // the JS Set, in its own iteration order
    var members: seq<T>
    var insertionOrder: seq<T>

    /** Both hold the same values, none twice, and never more than the capacity. */
    ghost predicate Valid()
      reads this
    {
      && Distinct(members) && Distinct(insertionOrder)
      && |insertionOrder| == |members| <= Capacity(maxSize)
      && forall v :: v in members <==> v in insertionOrder
    }

    constructor (maxSize: int)
      ensures Valid() && this.maxSize == maxSize && insertionOrder == [] && members == []
    {
      this.maxSize := maxSize;
      members, insertionOrder := [], [];
    }

    method IndexOf(v: T) returns (index: int)
      ensures -1 <= index < |insertionOrder|
      ensures index >= 0 ==> insertionOrder[index] == v
      ensures index == -1 <==> v !in insertionOrder
    {
      index := 0;
      while index < |insertionOrder|
        invariant 0 <= index <= |insertionOrder|
        invariant v !in insertionOrder[..index]
      {
        if insertionOrder[index] == v { return; }
        index := index + 1;
      }
      index := -1;
    }

    /** Re-adding refreshes `insertionOrder` but not the JS Set's iteration order. */
    method Add(v: T)
      requires Valid()
      modifies this
      ensures Valid()
      ensures insertionOrder == AddTo(old(insertionOrder), v, Capacity(maxSize))
      ensures v in old(members) ==> members == old(members)
      ensures v !in old(members) && old(members) != [] && |old(members)| >= maxSize ==>
                members == Without(old(members), old(insertionOrder)[0]) + [v]
      ensures v !in old(members) && (old(members) == [] || |old(members)| < maxSize) ==> members == old(members) + [v]
    {
      if v in members {
        WithoutIsDistinct(insertionOrder, v);
        SameMembersWithout(insertionOrder, v);
        var index := IndexOf(v);
        WithoutAt(insertionOrder, index);
        insertionOrder := insertionOrder[..index] + insertionOrder[index + 1..];
      } else {
        if |members| >= maxSize && insertionOrder != [] {
          var oldest := insertionOrder[0];
          DropMember(oldest);
          insertionOrder := insertionOrder[1..];
        }
        DistinctAppend(members, v);
        DistinctAppend(insertionOrder, v);
        members := members + [v];
      }
      insertionOrder := insertionOrder + [v];
    }

    method DropMember(v: T)
      requires Distinct(members) && v in members
      modifies this`members
      ensures members == Without(old(members), v) && |members| == |old(members)| - 1
      ensures Distinct(members) && forall x :: x in members <==> x in old(members) && x != v
    {
      WithoutIsDistinct(members, v);
      SameMembersWithout(members, v);
      members := Without(members, v);
    }

    method Has(v: T) returns (found: bool)
      requires Valid()
      ensures found <==> v in insertionOrder
    {
      found := v in members;
    }

    method Delete(v: T) returns (result: bool)
      requires Valid()
      modifies this
      ensures Valid()
      ensures result <==> v in old(insertionOrder)
      ensures insertionOrder == Without(old(insertionOrder), v) && members == Without(old(members), v)
    {
      result := v in members;
      if result {
        WithoutIsDistinct(insertionOrder, v);
        SameMembersWithout(insertionOrder, v);
        DropMember(v);
        var index := IndexOf(v);
        WithoutAt(insertionOrder, index);
        insertionOrder := insertionOrder[..index] + insertionOrder[index + 1..];
      } else {
        WithoutAbsent(insertionOrder, v);
        WithoutAbsent(members, v);
      }
    }

    method Clear()
      modifies this
      ensures Valid() && insertionOrder == [] && members == []
    {
      members, insertionOrder := [], [];
    }
  }

  /** Driving the class with any trace of adds lands on the trace specification. */
  method AddTrace<T(==,!new)>(limited: LimitedSet<T>, adds: seq<T>)
    requires limited.Valid() && limited.insertionOrder == []
    modifies limited
    ensures limited.Valid()
    ensures var kept := if limited.maxSize <= 1 then 1 else limited.maxSize;
            && limited.insertionOrder == Last(Recent(adds), kept)
            && |limited.insertionOrder| == if |Recent(adds)| < kept then |Recent(adds)| else kept
  {
    for i := 0 to |adds|
      invariant limited.Valid()
      invariant limited.insertionOrder == AddAll(adds[..i], Capacity(limited.maxSize))
    {
      assert adds[..i + 1][..i] == adds[..i];
      limited.Add(adds[i]);
    }
    assert adds[..|adds|] == adds;
    AddAllKeepsMostRecent(adds, Capacity(limited.maxSize));
  }
}
