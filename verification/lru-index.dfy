/** The block index as a value: a JS Map from key to size in insertion order, its size total, and the
    history of uses that recency is measured against. */
module LruIndex {
  import opened Options
  import opened Sequences

  // the cap, and what an eviction brings the total down to
  datatype Config = Config(maxBytes: nat, lowWaterBytes: nat)

  datatype Entry = Entry(key: string, size: nat)

  type Entries = seq<Entry>

  function Keys(es: Entries): (ks: seq<string>)
    ensures |ks| == |es|
    ensures forall i :: 0 <= i < |es| ==> ks[i] == es[i].key
  {
    seq(|es|, i requires 0 <= i < |es| => es[i].key)
  }

  function Total(es: Entries): nat { if es == [] then 0 else es[0].size + Total(es[1..]) }

  /** Map.get */
  function Lookup(es: Entries, k: string): (size: Option<nat>)
    ensures size.Some? <==> k in Keys(es)
  {
    if es == [] then None
    else if es[0].key == k then assert Keys(es)[0] == k; Some(es[0].size)
    else assert Keys(es) == [es[0].key] + Keys(es[1..]); Lookup(es[1..], k)
  }

  /** Map.delete */
  function Remove(es: Entries, k: string): Entries
  {
    if es == [] then [] else if es[0].key == k then es[1..] else [es[0]] + Remove(es[1..], k)
  }

  function Register(es: Entries, k: string, size: nat): Entries { Remove(es, k) + [Entry(k, size)] }

  function Touch(es: Entries, k: string): Entries
  {
    match Lookup(es, k)
    case None => es
    case Some(size) => Register(es, k, size)
  }

  /** Oldest first, until the total is at most the low water mark. */
  function EvictTo(es: Entries, low: nat): Entries
  {
    if Total(es) <= low then es else EvictTo(es[1..], low)
  }

  function EvictIfOver(es: Entries, max: nat, low: nat): Entries
  {
    if Total(es) <= max then es else EvictTo(es, low)
  }

  // ----- Map laws

  lemma {:induction false} KeysOfRemove(es: Entries, k: string)
    requires Distinct(Keys(es))
    ensures Keys(Remove(es, k)) == Without(Keys(es), k)
    ensures Distinct(Keys(Remove(es, k)))
  {
    if es != [] {
      assert Keys(es)[1..] == Keys(es[1..]);
      KeysOfRemove(es[1..], k);
      if es[0].key == k {
        WithoutAbsent(Keys(es)[1..], k);
      } else {
        assert Keys([es[0]] + Remove(es[1..], k)) == [es[0].key] + Keys(Remove(es[1..], k));
      }
      WithoutIsDistinct(Keys(es), k);
    }
  }

  lemma KeysOfRegister(es: Entries, k: string, size: nat)
    requires Distinct(Keys(es))
    ensures Keys(Register(es, k, size)) == Without(Keys(es), k) + [k]
    ensures Distinct(Keys(Register(es, k, size)))
  {
    KeysOfRemove(es, k);
    WithoutIsDistinct(Keys(es), k);
    assert Keys(Register(es, k, size)) == Keys(Remove(es, k)) + [k];
  }

  lemma {:induction false} TotalOfRemove(es: Entries, k: string)
    ensures Total(Remove(es, k)) == Total(es) - (match Lookup(es, k) case None => 0 case Some(size) => size)
  {
    if es != [] && es[0].key != k {
      TotalOfRemove(es[1..], k);
      assert ([es[0]] + Remove(es[1..], k))[1..] == Remove(es[1..], k);
    }
  }

  lemma {:induction false} TotalOfAppend(es: Entries, e: Entry)
    ensures Total(es + [e]) == Total(es) + e.size
  {
    if es == [] {
      assert [e][1..] == [];
    } else {
      assert (es + [e])[1..] == es[1..] + [e];
      TotalOfAppend(es[1..], e);
    }
  }

  lemma TotalOfRegister(es: Entries, k: string, size: nat)
    ensures Total(Register(es, k, size)) == Total(Remove(es, k)) + size
  {
    TotalOfAppend(Remove(es, k), Entry(k, size));
  }

  lemma TotalOfTouch(es: Entries, k: string)
    ensures Total(Touch(es, k)) == Total(es)
  {
    TotalOfRemove(es, k);
    match Lookup(es, k) {
      case None =>
      case Some(size) => TotalOfRegister(es, k, size);
    }
  }

  /** Eviction drops exactly the shortest prefix that brings the total to the low water mark. */
  lemma {:induction false} EvictsShortestPrefix(es: Entries, low: nat) returns (n: nat)
    ensures n <= |es| && EvictTo(es, low) == es[n..]
    ensures Total(es[n..]) <= low
    ensures forall m :: 0 <= m < n ==> Total(es[m..]) > low
  {
    if Total(es) <= low {
      n := 0;
      assert es[0..] == es;
    } else {
      var k := EvictsShortestPrefix(es[1..], low);
      n := k + 1;
      assert es[1..][k..] == es[n..];
      forall m | 0 <= m < n ensures Total(es[m..]) > low {
        if m == 0 {
          assert es[0..] == es;
        } else {
          assert es[m..] == es[1..][m - 1..];
        }
      }
    }
  }

  lemma {:induction false} RemoveAbsent(es: Entries, k: string)
    ensures Lookup(es, k) == None ==> Remove(es, k) == es
  {
    if es != [] {
      RemoveAbsent(es[1..], k);
    }
  }

  lemma {:induction false} RemoveKeepsEntries(es: Entries, k: string)
    ensures forall e :: e in Remove(es, k) ==> e in es
  {
    if es != [] {
      RemoveKeepsEntries(es[1..], k);
      assert es == [es[0]] + es[1..];
    }
  }

  lemma OthersKeepTheirKey(es: Entries, k: string)
    requires Distinct(Keys(es))
    ensures forall e :: e in Remove(es, k) ==> e.key != k
  {
    KeysOfRemove(es, k);
    InWithout(Keys(es), k, k);
    var rest := Remove(es, k);
    forall e | e in rest ensures e.key != k {
      var i :| 0 <= i < |rest| && rest[i] == e;
      assert Keys(rest)[i] == e.key;
    }
  }

  lemma OthersDifferFromOldest(es: Entries)
    requires es != [] && Distinct(Keys(es))
    ensures forall e :: e in es[1..] ==> e.key != es[0].key
  {
  }

  lemma {:induction false} LookupIsEntry(es: Entries, k: string)
    ensures Lookup(es, k).Some? ==> Entry(k, Lookup(es, k).value) in es
  {
    if es != [] && es[0].key != k {
      LookupIsEntry(es[1..], k);
    }
  }

  /** Nothing is evicted up to the cap; above it, everything down to the low water mark. */
  lemma EvictsOnlyOverCap(es: Entries, max: nat, low: nat)
    requires low <= max
    ensures Total(es) <= max ==> EvictIfOver(es, max, low) == es
    ensures Total(es) > max ==> EvictIfOver(es, max, low) == EvictTo(es, low) && Total(EvictIfOver(es, max, low)) <= low
  {
    var n := EvictsShortestPrefix(es, low);
  }

  // ----- recency

  /** Every key has been used, and each was last used before all the keys behind it. */
  ghost predicate ByRecency(ks: seq<string>, uses: seq<string>)
  {
    ks == [] ||
    (&& ks[0] in uses
     && (forall x :: x in ks[1..] ==> x in uses && LastUse(uses, ks[0]) < LastUse(uses, x))
     && ByRecency(ks[1..], uses))
  }

  lemma {:induction false} RecencyAfterRemove(ks: seq<string>, uses: seq<string>, k: string)
    requires ByRecency(ks, uses)
    ensures ByRecency(Without(ks, k), uses)
  {
    if ks != [] {
      RecencyAfterRemove(ks[1..], uses, k);
      if ks[0] != k {
        SameMembersWithout(ks[1..], k);
        assert ([ks[0]] + Without(ks[1..], k))[1..] == Without(ks[1..], k);
      }
    }
  }

  lemma LastUseAfter(uses: seq<string>, k: string, x: string)
    ensures LastUse(uses + [k], k) == |uses|
    ensures x in uses && x != k ==> x in uses + [k] && LastUse(uses + [k], x) == LastUse(uses, x)
  {
  }

  lemma {:induction false} RecencyAfterUse(ks: seq<string>, uses: seq<string>, k: string)
    requires ByRecency(ks, uses) && k !in ks
    ensures ByRecency(ks + [k], uses + [k])
  {
    if ks == [] {
      assert [k][1..] == [];
    } else {
      RecencyAfterUse(ks[1..], uses, k);
      assert (ks + [k])[1..] == ks[1..] + [k];
      LastUseAfter(uses, k, ks[0]);
      forall x | x in ks[1..] + [k]
        ensures x in uses + [k] && LastUse(uses + [k], ks[0]) < LastUse(uses + [k], x)
      {
        LastUseAfter(uses, k, x);
      }
    }
  }

  /** Using a key moves it to the most recent end and leaves the order of the rest. */
  lemma RecencyAfterRegister(es: Entries, uses: seq<string>, k: string, size: nat)
    requires Distinct(Keys(es)) && ByRecency(Keys(es), uses)
    ensures ByRecency(Keys(Register(es, k, size)), uses + [k])
  {
    KeysOfRegister(es, k, size);
    RecencyAfterRemove(Keys(es), uses, k);
    InWithout(Keys(es), k, k);
    RecencyAfterUse(Without(Keys(es), k), uses, k);
  }

  lemma {:induction false} RecencyIsStrict(ks: seq<string>, uses: seq<string>, i: nat, j: nat)
    requires ByRecency(ks, uses) && i < j < |ks|
    ensures ks[i] in uses && ks[j] in uses && LastUse(uses, ks[i]) < LastUse(uses, ks[j])
  {
    if i == 0 {
      assert ks[j] == ks[1..][j - 1];
    } else {
      RecencyIsStrict(ks[1..], uses, i - 1, j - 1);
    }
  }

  /** Every evicted block was last used before every survivor. */
  lemma EvictedAreLessRecent(es: Entries, uses: seq<string>, low: nat, evicted: string, kept: string)
    requires Distinct(Keys(es)) && ByRecency(Keys(es), uses)
    requires evicted in Keys(es) && evicted !in Keys(EvictTo(es, low)) && kept in Keys(EvictTo(es, low))
    ensures evicted in uses && kept in uses && LastUse(uses, evicted) < LastUse(uses, kept)
  {
    var n := EvictsShortestPrefix(es, low);
    assert Keys(EvictTo(es, low)) == Keys(es)[n..];
    var i := IndexBefore(Keys(es), n, evicted);
    var j := IndexFrom(Keys(es), n, kept);
    RecencyIsStrict(Keys(es), uses, i, j);
  }
}
