/** Partitioning a page's comments and ordering them by score. */
module PageSort {
  import opened Options
  import opened PageEntries

  datatype Reserved = Reserved(pinnedFirst: bool, maxAgeSeconds: Option<int>)

  // `null` declines a comment; a missing or non-numeric score is a fault of the sort file
  datatype Score = Declined | NotANumber | Value(value: real)

  datatype Scored = Scored(entry: Entry, score: real)

  datatype Page = Ordered(entries: seq<Entry>) | NoNumericScore(cid: string)

  type Scorer = Entry -> Score

  // ----- partition

  predicate IsInWindow(o: Reserved, baseTimestamp: int, e: Entry)
  {
    o.maxAgeSeconds.Some? ==> e.timestamp >= baseTimestamp - o.maxAgeSeconds.value
  }

  function PinnedPart(comments: seq<Entry>, o: Reserved): seq<Entry>
  {
    if o.pinnedFirst then Filter(comments, (e: Entry) => e.pinned) else []
  }

  function UnpinnedPart(comments: seq<Entry>, o: Reserved, baseTimestamp: int): seq<Entry>
  {
    var unpinned := if o.pinnedFirst then Filter(comments, (e: Entry) => !e.pinned) else comments;
    if o.maxAgeSeconds.Some? then Filter(unpinned, e => IsInWindow(o, baseTimestamp, e)) else unpinned
  }

  // ----- the stable descending sort

  /** Array.prototype.sort with `b.score - a.score`: stable, so an equal score goes after the ones before it. */
  function Insert(x: Scored, s: seq<Scored>): seq<Scored>
  {
    if s == [] || x.score >= s[0].score then [x] + s else [s[0]] + Insert(x, s[1..])
  }

  function SortDescending(s: seq<Scored>): seq<Scored>
  {
    if s == [] then [] else Insert(s[0], SortDescending(s[1..]))
  }

  predicate IsDescending(s: seq<Scored>)
  {
    |s| <= 1 || (s[0].score >= s[1].score && IsDescending(s[1..]))
  }

  function WithScore(s: seq<Scored>, v: real): seq<Scored> { Filter(s, (x: Scored) => x.score == v) }

  /** Descending, and the comments of each score in their input order. */
  ghost predicate IsStableDescending(input: seq<Scored>, output: seq<Scored>)
  {
    IsDescending(output) && forall v :: WithScore(output, v) == WithScore(input, v)
  }

  lemma {:induction false} InsertIsDescending(x: Scored, s: seq<Scored>)
    requires IsDescending(s)
    ensures IsDescending(Insert(x, s))
    ensures Insert(x, s)[0] == x || (s != [] && Insert(x, s)[0] == s[0])
  {
    if s != [] && x.score < s[0].score {
      InsertIsDescending(x, s[1..]);
      assert ([s[0]] + Insert(x, s[1..]))[1..] == Insert(x, s[1..]);
    } else {
      assert ([x] + s)[1..] == s;
    }
  }

  lemma {:induction false} InsertIsStable(x: Scored, s: seq<Scored>, v: real)
    ensures WithScore(Insert(x, s), v) == (if x.score == v then [x] else []) + WithScore(s, v)
  {
    if s != [] && x.score < s[0].score {
      InsertIsStable(x, s[1..], v);
      assert ([s[0]] + Insert(x, s[1..]))[1..] == Insert(x, s[1..]);
    } else {
      assert ([x] + s)[1..] == s;
    }
  }

  lemma {:induction false} SortIsDescending(s: seq<Scored>)
    ensures IsDescending(SortDescending(s))
  {
    if s != [] {
      SortIsDescending(s[1..]);
      InsertIsDescending(s[0], SortDescending(s[1..]));
    }
  }

  lemma {:induction false} SortKeepsScore(s: seq<Scored>, v: real)
    ensures WithScore(SortDescending(s), v) == WithScore(s, v)
  {
    if s != [] {
      SortKeepsScore(s[1..], v);
      InsertIsStable(s[0], SortDescending(s[1..]), v);
    }
  }

  lemma SortIsStable(s: seq<Scored>)
    ensures IsStableDescending(s, SortDescending(s))
  {
    SortIsDescending(s);
    forall v ensures WithScore(SortDescending(s), v) == WithScore(s, v) {
      SortKeepsScore(s, v);
    }
  }

  lemma {:induction false} BelowFirst(s: seq<Scored>, v: real)
    requires IsDescending(s) && (s == [] || s[0].score < v)
    ensures WithScore(s, v) == []
  {
    if s != [] {
      BelowFirst(s[1..], v);
    }
  }

  lemma HeadOfScore(s: seq<Scored>)
    requires s != []
    ensures WithScore(s, s[0].score) == [s[0]] + WithScore(s[1..], s[0].score)
    ensures forall v :: v != s[0].score ==> WithScore(s, v) == WithScore(s[1..], v)
  {
  }

  /** The order is determined: any stable descending sort gives the same sequence. */
  lemma {:induction false} StableOrderIsUnique(input: seq<Scored>, a: seq<Scored>, b: seq<Scored>)
    requires IsStableDescending(input, a) && IsStableDescending(input, b)
    ensures a == b
    decreases |a|
  {
    if a == [] {
      if b != [] { HeadOfScore(b); }
    } else if b == [] {
      HeadOfScore(a);
    } else {
      HeadOfScore(a);
      HeadOfScore(b);
      SameFirst(input, a, b);
      assert WithScore(a, a[0].score)[0] == a[0] && WithScore(b, a[0].score)[0] == b[0];
      forall v ensures WithScore(a[1..], v) == WithScore(b[1..], v) {
        assert WithScore(a, v) == WithScore(b, v);
        if v == a[0].score {
          assert WithScore(a[1..], v) == WithScore(a, v)[1..] && WithScore(b[1..], v) == WithScore(b, v)[1..];
        }
      }
      StableOrderIsUnique(a[1..], a[1..], b[1..]);
    }
  }

  lemma SameFirst(input: seq<Scored>, a: seq<Scored>, b: seq<Scored>)
    requires IsStableDescending(input, a) && IsStableDescending(input, b) && a != [] && b != []
    ensures a[0].score == b[0].score
  {
    HeadOfScore(a);
    HeadOfScore(b);
    assert WithScore(a, a[0].score) == WithScore(b, a[0].score);
    assert WithScore(a, b[0].score) == WithScore(b, b[0].score);
    if a[0].score > b[0].score {
      BelowFirst(b, a[0].score);
    } else if b[0].score > a[0].score {
      BelowFirst(a, b[0].score);
    }
  }

  lemma {:induction false} InsertIsPermutation(x: Scored, s: seq<Scored>)
    ensures multiset(Insert(x, s)) == multiset{x} + multiset(s)
  {
    if s != [] && x.score < s[0].score {
      InsertIsPermutation(x, s[1..]);
      assert s == [s[0]] + s[1..];
    }
  }

  lemma {:induction false} SortIsPermutation(s: seq<Scored>)
    ensures multiset(SortDescending(s)) == multiset(s)
  {
    if s != [] {
      SortIsPermutation(s[1..]);
      InsertIsPermutation(s[0], SortDescending(s[1..]));
      assert s == [s[0]] + s[1..];
    }
  }

  // ----- scoring and ordering

  /** The scored comments of a group, without the declined ones. */
  function ScoredOf(es: seq<Entry>, scoreOf: Scorer): seq<Scored>
  {
    if es == [] then []
    else
      match scoreOf(es[0])
      case Value(v) => [Scored(es[0], v)] + ScoredOf(es[1..], scoreOf)
      case _ => ScoredOf(es[1..], scoreOf)
  }

  function FirstFault(es: seq<Entry>, scoreOf: Scorer): Option<string>
  {
    if es == [] then None
    else if scoreOf(es[0]).NotANumber? then Some(es[0].cid)
    else FirstFault(es[1..], scoreOf)
  }

  function EntriesOf(s: seq<Scored>): (es: seq<Entry>)
    ensures |es| == |s| && forall i :: 0 <= i < |s| ==> es[i] == s[i].entry
  {
    seq(|s|, i requires 0 <= i < |s| => s[i].entry)
  }

  function KeptOrder(es: seq<Entry>, scoreOf: Scorer): seq<Entry> { EntriesOf(SortDescending(ScoredOf(es, scoreOf))) }

  function Order(pinned: seq<Entry>, unpinned: seq<Entry>, scoreOf: Scorer): Page
  {
    match FirstFault(pinned, scoreOf)
    case Some(cid) => NoNumericScore(cid)
    case None =>
      match FirstFault(unpinned, scoreOf)
      case Some(cid) => NoNumericScore(cid)
      case None => Ordered(KeptOrder(pinned, scoreOf) + KeptOrder(unpinned, scoreOf))
  }

  /** The inner `kept`: score each entry in turn, then sort. */
  method Kept(es: seq<Entry>, scoreOf: Scorer) returns (page: Page)
    ensures match FirstFault(es, scoreOf)
            case Some(cid) => page == NoNumericScore(cid)
            case None => page == Ordered(KeptOrder(es, scoreOf))
  {
    var scored: seq<Scored> := [];
    assert es[0..] == es;
    for i := 0 to |es|
      invariant FirstFault(es, scoreOf) == FirstFault(es[i..], scoreOf)
      invariant scored + ScoredOf(es[i..], scoreOf) == ScoredOf(es, scoreOf)
    {
      NextEntry(es, i, scored, scoreOf);
      match scoreOf(es[i]) {
        case Declined =>
        case NotANumber => return NoNumericScore(es[i].cid);
        case Value(v) => scored := scored + [Scored(es[i], v)];
      }
    }
    assert scored + [] == scored;
    page := Ordered(EntriesOf(SortDescending(scored)));
  }

  lemma NextEntry(es: seq<Entry>, i: nat, before: seq<Scored>, scoreOf: Scorer)
    requires i < |es|
    ensures match scoreOf(es[i])
            case Declined =>
              && ScoredOf(es[i..], scoreOf) == ScoredOf(es[i + 1..], scoreOf)
              && FirstFault(es[i..], scoreOf) == FirstFault(es[i + 1..], scoreOf)
            case NotANumber => FirstFault(es[i..], scoreOf) == Some(es[i].cid)
            case Value(v) =>
              && before + ScoredOf(es[i..], scoreOf) == before + [Scored(es[i], v)] + ScoredOf(es[i + 1..], scoreOf)
              && FirstFault(es[i..], scoreOf) == FirstFault(es[i + 1..], scoreOf)
  {
  }

  method OrderPageCommentsByScore(pinned: seq<Entry>, unpinned: seq<Entry>, scoreOf: Scorer) returns (page: Page)
    ensures page == Order(pinned, unpinned, scoreOf)
  {
    page := Kept(pinned, scoreOf);
    if page.Ordered? {
      var rest := Kept(unpinned, scoreOf);
      page := if rest.Ordered? then Ordered(page.entries + rest.entries) else rest;
    }
  }

  /** Partition, then order: what the community publishes and what a client re-computes. */
  function SortPage(comments: seq<Entry>, o: Reserved, baseTimestamp: int, scoreOf: Scorer): Page
  {
    Order(PinnedPart(comments, o), UnpinnedPart(comments, o, baseTimestamp), scoreOf)
  }

  // ----- what the page holds

  predicate IsPinnedFirst(o: Reserved, e: Entry) { o.pinnedFirst && e.pinned }

  /** Pinned under `pinnedFirst`, or inside the window. */
  predicate IsEligible(o: Reserved, baseTimestamp: int, e: Entry)
  {
    IsPinnedFirst(o, e) || IsInWindow(o, baseTimestamp, e)
  }

  lemma {:induction false} ScoredIsFaithful(es: seq<Entry>, scoreOf: Scorer, i: nat)
    requires i < |ScoredOf(es, scoreOf)|
    ensures var x := ScoredOf(es, scoreOf)[i]; x.entry in es && scoreOf(x.entry) == Value(x.score)
  {
    match scoreOf(es[0]) {
      case Value(v) => if i > 0 { ScoredIsFaithful(es[1..], scoreOf, i - 1); }
      case _ => ScoredIsFaithful(es[1..], scoreOf, i);
    }
  }

  lemma PartsPartition(comments: seq<Entry>, o: Reserved, baseTimestamp: int)
    ensures multiset(PinnedPart(comments, o)) + multiset(UnpinnedPart(comments, o, baseTimestamp))
            == multiset(Filter(comments, e => IsEligible(o, baseTimestamp, e)))
  {
    var eligible := (e: Entry) => IsEligible(o, baseTimestamp, e);
    var window := (e: Entry) => IsInWindow(o, baseTimestamp, e);
    if o.pinnedFirst {
      SplitByPin(comments, window, eligible);
      if o.maxAgeSeconds.None? { FilterAll(Filter(comments, (e: Entry) => !e.pinned), window); }
      assert PinnedPart(comments, o) == Filter(comments, (e: Entry) => e.pinned);
      assert UnpinnedPart(comments, o, baseTimestamp) == Filter(Filter(comments, (e: Entry) => !e.pinned), window);
    } else {
      SameFilter(comments, window, eligible);
      if o.maxAgeSeconds.None? { FilterAll(comments, window); }
      assert UnpinnedPart(comments, o, baseTimestamp) == Filter(comments, window);
    }
    SameFilter(comments, eligible, e => IsEligible(o, baseTimestamp, e));
  }

  lemma {:induction false} SameFilter(s: seq<Entry>, p: Entry -> bool, q: Entry -> bool)
    requires forall e :: p(e) == q(e)
    ensures Filter(s, p) == Filter(s, q)
  {
    if s != [] {
      SameFilter(s[1..], p, q);
    }
  }

  lemma {:induction false} SplitByPin(s: seq<Entry>, window: Entry -> bool, eligible: Entry -> bool)
    requires forall e: Entry :: eligible(e) == (e.pinned || window(e))
    ensures multiset(Filter(s, (e: Entry) => e.pinned)) + multiset(Filter(Filter(s, (e: Entry) => !e.pinned), window))
            == multiset(Filter(s, eligible))
  {
    if s != [] {
      SplitByPin(s[1..], window, eligible);
      var rest := Filter(s[1..], (e: Entry) => !e.pinned);
      if !s[0].pinned {
        assert ([s[0]] + rest)[1..] == rest;
      }
    }
  }

  /** The page is a permutation of the eligible comments that have a score: nothing lost, doubled or added. */
  lemma PageIsPermutation(comments: seq<Entry>, o: Reserved, baseTimestamp: int, scoreOf: Scorer)
    requires SortPage(comments, o, baseTimestamp, scoreOf).Ordered?
    ensures multiset(SortPage(comments, o, baseTimestamp, scoreOf).entries)
            == multiset(Filter(Filter(comments, e => IsEligible(o, baseTimestamp, e)), e => scoreOf(e).Value?))
  {
    var pinned, unpinned := PinnedPart(comments, o), UnpinnedPart(comments, o, baseTimestamp);
    KeptIsPermutation(pinned, scoreOf);
    KeptIsPermutation(unpinned, scoreOf);
    PartsPartition(comments, o, baseTimestamp);
    FilterConcat(pinned, unpinned, e => scoreOf(e).Value?);
    var eligible := Filter(comments, e => IsEligible(o, baseTimestamp, e));
    assert multiset(pinned + unpinned) == multiset(eligible);
    FilterOfPermutation(pinned + unpinned, eligible, e => scoreOf(e).Value?);
  }

  /** Said comment by comment: it is on the page exactly when it has a score and is pinned while pins go first,
      or the page has no age limit, or the comment is no older than the limit. */
  lemma PageHoldsExactly(comments: seq<Entry>, o: Reserved, baseTimestamp: int, scoreOf: Scorer, e: Entry)
    requires SortPage(comments, o, baseTimestamp, scoreOf).Ordered?
    ensures e in SortPage(comments, o, baseTimestamp, scoreOf).entries <==>
            && e in comments && scoreOf(e).Value?
            && ((o.pinnedFirst && e.pinned) || o.maxAgeSeconds.None? ||
                baseTimestamp - e.timestamp <= o.maxAgeSeconds.value)
  {
    PageIsPermutation(comments, o, baseTimestamp, scoreOf);
    var page := SortPage(comments, o, baseTimestamp, scoreOf).entries;
    var eligible := Filter(comments, e => IsEligible(o, baseTimestamp, e));
    var held := Filter(eligible, e => scoreOf(e).Value?);
    InFilter(comments, e => IsEligible(o, baseTimestamp, e), e);
    InFilter(eligible, e => scoreOf(e).Value?, e);
    assert e in page <==> e in multiset(page);
    assert e in held <==> e in multiset(held);
  }

  /** The fault that is named is the first one. */
  lemma {:induction false} FaultIsFirst(es: seq<Entry>, scoreOf: Scorer) returns (i: nat)
    ensures i <= |es| && forall j :: 0 <= j < i ==> !scoreOf(es[j]).NotANumber?
    ensures FirstFault(es, scoreOf) == if i < |es| then Some(es[i].cid) else None
    ensures i < |es| ==> scoreOf(es[i]).NotANumber?
  {
    i := 0;
    if es != [] && !scoreOf(es[0]).NotANumber? {
      var k := FaultIsFirst(es[1..], scoreOf);
      i := k + 1;
    }
  }

  /** A page is refused exactly when some comment that would be on it has no number for a score. */
  lemma PageFaultsExactly(comments: seq<Entry>, o: Reserved, baseTimestamp: int, scoreOf: Scorer)
    ensures SortPage(comments, o, baseTimestamp, scoreOf).Ordered? <==>
            forall i :: 0 <= i < |comments| && IsEligible(o, baseTimestamp, comments[i]) ==>
                          !scoreOf(comments[i]).NotANumber?
  {
    var p, u := PinnedPart(comments, o), UnpinnedPart(comments, o, baseTimestamp);
    var i := FaultIsFirst(p, scoreOf);
    var j := FaultIsFirst(u, scoreOf);
    if i < |p| {
      PartsAreEligible(comments, o, baseTimestamp, p[i]);
    } else if j < |u| {
      PartsAreEligible(comments, o, baseTimestamp, u[j]);
    } else {
      forall k | 0 <= k < |comments| && IsEligible(o, baseTimestamp, comments[k])
        ensures !scoreOf(comments[k]).NotANumber?
      {
        PartsAreEligible(comments, o, baseTimestamp, comments[k]);
      }
    }
  }

  lemma PartsAreEligible(comments: seq<Entry>, o: Reserved, baseTimestamp: int, e: Entry)
    ensures e in PinnedPart(comments, o) || e in UnpinnedPart(comments, o, baseTimestamp) <==>
            e in comments && IsEligible(o, baseTimestamp, e)
  {
    PartsPartition(comments, o, baseTimestamp);
    InFilter(comments, e => IsEligible(o, baseTimestamp, e), e);
    var p, u := PinnedPart(comments, o), UnpinnedPart(comments, o, baseTimestamp);
    var eligible := Filter(comments, e => IsEligible(o, baseTimestamp, e));
    assert e in eligible <==> e in multiset(eligible);
    assert e in p <==> e in multiset(p);
    assert e in u <==> e in multiset(u);
  }

  lemma {:induction false} FilterCounts(s: seq<Entry>, keep: Entry -> bool, x: Entry)
    ensures multiset(Filter(s, keep))[x] == if keep(x) then multiset(s)[x] else 0
  {
    if s != [] {
      FilterCounts(s[1..], keep, x);
      assert s == [s[0]] + s[1..];
    }
  }

  lemma FilterOfPermutation(a: seq<Entry>, b: seq<Entry>, keep: Entry -> bool)
    requires multiset(a) == multiset(b)
    ensures multiset(Filter(a, keep)) == multiset(Filter(b, keep))
  {
    forall x ensures multiset(Filter(a, keep))[x] == multiset(Filter(b, keep))[x] {
      FilterCounts(a, keep, x);
      FilterCounts(b, keep, x);
    }
  }

  lemma EntriesOfCons(x: Scored, s: seq<Scored>)
    ensures EntriesOf([x] + s) == [x.entry] + EntriesOf(s)
  {
  }

  lemma {:induction false} InsertKeepsEntries(x: Scored, s: seq<Scored>)
    ensures multiset(EntriesOf(Insert(x, s))) == multiset{x.entry} + multiset(EntriesOf(s))
  {
    if s != [] && x.score < s[0].score {
      InsertKeepsEntries(x, s[1..]);
      EntriesOfCons(s[0], Insert(x, s[1..]));
      EntriesOfCons(s[0], s[1..]);
      assert s == [s[0]] + s[1..];
    } else {
      EntriesOfCons(x, s);
    }
  }

  lemma {:induction false} SortKeepsEntries(s: seq<Scored>)
    ensures multiset(EntriesOf(SortDescending(s))) == multiset(EntriesOf(s))
  {
    if s != [] {
      SortKeepsEntries(s[1..]);
      InsertKeepsEntries(s[0], SortDescending(s[1..]));
      EntriesOfCons(s[0], s[1..]);
      assert s == [s[0]] + s[1..];
    }
  }

  lemma {:induction false} EntriesOfScored(es: seq<Entry>, scoreOf: Scorer)
    ensures EntriesOf(ScoredOf(es, scoreOf)) == Filter(es, e => scoreOf(e).Value?)
  {
    if es != [] {
      EntriesOfScored(es[1..], scoreOf);
      match scoreOf(es[0]) {
        case Value(v) =>
          EntriesOfCons(Scored(es[0], v), ScoredOf(es[1..], scoreOf));
        case _ =>
      }
    }
  }

  lemma KeptIsPermutation(es: seq<Entry>, scoreOf: Scorer)
    ensures multiset(KeptOrder(es, scoreOf)) == multiset(Filter(es, e => scoreOf(e).Value?))
  {
    SortKeepsEntries(ScoredOf(es, scoreOf));
    EntriesOfScored(es, scoreOf);
  }

  // ----- re-sorting

  lemma SortedStays(s: seq<Scored>)
    requires IsDescending(s)
    ensures SortDescending(s) == s
  {
    SortIsStable(s);
    StableOrderIsUnique(s, SortDescending(s), s);
  }

  lemma {:induction false} ScoredOfEntries(s: seq<Scored>, scoreOf: Scorer)
    requires forall i :: 0 <= i < |s| ==> scoreOf(s[i].entry) == Value(s[i].score)
    ensures ScoredOf(EntriesOf(s), scoreOf) == s && FirstFault(EntriesOf(s), scoreOf) == None
  {
    if s != [] {
      assert EntriesOf(s)[1..] == EntriesOf(s[1..]);
      ScoredOfEntries(s[1..], scoreOf);
    }
  }

  lemma KeptComesFrom(es: seq<Entry>, scoreOf: Scorer, i: nat)
    requires i < |KeptOrder(es, scoreOf)|
    ensures var x := SortDescending(ScoredOf(es, scoreOf))[i];
            x.entry == KeptOrder(es, scoreOf)[i] && x.entry in es && scoreOf(x.entry) == Value(x.score)
  {
    var scored, sorted := ScoredOf(es, scoreOf), SortDescending(ScoredOf(es, scoreOf));
    SortIsPermutation(scored);
    assert sorted[i] in multiset(sorted);
    var j :| 0 <= j < |scored| && scored[j] == sorted[i];
    ScoredIsFaithful(es, scoreOf, j);
  }

  /** Ordering a group again changes nothing. */
  lemma KeptOrderIsStable(es: seq<Entry>, scoreOf: Scorer)
    ensures KeptOrder(KeptOrder(es, scoreOf), scoreOf) == KeptOrder(es, scoreOf)
    ensures FirstFault(KeptOrder(es, scoreOf), scoreOf) == None
  {
    var sorted := SortDescending(ScoredOf(es, scoreOf));
    forall i | 0 <= i < |sorted| ensures scoreOf(sorted[i].entry) == Value(sorted[i].score) {
      KeptComesFrom(es, scoreOf, i);
    }
    ScoredOfEntries(sorted, scoreOf);
    SortIsDescending(ScoredOf(es, scoreOf));
    SortedStays(sorted);
  }

  lemma PinnedOfPage(p: seq<Entry>, u: seq<Entry>, o: Reserved)
    requires o.pinnedFirst
    requires (forall i :: 0 <= i < |p| ==> p[i].pinned) && (forall i :: 0 <= i < |u| ==> !u[i].pinned)
    ensures Filter(p + u, (e: Entry) => e.pinned) == p && Filter(p + u, (e: Entry) => !e.pinned) == u
  {
    FilterConcat(p, u, (e: Entry) => e.pinned);
    FilterConcat(p, u, (e: Entry) => !e.pinned);
    FilterAll(p, (e: Entry) => e.pinned);
    FilterNone(u, (e: Entry) => e.pinned);
    FilterNone(p, (e: Entry) => !e.pinned);
    FilterAll(u, (e: Entry) => !e.pinned);
  }

  lemma PartsOfPage(comments: seq<Entry>, o: Reserved, baseTimestamp: int, scoreOf: Scorer)
    ensures var p := KeptOrder(PinnedPart(comments, o), scoreOf);
            var u := KeptOrder(UnpinnedPart(comments, o, baseTimestamp), scoreOf);
            PinnedPart(p + u, o) == p && UnpinnedPart(p + u, o, baseTimestamp) == u
  {
    var pinned, unpinned := PinnedPart(comments, o), UnpinnedPart(comments, o, baseTimestamp);
    var p, u := KeptOrder(pinned, scoreOf), KeptOrder(unpinned, scoreOf);
    forall i | 0 <= i < |p| ensures o.pinnedFirst && p[i].pinned {
      KeptComesFrom(pinned, scoreOf, i);
      InFilter(comments, (e: Entry) => e.pinned, p[i]);
    }
    forall i | 0 <= i < |u| ensures (o.pinnedFirst ==> !u[i].pinned) && IsInWindow(o, baseTimestamp, u[i]) {
      KeptComesFrom(unpinned, scoreOf, i);
      UnpinnedMember(comments, o, baseTimestamp, u[i]);
    }
    if o.pinnedFirst {
      PinnedOfPage(p, u, o);
    } else {
      assert p == [];
      assert p + u == u;
    }
    if o.maxAgeSeconds.Some? { FilterAll(u, e => IsInWindow(o, baseTimestamp, e)); }
  }

  lemma UnpinnedMember(comments: seq<Entry>, o: Reserved, baseTimestamp: int, e: Entry)
    requires e in UnpinnedPart(comments, o, baseTimestamp)
    ensures (o.pinnedFirst ==> !e.pinned) && IsInWindow(o, baseTimestamp, e)
  {
    var base := if o.pinnedFirst then Filter(comments, (x: Entry) => !x.pinned) else comments;
    if o.maxAgeSeconds.Some? { InFilter(base, x => IsInWindow(o, baseTimestamp, x), e); }
    InFilter(comments, (x: Entry) => !x.pinned, e);
  }

  /** A client that re-sorts a page with the same options, base time and scores gets the page it was given. */
  lemma ResortingIsIdentity(comments: seq<Entry>, o: Reserved, baseTimestamp: int, scoreOf: Scorer)
    requires SortPage(comments, o, baseTimestamp, scoreOf).Ordered?
    ensures var page := SortPage(comments, o, baseTimestamp, scoreOf);
            SortPage(page.entries, o, baseTimestamp, scoreOf) == page
  {
    PartsOfPage(comments, o, baseTimestamp, scoreOf);
    KeptOrderIsStable(PinnedPart(comments, o), scoreOf);
    KeptOrderIsStable(UnpinnedPart(comments, o, baseTimestamp), scoreOf);
  }

  /** Pinned comments come first, and each group is in stable descending order of score. */
  lemma PageIsOrdered(comments: seq<Entry>, o: Reserved, baseTimestamp: int, scoreOf: Scorer)
    returns (pinned: seq<Scored>, unpinned: seq<Scored>)
    requires SortPage(comments, o, baseTimestamp, scoreOf).Ordered?
    ensures SortPage(comments, o, baseTimestamp, scoreOf).entries == EntriesOf(pinned) + EntriesOf(unpinned)
    ensures IsStableDescending(ScoredOf(PinnedPart(comments, o), scoreOf), pinned)
    ensures IsStableDescending(ScoredOf(UnpinnedPart(comments, o, baseTimestamp), scoreOf), unpinned)
    ensures forall i :: 0 <= i < |pinned| ==> IsPinnedFirst(o, pinned[i].entry)
    ensures forall i :: 0 <= i < |unpinned| ==> !IsPinnedFirst(o, unpinned[i].entry)
  {
    var p, u := PinnedPart(comments, o), UnpinnedPart(comments, o, baseTimestamp);
    pinned, unpinned := SortDescending(ScoredOf(p, scoreOf)), SortDescending(ScoredOf(u, scoreOf));
    SortIsStable(ScoredOf(p, scoreOf));
    SortIsStable(ScoredOf(u, scoreOf));
    forall i | 0 <= i < |pinned| ensures IsPinnedFirst(o, pinned[i].entry) {
      KeptComesFrom(p, scoreOf, i);
      InFilter(comments, (e: Entry) => e.pinned, pinned[i].entry);
    }
    forall i | 0 <= i < |unpinned| ensures !IsPinnedFirst(o, unpinned[i].entry) {
      KeptComesFrom(u, scoreOf, i);
      UnpinnedMember(comments, o, baseTimestamp, unpinned[i].entry);
    }
  }
}
