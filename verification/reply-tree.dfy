/** The stack-driven search for the descendants of a comment. */
module ReplyTree {
  import opened Options
  import opened Sequences
  import opened PageEntries

  /** What holds whenever the loop tests its stack: `done` are the cids already popped. */
  ghost predicate IsWalked(
    es: seq<Entry>, root: string, stack: seq<string>, found: seq<Entry>, done: set<string>)
  {
    && IsInStep(root, stack, CidsOf(found), done)
    && AreFound(es, root, found, done) && IsClosed(es, found, done)
  }

  ghost predicate AreFound(es: seq<Entry>, root: string, found: seq<Entry>, done: set<string>)
  {
    forall e :: e in found ==> IsFound(es, root, done, e)
  }

  /** The children of every popped cid have been found. */
  ghost predicate IsClosed(es: seq<Entry>, found: seq<Entry>, done: set<string>)
  {
    forall e :: e in es && HasParentIn(e, done) ==> e in found
  }

  predicate HasParentIn(e: Entry, done: set<string>)
  {
    e.parentCid.Some? && IsChildOf(e, e.parentCid.value) && e.parentCid.value in done
  }

  /** Every cid reached is waiting or popped, never both and never twice. */
  ghost predicate IsInStep(root: string, stack: seq<string>, foundCids: seq<string>, done: set<string>)
  {
    Distinct(stack) && Distinct(foundCids) && IsWaiting(stack, done) && IsReached(root, stack, foundCids, done)
  }

  ghost predicate IsWaiting(stack: seq<string>, done: set<string>) { forall c :: c in stack ==> c !in done }

  ghost predicate IsReached(root: string, stack: seq<string>, foundCids: seq<string>, done: set<string>)
  {
    forall c :: c in stack || c in done <==> c == root || c in foundCids
  }

  ghost predicate IsFound(es: seq<Entry>, root: string, done: set<string>, e: Entry)
  {
    && e in es && IsUnder(es, root, e.cid)
    && e.parentCid.Some? && e.parentCid.value in done
  }

  // ----- entries and their cids

  lemma CidAt(es: seq<Entry>, e: Entry)
    requires e in es
    ensures e.cid in CidsOf(es)
  {
  }

  lemma CidsOfConcat(a: seq<Entry>, b: seq<Entry>)
    ensures CidsOf(a + b) == CidsOf(a) + CidsOf(b)
  {
  }

  lemma {:induction false} SameCidSameEntry(es: seq<Entry>, a: Entry, b: Entry)
    requires HasUniqueCids(es) && a in es && b in es && a.cid == b.cid
    ensures a == b
  {
    assert CidsOf(es)[1..] == CidsOf(es[1..]);
    assert es == [es[0]] + es[1..];
    if a != es[0] && b != es[0] {
      SameCidSameEntry(es[1..], a, b);
    } else if a != es[0] {
      CidAt(es[1..], a);
    } else if b != es[0] {
      CidAt(es[1..], b);
    }
  }

  lemma {:induction false} FilterHasUniqueCids(es: seq<Entry>, keep: Entry -> bool)
    requires HasUniqueCids(es)
    ensures HasUniqueCids(Filter(es, keep))
  {
    if es != [] {
      assert CidsOf(es)[1..] == CidsOf(es[1..]);
      FilterHasUniqueCids(es[1..], keep);
      var rest := Filter(es[1..], keep);
      assert CidsOf([es[0]] + rest) == [es[0].cid] + CidsOf(rest);
      forall i | 0 <= i < |rest| ensures rest[i].cid != es[0].cid {
        InFilter(es[1..], keep, rest[i]);
        CidAt(es[1..], rest[i]);
      }
    }
  }

  // ----- one round of the loop

  lemma LinkFromEntry(es: seq<Entry>, parent: string, e: Entry)
    requires e in es && IsChildOf(e, parent)
    ensures IsLink(es, parent, e.cid)
  {
  }

  lemma UnderFromParent(es: seq<Entry>, root: string, parent: string, e: Entry)
    requires e in es && IsChildOf(e, parent) && (parent == root || IsUnder(es, root, parent))
    ensures IsUnder(es, root, e.cid)
  {
    LinkFromEntry(es, parent, e);
    if parent == root {
      assert IsReplyChain(es, root, [e.cid]);
    } else {
      var chain :| IsReplyChain(es, root, chain) && chain[|chain| - 1] == parent;
      var longer := chain + [e.cid];
      forall i | 0 < i < |longer| ensures IsLink(es, longer[i - 1], longer[i]) {
        if i < |chain| { assert IsLink(es, chain[i - 1], chain[i]); }
      }
      assert IsReplyChain(es, root, longer);
    }
  }

  /** A child of the popped cid is new: its cid was never pushed. */
  lemma ChildIsNew(
    es: seq<Entry>, root: string, stack: seq<string>, found: seq<Entry>, done: set<string>, e: Entry)
    requires HasUniqueCids(es) && !IsUnder(es, root, root) && stack != []
    requires IsWalked(es, root, stack, found, done)
    requires e in es && IsChildOf(e, stack[|stack| - 1])
    ensures e.cid !in stack && e.cid !in done
    ensures IsUnder(es, root, e.cid)
  {
    var c := stack[|stack| - 1];
    if c != root {
      var i :| 0 <= i < |found| && CidsOf(found)[i] == c;
      assert found[i] in found && found[i].cid == c;
      assert IsFound(es, root, done, found[i]);
    }
    UnderFromParent(es, root, c, e);
    forall i | 0 <= i < |found| ensures found[i].cid != e.cid {
      assert found[i] in found;
      assert IsFound(es, root, done, found[i]);
      if found[i].cid == e.cid { SameCidSameEntry(es, found[i], e); }
    }
  }

  lemma KidsAreNew(
    es: seq<Entry>, root: string, stack: seq<string>, found: seq<Entry>, done: set<string>)
    requires HasUniqueCids(es) && !IsUnder(es, root, root) && stack != []
    requires IsWalked(es, root, stack, found, done)
    ensures var c := stack[|stack| - 1];
            var kids := ChildrenOf(es, c);
            && HasUniqueCids(kids)
            && (forall x :: x in CidsOf(kids) ==> x !in stack && x !in done)
            && forall e :: e in kids ==> IsFound(es, root, done + {c}, e)
  {
    var c := stack[|stack| - 1];
    var kids := ChildrenOf(es, c);
    FilterHasUniqueCids(es, e => IsChildOf(e, c));
    forall e | e in kids
      ensures e.cid !in stack && e.cid !in done && IsFound(es, root, done + {c}, e)
    {
      InFilter(es, e => IsChildOf(e, c), e);
      ChildIsNew(es, root, stack, found, done, e);
    }
    forall x | x in CidsOf(kids) ensures x !in stack && x !in done {
      var i :| 0 <= i < |kids| && CidsOf(kids)[i] == x;
      assert kids[i] in kids;
    }
  }

  lemma PushIsDistinct(rest: seq<string>, c: string, kidCids: seq<string>)
    requires Distinct(rest + [c]) && Distinct(kidCids) && forall x :: x in kidCids ==> x !in rest + [c]
    ensures Distinct(rest + kidCids) && c !in rest + kidCids
  {
    DistinctInit(rest + [c]);
    assert (rest + [c])[..|rest|] == rest;
    DistinctConcat(rest, kidCids);
  }

  lemma PushIsReached(
    root: string, rest: seq<string>, c: string, foundCids: seq<string>, done: set<string>, kidCids: seq<string>)
    requires IsReached(root, rest + [c], foundCids, done)
    ensures IsReached(root, rest + kidCids, foundCids + kidCids, done + {c})
  {
  }

  lemma PushIsWaiting(rest: seq<string>, c: string, done: set<string>, kidCids: seq<string>)
    requires IsWaiting(rest + [c], done) && IsWaiting(kidCids, done) && c !in rest + kidCids
    ensures IsWaiting(rest + kidCids, done + {c})
  {
  }

  lemma FoundIsDistinct(
    root: string, stack: seq<string>, foundCids: seq<string>, done: set<string>, kidCids: seq<string>)
    requires IsReached(root, stack, foundCids, done) && Distinct(foundCids) && Distinct(kidCids)
    requires forall x :: x in kidCids ==> x !in stack && x !in done
    ensures Distinct(foundCids + kidCids)
  {
    DistinctConcat(foundCids, kidCids);
  }

  /** Popping one cid and pushing new ones keeps the stack, the popped and the found cids in step. */
  lemma PushKeepsStep(
    root: string, rest: seq<string>, c: string, foundCids: seq<string>, done: set<string>, kidCids: seq<string>)
    requires IsInStep(root, rest + [c], foundCids, done) && Distinct(kidCids)
    requires forall x :: x in kidCids ==> x !in rest + [c] && x !in done
    ensures IsInStep(root, rest + kidCids, foundCids + kidCids, done + {c})
  {
    PushIsDistinct(rest, c, kidCids);
    FoundIsDistinct(root, rest + [c], foundCids, done, kidCids);
    PushIsWaiting(rest, c, done, kidCids);
    PushIsReached(root, rest, c, foundCids, done, kidCids);
  }

  lemma RoundKeepsFound(
    es: seq<Entry>, root: string, stack: seq<string>, found: seq<Entry>, done: set<string>)
    requires HasUniqueCids(es) && !IsUnder(es, root, root) && stack != []
    requires IsWalked(es, root, stack, found, done)
    ensures var c := stack[|stack| - 1];
            var more := found + ChildrenOf(es, c);
            AreFound(es, root, more, done + {c}) && IsClosed(es, more, done + {c})
  {
    var c := stack[|stack| - 1];
    var kids := ChildrenOf(es, c);
    KidsAreNew(es, root, stack, found, done);
    forall e | e in found + kids
      ensures IsFound(es, root, done + {c}, e)
    {
      if e in found { assert IsFound(es, root, done, e); }
    }
    forall e | e in es && HasParentIn(e, done + {c})
      ensures e in found + kids
    {
      InFilter(es, e => IsChildOf(e, c), e);
    }
  }

  lemma RoundKeepsStep(es: seq<Entry>, root: string, stack: seq<string>, found: seq<Entry>, done: set<string>)
    requires HasUniqueCids(es) && !IsUnder(es, root, root) && stack != []
    requires IsWalked(es, root, stack, found, done)
    ensures var c := stack[|stack| - 1];
            var kids := ChildrenOf(es, c);
            IsInStep(root, stack[..|stack| - 1] + CidsOf(kids), CidsOf(found + kids), done + {c})
  {
    var c, rest := stack[|stack| - 1], stack[..|stack| - 1];
    var kids := ChildrenOf(es, c);
    KidsAreNew(es, root, stack, found, done);
    assert stack == rest + [c];
    CidsOfConcat(found, kids);
    PushKeepsStep(root, rest, c, CidsOf(found), done, CidsOf(kids));
  }

  lemma RoundKeepsWalked(es: seq<Entry>, root: string, stack: seq<string>, found: seq<Entry>, done: set<string>)
    requires HasUniqueCids(es) && !IsUnder(es, root, root) && stack != []
    requires IsWalked(es, root, stack, found, done)
    ensures var c := stack[|stack| - 1];
            var kids := ChildrenOf(es, c);
            IsWalked(es, root, stack[..|stack| - 1] + CidsOf(kids), found + kids, done + {c})
  {
    RoundKeepsStep(es, root, stack, found, done);
    RoundKeepsFound(es, root, stack, found, done);
  }

  lemma RoundFindsMore(
    es: seq<Entry>, root: string, stack: seq<string>, found: seq<Entry>, done: set<string>)
    requires HasUniqueCids(es) && !IsUnder(es, root, root) && stack != []
    requires IsWalked(es, root, stack, found, done)
    ensures var kids := ChildrenOf(es, stack[|stack| - 1]);
            kids != [] ==> Missing(es, found + kids) < Missing(es, found)
  {
    var c := stack[|stack| - 1];
    var kids := ChildrenOf(es, c);
    if kids != [] {
      var e := kids[0];
      InFilter(es, e => IsChildOf(e, c), e);
      ChildIsNew(es, root, stack, found, done, e);
      NotFoundBefore(es, root, stack, found, done, e);
      assert e in Missing(es, found) && e !in Missing(es, found + kids);
    }
  }

  lemma NotFoundBefore(
    es: seq<Entry>, root: string, stack: seq<string>, found: seq<Entry>, done: set<string>, e: Entry)
    requires IsWalked(es, root, stack, found, done) && e.cid !in stack && e.cid !in done
    ensures e !in found
  {
  }

  ghost function Missing(es: seq<Entry>, found: seq<Entry>): set<Entry> { set e | e in es && e !in found }

  // ----- when the stack is empty

  lemma {:induction false} ChainIsFound(
    es: seq<Entry>, root: string, found: seq<Entry>, done: set<string>, chain: seq<string>)
    requires HasUniqueCids(es) && IsWalked(es, root, [], found, done) && IsReplyChain(es, root, chain)
    ensures chain[|chain| - 1] in CidsOf(found)
    decreases |chain|
  {
    var parent := root;
    if |chain| > 1 {
      var before := chain[..|chain| - 1];
      assert IsReplyChain(es, root, before);
      ChainIsFound(es, root, found, done, before);
      parent := before[|before| - 1];
      assert IsLink(es, chain[|chain| - 2], chain[|chain| - 1]);
    }
    assert parent in done;
    var i :| 0 <= i < |es| && es[i].cid == chain[|chain| - 1] && IsChildOf(es[i], parent);
    assert es[i] in found;
    CidAt(found, es[i]);
  }

  lemma WalkIsComplete(es: seq<Entry>, root: string, found: seq<Entry>, done: set<string>, e: Entry)
    requires HasUniqueCids(es) && IsWalked(es, root, [], found, done) && e in es
    ensures e in found <==> IsUnder(es, root, e.cid)
  {
    if e in found {
      assert IsFound(es, root, done, e);
    } else if IsUnder(es, root, e.cid) {
      var chain :| IsReplyChain(es, root, chain) && chain[|chain| - 1] == e.cid;
      ChainIsFound(es, root, found, done, chain);
      var i :| 0 <= i < |found| && CidsOf(found)[i] == e.cid;
      assert found[i] in found && IsFound(es, root, done, found[i]);
      SameCidSameEntry(es, found[i], e);
    }
  }

  /** The lookup: terminates, and returns each entry whose parent chain through the list reaches the
      queried cid exactly once, and nothing else. */
  method DescendantsOf(childrenByParent: Index, ghost replies: seq<Entry>, cid: string) returns (collected: seq<Entry>)
    requires IsIndexOf(childrenByParent, replies)
    requires HasUniqueCids(replies) && !IsUnder(replies, cid, cid)
    ensures forall e :: e in collected <==> e in replies && IsUnder(replies, cid, e.cid)
    ensures HasUniqueCids(collected)
  {
    ghost var done: set<string> := {};
    collected := [];
    var stack := [cid];
    assert stack[1..] == [];
    while |stack| > 0
      invariant IsWalked(replies, cid, stack, collected, done)
      decreases Missing(replies, collected), |stack|
    {
      RoundKeepsWalked(replies, cid, stack, collected, done);
      RoundFindsMore(replies, cid, stack, collected, done);
      var popped := stack[|stack| - 1];
      stack := stack[..|stack| - 1];
      done := done + {popped};
      assert collected + [] == collected && stack + [] == stack;
      if popped !in childrenByParent {
        assert ChildrenOf(replies, popped) == [];
        continue;
      }
      var children := childrenByParent[popped];
      stack := stack + CidsOf(children);
      collected := collected + children;
    }
    forall e ensures e in collected <==> e in replies && IsUnder(replies, cid, e.cid) {
      if e in replies {
        WalkIsComplete(replies, cid, collected, done, e);
      }
    }
  }

  // ----- when the search ends

  /** One round of the loop, on its stack. */
  function Round(es: seq<Entry>, stack: seq<string>): seq<string>
  {
    if stack == [] then [] else stack[..|stack| - 1] + CidsOf(ChildrenOf(es, stack[|stack| - 1]))
  }

  /** The stack after so many rounds. */
  function StackAfter(es: seq<Entry>, root: string, rounds: nat): seq<string>
  {
    if rounds == 0 then [root] else Round(es, StackAfter(es, root, rounds - 1))
  }

  ghost predicate SearchEnds(es: seq<Entry>, root: string) { exists rounds: nat :: StackAfter(es, root, rounds) == [] }

  /** A round finds something more, or shortens the stack. */
  lemma RoundAdvances(es: seq<Entry>, root: string, stack: seq<string>, found: seq<Entry>, done: set<string>)
    requires HasUniqueCids(es) && !IsUnder(es, root, root) && stack != []
    requires IsWalked(es, root, stack, found, done)
    ensures var kids := ChildrenOf(es, stack[|stack| - 1]);
            || Missing(es, found + kids) < Missing(es, found)
            || (found + kids == found && |Round(es, stack)| < |stack|)
  {
    RoundFindsMore(es, root, stack, found, done);
  }

  lemma {:induction false} SearchEndsFrom(
    es: seq<Entry>, root: string, rounds: nat, stack: seq<string>, found: seq<Entry>, done: set<string>)
    requires HasUniqueCids(es) && !IsUnder(es, root, root)
    requires stack == StackAfter(es, root, rounds) && IsWalked(es, root, stack, found, done)
    ensures SearchEnds(es, root)
    decreases Missing(es, found), |stack|
  {
    if stack != [] {
      var c := stack[|stack| - 1];
      RoundKeepsWalked(es, root, stack, found, done);
      RoundAdvances(es, root, stack, found, done);
      SearchEndsFrom(es, root, rounds + 1, Round(es, stack), found + ChildrenOf(es, c), done + {c});
    }
  }

  /** From this cid a chain of replies leads back to the root. */
  ghost predicate LeadsTo(es: seq<Entry>, root: string, x: string) { x == root || IsUnder(es, x, root) }

  lemma ChainGoesOn(es: seq<Entry>, x: string, chain: seq<string>)
    requires IsReplyChain(es, x, chain) && |chain| > 1
    ensures IsReplyChain(es, chain[0], chain[1..])
  {
    var rest := chain[1..];
    assert IsLink(es, chain[0], chain[1]);
    forall k | 0 < k < |rest|
      ensures IsLink(es, rest[k - 1], rest[k])
    {
      assert IsLink(es, chain[k], chain[k + 1]);
    }
  }

  lemma FirstIsChild(es: seq<Entry>, x: string, kid: string)
    requires IsLink(es, x, kid)
    ensures kid in CidsOf(ChildrenOf(es, x))
  {
    var i :| 0 <= i < |es| && es[i].cid == kid && IsChildOf(es[i], x);
    InFilter(es, e => IsChildOf(e, x), es[i]);
    CidAt(ChildrenOf(es, x), es[i]);
  }

  lemma NextOnTheWay(es: seq<Entry>, root: string, x: string) returns (kid: string)
    requires IsUnder(es, x, root)
    ensures kid in CidsOf(ChildrenOf(es, x)) && LeadsTo(es, root, kid)
  {
    var chain :| IsReplyChain(es, x, chain) && chain[|chain| - 1] == root;
    kid := chain[0];
    FirstIsChild(es, x, kid);
    if |chain| > 1 {
      ChainGoesOn(es, x, chain);
      assert IsUnder(es, kid, root);
    }
  }

  lemma RoundKeepsCycle(es: seq<Entry>, root: string, stack: seq<string>, x: string) returns (next: string)
    requires IsUnder(es, root, root) && x in stack && LeadsTo(es, root, x)
    ensures next in Round(es, stack) && LeadsTo(es, root, next)
  {
    assert stack == stack[..|stack| - 1] + [stack[|stack| - 1]];
    if x in stack[..|stack| - 1] { return x; }
    next := NextOnTheWay(es, root, x);
  }

  lemma {:induction false} CycleStaysOnStack(es: seq<Entry>, root: string, rounds: nat) returns (x: string)
    requires IsUnder(es, root, root)
    ensures x in StackAfter(es, root, rounds) && LeadsTo(es, root, x)
  {
    x := root;
    if rounds > 0 {
      x := CycleStaysOnStack(es, root, rounds - 1);
      x := RoundKeepsCycle(es, root, StackAfter(es, root, rounds - 1), x);
    }
  }

  /** The search for a cid ends if and only if that cid is not among its own descendants; a cycle anywhere
      else in the list does not matter. */
  lemma SearchEndsUnlessOnCycle(es: seq<Entry>, root: string)
    requires HasUniqueCids(es)
    ensures SearchEnds(es, root) <==> !IsUnder(es, root, root)
  {
    if IsUnder(es, root, root) {
      forall rounds: nat
        ensures StackAfter(es, root, rounds) != []
      {
        var _ := CycleStaysOnStack(es, root, rounds);
      }
    } else {
      assert [root][1..] == [];
      SearchEndsFrom(es, root, 0, [root], [], {});
    }
  }

  /** What lies under a comment: what answers it, and what answers something under it. */
  lemma UnderIffParentIs(es: seq<Entry>, root: string, cid: string)
    ensures IsUnder(es, root, cid) <==>
            exists e :: && e in es && e.cid == cid && e.parentCid.Some? && e.parentCid.value != ""
                        && (e.parentCid.value == root || IsUnder(es, root, e.parentCid.value))
  {
    if e :| && e in es && e.cid == cid && e.parentCid.Some? && e.parentCid.value != ""
            && (e.parentCid.value == root || IsUnder(es, root, e.parentCid.value)) {
      UnderFromParent(es, root, e.parentCid.value, e);
    }
    if IsUnder(es, root, cid) {
      var chain :| IsReplyChain(es, root, chain) && chain[|chain| - 1] == cid;
      var parent := if |chain| == 1 then root else chain[|chain| - 2];
      assert IsLink(es, parent, cid);
      var i :| 0 <= i < |es| && es[i].cid == cid && IsChildOf(es[i], parent);
      if |chain| > 1 { ChainWithoutLast(es, root, chain); }
      assert es[i] in es;
    }
  }

  lemma ChainWithoutLast(es: seq<Entry>, root: string, chain: seq<string>)
    requires IsReplyChain(es, root, chain) && |chain| > 1
    ensures IsUnder(es, root, chain[|chain| - 2])
  {
    var before := chain[..|chain| - 1];
    assert IsReplyChain(es, root, before) && before[|before| - 1] == chain[|chain| - 2];
  }

  // ----- tombstones

  /** Same comments in the same places; moderation flags, pins, timestamps and previews may differ. */
  predicate SameSkeleton(a: seq<Entry>, b: seq<Entry>)
  {
    |a| == |b| &&
    forall i :: 0 <= i < |a| ==>
                  && a[i].cid == b[i].cid && a[i].parentCid == b[i].parentCid
                  && a[i].communityName == b[i].communityName && a[i].communityPublicKey == b[i].communityPublicKey
  }

  /** The list the lookup is built over: the replies of the community, each without its preloaded slice. */
  function LookupList(replies: seq<Entry>, address: string): seq<Entry>
  {
    StripAll(FilterRepliesForPageSort(replies, address))
  }

  lemma LinkSurvives(a: seq<Entry>, b: seq<Entry>, address: string, parent: string, child: string)
    requires SameSkeleton(a, b) && IsLink(LookupList(a, address), parent, child)
    ensures IsLink(LookupList(b, address), parent, child)
  {
    var none := Exclusions(false, false, false, false);
    var fa, fb := FilterRepliesForPageSort(a, address), FilterRepliesForPageSort(b, address);
    var k :| 0 <= k < |fa| && StripAll(fa)[k].cid == child && IsChildOf(StripAll(fa)[k], parent);
    InFilter(a, e => IsKept(none, address, e), fa[k]);
    var i :| 0 <= i < |a| && a[i] == fa[k];
    InFilter(b, e => IsKept(none, address, e), b[i]);
    var j :| 0 <= j < |fb| && fb[j] == b[i];
    assert StripAll(fb)[j].cid == child;
  }

  /** Moderation never cuts a subtree: no change of flags changes which cids lie under any comment in the
      list the lookup works on. */
  lemma TombstonesKeepSubtrees(a: seq<Entry>, b: seq<Entry>, address: string, root: string, cid: string)
    requires SameSkeleton(a, b)
    ensures IsUnder(LookupList(a, address), root, cid) <==> IsUnder(LookupList(b, address), root, cid)
  {
    UnderSurvives(a, b, address, root, cid);
    UnderSurvives(b, a, address, root, cid);
  }

  lemma UnderSurvives(a: seq<Entry>, b: seq<Entry>, address: string, root: string, cid: string)
    requires SameSkeleton(a, b)
    ensures IsUnder(LookupList(a, address), root, cid) ==> IsUnder(LookupList(b, address), root, cid)
  {
    var fa, fb := LookupList(a, address), LookupList(b, address);
    if IsUnder(fa, root, cid) {
      var chain :| IsReplyChain(fa, root, chain) && chain[|chain| - 1] == cid;
      LinkSurvives(a, b, address, root, chain[0]);
      forall i | 0 < i < |chain| ensures IsLink(fb, chain[i - 1], chain[i]) {
        LinkSurvives(a, b, address, chain[i - 1], chain[i]);
      }
      assert IsReplyChain(fb, root, chain);
    }
  }

  // ----- the whole lookup

  /** A reply of the community as it is, but without its preloaded slice. */
  ghost predicate IsStrippedReply(replies: seq<Entry>, address: string, e: Entry)
  {
    !e.nestedReplies && exists r :: r in replies && Belongs(address, r) && e == r.(nestedReplies := false)
  }

  lemma LookupListIsStripped(replies: seq<Entry>, address: string, e: Entry)
    requires e in LookupList(replies, address)
    ensures IsStrippedReply(replies, address, e)
  {
    var kept := FilterRepliesForPageSort(replies, address);
    var i :| 0 <= i < |kept| && e == StripAll(kept)[i];
    KeptExactly(replies, Exclusions(false, false, false, false), address, kept[i]);
  }

  /** What the lookup over these replies answers for a cid: the community's replies below it, each once. */
  ghost predicate IsLookup(replies: seq<Entry>, address: string, cid: string, collected: seq<Entry>)
  {
    && HasUniqueCids(collected)
    && (forall e :: e in collected ==> IsStrippedReply(replies, address, e))
    && forall c :: c in CidsOf(collected) <==> IsUnder(LookupList(replies, address), cid, c)
  }

  lemma LookupListHasUniqueCids(replies: seq<Entry>, address: string)
    requires HasUniqueCids(replies)
    ensures HasUniqueCids(LookupList(replies, address))
  {
    var kept := FilterRepliesForPageSort(replies, address);
    FilterHasUniqueCids(replies, e => IsKept(Exclusions(false, false, false, false), address, e));
    assert CidsOf(StripAll(kept)) == CidsOf(kept);
  }

  lemma UnderIsEntry(es: seq<Entry>, root: string, cid: string) returns (e: Entry)
    requires IsUnder(es, root, cid)
    ensures e in es && e.cid == cid
  {
    var chain :| IsReplyChain(es, root, chain) && chain[|chain| - 1] == cid;
    var parent := if |chain| == 1 then root else chain[|chain| - 2];
    assert IsLink(es, parent, cid);
    var i :| 0 <= i < |es| && es[i].cid == cid && IsChildOf(es[i], parent);
    e := es[i];
  }

  /** Filtering, indexing and searching together. */
  method LookUpDescendants(replies: seq<Entry>, address: string, cid: string) returns (collected: seq<Entry>)
    requires HasUniqueCids(replies) && !IsUnder(LookupList(replies, address), cid, cid)
    ensures IsLookup(replies, address, cid, collected)
  {
    var kept := FilterRepliesForPageSort(replies, address);
    var childrenByParent := IndexByParent(kept);
    LookupListHasUniqueCids(replies, address);
    collected := DescendantsOf(childrenByParent, StripAll(kept), cid);
    forall e | e in collected
      ensures IsStrippedReply(replies, address, e)
    {
      LookupListIsStripped(replies, address, e);
    }
    forall c
      ensures c in CidsOf(collected) <==> IsUnder(LookupList(replies, address), cid, c)
    {
      if c in CidsOf(collected) {
        var i :| 0 <= i < |collected| && CidsOf(collected)[i] == c;
        assert collected[i] in collected;
      } else if IsUnder(LookupList(replies, address), cid, c) {
        var e := UnderIsEntry(LookupList(replies, address), cid, c);
        CidAt(collected, e);
      }
    }
  }

  /** Whatever moderation did to the replies, the lookup answers with the same cids. */
  lemma TombstonesKeepLookup(
    a: seq<Entry>, b: seq<Entry>, address: string, cid: string, fromA: seq<Entry>, fromB: seq<Entry>)
    requires SameSkeleton(a, b) && IsLookup(a, address, cid, fromA) && IsLookup(b, address, cid, fromB)
    ensures (set c | c in CidsOf(fromA)) == (set c | c in CidsOf(fromB))
  {
    forall c
      ensures c in CidsOf(fromA) <==> c in CidsOf(fromB)
    {
      TombstonesKeepSubtrees(a, b, address, cid, c);
    }
  }
}
