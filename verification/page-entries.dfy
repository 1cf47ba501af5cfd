/** Page entries, the filters applied to them, and the reply tree they form. */
module PageEntries {
  import opened Names
  import opened Options
  import opened Sequences

  // what this model keeps of a comment and its CommentUpdate; `nestedReplies` is the preloaded slice
  datatype Entry = Entry(
    cid: string, parentCid: Option<string>, timestamp: int,
    communityName: Option<string>, communityPublicKey: Option<string>,
    pinned: bool, removed: bool, deleted: bool, approved: Option<bool>, pendingApproval: bool, nestedReplies: bool)

  function Filter<T>(s: seq<T>, keep: T -> bool): (r: seq<T>)
  {
    if s == [] then [] else if keep(s[0]) then [s[0]] + Filter(s[1..], keep) else Filter(s[1..], keep)
  }

  lemma {:induction false} InFilter(s: seq<Entry>, keep: Entry -> bool, x: Entry)
    ensures x in Filter(s, keep) <==> x in s && keep(x)
  {
    if s != [] {
      assert s == [s[0]] + s[1..];
      InFilter(s[1..], keep, x);
    }
  }

  lemma {:induction false} FilterConcat<T>(a: seq<T>, b: seq<T>, keep: T -> bool)
    ensures Filter(a + b, keep) == Filter(a, keep) + Filter(b, keep)
  {
    if a == [] {
      assert a + b == b;
    } else {
      assert (a + b)[1..] == a[1..] + b;
      FilterConcat(a[1..], b, keep);
    }
  }

  lemma {:induction false} FilterAll<T>(s: seq<T>, keep: T -> bool)
    requires forall i :: 0 <= i < |s| ==> keep(s[i])
    ensures Filter(s, keep) == s
  {
    if s != [] {
      FilterAll(s[1..], keep);
    }
  }

  lemma {:induction false} FilterNone<T>(s: seq<T>, keep: T -> bool)
    requires forall i :: 0 <= i < |s| ==> !keep(s[i])
    ensures Filter(s, keep) == []
  {
    if s != [] {
      FilterNone(s[1..], keep);
    }
  }

  // ----- exclusions and the community identity rule

  function EquivalentAddresses(address: string): seq<string>
  {
    var lower := Lower(address);
    if EndsWith(lower, ".bso") then [address, address[..|address| - 4] + ".eth"]
    else if EndsWith(lower, ".eth") then [address, address[..|address| - 4] + ".bso"]
    else [address]
  }

  predicate IsAbsent(s: Option<string>) { s.None? || s.value == "" }

  predicate Belongs(address: string, e: Entry)
  {
    if IsStringDomain(address)
    then IsAbsent(e.communityName) || e.communityName.value in EquivalentAddresses(address)
    else IsAbsent(e.communityPublicKey) || e.communityPublicKey.value == address
  }

  /** A row admitted under a name was signed for a name equivalent to the community's. */
  lemma AdmittedNamesAreEquivalent(address: string, e: Entry)
    requires IsStringDomain(address) && Belongs(address, e) && !IsAbsent(e.communityName)
    ensures AreEquivalentNames(e.communityName.value, address)
  {
    if EndsWith(Lower(address), ".bso") {
      OtherSuffixIsSameName(address, ".bso", ".eth");
    } else if EndsWith(Lower(address), ".eth") {
      OtherSuffixIsSameName(address, ".eth", ".bso");
    }
  }

  /** Whom the identity rule admits: under a name, rows signed for no name, for that name as spelled, or for its
      stem with the other of the two suffixes; under a key, rows signed for no key or for that key. */
  lemma BelongsExactly(address: string, e: Entry)
    ensures '.' in address ==>
              (Belongs(address, e) <==>
               || e.communityName.None? || e.communityName.value == "" || e.communityName.value == address
               || (HasSuffix(address, ".bso") && e.communityName.value == address[..|address| - 4] + ".eth")
               || (HasSuffix(address, ".eth") && e.communityName.value == address[..|address| - 4] + ".bso"))
    ensures '.' !in address ==>
              (Belongs(address, e) <==>
               e.communityPublicKey.None? || e.communityPublicKey.value == "" || e.communityPublicKey.value == address)
  {
    LowerOfSuffixes();
    EndsWithIffSuffix(address, ".bso");
    EndsWithIffSuffix(address, ".eth");
    NotBothSuffixes(address);
  }

  lemma NotBothSuffixes(s: string)
    ensures !(HasSuffix(s, ".eth") && HasSuffix(s, ".bso"))
  {
    if |s| >= 4 {
      var suffix := s[|s| - 4..];
      assert !(SameButCase(suffix[1], ".eth"[1]) && SameButCase(suffix[1], ".bso"[1]));
    }
  }

  datatype Exclusions = Exclusions(removed: bool, deleted: bool, disapproved: bool, pending: bool)

  predicate IsKept(x: Exclusions, address: string, e: Entry)
  {
    && Belongs(address, e)
    && !(x.removed && e.removed)
    && !(x.deleted && e.deleted)
    && !(x.disapproved && e.approved == Some(false))
    && !(x.pending && e.pendingApproval)
  }

  function ApplyPageSortExclusions(es: seq<Entry>, x: Exclusions, address: string): seq<Entry>
  {
    Filter(es, e => IsKept(x, address, e))
  }

  /** What survives the exclusions, flag by flag. */
  lemma KeptExactly(es: seq<Entry>, x: Exclusions, address: string, e: Entry)
    ensures e in ApplyPageSortExclusions(es, x, address) <==>
            && e in es && Belongs(address, e)
            && (e.removed ==> !x.removed) && (e.deleted ==> !x.deleted)
            && (e.approved == Some(false) ==> !x.disapproved) && (e.pendingApproval ==> !x.pending)
  {
    InFilter(es, e => IsKept(x, address, e), e);
  }

  function FilterRepliesForPageSort(replies: seq<Entry>, address: string): seq<Entry>
  {
    ApplyPageSortExclusions(replies, Exclusions(false, false, false, false), address)
  }

  // ----- the reply tree

  predicate IsChildOf(e: Entry, parent: string) { e.parentCid == Some(parent) && parent != "" }

  /** Some entry with cid `child` answers `parent`. */
  predicate IsLink(es: seq<Entry>, parent: string, child: string)
  {
    exists i :: 0 <= i < |es| && es[i].cid == child && IsChildOf(es[i], parent)
  }

  /** A chain of replies through the list, from an answer to `root` down to the last cid. */
  predicate IsReplyChain(es: seq<Entry>, root: string, chain: seq<string>)
  {
    && |chain| >= 1 && IsLink(es, root, chain[0])
    && forall i :: 0 < i < |chain| ==> IsLink(es, chain[i - 1], chain[i])
  }

  ghost predicate IsUnder(es: seq<Entry>, root: string, cid: string)
  {
    exists chain :: IsReplyChain(es, root, chain) && chain[|chain| - 1] == cid
  }

  function CidsOf(es: seq<Entry>): (cids: seq<string>)
    ensures |cids| == |es| && forall i :: 0 <= i < |es| ==> cids[i] == es[i].cid
  {
    seq(|es|, i requires 0 <= i < |es| => es[i].cid)
  }

  predicate HasUniqueCids(es: seq<Entry>) { Distinct(CidsOf(es)) }

  function Strip(e: Entry): Entry { e.(nestedReplies := false) }

  function StripAll(es: seq<Entry>): (r: seq<Entry>)
    ensures |r| == |es| && forall i :: 0 <= i < |es| ==> r[i] == Strip(es[i])
  {
    seq(|es|, i requires 0 <= i < |es| => Strip(es[i]))
  }

  function ChildrenOf(es: seq<Entry>, parent: string): seq<Entry> { Filter(es, e => IsChildOf(e, parent)) }

  // ----- the index

  type Index = map<string, seq<Entry>>

  ghost predicate IsIndexOf(index: Index, es: seq<Entry>)
  {
    forall p :: (p in index <==> ChildrenOf(es, p) != []) && (p in index ==> index[p] == ChildrenOf(es, p))
  }

  /** The first half of `createDescendantsLookup`. */
  method IndexByParent(replies: seq<Entry>) returns (childrenByParent: Index)
    ensures IsIndexOf(childrenByParent, StripAll(replies))
  {
    childrenByParent := map[];
    for i := 0 to |replies|
      invariant IsIndexOf(childrenByParent, StripAll(replies)[..i])
    {
      var stripped := Strip(replies[i]);
      ghost var before, all := StripAll(replies)[..i], StripAll(replies)[..i + 1];
      assert all == before + [stripped];
      forall p
        ensures ChildrenOf(all, p) == ChildrenOf(before, p) + if IsChildOf(stripped, p) then [stripped] else []
      {
        FilterConcat(before, [stripped], e => IsChildOf(e, p));
        assert [stripped][1..] == [];
      }
      if stripped.parentCid.None? || stripped.parentCid.value == "" { continue; }
      var parent := stripped.parentCid.value;
      if parent in childrenByParent {
        childrenByParent := childrenByParent[parent := childrenByParent[parent] + [stripped]];
      } else {
        childrenByParent := childrenByParent[parent := [stripped]];
      }
    }
    assert StripAll(replies)[..|replies|] == StripAll(replies);
  }
}
