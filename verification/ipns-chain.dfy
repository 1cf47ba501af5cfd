/** Following a delegated IPNS chain: the two walkers, the anchor claim, and the gateway validator. */
module IpnsChain {
  import opened Names
  import opened Options

  // ----- paths

  /** String.split("/") */
  function Split(s: string): (parts: seq<string>)
    ensures |parts| >= 1
  {
    if s == "" then [""]
    else
      var rest := Split(s[1..]);
      if s[0] == '/' then [""] + rest else [[s[0]] + rest[0]] + rest[1..]
  }

  predicate IsIpfsPath(s: string) { "/ipfs/" <= s }

  predicate IsIpnsPath(s: string)
  {
    var parts := Split(s);
    |parts| >= 3 && parts[1] == "ipns" && |parts[2]| > 0
  }

  lemma {:induction false} SplitFirst(segment: string, rest: string)
    requires '/' !in segment
    ensures Split(segment + "/" + rest) == [segment] + Split(rest)
  {
    var s := segment + "/" + rest;
    if segment == "" {
      assert s[1..] == rest;
    } else {
      assert s[1..] == segment[1..] + "/" + rest;
      SplitFirst(segment[1..], rest);
      assert Split(s[1..]) == [segment[1..]] + Split(rest);
      assert [s[0]] + segment[1..] == segment;
    }
  }

  /** No value is both kinds of path, so the order in which a walker tests them cannot matter. */
  lemma PathKindsAreExclusive(s: string)
    ensures IsIpfsPath(s) ==> |Split(s)| >= 3 && Split(s)[1] == "ipfs" && !IsIpnsPath(s)
  {
    if IsIpfsPath(s) {
      var rest := s[6..];
      assert s == "" + "/" + ("ipfs" + "/" + rest);
      SplitFirst("", "ipfs" + "/" + rest);
      SplitFirst("ipfs", rest);
    }
  }

  /** A value that names content: the prefix, then a segment, then anything. */
  lemma IpfsPathShape(cid: string, rest: string)
    requires '/' !in cid
    ensures IsIpfsPath("/ipfs/" + cid) && Segment("/ipfs/" + cid) == cid
    ensures IsIpfsPath("/ipfs/" + cid + "/" + rest) && Segment("/ipfs/" + cid + "/" + rest) == cid
  {
    assert "/ipfs/" == "/" + "ipfs" + "/";
    SplitPath("/ipfs/", "ipfs", cid, rest);
  }

  /** A value that delegates: the prefix, then a non-empty name, then anything. */
  lemma IpnsPathShape(name: string, rest: string)
    requires '/' !in name
    ensures IsIpnsPath("/ipns/" + name) <==> name != ""
    ensures IsIpnsPath("/ipns/" + name + "/" + rest) <==> name != ""
    ensures Split("/ipns/" + name) == ["", "ipns", name]
    ensures |Split("/ipns/" + name + "/" + rest)| >= 3 && Split("/ipns/" + name + "/" + rest)[2] == name
  {
    assert "/ipns/" == "/" + "ipns" + "/";
    SplitPath("/ipns/", "ipns", name, rest);
  }

  lemma NotAPath(s: string)
    requires '/' !in s
    ensures !IsIpfsPath(s) && !IsIpnsPath(s)
  {
    SplitLast(s);
    assert "/ipfs/"[0] == '/';
  }

  /** And every value that counts as delegating has that shape, up to what stands before its first slash. */
  lemma IpnsPathsHaveShape(s: string) returns (head: string, name: string, tail: string)
    requires IsIpnsPath(s)
    ensures '/' !in head && '/' !in name && name != "" && Split(s)[2] == name
    ensures s == head + "/ipns/" + name + tail && (tail == "" || tail[0] == '/')
  {
    var afterHead, ipns, rest;
    head, afterHead := FirstSegment(s);
    ipns, rest := FirstSegment(afterHead);
    if |Split(rest)| > 1 {
      name, tail := FirstSegment(rest);
      tail := "/" + tail;
    } else {
      OnlySegment(rest);
      name, tail := rest, "";
    }
    JoinPath(head, name + tail);
    assert head + "/ipns/" + (name + tail) == head + "/ipns/" + name + tail;
  }

  lemma JoinPath(head: string, rest: string)
    ensures head + "/" + ("ipns" + "/" + rest) == head + "/ipns/" + rest
  {
    assert "/ipns/" == "/" + "ipns" + "/";
  }

  lemma {:induction false} OnlySegment(s: string)
    requires |Split(s)| == 1
    ensures '/' !in s && Split(s) == [s]
  {
    if s != "" {
      OnlySegment(s[1..]);
      assert s == [s[0]] + s[1..];
    }
  }

  lemma {:induction false} FirstSegment(s: string) returns (segment: string, rest: string)
    requires |Split(s)| > 1
    ensures '/' !in segment && s == segment + "/" + rest && Split(s) == [segment] + Split(rest)
  {
    if s[0] == '/' {
      segment, rest := "", s[1..];
    } else {
      segment, rest := FirstSegment(s[1..]);
      segment := [s[0]] + segment;
    }
  }

  lemma {:induction false} SplitLast(s: string)
    requires '/' !in s
    ensures Split(s) == [s]
  {
    if s != "" {
      SplitLast(s[1..]);
      assert s == [s[0]] + s[1..];
    }
  }

  lemma SplitPath(prefix: string, kind: string, name: string, rest: string)
    requires '/' !in kind && '/' !in name && prefix == "/" + kind + "/"
    ensures Split(prefix + name) == ["", kind, name]
    ensures Split(prefix + name + "/" + rest) == ["", kind, name] + Split(rest)
  {
    SplitLast(name);
    SplitTwo(kind, name);
    SplitFirst(name, rest);
    SplitTwo(kind, name + "/" + rest);
    assert prefix + name + "/" + rest == prefix + (name + "/" + rest);
  }

  lemma SplitTwo(kind: string, rest: string)
    requires '/' !in kind
    ensures Split("/" + kind + "/" + rest) == ["", kind] + Split(rest)
  {
    assert "/" + kind + "/" + rest == "" + "/" + (kind + "/" + rest);
    SplitFirst("", kind + "/" + rest);
    SplitFirst(kind, rest);
  }

  // ----- chains

  /** The newest validated record of each name, as one transport sees them during a walk. */
  type Records = map<string, string>

  predicate Delegates(records: Records, name: string, next: string)
  {
    name in records && IsIpnsPath(records[name]) && Split(records[name])[2] == next
  }

  predicate IsTerminal(records: Records, name: string)
  {
    name in records && IsIpfsPath(records[name])
  }

  function Segment(value: string): string
    requires IsIpfsPath(value)
  {
    PathKindsAreExclusive(value);
    Split(value)[2]
  }

  /** Each name delegates to the next one. */
  predicate IsDelegation(records: Records, hops: seq<string>)
  {
    |hops| >= 1 && forall i :: 0 <= i < |hops| - 1 ==> Delegates(records, hops[i], hops[i + 1])
  }

  /** A delegation that ends at a name whose record points at content. */
  predicate IsChain(records: Records, hops: seq<string>)
  {
    IsDelegation(records, hops) && IsTerminal(records, hops[|hops| - 1])
  }

  type CidParser = string -> Option<string>

  predicate Resolves(records: Records, parse: CidParser, cap: nat, name: string, hops: seq<string>, cid: string)
  {
    && IsChain(records, hops) && hops[0] == name && |hops| <= cap + 1
    && parse(Segment(records[hops[|hops| - 1]])) == Some(cid)
  }

  lemma {:induction false} DelegationIsPrefixOfChain(records: Records, path: seq<string>, chain: seq<string>)
    requires IsDelegation(records, path) && IsChain(records, chain) && path[0] == chain[0]
    ensures |path| <= |chain| && chain[..|path|] == path
    decreases |path|
  {
    if |path| > 1 {
      var before := path[..|path| - 1];
      DelegationIsPrefixOfChain(records, before, chain);
      var k := |path| - 2;
      assert chain[k] == chain[..|before|][k] == path[k];
      assert Delegates(records, path[k], path[k + 1]);
      PathKindsAreExclusive(records[path[k]]);
      assert k < |chain| - 1;
      assert Delegates(records, chain[k], chain[k + 1]);
      assert chain[..|path|] == chain[..|before|] + [chain[k + 1]];
    }
  }

  /** The records determine the chain of a name. */
  lemma ChainIsUnique(records: Records, a: seq<string>, b: seq<string>)
    requires IsChain(records, a) && IsChain(records, b) && a[0] == b[0]
    ensures a == b
  {
    DelegationIsPrefixOfChain(records, a, b);
    DelegationIsPrefixOfChain(records, b, a);
  }

  // ----- the walkers

  datatype WalkError = ResolvedToUndefined | UnsupportedValue | MaxHopsExceeded | InvalidCid

  datatype Walk = Resolved(hops: seq<string>, cid: string) | Failed(error: WalkError)

  /** What either walker has to deliver: the chain of the name if it is short enough and ends at
      content with a good cid, and otherwise a failure; never more than `cap + 1` lookups. */
  ghost predicate WalkIsRight(records: Records, parse: CidParser, cap: nat, name: string, r: Walk, lookups: nat)
  {
    && lookups <= cap + 1
    && (r.Resolved? ==> Resolves(records, parse, cap, name, r.hops, r.cid) && lookups == |r.hops|)
    && (r.Failed? ==> forall hops, cid :: !Resolves(records, parse, cap, name, hops, cid))
    && (r == Failed(MaxHopsExceeded) <==> LeavesCap(records, cap, name))
  }

  /** The first `cap + 1` records all delegate. */
  ghost predicate LeavesCap(records: Records, cap: nat, name: string)
  {
    exists hops :: IsDelegation(records, hops) && hops[0] == name && |hops| == cap + 2
  }

  /** The walk cannot go on from this name. */
  predicate IsStuck(records: Records, name: string) { name !in records || !IsIpnsPath(records[name]) }

  lemma {:induction false} DelegationsAgree(records: Records, a: seq<string>, b: seq<string>)
    requires IsDelegation(records, a) && IsDelegation(records, b) && a[0] == b[0] && |a| <= |b|
    ensures b[..|a|] == a && b[|a| - 1] == a[|a| - 1]
    decreases |a|
  {
    if |a| > 1 {
      var before := a[..|a| - 1];
      DelegationsAgree(records, before, b);
      var k := |a| - 2;
      assert Delegates(records, a[k], a[k + 1]) && Delegates(records, b[k], b[k + 1]);
      assert b[..|a|] == b[..|before|] + [b[k + 1]];
    }
  }

  lemma StuckIsLast(records: Records, path: seq<string>, longer: seq<string>)
    requires IsDelegation(records, path) && IsDelegation(records, longer) && path[0] == longer[0]
    requires IsStuck(records, path[|path| - 1])
    ensures |longer| <= |path|
  {
    if |longer| > |path| {
      DelegationsAgree(records, path, longer);
      NotStuckInside(records, longer, |path| - 1);
    }
  }

  lemma NotStuckInside(records: Records, path: seq<string>, k: nat)
    requires IsDelegation(records, path) && k < |path| - 1
    ensures !IsStuck(records, path[k])
  {
    assert Delegates(records, path[k], path[k + 1]);
  }

  lemma NoChainFrom(records: Records, parse: CidParser, cap: nat, path: seq<string>)
    requires IsDelegation(records, path) && |path| <= cap + 1
    requires IsStuck(records, path[|path| - 1])
    requires IsTerminal(records, path[|path| - 1]) ==> parse(Segment(records[path[|path| - 1]])) == None
    ensures forall hops, cid :: !Resolves(records, parse, cap, path[0], hops, cid)
    ensures !LeavesCap(records, cap, path[0])
  {
    forall hops, cid ensures !Resolves(records, parse, cap, path[0], hops, cid) {
      if IsChain(records, hops) && hops[0] == path[0] {
        StuckIsLast(records, path, hops);
        DelegationIsPrefixOfChain(records, path, hops);
        assert hops == hops[..|path|];
      }
    }
    NotBeyondEnd(records, path, cap);
  }

  lemma NotBeyondEnd(records: Records, path: seq<string>, cap: nat)
    requires IsDelegation(records, path) && |path| <= cap + 1
    requires IsStuck(records, path[|path| - 1])
    ensures !LeavesCap(records, cap, path[0])
  {
    forall hops ensures !(IsDelegation(records, hops) && hops[0] == path[0] && |hops| == cap + 2) {
      if IsDelegation(records, hops) && hops[0] == path[0] {
        StuckIsLast(records, path, hops);
      }
    }
  }

  lemma EndsWithinCap(records: Records, cap: nat, path: seq<string>)
    requires IsChain(records, path) && |path| <= cap + 1
    ensures !LeavesCap(records, cap, path[0])
  {
    PathKindsAreExclusive(records[path[|path| - 1]]);
    NotBeyondEnd(records, path, cap);
  }

  lemma BeyondCap(records: Records, parse: CidParser, cap: nat, path: seq<string>)
    requires IsDelegation(records, path) && |path| == cap + 2
    ensures LeavesCap(records, cap, path[0])
    ensures forall hops, cid :: !Resolves(records, parse, cap, path[0], hops, cid)
  {
    forall hops, cid ensures !Resolves(records, parse, cap, path[0], hops, cid) {
      if IsChain(records, hops) && hops[0] == path[0] {
        DelegationIsPrefixOfChain(records, path, hops);
      }
    }
  }

  /** Why a walk ends without a cid at this name, if it does. Only the peer-to-peer walker takes an empty value
      for a missing one. */
  function WhyStuck(records: Records, parse: CidParser, name: string, emptyIsMissing: bool): Option<WalkError>
  {
    if name !in records || (emptyIsMissing && records[name] == "") then Some(ResolvedToUndefined)
    else if IsIpfsPath(records[name]) then if parse(Segment(records[name])).None? then Some(InvalidCid) else None
    else if IsIpnsPath(records[name]) then None
    else Some(UnsupportedValue)
  }

  /** The error is that of the name at which the delegation stops. */
  ghost predicate StopsFor(
    records: Records, parse: CidParser, cap: nat, name: string, emptyIsMissing: bool, error: WalkError)
  {
    exists hops :: && IsDelegation(records, hops) && hops[0] == name && |hops| <= cap + 1
                   && WhyStuck(records, parse, hops[|hops| - 1], emptyIsMissing) == Some(error)
  }

  /** The peer-to-peer walker: a missing or empty value first, then /ipfs/, then /ipns/. */
  method ResolveIpnsToCidP2P(records: Records, parse: CidParser, cap: nat, name: string) returns (r: Walk, lookups: nat)
    ensures WalkIsRight(records, parse, cap, name, r, lookups)
    ensures r.Failed? && r.error != MaxHopsExceeded ==> StopsFor(records, parse, cap, name, true, r.error)
  {
    var hops := [name];
    var current := name;
    lookups := 0;
    while true
      invariant IsDelegation(records, hops) && hops[0] == name && hops[|hops| - 1] == current
      invariant |hops| <= cap + 1 && lookups == |hops| - 1
      decreases cap + 1 - |hops|
    {
      lookups := lookups + 1;
      var value := if current in records then records[current] else "";
      PathKindsAreExclusive(value);
      if value == "" {
        NoChainFrom(records, parse, cap, hops);
        return Failed(ResolvedToUndefined), lookups;
      }
      if IsIpfsPath(value) {
        EndsWithinCap(records, cap, hops);
        match parse(Segment(value)) {
          case Some(cid) => return Resolved(hops, cid), lookups;
          case None =>
            NoChainFrom(records, parse, cap, hops);
            return Failed(InvalidCid), lookups;
        }
      }
      if IsIpnsPath(value) {
        current := Split(value)[2];
        hops := hops + [current];
        if |hops| - 1 > cap {
          BeyondCap(records, parse, cap, hops);
          return Failed(MaxHopsExceeded), lookups;
        }
        continue;
      }
      NoChainFrom(records, parse, cap, hops);
      return Failed(UnsupportedValue), lookups;
    }
  }

  /** The gateway walker: /ipns/ first, then /ipfs/; a record that cannot be fetched throws. */
  method ResolveIpnsChainViaGateway(records: Records, parse: CidParser, cap: nat, name: string)
    returns (r: Walk, lookups: nat)
    ensures WalkIsRight(records, parse, cap, name, r, lookups)
    ensures r.Failed? && r.error != MaxHopsExceeded ==> StopsFor(records, parse, cap, name, false, r.error)
  {
    var hops := [name];
    var current := name;
    lookups := 0;
    while true
      invariant IsDelegation(records, hops) && hops[0] == name && hops[|hops| - 1] == current
      invariant |hops| <= cap + 1 && lookups == |hops| - 1
      decreases cap + 1 - |hops|
    {
      lookups := lookups + 1;
      if current !in records {
        NoChainFrom(records, parse, cap, hops);
        return Failed(ResolvedToUndefined), lookups;
      }
      var value := records[current];
      PathKindsAreExclusive(value);
      if IsIpnsPath(value) {
        current := Split(value)[2];
        hops := hops + [current];
        if |hops| - 1 > cap {
          BeyondCap(records, parse, cap, hops);
          return Failed(MaxHopsExceeded), lookups;
        }
        continue;
      }
      if IsIpfsPath(value) {
        EndsWithinCap(records, cap, hops);
        match parse(Segment(value)) {
          case Some(cid) => return Resolved(hops, cid), lookups;
          case None =>
            NoChainFrom(records, parse, cap, hops);
            return Failed(InvalidCid), lookups;
        }
      }
      NoChainFrom(records, parse, cap, hops);
      return Failed(UnsupportedValue), lookups;
    }
  }

  predicate NamesNext(records: Records, name: string, next: string)
  {
    name in records && '/' !in next && next != "" && records[name] == "/ipns/" + next
  }

  /** Records as they are written: each one but the last names the next, and the last names content. */
  predicate IsWrittenChain(records: Records, hops: seq<string>, cid: string)
  {
    && |hops| >= 1 && '/' !in cid
    && (forall i :: 0 <= i < |hops| - 1 ==> NamesNext(records, hops[i], hops[i + 1]))
    && hops[|hops| - 1] in records && records[hops[|hops| - 1]] == "/ipfs/" + cid
  }

  lemma WrittenChainIsChain(records: Records, hops: seq<string>, cid: string)
    requires IsWrittenChain(records, hops, cid)
    ensures IsChain(records, hops) && Segment(records[hops[|hops| - 1]]) == cid
  {
    IpfsPathShape(cid, "");
    forall i | 0 <= i < |hops| - 1
      ensures Delegates(records, hops[i], hops[i + 1])
    {
      assert NamesNext(records, hops[i], hops[i + 1]);
      IpnsPathShape(hops[i + 1], "");
    }
  }

  /** Every delegation is followed: over records written as a chain, a walk that meets the contract gives
      exactly its hops and its cid, or says that they are too many. */
  lemma WrittenChainIsWalked(
    records: Records, parse: CidParser, cap: nat, hops: seq<string>, cid: string, r: Walk, lookups: nat)
    requires IsWrittenChain(records, hops, cid) && parse(cid).Some?
    requires WalkIsRight(records, parse, cap, hops[0], r, lookups)
    ensures if |hops| <= cap + 1 then r == Resolved(hops, parse(cid).value) && lookups == |hops|
            else r == Failed(MaxHopsExceeded)
  {
    WrittenChainIsChain(records, hops, cid);
    if |hops| <= cap + 1 {
      assert Resolves(records, parse, cap, hops[0], hops, parse(cid).value);
      if r.Resolved? { ChainIsUnique(records, r.hops, hops); }
    } else {
      var path := hops[..cap + 2];
      assert IsDelegation(records, path) && path[0] == hops[0];
    }
  }

  /** Any two walks over the same records that meet the contract agree: the same hops and cid, or both
      fail, and both for too many hops or neither. */
  lemma WalkersAgree(
    records: Records, parse: CidParser, cap: nat, name: string, p2p: Walk, n: nat, gateway: Walk, m: nat)
    requires WalkIsRight(records, parse, cap, name, p2p, n) && WalkIsRight(records, parse, cap, name, gateway, m)
    ensures p2p.Resolved? <==> gateway.Resolved?
    ensures p2p.Resolved? ==> p2p == gateway && n == m
    ensures p2p == Failed(MaxHopsExceeded) <==> gateway == Failed(MaxHopsExceeded)
  {
    if p2p.Resolved? && gateway.Resolved? {
      ChainIsUnique(records, p2p.hops, gateway.hops);
    }
  }

  // ----- the anchor claim

  datatype Hops = Accepted(hops: seq<string>) | Rejected

  /** The claimed anchor's own chain ends at the loaded name. */
  ghost predicate Endorses(
    records: Records, parse: CidParser, cap: nat, anchor: string, name: string, hops: seq<string>)
  {
    && IsChain(records, hops) && hops[0] == anchor && |hops| <= cap + 1
    && parse(Segment(records[hops[|hops| - 1]])).Some?
    && AreEquivalentNames(hops[|hops| - 1], name)
  }

  predicate IsClaim(claimedAnchor: Option<string>) { claimedAnchor.Some? && claimedAnchor.value != "" }

  method ProveAnchorClaimIfUnwalked(
    records: Records, parse: CidParser, cap: nat, claimedAnchor: Option<string>, ipnsHops: seq<string>)
    returns (r: Hops)
    requires |ipnsHops| >= 1
    ensures |ipnsHops| > 1 || !IsClaim(claimedAnchor) || AreEquivalentNames(claimedAnchor.value, ipnsHops[0])
            ==> r == Accepted(ipnsHops)
    ensures |ipnsHops| == 1 && IsClaim(claimedAnchor) && !AreEquivalentNames(claimedAnchor.value, ipnsHops[0]) ==>
              if r.Accepted?
              then Endorses(records, parse, cap, claimedAnchor.value, ipnsHops[0], r.hops) && |r.hops| > 1
              else forall hops :: !Endorses(records, parse, cap, claimedAnchor.value, ipnsHops[0], hops)
  {
    if |ipnsHops| > 1 { return Accepted(ipnsHops); }
    if !IsClaim(claimedAnchor) { return Accepted(ipnsHops); }
    var anchor, loadedName := claimedAnchor.value, ipnsHops[0];
    if AreEquivalentNames(anchor, loadedName) { return Accepted(ipnsHops); }
    var walk, lookups := ResolveIpnsChainViaGateway(records, parse, cap, anchor);
    r := Rejected;
    if walk.Resolved? {
      if AreEquivalentNames(walk.hops[|walk.hops| - 1], loadedName) {
        r := Accepted(walk.hops);
      } else {
        forall hops ensures !Endorses(records, parse, cap, anchor, loadedName, hops) {
          if IsChain(records, hops) && hops[0] == anchor { ChainIsUnique(records, hops, walk.hops); }
        }
      }
    } else {
      forall hops ensures !Endorses(records, parse, cap, anchor, loadedName, hops) {
        if IsChain(records, hops) && hops[0] == anchor && |hops| <= cap + 1 {
          var parsed := parse(Segment(records[hops[|hops| - 1]]));
          assert parsed.Some? ==> Resolves(records, parse, cap, anchor, hops, parsed.value);
        }
      }
    }
  }

  // ----- the gateway validator

  datatype Fetched = Fetched(signer: string, claimedAnchor: Option<string>, bodyCid: string)

  /** What justifies keeping `hops` for a record a gateway served under `name`. */
  ghost predicate Justified(
    records: Records, parse: CidParser, cap: nat, name: string, record: Fetched, hops: seq<string>)
  {
    if AreEquivalentNames(record.signer, name) then
      if IsClaim(record.claimedAnchor) && !AreEquivalentNames(record.claimedAnchor.value, name)
      then Endorses(records, parse, cap, record.claimedAnchor.value, name, hops)
      else hops == [name]
    else
      && Resolves(records, parse, cap, name, hops, record.bodyCid)
      && AreEquivalentNames(record.signer, hops[|hops| - 1])
  }

  lemma OtherChainIsNoHelp(
    records: Records, parse: CidParser, cap: nat, name: string, record: Fetched, walked: seq<string>, cid: string)
    requires Resolves(records, parse, cap, name, walked, cid) && !AreEquivalentNames(record.signer, name)
    requires cid != record.bodyCid || !AreEquivalentNames(record.signer, walked[|walked| - 1])
    ensures forall hops :: !Justified(records, parse, cap, name, record, hops)
  {
    forall hops
      ensures !Justified(records, parse, cap, name, record, hops)
    {
      if IsChain(records, hops) && hops[0] == name { ChainIsUnique(records, hops, walked); }
    }
  }

  /** The chain part of the gateway validator: a record is accepted exactly when something justifies it. */
  method ValidateGatewayChain(records: Records, parse: CidParser, cap: nat, name: string, record: Fetched)
    returns (r: Hops)
    ensures r.Accepted? ==> Justified(records, parse, cap, name, record, r.hops)
    ensures r.Rejected? ==> forall hops :: !Justified(records, parse, cap, name, record, hops)
  {
    var ipnsHops := [name];
    if !AreEquivalentNames(record.signer, name) {
      var walk, lookups := ResolveIpnsChainViaGateway(records, parse, cap, name);
      if walk.Failed? { return Rejected; }
      if walk.cid != record.bodyCid || !AreEquivalentNames(record.signer, walk.hops[|walk.hops| - 1]) {
        OtherChainIsNoHelp(records, parse, cap, name, record, walk.hops, walk.cid);
        return Rejected;
      }
      ipnsHops := walk.hops;
    }
    r := ProveAnchorClaimIfUnwalked(records, parse, cap, record.claimedAnchor, ipnsHops);
  }

  /** What every accepted record carries: validated delegations hop by hop, ending at a key equivalent
      to the signer; and it starts at the name asked for unless the claimed anchor vouches for that name. */
  lemma AcceptedHopsAreBound(
    records: Records, parse: CidParser, cap: nat, name: string, record: Fetched, hops: seq<string>)
    requires Justified(records, parse, cap, name, record, hops)
    ensures IsDelegation(records, hops)
    ensures AreEquivalentNames(record.signer, hops[|hops| - 1])
    ensures hops[0] != name ==>
              && IsClaim(record.claimedAnchor) && hops[0] == record.claimedAnchor.value
              && IsChain(records, hops) && |hops| > 1
              && AreEquivalentNames(hops[|hops| - 1], name)
    ensures hops == [name] ==> AreEquivalentNames(record.signer, name)
    ensures && record.claimedAnchor.Some? && record.claimedAnchor.value != ""
            && !AreEquivalentNames(record.claimedAnchor.value, name) && AreEquivalentNames(record.signer, name)
            ==> hops[0] == record.claimedAnchor.value && AreEquivalentNames(hops[|hops| - 1], name)
    ensures !AreEquivalentNames(record.signer, name) ==>
              && IsChain(records, hops) && hops[0] == name && |hops| <= cap + 1
              && parse(Segment(records[hops[|hops| - 1]])) == Some(record.bodyCid)
  {
  }

  /** And whom it must accept: a record signed for the name it was asked under, and one that a chain from that
      name binds to its signer and its body; a claim of another anchor needs the chain from there. */
  lemma HonestRecordsAreJustified(
    records: Records, parse: CidParser, cap: nat, name: string, record: Fetched, hops: seq<string>)
    ensures && AreEquivalentNames(record.signer, name)
            && (record.claimedAnchor.None? || record.claimedAnchor.value in ["", name])
            ==> Justified(records, parse, cap, name, record, [name])
    ensures && IsChain(records, hops) && |hops| <= cap + 1 && hops[0] == name
            && !AreEquivalentNames(record.signer, name) && AreEquivalentNames(record.signer, hops[|hops| - 1])
            && parse(Segment(records[hops[|hops| - 1]])) == Some(record.bodyCid)
            ==> Justified(records, parse, cap, name, record, hops)
    ensures && IsChain(records, hops) && |hops| <= cap + 1 && record.claimedAnchor == Some(hops[0]) && hops[0] != ""
            && AreEquivalentNames(record.signer, name) && !AreEquivalentNames(hops[0], name)
            && AreEquivalentNames(hops[|hops| - 1], name) && parse(Segment(records[hops[|hops| - 1]])).Some?
            ==> Justified(records, parse, cap, name, record, hops)
  {
  }
}
