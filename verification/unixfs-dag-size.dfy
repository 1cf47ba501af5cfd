/** The size calculator: what `ipfs add` reports for a file, from its length alone. */
module UnixFsDagSize {
  import opened UnixFsEncoding

  datatype DagNode = DagNode(dagBytes: nat, fileBytes: nat)

  datatype Sized = Size(bytes: nat) | InvalidByteLength

  const UNIXFS_TYPE_FILE_FIELD_BYTES: nat := 2

  // ----- field sizes

  method ProtobufVarintBytes(value: nat) returns (bytes: nat)
    ensures bytes == |Varint(value)|
  {
    bytes := 1;
    var v := value;
    while v >= 0x80
      invariant bytes + |Varint(v)| == 1 + |Varint(value)|
    {
      v := v / 0x80;
      bytes := bytes + 1;
    }
  }

  function BytesFieldBytes(payloadLength: nat): nat { 1 + |Varint(payloadLength)| + payloadLength }

  function VarintFieldBytes(value: nat): nat { 1 + |Varint(value)| }

  function LeafBytes(chunkLength: nat): nat
  {
    BytesFieldBytes(
      UNIXFS_TYPE_FILE_FIELD_BYTES
      + (if chunkLength > 0 then BytesFieldBytes(chunkLength) else 0)
      + VarintFieldBytes(chunkLength))
  }

  function LinkBytes(dagBytes: nat): nat
  {
    BytesFieldBytes(BytesFieldBytes(CIDV0_MULTIHASH_BYTES) + BytesFieldBytes(0) + VarintFieldBytes(dagBytes))
  }

  // ----- parents

  function LinksBytes(ns: seq<DagNode>): nat
  {
    if ns == [] then 0 else LinkBytes(ns[0].dagBytes) + LinksBytes(ns[1..])
  }

  function BlockSizesBytes(ns: seq<DagNode>): nat
  {
    if ns == [] then 0 else VarintFieldBytes(ns[0].fileBytes) + BlockSizesBytes(ns[1..])
  }

  function FileBytes(ns: seq<DagNode>): nat
  {
    if ns == [] then 0 else ns[0].fileBytes + FileBytes(ns[1..])
  }

  function DagBytes(ns: seq<DagNode>): nat
  {
    if ns == [] then 0 else ns[0].dagBytes + DagBytes(ns[1..])
  }

  function ParentNode(children: seq<DagNode>): DagNode
  {
    var unixfs := UNIXFS_TYPE_FILE_FIELD_BYTES + BlockSizesBytes(children) + VarintFieldBytes(FileBytes(children));
    DagNode(LinksBytes(children) + BytesFieldBytes(unixfs) + DagBytes(children), FileBytes(children))
  }

  method UnixFsParentNode(children: seq<DagNode>) returns (node: DagNode)
    ensures node == ParentNode(children)
  {
    var links, unixfs, fileBytes, childrenDagBytes := 0, UNIXFS_TYPE_FILE_FIELD_BYTES, 0, 0;
    for i := 0 to |children|
      invariant links + LinksBytes(children[i..]) == LinksBytes(children)
      invariant unixfs + BlockSizesBytes(children[i..]) == UNIXFS_TYPE_FILE_FIELD_BYTES + BlockSizesBytes(children)
      invariant fileBytes + FileBytes(children[i..]) == FileBytes(children)
      invariant childrenDagBytes + DagBytes(children[i..]) == DagBytes(children)
    {
      var child := children[i];
      assert children[i..][1..] == children[i + 1..];
      var tsize := ProtobufVarintBytes(child.dagBytes);
      var link := BytesFieldBytes(CIDV0_MULTIHASH_BYTES) + BytesFieldBytes(0) + (1 + tsize);
      links := links + BytesFieldBytes(link);
      unixfs := unixfs + VarintFieldBytes(child.fileBytes);
      fileBytes := fileBytes + child.fileBytes;
      childrenDagBytes := childrenDagBytes + child.dagBytes;
    }
    unixfs := unixfs + VarintFieldBytes(fileBytes);
    node := DagNode(links + BytesFieldBytes(unixfs) + childrenDagBytes, fileBytes);
  }

  // ----- the whole file

  function ChunkNodes(byteLength: nat): (ns: seq<DagNode>)
    ensures |ns| >= 1
  {
    if byteLength <= UNIXFS_CHUNK_BYTES then [DagNode(LeafBytes(byteLength), byteLength)]
    else [DagNode(LeafBytes(UNIXFS_CHUNK_BYTES), UNIXFS_CHUNK_BYTES)] + ChunkNodes(byteLength - UNIXFS_CHUNK_BYTES)
  }

  function DagSize(byteLength: nat): nat { Root(ChunkNodes(byteLength), ParentNode).dagBytes }

  /** The level loop, and what it is for: the total length of all blocks of every file of that length. */
  method CalculateUnixFsDagSizeCidV0(byteLength: real) returns (size: Sized)
    ensures size.InvalidByteLength? <==> byteLength < 0.0 || byteLength.Floor as real != byteLength
    ensures size.Size? ==> byteLength.Floor >= 0 && size.bytes == DagSize(byteLength.Floor)
    ensures size.Size? ==>
              forall h: Hasher, file: Bytes :: |file| == byteLength.Floor ==>
                size.bytes == TotalBytes(Blocks(h, Import(file)))
  {
    if byteLength.Floor as real != byteLength || byteLength < 0.0 {
      return InvalidByteLength;
    }
    var n: nat := byteLength.Floor;
    var chunkCount: nat := if n == 0 then 1 else (n + UNIXFS_CHUNK_BYTES - 1) / UNIXFS_CHUNK_BYTES;
    var bytes: nat;
    if chunkCount == 1 {
      bytes := LeafBytes(n);
    } else {
      var level: seq<DagNode> := [];
      for i := 0 to chunkCount
        invariant |level| == i
        invariant i < chunkCount ==>
                    n >= UNIXFS_CHUNK_BYTES * i && level + ChunkNodes(n - UNIXFS_CHUNK_BYTES * i) == ChunkNodes(n)
        invariant i == chunkCount ==> level == ChunkNodes(n)
      {
        var chunkLength := if i < chunkCount - 1 then UNIXFS_CHUNK_BYTES else n - UNIXFS_CHUNK_BYTES * (chunkCount - 1);
        var node := DagNode(LeafBytes(chunkLength), chunkLength);
        ghost var rest := n - UNIXFS_CHUNK_BYTES * i;
        if i < chunkCount - 1 {
          assert level + ([node] + ChunkNodes(rest - UNIXFS_CHUNK_BYTES))
              == level + [node] + ChunkNodes(rest - UNIXFS_CHUNK_BYTES);
        }
        level := level + [node];
      }
      bytes := ReduceLevels(level);
    }
    size := Size(bytes);
    forall h: Hasher, file: Bytes | |file| == n ensures bytes == TotalBytes(Blocks(h, Import(file))) {
      DagSizeIsBlockTotal(h, file);
    }
  }

  method ReduceLevels(nodes: seq<DagNode>) returns (bytes: nat)
    requires |nodes| > 0
    ensures bytes == Root(nodes, ParentNode).dagBytes
  {
    var level := nodes;
    while |level| > 1
      invariant |level| > 0
      invariant Root(level, ParentNode) == Root(nodes, ParentNode)
      decreases |level|
    {
      level := NextLevel(level);
    }
    bytes := level[0].dagBytes;
  }

  method NextLevel(level: seq<DagNode>) returns (parents: seq<DagNode>)
    ensures parents == Parents(level, ParentNode)
  {
    parents := [];
    assert level[0..] == level;
    var i := 0;
    while i < |level|
      invariant 0 <= i
      invariant parents + ParentsFrom(level, i) == ParentsFrom(level, 0)
    {
      var end := if i + UNIXFS_MAX_LINKS_PER_NODE <= |level| then i + UNIXFS_MAX_LINKS_PER_NODE else |level|;
      var parent := UnixFsParentNode(level[i..end]);
      FirstGroup(level, i, end);
      Reassociate(parents, parent, ParentsFrom(level, i + UNIXFS_MAX_LINKS_PER_NODE));
      parents := parents + [parent];
      i := i + UNIXFS_MAX_LINKS_PER_NODE;
    }
  }

  ghost function ParentsFrom(level: seq<DagNode>, i: nat): seq<DagNode>
  {
    if i < |level| then Parents(level[i..], ParentNode) else []
  }

  lemma Reassociate(a: seq<DagNode>, x: DagNode, b: seq<DagNode>)
    ensures a + ([x] + b) == a + [x] + b
  {
  }

  lemma FirstGroup(level: seq<DagNode>, i: nat, end: nat)
    requires i < |level|
    requires end == if i + UNIXFS_MAX_LINKS_PER_NODE <= |level| then i + UNIXFS_MAX_LINKS_PER_NODE else |level|
    ensures ParentsFrom(level, i) == [ParentNode(level[i..end])] + ParentsFrom(level, i + UNIXFS_MAX_LINKS_PER_NODE)
  {
    var rest := level[i..];
    if |rest| <= UNIXFS_MAX_LINKS_PER_NODE {
      assert rest == level[i..end];
    } else {
      assert rest[..UNIXFS_MAX_LINKS_PER_NODE] == level[i..end];
      assert rest[UNIXFS_MAX_LINKS_PER_NODE..] == level[end..];
    }
  }

  // ----- the calculator against the encoder

  ghost function Summary(h: Hasher, d: Dag): DagNode { DagNode(TotalBytes(Blocks(h, d)), |Content(d)|) }

  ghost function Summaries(h: Hasher, ds: seq<Dag>): seq<DagNode>
  {
    seq(|ds|, i requires 0 <= i < |ds| => Summary(h, ds[i]))
  }

  lemma LeafIsSummarised(h: Hasher, chunk: Bytes)
    ensures Summary(h, Leaf(chunk)) == DagNode(LeafBytes(|chunk|), |chunk|)
  {
    var block := Block(h, Leaf(chunk));
    assert Blocks(h, Leaf(chunk)) == [block];
    assert TotalBytes([block]) == |block|;
    assert |TypeFile()| == UNIXFS_TYPE_FILE_FIELD_BYTES;
    assert |BytesField(1, LeafMessage(chunk))| == BytesFieldBytes(|LeafMessage(chunk)|);
  }

  lemma {:induction false} LinksAreSummarised(h: Hasher, ds: seq<Dag>)
    ensures LinksBytes(Summaries(h, ds)) == |Links(h, ds)|
    ensures BlockSizesBytes(Summaries(h, ds)) == |BlockSizes(ds)|
  {
    if ds != [] {
      assert Summaries(h, ds)[1..] == Summaries(h, ds[1..]);
      LinksAreSummarised(h, ds[1..]);
    }
  }

  lemma {:induction false} ContentsAreSummarised(h: Hasher, ds: seq<Dag>)
    ensures FileBytes(Summaries(h, ds)) == |Contents(ds)|
    ensures DagBytes(Summaries(h, ds)) == TotalBytes(BlocksOfAll(h, ds))
  {
    if ds != [] {
      assert Summaries(h, ds)[1..] == Summaries(h, ds[1..]);
      ContentsAreSummarised(h, ds[1..]);
      TotalBytesConcat(Blocks(h, ds[0]), BlocksOfAll(h, ds[1..]));
    }
  }

  lemma ParentIsSummarised(h: Hasher, ds: seq<Dag>)
    ensures Summary(h, Parent(ds)) == ParentNode(Summaries(h, ds))
  {
    LinksAreSummarised(h, ds);
    ContentsAreSummarised(h, ds);
    TotalBytesConcat([Block(h, Parent(ds))], BlocksOfAll(h, ds));
    assert TotalBytes([Block(h, Parent(ds))]) == |Block(h, Parent(ds))|;
  }

  lemma {:induction false} ParentsAreSummarised(h: Hasher, ds: seq<Dag>)
    ensures Summaries(h, Parents(ds, ParentOf)) == Parents(Summaries(h, ds), ParentNode)
    decreases |ds|
  {
    if 0 < |ds| <= UNIXFS_MAX_LINKS_PER_NODE {
      ParentIsSummarised(h, ds);
    } else if |ds| > 0 {
      var head, tail := ds[..UNIXFS_MAX_LINKS_PER_NODE], ds[UNIXFS_MAX_LINKS_PER_NODE..];
      ParentIsSummarised(h, head);
      ParentsAreSummarised(h, tail);
      SummariesOfSlices(h, ds, UNIXFS_MAX_LINKS_PER_NODE);
      SummariesOfCons(h, ParentOf(head), Parents(tail, ParentOf));
    }
  }

  lemma SummariesOfSlices(h: Hasher, ds: seq<Dag>, n: nat)
    requires n <= |ds|
    ensures Summaries(h, ds)[..n] == Summaries(h, ds[..n]) && Summaries(h, ds)[n..] == Summaries(h, ds[n..])
  {
  }

  lemma SummariesOfCons(h: Hasher, d: Dag, ds: seq<Dag>)
    ensures Summaries(h, [d] + ds) == [Summary(h, d)] + Summaries(h, ds)
  {
  }

  lemma {:induction false} RootIsSummarised(h: Hasher, ds: seq<Dag>)
    requires |ds| > 0
    ensures Summary(h, Root(ds, ParentOf)) == Root(Summaries(h, ds), ParentNode)
    decreases |ds|
  {
    if |ds| > 1 {
      ParentsAreSummarised(h, ds);
      RootIsSummarised(h, Parents(ds, ParentOf));
    }
  }

  lemma {:induction false} ChunksAreSummarised(h: Hasher, file: Bytes)
    ensures Summaries(h, Chunks(file)) == ChunkNodes(|file|)
    decreases |file|
  {
    if |file| <= UNIXFS_CHUNK_BYTES {
      LeafIsSummarised(h, file);
    } else {
      var head, tail := file[..UNIXFS_CHUNK_BYTES], file[UNIXFS_CHUNK_BYTES..];
      LeafIsSummarised(h, head);
      ChunksAreSummarised(h, tail);
      SummariesOfCons(h, Leaf(head), Chunks(tail));
    }
  }

  /** The number computed from the length is the total length of the blocks of the file. */
  lemma DagSizeIsBlockTotal(h: Hasher, file: Bytes)
    ensures DagSize(|file|) == TotalBytes(Blocks(h, Import(file)))
  {
    ChunksAreSummarised(h, file);
    RootIsSummarised(h, Chunks(file));
  }

  // ----- strict growth

  lemma {:induction false} VarintGrows(a: nat, b: nat)
    requires a <= b
    ensures |Varint(a)| <= |Varint(b)|
  {
    if a >= 0x80 {
      VarintGrows(a / 0x80, b / 0x80);
    }
  }

  lemma BytesFieldGrows(a: nat, b: nat)
    requires a <= b
    ensures BytesFieldBytes(a) <= BytesFieldBytes(b) && b - a <= BytesFieldBytes(b) - BytesFieldBytes(a)
  {
    VarintGrows(a, b);
  }

  lemma LeafGrows(n: nat)
    ensures LeafBytes(n) < LeafBytes(n + 1)
  {
    VarintGrows(n, n + 1);
    var message :=
      (c: nat) => UNIXFS_TYPE_FILE_FIELD_BYTES + (if c > 0 then BytesFieldBytes(c) else 0) + VarintFieldBytes(c);
    BytesFieldGrows(message(n), message(n + 1));
  }

  lemma LinkGrows(a: nat, b: nat)
    requires a <= b
    ensures LinkBytes(a) <= LinkBytes(b)
  {
    VarintGrows(a, b);
    BytesFieldGrows(
      BytesFieldBytes(CIDV0_MULTIHASH_BYTES) + BytesFieldBytes(0) + VarintFieldBytes(a),
      BytesFieldBytes(CIDV0_MULTIHASH_BYTES) + BytesFieldBytes(0) + VarintFieldBytes(b));
  }

  predicate Below(x: DagNode, y: DagNode) { x.dagBytes <= y.dagBytes && x.fileBytes <= y.fileBytes }

  /** `b` is `a` with a possibly larger last node and possibly more nodes after it. */
  predicate Extends(a: seq<DagNode>, b: seq<DagNode>)
  {
    0 < |a| <= |b| && a[..|a| - 1] == b[..|a| - 1] && Below(a[|a| - 1], b[|a| - 1])
  }

  predicate Strict(a: seq<DagNode>, b: seq<DagNode>)
    requires Extends(a, b)
  {
    |a| < |b| || a[|a| - 1].dagBytes < b[|a| - 1].dagBytes
  }

  lemma ExtendsAfterDrop(a: seq<DagNode>, b: seq<DagNode>, m: nat)
    requires Extends(a, b) && m < |a|
    ensures a[..m] == b[..m] && Extends(a[m..], b[m..]) && (Strict(a, b) ==> Strict(a[m..], b[m..]))
  {
    var i := |a| - 1;
    assert a[..m] == a[..i][..m] && b[..m] == b[..i][..m];
    assert a[m..][..i - m] == a[..i][m..] && b[m..][..i - m] == b[..i][m..];
  }

  lemma ExtendsAfterCons(x: DagNode, a: seq<DagNode>, b: seq<DagNode>)
    requires Extends(a, b) && Strict(a, b)
    ensures Extends([x] + a, [x] + b) && Strict([x] + a, [x] + b)
  {
    assert ([x] + a)[..|a|] == [x] + a[..|a| - 1] && ([x] + b)[..|a|] == [x] + b[..|a| - 1];
  }

  lemma {:induction false} SumsGrow(a: seq<DagNode>, b: seq<DagNode>)
    requires Extends(a, b)
    ensures LinksBytes(a) <= LinksBytes(b) && BlockSizesBytes(a) <= BlockSizesBytes(b)
    ensures FileBytes(a) <= FileBytes(b) && DagBytes(a) <= DagBytes(b)
    ensures Strict(a, b) ==> LinksBytes(a) + DagBytes(a) < LinksBytes(b) + DagBytes(b)
    decreases |a|
  {
    if |a| == 1 {
      LinkGrows(a[0].dagBytes, b[0].dagBytes);
      VarintGrows(a[0].fileBytes, b[0].fileBytes);
      assert a[1..] == [];
      if |b| > 1 {
        assert LinksBytes(b[1..]) > 0;
      }
    } else {
      assert a[..1][0] == a[0] && b[..1][0] == b[0];
      ExtendsAfterDrop(a, b, 1);
      SumsGrow(a[1..], b[1..]);
    }
  }

  lemma ParentGrows(a: seq<DagNode>, b: seq<DagNode>)
    requires Extends(a, b)
    ensures Below(ParentNode(a), ParentNode(b))
    ensures Strict(a, b) ==> ParentNode(a).dagBytes < ParentNode(b).dagBytes
  {
    SumsGrow(a, b);
    VarintGrows(FileBytes(a), FileBytes(b));
    BytesFieldGrows(
      UNIXFS_TYPE_FILE_FIELD_BYTES + BlockSizesBytes(a) + VarintFieldBytes(FileBytes(a)),
      UNIXFS_TYPE_FILE_FIELD_BYTES + BlockSizesBytes(b) + VarintFieldBytes(FileBytes(b)));
  }

  lemma {:induction false} ParentsGrow(a: seq<DagNode>, b: seq<DagNode>)
    requires Extends(a, b) && Strict(a, b)
    ensures Extends(Parents(a, ParentNode), Parents(b, ParentNode))
    ensures Strict(Parents(a, ParentNode), Parents(b, ParentNode))
    decreases |a|
  {
    var m := UNIXFS_MAX_LINKS_PER_NODE;
    if |a| > m {
      ExtendsAfterDrop(a, b, m);
      ParentsGrow(a[m..], b[m..]);
      ExtendsAfterCons(ParentNode(a[..m]), Parents(a[m..], ParentNode), Parents(b[m..], ParentNode));
    } else {
      var group := if |b| <= m then b else b[..m];
      assert group[..|a| - 1] == b[..|a| - 1];
      ParentGrows(a, group);
      assert Parents(b, ParentNode)[0] == ParentNode(group);
    }
  }

  lemma ParentAboveFirst(ns: seq<DagNode>)
    requires |ns| > 0
    ensures ns[0].dagBytes < ParentNode(ns).dagBytes
  {
  }

  lemma {:induction false} RootAboveFirst(ns: seq<DagNode>)
    requires |ns| > 0
    ensures ns[0].dagBytes <= Root(ns, ParentNode).dagBytes
    ensures |ns| > 1 ==> ns[0].dagBytes < Root(ns, ParentNode).dagBytes
    decreases |ns|
  {
    if |ns| > 1 {
      var group := if |ns| <= UNIXFS_MAX_LINKS_PER_NODE then ns else ns[..UNIXFS_MAX_LINKS_PER_NODE];
      ParentAboveFirst(group);
      assert Parents(ns, ParentNode)[0] == ParentNode(group);
      RootAboveFirst(Parents(ns, ParentNode));
    }
  }

  lemma {:induction false} RootGrows(a: seq<DagNode>, b: seq<DagNode>)
    requires Extends(a, b) && Strict(a, b)
    ensures Root(a, ParentNode).dagBytes < Root(b, ParentNode).dagBytes
    decreases |a|
  {
    if |a| == 1 {
      RootAboveFirst(b);
    } else {
      ParentsGrow(a, b);
      RootGrows(Parents(a, ParentNode), Parents(b, ParentNode));
    }
  }

  lemma {:induction false} ChunksGrow(n: nat)
    ensures Extends(ChunkNodes(n), ChunkNodes(n + 1)) && Strict(ChunkNodes(n), ChunkNodes(n + 1))
    decreases n
  {
    if n < UNIXFS_CHUNK_BYTES {
      LeafGrows(n);
    } else if n > UNIXFS_CHUNK_BYTES {
      ChunksGrow(n - UNIXFS_CHUNK_BYTES);
      ExtendsAfterCons(ChunkNodes(n)[0], ChunkNodes(n - UNIXFS_CHUNK_BYTES), ChunkNodes(n + 1 - UNIXFS_CHUNK_BYTES));
    }
  }

  lemma OneMoreByteIsLarger(n: nat)
    ensures DagSize(n) < DagSize(n + 1)
  {
    ChunksGrow(n);
    RootGrows(ChunkNodes(n), ChunkNodes(n + 1));
  }

  predicate RisesAt(f: nat -> nat, n: nat) { f(n) < f(n + 1) }

  lemma {:induction false} RisesAddUp(f: nat -> nat, a: nat, b: nat)
    requires a < b && forall n: nat :: RisesAt(f, n)
    ensures f(a) + (b - a) <= f(b)
    decreases b - a
  {
    assert RisesAt(f, b - 1);
    if a < b - 1 { RisesAddUp(f, a, b - 1); }
  }

  /** Every added byte makes the stored DAG larger: past varint boundaries, chunk boundaries and
      changes of height. */
  lemma DagSizeStrictlyIncreases(a: nat, b: nat)
    requires a < b
    ensures DagSize(a) + (b - a) <= DagSize(b)
  {
    forall n: nat
      ensures RisesAt(DagSize, n)
    {
      OneMoreByteIsLarger(n);
    }
    RisesAddUp(DagSize, a, b);
  }

  /** Any cap on the DAG size is one threshold on the byte length: exactly the shorter files fit. */
  lemma CapIsLengthThreshold(cap: nat) returns (threshold: nat)
    ensures forall n: nat :: DagSize(n) <= cap <==> n < threshold
  {
    threshold := 0;
    while DagSize(threshold) <= cap
      invariant forall n: nat :: n < threshold ==> DagSize(n) <= cap
      decreases cap - threshold
    {
      if threshold > 0 { DagSizeStrictlyIncreases(0, threshold); }
      threshold := threshold + 1;
    }
    forall n: nat | n > threshold ensures DagSize(n) > cap {
      DagSizeStrictlyIncreases(threshold, n);
    }
  }
}
