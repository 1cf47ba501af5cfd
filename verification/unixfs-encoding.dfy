/** The blocks `ipfs add` stores for a file: protobuf wire format, dag-pb nodes and UnixFS File
    messages as byte sequences, and the balanced tree laid over the chunks of a file. Nothing in
    this module is computed by the program; it is the reference that the size calculator has to meet. */
module UnixFsEncoding {

  newtype Byte = b: int | 0 <= b < 256
  type Bytes = seq<Byte>

  const UNIXFS_CHUNK_BYTES: nat := 262144
  const UNIXFS_MAX_LINKS_PER_NODE: nat := 174
  const CIDV0_MULTIHASH_BYTES: nat := 34

  // A CIDv0 is the bare sha2-256 multihash; which bytes it holds is opaque here.
  type Multihash = m: Bytes | |m| == 34 witness seq(34, i => 0 as Byte)
  type Hasher = Bytes -> Multihash

  // ----- protobuf wire format

  /** Base 128 varint: seven bits a byte, least significant group first, high bit set on all but the last. */
  function Varint(n: nat): (bs: Bytes)
    ensures |bs| >= 1
  {
    if n < 0x80 then [n as Byte] else [(0x80 + n % 0x80) as Byte] + Varint(n / 0x80)
  }

  datatype Parsed = Parsed(value: nat, rest: Bytes) | Malformed

  /** A decoder for varints, only used to show that `Varint` is the encoding it claims to be. */
  function ParseVarint(bs: Bytes): Parsed
  {
    if bs == [] then Malformed
    else if bs[0] < 0x80 then Parsed(bs[0] as nat, bs[1..])
    else
      match ParseVarint(bs[1..])
      case Malformed => Malformed
      case Parsed(v, rest) => Parsed((bs[0] as nat - 0x80) + 0x80 * v, rest)
  }

  lemma {:induction false} VarintRoundTrip(n: nat, rest: Bytes)
    ensures ParseVarint(Varint(n) + rest) == Parsed(n, rest)
  {
    var bs := Varint(n) + rest;
    if n < 0x80 {
      assert bs[1..] == rest;
    } else {
      assert bs[1..] == Varint(n / 0x80) + rest;
      VarintRoundTrip(n / 0x80, rest);
    }
  }

  /** Field `number` with wire type 0: the tag byte, then the varint. */
  function VarintField(number: nat, value: nat): Bytes
    requires 1 <= number < 16
  {
    [(number * 8) as Byte] + Varint(value)
  }

  /** Field `number` with wire type 2: the tag byte, the length as a varint, the payload. */
  function BytesField(number: nat, payload: Bytes): Bytes
    requires 1 <= number < 16
  {
    [(number * 8 + 2) as Byte] + Varint(|payload|) + payload
  }

  // ----- dag-pb nodes holding UnixFS File messages

  datatype Dag = Leaf(chunk: Bytes) | Parent(children: seq<Dag>)

  /** The file bytes a node stands for, in order. */
  function Content(d: Dag): Bytes
    decreases d, 1
  {
    match d
    case Leaf(chunk) => chunk
    case Parent(children) => Contents(children)
  }

  function Contents(ds: seq<Dag>): Bytes
    decreases ds, 0
  {
    if ds == [] then [] else Content(ds[0]) + Contents(ds[1..])
  }

  /** UnixFS { Type: File } */
  function TypeFile(): Bytes { VarintField(1, 2) }

  /** UnixFS { Type: File, Data: chunk, filesize }; an empty chunk has no Data field. */
  function LeafMessage(chunk: Bytes): Bytes
  {
    TypeFile() + (if |chunk| > 0 then BytesField(2, chunk) else []) + VarintField(3, |chunk|)
  }

  /** UnixFS { Type: File, filesize, blocksizes[] }, blocksizes not packed. */
  function ParentMessage(children: seq<Dag>): Bytes
  {
    TypeFile() + VarintField(3, |Contents(children)|) + BlockSizes(children)
  }

  function BlockSizes(ds: seq<Dag>): Bytes
  {
    if ds == [] then [] else VarintField(4, |Content(ds[0])|) + BlockSizes(ds[1..])
  }

  /** PBLink { Hash, Name: "", Tsize } */
  function Link(hash: Multihash, tsize: nat): Bytes
  {
    BytesField(1, hash) + BytesField(2, []) + VarintField(3, tsize)
  }

  /** PBNode: the Links fields (number 2) are serialised before Data (number 1). */
  function Block(h: Hasher, d: Dag): Bytes
    decreases d, 1
  {
    match d
    case Leaf(chunk) => BytesField(1, LeafMessage(chunk))
    case Parent(children) => Links(h, children) + BytesField(1, ParentMessage(children))
  }

  /** One Links field a child; Tsize is the size of everything stored below the link. */
  function Links(h: Hasher, ds: seq<Dag>): Bytes
    decreases ds, 0
  {
    if ds == [] then []
    else BytesField(2, Link(h(Block(h, ds[0])), TotalBytes(Blocks(h, ds[0])))) + Links(h, ds[1..])
  }

  /** Every block stored for a node: its own, then those of its children. */
  function Blocks(h: Hasher, d: Dag): seq<Bytes>
    decreases d, 2
  {
    [Block(h, d)] + (if d.Leaf? then [] else BlocksOfAll(h, d.children))
  }

  function BlocksOfAll(h: Hasher, ds: seq<Dag>): seq<Bytes>
    decreases ds, 0
  {
    if ds == [] then [] else Blocks(h, ds[0]) + BlocksOfAll(h, ds[1..])
  }

  function TotalBytes(blocks: seq<Bytes>): nat
  {
    if blocks == [] then 0 else |blocks[0]| + TotalBytes(blocks[1..])
  }

  lemma {:induction false} TotalBytesConcat(a: seq<Bytes>, b: seq<Bytes>)
    ensures TotalBytes(a + b) == TotalBytes(a) + TotalBytes(b)
  {
    if a == [] {
      assert a + b == b;
    } else {
      assert (a + b)[1..] == a[1..] + b;
      TotalBytesConcat(a[1..], b);
    }
  }

  // ----- the balanced layout

  /** One level of parents over a level of nodes: 174 children each, the last one taking the rest. */
  function Parents<T>(level: seq<T>, parent: seq<T> -> T): (ps: seq<T>)
    ensures |level| > 0 ==> 1 <= |ps| <= |level|
    ensures |level| > 1 ==> |ps| < |level|
    decreases |level|
  {
    if |level| == 0 then []
    else if |level| <= UNIXFS_MAX_LINKS_PER_NODE then [parent(level)]
    else [parent(level[..UNIXFS_MAX_LINKS_PER_NODE])] + Parents(level[UNIXFS_MAX_LINKS_PER_NODE..], parent)
  }

  /** Levels of parents until one node is left. */
  function Root<T>(level: seq<T>, parent: seq<T> -> T): T
    requires |level| > 0
    decreases |level|
  {
    if |level| == 1 then level[0] else Root(Parents(level, parent), parent)
  }

  function Chunks(file: Bytes): (cs: seq<Dag>)
    ensures |cs| >= 1
    decreases |file|
  {
    if |file| <= UNIXFS_CHUNK_BYTES then [Leaf(file)]
    else [Leaf(file[..UNIXFS_CHUNK_BYTES])] + Chunks(file[UNIXFS_CHUNK_BYTES..])
  }

  function ParentOf(ds: seq<Dag>): Dag { Parent(ds) }

  /** The DAG `ipfs add` builds; a file of one chunk is its own leaf. */
  function Import(file: Bytes): Dag { Root(Chunks(file), ParentOf) }

  // ----- what the layout guarantees

  lemma {:induction false} ContentsConcat(a: seq<Dag>, b: seq<Dag>)
    ensures Contents(a + b) == Contents(a) + Contents(b)
  {
    if a == [] {
      assert a + b == b;
    } else {
      assert (a + b)[1..] == a[1..] + b;
      ContentsConcat(a[1..], b);
    }
  }

  lemma ContentsSingle(d: Dag)
    ensures Contents([d]) == Content(d)
  {
  }

  lemma {:induction false} ParentsKeepContent(level: seq<Dag>)
    ensures Contents(Parents(level, ParentOf)) == Contents(level)
    decreases |level|
  {
    if 0 < |level| <= UNIXFS_MAX_LINKS_PER_NODE {
      ContentsSingle(ParentOf(level));
    } else if |level| > 0 {
      var head, tail := level[..UNIXFS_MAX_LINKS_PER_NODE], level[UNIXFS_MAX_LINKS_PER_NODE..];
      assert level == head + tail;
      ContentsConcat(head, tail);
      ContentsConcat([ParentOf(head)], Parents(tail, ParentOf));
      ContentsSingle(ParentOf(head));
      ParentsKeepContent(tail);
    }
  }

  lemma {:induction false} RootKeepsContent(level: seq<Dag>)
    requires |level| > 0
    ensures Content(Root(level, ParentOf)) == Contents(level)
    decreases |level|
  {
    if |level| == 1 {
      assert level == [level[0]];
      ContentsSingle(level[0]);
    } else {
      ParentsKeepContent(level);
      RootKeepsContent(Parents(level, ParentOf));
    }
  }

  lemma {:induction false} ChunksKeepContent(file: Bytes)
    ensures Contents(Chunks(file)) == file
    decreases |file|
  {
    if |file| <= UNIXFS_CHUNK_BYTES {
      ContentsSingle(Leaf(file));
    } else {
      var head := Leaf(file[..UNIXFS_CHUNK_BYTES]);
      ContentsConcat([head], Chunks(file[UNIXFS_CHUNK_BYTES..]));
      ContentsSingle(head);
      ChunksKeepContent(file[UNIXFS_CHUNK_BYTES..]);
    }
  }

  /** No byte of the file is lost, duplicated or moved by chunking and by any number of levels. */
  lemma ImportKeepsContent(file: Bytes)
    ensures Content(Import(file)) == file
  {
    RootKeepsContent(Chunks(file));
    ChunksKeepContent(file);
  }

  /** A complete subtree of the given height: every parent has 174 children, every leaf a whole chunk. */
  predicate Full(d: Dag, height: nat)
    decreases d
  {
    match d
    case Leaf(chunk) => height == 0 && |chunk| == UNIXFS_CHUNK_BYTES
    case Parent(children) =>
      && height > 0 && |children| == UNIXFS_MAX_LINKS_PER_NODE
      && forall i :: 0 <= i < |children| ==> Full(children[i], height - 1)
  }

  /** A balanced subtree of the given height: complete except along its right edge. */
  predicate Packed(d: Dag, height: nat)
    decreases d
  {
    match d
    case Leaf(chunk) => height == 0 && |chunk| <= UNIXFS_CHUNK_BYTES
    case Parent(children) =>
      && height > 0 && 1 <= |children| <= UNIXFS_MAX_LINKS_PER_NODE
      && (forall i :: 0 <= i < |children| - 1 ==> Full(children[i], height - 1))
      && Packed(children[|children| - 1], height - 1)
  }

  predicate PackedLevel(level: seq<Dag>, height: nat)
  {
    && |level| > 0
    && (forall i :: 0 <= i < |level| - 1 ==> Full(level[i], height))
    && Packed(level[|level| - 1], height)
  }

  lemma {:induction false} ChunksArePacked(file: Bytes)
    ensures PackedLevel(Chunks(file), 0)
    decreases |file|
  {
    if |file| > UNIXFS_CHUNK_BYTES {
      var rest := Chunks(file[UNIXFS_CHUNK_BYTES..]);
      ChunksArePacked(file[UNIXFS_CHUNK_BYTES..]);
      var all := Chunks(file);
      assert all == [all[0]] + rest;
    }
  }

  lemma {:induction false} ParentsArePacked(level: seq<Dag>, height: nat)
    requires PackedLevel(level, height)
    ensures PackedLevel(Parents(level, ParentOf), height + 1)
    decreases |level|
  {
    if |level| > UNIXFS_MAX_LINKS_PER_NODE {
      var head, tail := level[..UNIXFS_MAX_LINKS_PER_NODE], level[UNIXFS_MAX_LINKS_PER_NODE..];
      ParentsArePacked(tail, height);
      var rest := Parents(tail, ParentOf);
      var all := Parents(level, ParentOf);
      assert all == [ParentOf(head)] + rest;
      assert Full(ParentOf(head), height + 1);
    }
  }

  lemma {:induction false} RootIsPacked(level: seq<Dag>, height: nat) returns (h: nat)
    requires PackedLevel(level, height)
    ensures Packed(Root(level, ParentOf), h)
    decreases |level|
  {
    if |level| == 1 {
      h := height;
    } else {
      ParentsArePacked(level, height);
      h := RootIsPacked(Parents(level, ParentOf), height + 1);
    }
  }

  /** The imported DAG is the balanced layout: all leaves at one depth, 174 links a node, complete
      except on the right edge. */
  lemma ImportIsBalanced(file: Bytes)
    ensures exists height: nat :: Packed(Import(file), height)
  {
    ChunksArePacked(file);
    var height := RootIsPacked(Chunks(file), 0);
    assert Packed(Import(file), height);
  }

  // ----- fixed points of the format

  /** The block of the empty file, and of a file of one byte, byte for byte. */
  lemma SmallFilesAreTheseBlocks(h: Hasher, b: Byte)
    ensures Blocks(h, Import([])) == [[0x0a, 0x04, 0x08, 0x02, 0x18, 0x00]]
    ensures Blocks(h, Import([b])) == [[0x0a, 0x07, 0x08, 0x02, 0x12, 0x01, b, 0x18, 0x01]]
  {
    assert LeafMessage([]) == [0x08, 0x02, 0x18, 0x00];
    assert Block(h, Leaf([])) == [0x0a, 0x04, 0x08, 0x02, 0x18, 0x00];
    assert LeafMessage([b]) == [0x08, 0x02, 0x12, 0x01, b, 0x18, 0x01];
    assert Block(h, Leaf([b])) == [0x0a, 0x07, 0x08, 0x02, 0x12, 0x01, b, 0x18, 0x01];
  }

  /** A parent: one link a child, with its hash, an empty name and the size below it, and then the File message
      with the file size and the size of each child's part. */
  lemma ParentIsThisBlock(h: Hasher, a: Dag, z: Dag)
    requires |Content(a)| < 64 && |Content(z)| < 64
    requires TotalBytes(Blocks(h, a)) < 128 && TotalBytes(Blocks(h, z)) < 128
    ensures Block(h, Parent([a, z]))
            == [0x12, 0x28, 0x0a, 0x22] + h(Block(h, a)) + [0x12, 0x00, 0x18, TotalBytes(Blocks(h, a)) as Byte]
               + [0x12, 0x28, 0x0a, 0x22] + h(Block(h, z)) + [0x12, 0x00, 0x18, TotalBytes(Blocks(h, z)) as Byte]
               + [0x0a, 0x08, 0x08, 0x02, 0x18, (|Content(a)| + |Content(z)|) as Byte,
                  0x20, |Content(a)| as Byte, 0x20, |Content(z)| as Byte]
  {
    LinkIsTheseBytes(h(Block(h, a)), TotalBytes(Blocks(h, a)));
    LinkIsTheseBytes(h(Block(h, z)), TotalBytes(Blocks(h, z)));
    LinksOfTwo(h, a, z);
    MessageOfTwo(a, z);
  }

  lemma LinksOfTwo(h: Hasher, a: Dag, z: Dag)
    ensures Links(h, [a, z])
            == BytesField(2, Link(h(Block(h, a)), TotalBytes(Blocks(h, a))))
               + BytesField(2, Link(h(Block(h, z)), TotalBytes(Blocks(h, z))))
  {
    assert [a, z][1..] == [z] && [z][1..] == [];
    assert Links(h, [z]) == BytesField(2, Link(h(Block(h, z)), TotalBytes(Blocks(h, z)))) + Links(h, []);
  }

  lemma MessageOfTwo(a: Dag, z: Dag)
    requires |Content(a)| < 64 && |Content(z)| < 64
    ensures ParentMessage([a, z])
            == [0x08, 0x02, 0x18, (|Content(a)| + |Content(z)|) as Byte,
                0x20, |Content(a)| as Byte, 0x20, |Content(z)| as Byte]
  {
    assert [a, z] == [a] + [z] && [a, z][1..] == [z] && [z][1..] == [];
    ContentsConcat([a], [z]);
    ContentsSingle(a);
    ContentsSingle(z);
    assert BlockSizes([z]) == VarintField(4, |Content(z)|) + BlockSizes([]);
    assert BlockSizes([a, z]) == VarintField(4, |Content(a)|) + BlockSizes([z]);
  }

  lemma LinkIsTheseBytes(hash: Multihash, tsize: nat)
    requires tsize < 128
    ensures BytesField(2, Link(hash, tsize)) == [0x12, 0x28, 0x0a, 0x22] + hash + [0x12, 0x00, 0x18, tsize as Byte]
  {
    assert Link(hash, tsize) == [0x0a, 0x22] + hash + [0x12, 0x00, 0x18, tsize as Byte];
  }

  /** Chunks of 256 KiB, 174 children a parent. */
  lemma LimitsOfLayout<T>(file: Bytes, level: seq<T>, parent: seq<T> -> T)
    ensures |file| <= 256 * 1024 ==> Chunks(file) == [Leaf(file)]
    ensures |file| > 256 * 1024 ==> Chunks(file)[0] == Leaf(file[..256 * 1024])
    ensures 1 <= |level| <= 174 ==> Parents(level, parent) == [parent(level)]
    ensures |level| > 174 ==> Parents(level, parent)[0] == parent(level[..174])
  {
  }
}
