// Merkle-Patricia tries and what an accepted proof says about them
// (appendix D of the Ethereum Yellow Paper; the walk is mpt.rs).

module Tries {
  import opened Common
  import opened Rlp
  import opened Mpt

  datatype Trie =
    | Nothing
    | Leaf(path: seq<nibble>, value: seq<byte>)
    | Extension(path: seq<nibble>, child: Trie)
    | Branch(kids: seq<Trie>, value: seq<byte>)

  /** Paths of at most 64 nibbles, leaf values of 1 to 256 bytes, branches of 16 slots and an optional value. */
  predicate WellFormed(t: Trie) {
    match t
    case Nothing => true
    case Leaf(p, v) => |p| <= MAX_NIBBLES && 1 <= |v| <= MAX_VALUE_LEN
    case Extension(p, c) => |p| <= MAX_NIBBLES && WellFormed(c)
    case Branch(kids, v) =>
      |kids| == 16 && |v| <= MAX_VALUE_LEN && forall k :: k in kids ==> WellFormed(k)
  }

  /** The value stored under a path. */
  function Lookup(t: Trie, path: seq<nibble>): Option<seq<byte>> {
    match t
    case Nothing => None
    case Leaf(p, v) => if path == p then Some(v) else None
    case Extension(p, c) => if p <= path then Lookup(c, path[|p|..]) else None
    case Branch(kids, v) =>
      if path == [] then (if v == [] then None else Some(v))
      else if path[0] < |kids| then Lookup(kids[path[0]], path[1..])
      else None
  }

  // --- Encoding of nodes ------------------------------------------------------------------------

  /** The RLP tree of a node: hex-prefixed paths, values, and references to the children. */
  function NodeTree(keccak: HashFn, t: Trie): (n: Tree)
    ensures t != Nothing ==> n.Node?
    decreases t, 0
  {
    match t
    case Nothing => Str([])
    case Leaf(p, v) => Node([Str(HexPrefix(p, true)), Str(v)])
    case Extension(p, c) => Node([Str(HexPrefix(p, false)), Reference(keccak, c)])
    case Branch(kids, v) => Node(Slots(keccak, kids) + [Str(v)])
  }

  /** A child is embedded when its encoding is shorter than a hash, and referred to by hash otherwise. */
  function Reference(keccak: HashFn, t: Trie): Tree
    decreases t, 1
  {
    var n := NodeTree(keccak, t);
    if |Encode(n)| < HASH_LEN then n else Str(keccak(Encode(n)))
  }

  function Slots(keccak: HashFn, kids: seq<Trie>): (ts: seq<Tree>)
    ensures |ts| == |kids|
    decreases kids, 0
  {
    if kids == [] then [] else [Reference(keccak, kids[0])] + Slots(keccak, kids[1..])
  }

  function Enc(keccak: HashFn, t: Trie): seq<byte> {
    Encode(NodeTree(keccak, t))
  }

  /** The encodings of all nodes of a trie. */
  function Nodes(keccak: HashFn, t: Trie): set<seq<byte>>
    decreases t, 0
  {
    {Enc(keccak, t)} +
    match t
    case Nothing => {}
    case Leaf(_, _) => {}
    case Extension(_, c) => Nodes(keccak, c)
    case Branch(kids, _) => KidNodes(keccak, kids)
  }

  function KidNodes(keccak: HashFn, kids: seq<Trie>): (s: set<seq<byte>>)
    ensures forall k :: k in kids ==> Nodes(keccak, k) <= s
    decreases kids, 0
  {
    if kids == [] then {}
    else
      assert forall k :: k in kids ==> k == kids[0] || k in kids[1..];
      KidNodes(keccak, kids[1..]) + Nodes(keccak, kids[0])
  }

  /** No two different byte strings of the set share a hash. */
  ghost predicate NoCollision(keccak: HashFn, s: set<seq<byte>>) {
    forall a, b :: a in s && b in s && keccak(a) == keccak(b) ==> a == b
  }

  lemma {:induction false} ItemsOfAt(ts: seq<Tree>, i: nat)
    requires i < |ts|
    ensures |ItemsOf(ts)| == |ts| && ItemsOf(ts)[i] == ItemOf(ts[i])
  {
    if i > 0 {
      ItemsOfAt(ts[1..], i - 1);
    } else if |ts| > 1 {
      ItemsOfAt(ts[1..], 0);
    }
  }

  lemma {:induction false} SlotsAt(keccak: HashFn, kids: seq<Trie>, i: nat)
    requires i < |kids|
    ensures Slots(keccak, kids)[i] == Reference(keccak, kids[i])
  {
    if i > 0 {
      SlotsAt(keccak, kids[1..], i - 1);
    }
  }

  // --- Sizes --------------------------------------------------------------------------------------

  lemma TwoByteLength(len: nat)
    requires len <= 0xFFFF
    ensures |MinBe(len)| <= 2
  {
    assert Pow256(2) == 0x10000 by {
      assert Pow256(1) == 256;
    }
    MinBeLength(len, 2);
  }

  lemma HeaderSize(base: int, len: nat)
    requires (base == 0x80 || base == 0xc0) && len <= 0xFFFF
    ensures |Header(base, len)| <= 3
  {
    hide MinBe;
    TwoByteLength(len);
  }

  lemma EncBytesSize(b: seq<byte>)
    requires |b| <= MAX_VALUE_LEN
    ensures |EncBytes(b)| <= |b| + 3
  {
    HeaderSize(0x80, |b|);
    hide Header;
  }

  lemma EncListSize(p: seq<byte>)
    requires |p| <= 0xFFFF
    ensures |EncList(p)| <= |p| + 3
  {
    HeaderSize(0xc0, |p|);
    hide Header;
  }

  lemma {:induction false} EncodeAllSize(ts: seq<Tree>)
    requires forall i :: 0 <= i < |ts| ==> |Encode(ts[i])| <= 259
    ensures |EncodeAll(ts)| <= 259 * |ts|
  {
    hide Encode;
    if ts != [] {
      EncodeAllSize(ts[1..]);
    }
  }

  lemma ReferenceSize(keccak: HashFn, t: Trie)
    ensures |Encode(Reference(keccak, t))| <= 35
  {
    EncBytesSize(keccak(Enc(keccak, t)));
  }

  lemma {:induction false} PackSize(p: seq<nibble>)
    requires |p| % 2 == 0
    ensures |Pack(p)| == |p| / 2
  {
  }

  lemma HexPrefixSize(p: seq<nibble>, isLeaf: bool)
    requires |p| <= MAX_NIBBLES
    ensures |Encode(Str(HexPrefix(p, isLeaf)))| <= 36
  {
    PackSize(if |p| % 2 == 0 then p else p[1..]);
    EncBytesSize(HexPrefix(p, isLeaf));
  }

  lemma KidSizes(keccak: HashFn, t: Trie, i: nat)
    requires WellFormed(t) && t != Nothing && i < |NodeTree(keccak, t).kids|
    ensures |Encode(NodeTree(keccak, t).kids[i])| <= 259
  {
    match t
    case Leaf(p, v) => HexPrefixSize(p, true); EncBytesSize(v);
    case Extension(p, c) => HexPrefixSize(p, false); ReferenceSize(keccak, c);
    case Branch(kids, v) =>
      EncBytesSize(v);
      if i < 16 {
        SlotsAt(keccak, kids, i);
        ReferenceSize(keccak, kids[i]);
      }
  }

  lemma NodeSize(keccak: HashFn, t: Trie)
    requires WellFormed(t) && t != Nothing
    ensures |Enc(keccak, t)| <= 17 * 259 + 3 && |NodeTree(keccak, t).kids| <= 17
  {
    var kids := NodeTree(keccak, t).kids;
    forall i | 0 <= i < |kids|
      ensures |Encode(kids[i])| <= 259
    {
      KidSizes(keccak, t, i);
    }
    EncodeAllSize(kids);
    EncListSize(EncodeAll(kids));
  }

  /** The verifier's parser recovers the items of a well-formed node. */
  lemma ParseTrieNode(keccak: HashFn, t: Trie)
    requires WellFormed(t) && t != Nothing
    ensures ParseNode(Enc(keccak, t)) == Ok(ItemsOf(NodeTree(keccak, t).kids))
  {
    hide DecodeAt;
    var n := NodeTree(keccak, t);
    NodeSize(keccak, t);
    EncodeLengths(n);
    DecodeReEncode(ItemOf(n), [], 0);
    assert Encode(n) + [] == Encode(n);
    ItemsOfEncoding(n.kids, 0);
  }

  // --- Soundness and completeness of the walk ---------------------------------------------------------

  /** What a visited leaf, extension or branch does, in terms of the trie. */
  function VisitTrie(keccak: HashFn, t: Trie, path: seq<nibble>, pos: nat, expected: seq<byte>): Visit
    requires WellFormed(t) && t != Nothing && pos <= |path|
  {
    match t
    case Leaf(p, v) =>
      if path[pos..] == p then Stop(MatchValue(Bytes(v), expected)) else Stop(Err(PathMismatch))
    case Extension(p, c) =>
      if p <= path[pos..] then DescendInto(keccak, ItemOf(Reference(keccak, c)), pos + |p|) else Stop(Err(PathMismatch))
    case Branch(kids, v) =>
      if pos == |path| then Stop(MatchValue(Bytes(v), expected))
      else DescendInto(keccak, ItemOf(Reference(keccak, kids[path[pos]])), pos + 1)
  }

  lemma VisitIsTrieStep(keccak: HashFn, t: Trie, path: seq<nibble>, pos: nat, expected: seq<byte>)
    requires WellFormed(t) && t != Nothing && pos <= |path|
    ensures VisitBytes(keccak, Enc(keccak, t), path, pos, expected) == VisitTrie(keccak, t, path, pos, expected)
  {
    ParseTrieNode(keccak, t);
    if t.Branch? {
      VisitBranch(keccak, t, path, pos, expected);
    } else {
      VisitPair(keccak, t, path, pos, expected);
    }
  }

  lemma VisitBranch(keccak: HashFn, t: Trie, path: seq<nibble>, pos: nat, expected: seq<byte>)
    requires WellFormed(t) && t.Branch? && pos <= |path|
    ensures VisitNode(keccak, ItemsOf(NodeTree(keccak, t).kids), path, pos, expected)
        == VisitTrie(keccak, t, path, pos, expected)
  {
    var kids := NodeTree(keccak, t).kids;
    ItemsOfAt(kids, 16);
    if pos < |path| {
      ItemsOfAt(kids, path[pos]);
      SlotsAt(keccak, t.kids, path[pos]);
    }
  }

  lemma VisitPair(keccak: HashFn, t: Trie, path: seq<nibble>, pos: nat, expected: seq<byte>)
    requires WellFormed(t) && (t.Leaf? || t.Extension?) && pos <= |path|
    ensures VisitNode(keccak, ItemsOf(NodeTree(keccak, t).kids), path, pos, expected)
        == VisitTrie(keccak, t, path, pos, expected)
  {
    hide DecodeCompact, HexPrefix, ExtractChildHash;
    var kids := NodeTree(keccak, t).kids;
    ItemsOfAt(kids, 0);
    ItemsOfAt(kids, 1);
    PairDecides(keccak, t, ItemsOf(kids), path, pos, expected);
  }

  lemma PairDecides(keccak: HashFn, t: Trie, items: seq<RlpItem>, path: seq<nibble>, pos: nat, expected: seq<byte>)
    requires WellFormed(t) && (t.Leaf? || t.Extension?) && pos <= |path|
    requires |items| == 2 && items[0] == Bytes(HexPrefix(t.path, t.Leaf?))
    requires items[1] == if t.Leaf? then Bytes(t.value) else ItemOf(Reference(keccak, t.child))
    ensures VisitNode(keccak, items, path, pos, expected) == VisitTrie(keccak, t, path, pos, expected)
  {
    hide DecodeCompact, HexPrefix, ExtractChildHash, Reference;
    HexPrefixInverse(t.path, t.Leaf?);
    PrefixAt(path, pos, t.path);
  }

  lemma PrefixAt(path: seq<nibble>, pos: nat, p: seq<nibble>)
    requires pos <= |path|
    ensures p <= path[pos..] <==> pos + |p| <= |path| && path[pos..pos + |p|] == p
    ensures p == path[pos..] <==> pos + |p| == |path| && path[pos..pos + |p|] == p
  {
    if pos + |p| <= |path| {
      assert path[pos..][..|p|] == path[pos..pos + |p|];
    }
  }

  /** The hash the walk goes on with is the hash of the child it descends to, embedded or not. */
  lemma ChildHash(keccak: HashFn, c: Trie)
    ensures ExtractChildHash(keccak, ItemOf(Reference(keccak, c)))
         == if c == Nothing then Err(KeyNotFound) else Ok(keccak(Enc(keccak, c)))
  {
  }

  /** The child that the path leads to, and the number of nibbles spent on the way. */
  function Next(t: Trie, path: seq<nibble>): (r: Option<(Trie, nat)>)
    ensures r.Some? ==> r.value.0 < t && r.value.1 <= |path|
    ensures r.Some? ==> Lookup(t, path) == Lookup(r.value.0, path[r.value.1..])
  {
    match t
    case Nothing => None
    case Leaf(_, _) => None
    case Extension(p, c) => if p <= path then Some((c, |p|)) else None
    case Branch(kids, _) => if path != [] && path[0] < |kids| then Some((kids[path[0]], 1)) else None
  }

  /** What comparing a stored value with the expected one gives. */
  function Compared(v: seq<byte>, expected: seq<byte>): Verdict {
    if v == expected && expected != [] then Ok(()) else Err(ValueMismatch)
  }

  /** What the trie has to say of a key and an expected value. */
  function Ending(t: Trie, path: seq<nibble>, expected: seq<byte>): Verdict {
    match t
    case Nothing => Err(KeyNotFound)
    case Leaf(p, v) => if path == p then Compared(v, expected) else Err(PathMismatch)
    case Extension(p, c) => if p <= path then Ending(c, path[|p|..], expected) else Err(PathMismatch)
    case Branch(kids, v) =>
      if path == [] then Compared(v, expected)
      else if path[0] < |kids| then Ending(kids[path[0]], path[1..], expected)
      else Err(KeyNotFound)
  }

  lemma EndingNext(t: Trie, path: seq<nibble>, expected: seq<byte>)
    ensures t == Nothing ==> Ending(t, path, expected) == Err(KeyNotFound)
    ensures Next(t, path).Some? ==>
              Ending(t, path, expected) == Ending(Next(t, path).value.0, path[Next(t, path).value.1..], expected)
  {
  }

  lemma NextKeeps(keccak: HashFn, t: Trie, path: seq<nibble>)
    requires WellFormed(t)
    ensures Enc(keccak, t) in Nodes(keccak, t)
    ensures Next(t, path).Some? ==>
              var c := Next(t, path).value.0; WellFormed(c) && Nodes(keccak, c) <= Nodes(keccak, t)
  {
    hide Enc, Lookup;
  }

  /** One step of the walk over a node of the trie. */
  lemma WalkStep(keccak: HashFn, t: Trie, path: seq<nibble>, pos: nat, expected: seq<byte>, proof: seq<seq<byte>>,
                 idx: nat)
    requires WellFormed(t) && t != Nothing && pos <= |path|
    requires idx < |proof| && proof[idx] == Enc(keccak, t)
    ensures var verdict := Walk(keccak, keccak(Enc(keccak, t)), path, pos, expected, proof, idx);
            match Next(t, path[pos..])
            case None =>
              && (verdict.Ok? <==> Lookup(t, path[pos..]) == Some(expected) && expected != [])
              && verdict == Ending(t, path[pos..], expected) != Err(KeyNotFound)
            case Some((c, n)) =>
              verdict == if c == Nothing then Err(KeyNotFound)
                         else Walk(keccak, keccak(Enc(keccak, c)), path, pos + n, expected, proof, idx + 1)
  {
    hide VisitBytes, VisitTrie, Enc, Lookup, Next, Ending;
    VisitIsTrieStep(keccak, t, path, pos, expected);
    VisitIsNext(keccak, t, path, pos, expected);
  }

  lemma VisitIsNext(keccak: HashFn, t: Trie, path: seq<nibble>, pos: nat, expected: seq<byte>)
    requires WellFormed(t) && t != Nothing && pos <= |path|
    ensures match Next(t, path[pos..])
            case None =>
              && VisitTrie(keccak, t, path, pos, expected).Stop?
              && (VisitTrie(keccak, t, path, pos, expected).verdict.Ok? <==>
                  Lookup(t, path[pos..]) == Some(expected) && expected != [])
              && VisitTrie(keccak, t, path, pos, expected).verdict
                  == Ending(t, path[pos..], expected) != Err(KeyNotFound)
            case Some((c, n)) =>
              VisitTrie(keccak, t, path, pos, expected)
                == if c == Nothing then Stop(Err(KeyNotFound)) else Descend(keccak(Enc(keccak, c)), pos + n)
  {
    hide Enc, ExtractChildHash, Reference;
    NextKeeps(keccak, t, path[pos..]);
    if Next(t, path[pos..]).Some? {
      ChildHash(keccak, Next(t, path[pos..]).value.0);
    }
  }

  /** The honest proof: the encodings of the nodes on the path. */
  function ProofOf(keccak: HashFn, t: Trie, path: seq<nibble>): (proof: seq<seq<byte>>)
    ensures t != Nothing ==> proof != [] && proof[0] == Enc(keccak, t)
  {
    if t == Nothing then []
    else [Enc(keccak, t)] + match Next(t, path) case None => [] case Some((c, n)) => ProofOf(keccak, c, path[n..])
  }

  lemma ProofTail(keccak: HashFn, t: Trie, path: seq<nibble>)
    requires t != Nothing
    ensures ProofOf(keccak, t, path)[1..] ==
            match Next(t, path) case None => [] case Some((c, n)) => ProofOf(keccak, c, path[n..])
  {
    hide Enc, Next;
  }

  /** The path ends at an empty slot. */
  predicate EndsEmpty(t: Trie, path: seq<nibble>) {
    t == Nothing || match Next(t, path) case None => false case Some((c, n)) => EndsEmpty(c, path[n..])
  }

  lemma {:induction false} EmptyIsAbsent(t: Trie, path: seq<nibble>)
    ensures EndsEmpty(t, path) ==> Lookup(t, path) == None
    decreases t
  {
    hide Lookup, Next;
    NothingStored(t, path);
    if t != Nothing && Next(t, path).Some? {
      EmptyIsAbsent(Next(t, path).value.0, path[Next(t, path).value.1..]);
    }
  }

  /** Prefixes of sequences with the same first element. */
  lemma PrefixTails<T>(s: seq<T>, t: seq<T>)
    requires s != [] && t != [] && s[0] == t[0]
    ensures s <= t <==> s[1..] <= t[1..]
    ensures s < t <==> s[1..] < t[1..]
  {
    assert s == [s[0]] + s[1..] && t == [t[0]] + t[1..];
  }

  /**
    * What the walk makes of a proof that follows the trie: it runs out of nodes when the proof stops early, and
    * otherwise accepts exactly the stored value.
    */
  lemma {:induction false} WalkFollows(keccak: HashFn, t: Trie, path: seq<nibble>, pos: nat, expected: seq<byte>,
                                       proof: seq<seq<byte>>, idx: nat)
    requires WellFormed(t) && t != Nothing && pos <= |path| && idx <= |proof|
    ensures var verdict, honest := Walk(keccak, keccak(Enc(keccak, t)), path, pos, expected, proof, idx),
                                   ProofOf(keccak, t, path[pos..]);
            && (proof[idx..] < honest ==> verdict == Err(KeyNotFound))
            && (honest <= proof[idx..] ==>
                  && (verdict.Ok? <==> Lookup(t, path[pos..]) == Some(expected) && expected != [])
                  && (verdict == Err(KeyNotFound) <==> EndsEmpty(t, path[pos..]))
                  && verdict == Ending(t, path[pos..], expected))
    decreases t
  {
    hide Enc, Lookup, WellFormed, Nodes, Next, ProofOf, VerifyNodeHash, VisitBytes, Ending;
    var rest, honest := proof[idx..], ProofOf(keccak, t, path[pos..]);
    if idx < |proof| && rest[0] == honest[0] {
      hide Walk;
      PrefixTails(rest, honest);
      PrefixTails(honest, rest);
      assert rest[1..] == proof[idx + 1..];
      NextKeeps(keccak, t, path[pos..]);
      ProofTail(keccak, t, path[pos..]);
      WalkStep(keccak, t, path, pos, expected, proof, idx);
      EndingNext(t, path[pos..], expected);
      if Next(t, path[pos..]).Some? {
        var (c, n) := Next(t, path[pos..]).value;
        assert path[pos..][n..] == path[pos + n..];
        NothingStored(c, path[pos + n..]);
        EndingNext(c, path[pos + n..], expected);
        if c == Nothing {
          EmptyProofTail(keccak, c, path[pos + n..]);
        } else {
          WalkFollows(keccak, c, path, pos + n, expected, proof, idx + 1);
        }
      }
    }
  }

  lemma EmptyProofTail(keccak: HashFn, t: Trie, path: seq<nibble>)
    ensures t == Nothing ==> ProofOf(keccak, t, path) == []
  {
  }

  /** The number of elements two sequences share from the front. */
  function Shared<T(==)>(s: seq<T>, t: seq<T>): (j: nat)
    ensures j <= |s| && j <= |t| && s[..j] == t[..j]
    ensures j < |s| && j < |t| ==> s[j] != t[j]
    ensures j == |s| < |t| <==> s < t
    ensures j == |t| <==> t <= s
  {
    if s == [] || t == [] || s[0] != t[0] then 0
    else
      PrefixTails(s, t);
      PrefixTails(t, s);
      assert s == [s[0]] + s[1..] && t == [t[0]] + t[1..];
      1 + Shared(s[1..], t[1..])
  }

  /** The nibbles of the path spent on its first `j` nodes. */
  function Spent(t: Trie, path: seq<nibble>, j: nat): (n: nat)
    ensures n <= |path|
  {
    if j == 0 || Next(t, path).None? then 0
    else
      var (c, n) := Next(t, path).value;
      n + Spent(c, path[n..], j - 1)
  }

  lemma SharedHead<T>(s: seq<T>, t: seq<T>)
    requires t != []
    ensures !(s < t) && !(t <= s) ==> s != [] && (Shared(s, t) == 0 <==> s[0] != t[0])
  {
    if s != [] && Shared(s, t) > 0 {
      assert s[0] == s[..Shared(s, t)][0] == t[..Shared(s, t)][0] == t[0];
    }
  }

  lemma SharedNext<T>(s: seq<T>, t: seq<T>)
    requires s != [] && t != [] && s[0] == t[0]
    ensures Shared(s, t) == 1 + Shared(s[1..], t[1..])
  {
  }

  lemma SpentNext(t: Trie, path: seq<nibble>, j: nat)
    ensures j == 0 ==> Spent(t, path, j) == 0
    ensures j > 0 && Next(t, path).Some? ==>
              Spent(t, path, j) == Next(t, path).value.1
                  + Spent(Next(t, path).value.0, path[Next(t, path).value.1..], j - 1)
  {
    hide Next;
  }

  /** The hash check passes the trie's own node, and, among nodes in play, only it and short nodes below the root. */
  lemma CheckedNode(keccak: HashFn, node: seq<byte>, own: seq<byte>, isRoot: bool, inPlay: set<seq<byte>>)
    requires node in inPlay && own in inPlay && NoCollision(keccak, inPlay)
    ensures VerifyNodeHash(keccak, node, keccak(own), isRoot).Ok? <==> node == own || (!isRoot && |node| < HASH_LEN)
    ensures VerifyNodeHash(keccak, node, keccak(own), isRoot).Err? ==>
              VerifyNodeHash(keccak, node, keccak(own), isRoot)
                  == Err(if isRoot then RootHashMismatch else HashMismatch)
  {
  }

  lemma WalkChecks(keccak: HashFn, hash: Hash, other: Hash, path: seq<nibble>, pos: nat, expected: seq<byte>,
                   proof: seq<seq<byte>>, idx: nat)
    requires pos <= |path| && idx < |proof|
    ensures VerifyNodeHash(keccak, proof[idx], hash, idx == 0).Err? ==>
              Walk(keccak, hash, path, pos, expected, proof, idx) == VerifyNodeHash(keccak, proof[idx], hash, idx == 0)
    ensures VerifyNodeHash(keccak, proof[idx], hash, idx == 0).Ok? ==>
            VerifyNodeHash(keccak, proof[idx], other, idx == 0).Ok? ==>
              Walk(keccak, hash, path, pos, expected, proof, idx)
                == Walk(keccak, other, path, pos, expected, proof, idx)
  {
    hide VerifyNodeHash, VisitBytes;
  }

  /** What the walk comes to at node `k`, the first that is not the trie's, after `pos` nibbles. */
  ghost predicate AtDeparture(keccak: HashFn, verdict: Verdict, path: seq<nibble>, pos: nat, expected: seq<byte>,
                              proof: seq<seq<byte>>, k: nat)
    requires pos <= |path| && k < |proof|
  {
    if k == 0 then verdict == Err(RootHashMismatch)
    else if |proof[k]| >= HASH_LEN then verdict == Err(HashMismatch)
    else verdict == Walk(keccak, keccak(proof[k]), path, pos, expected, proof, k)
  }

  lemma DepartsHere(keccak: HashFn, t: Trie, path: seq<nibble>, pos: nat, expected: seq<byte>, proof: seq<seq<byte>>,
                    idx: nat, inPlay: set<seq<byte>>)
    requires pos <= |path| && idx < |proof| && proof[idx] in inPlay && Enc(keccak, t) in inPlay
    requires NoCollision(keccak, inPlay) && proof[idx] != Enc(keccak, t)
    ensures var verdict := Walk(keccak, keccak(Enc(keccak, t)), path, pos, expected, proof, idx);
            AtDeparture(keccak, verdict, path, pos, expected, proof, idx)
  {
    hide Walk, Enc, NoCollision, VerifyNodeHash;
    CheckedNode(keccak, proof[idx], Enc(keccak, t), idx == 0, inPlay);
    CheckedNode(keccak, proof[idx], proof[idx], idx == 0, inPlay);
    WalkChecks(keccak, keccak(Enc(keccak, t)), keccak(proof[idx]), path, pos, expected, proof, idx);
  }

  /**
    * A proof that departs from the trie's path at its root or at a node of at least 32 bytes fails with a hash
    * mismatch.
    * When it departs at a shorter node, whose hash is not checked, the walk goes on from that node.
    */
  lemma {:induction false} WalkDeparts(keccak: HashFn, t: Trie, path: seq<nibble>, pos: nat, expected: seq<byte>,
                                       proof: seq<seq<byte>>, idx: nat, inPlay: set<seq<byte>>)
    requires WellFormed(t) && t != Nothing && pos <= |path| && idx <= |proof|
    requires forall i :: 0 <= i < |proof| ==> proof[i] in inPlay
    requires Nodes(keccak, t) <= inPlay && NoCollision(keccak, inPlay)
    ensures var verdict, honest := Walk(keccak, keccak(Enc(keccak, t)), path, pos, expected, proof, idx),
                                   ProofOf(keccak, t, path[pos..]);
            var j := Shared(proof[idx..], honest);
            j < |proof| - idx && j < |honest| ==>
              AtDeparture(keccak, verdict, path, pos + Spent(t, path[pos..], j), expected, proof, idx + j)
    decreases t
  {
    hide Walk, Enc, Lookup, WellFormed, Nodes, Next, ProofOf, NoCollision, VerifyNodeHash, Shared, Spent, AtDeparture;
    var rest, honest := proof[idx..], ProofOf(keccak, t, path[pos..]);
    var j := Shared(rest, honest);
    SpentNext(t, path[pos..], j);
    if j < |rest| && j < |honest| {
      NextKeeps(keccak, t, path[pos..]);
      if j == 0 {
        DepartsHere(keccak, t, path, pos, expected, proof, idx, inPlay);
      } else {
        assert rest[1..] == proof[idx + 1..];
        assert rest[0] == rest[..j][0] == honest[..j][0] == honest[0];
        SharedNext(rest, honest);
        ProofTail(keccak, t, path[pos..]);
        WalkStep(keccak, t, path, pos, expected, proof, idx);
        var (c, n) := Next(t, path[pos..]).value;
        assert path[pos..][n..] == path[pos + n..];
        EmptyProofTail(keccak, c, path[pos + n..]);
        WalkDeparts(keccak, c, path, pos + n, expected, proof, idx + 1, inPlay);
      }
    }
  }

  /** The proof departs from the honest one at a node below the root that is too short for its hash to be checked. */
  predicate DepartsAtShort(honest: seq<seq<byte>>, proof: seq<seq<byte>>) {
    var j := Shared(proof, honest);
    0 < j < |proof| && j < |honest| && |proof[j]| < HASH_LEN
  }

  /** The verdict of the walk from the node at which the proof departs. */
  function FromDeparture(keccak: HashFn, t: Trie, path: seq<nibble>, expected: seq<byte>,
                         proof: seq<seq<byte>>): Verdict
    requires DepartsAtShort(ProofOf(keccak, t, path), proof)
  {
    var j := Shared(proof, ProofOf(keccak, t, path));
    Walk(keccak, keccak(proof[j]), path, Spent(t, path, j), expected, proof, j)
  }

  /** What the walk over any proof comes to, from the root of a trie. */
  lemma WalkDecides(keccak: HashFn, t: Trie, path: seq<nibble>, expected: seq<byte>, proof: seq<seq<byte>>)
    requires WellFormed(t) && t != Nothing && NoCollision(keccak, Nodes(keccak, t) + SetOf(proof))
    ensures var verdict, honest := Walk(keccak, keccak(Enc(keccak, t)), path, 0, expected, proof, 0),
                                   ProofOf(keccak, t, path);
            if DepartsAtShort(honest, proof) then verdict == FromDeparture(keccak, t, path, expected, proof)
            else
              && (verdict.Ok? <==> honest <= proof && Lookup(t, path) == Some(expected) && expected != [])
              && (verdict == Err(KeyNotFound) <==> proof < honest || (honest <= proof && EndsEmpty(t, path)))
              && verdict == (if proof < honest then Err(KeyNotFound)
                             else if honest <= proof then Ending(t, path, expected)
                             else Err(if proof[0] != honest[0] then RootHashMismatch else HashMismatch))
  {
    hide Walk, Enc, ProofOf, Nodes, EndsEmpty, WellFormed, Lookup, NoCollision, Ending;
    SharedHead(proof, ProofOf(keccak, t, path));
    assert path[0..] == path && proof[0..] == proof;
    WalkFollows(keccak, t, path, 0, expected, proof, 0);
    WalkDeparts(keccak, t, path, 0, expected, proof, 0, Nodes(keccak, t) + SetOf(proof));
  }

  lemma NothingStored(t: Trie, path: seq<nibble>)
    ensures Lookup(t, path).Some? ==> t != Nothing
  {
  }

  function SetOf(proof: seq<seq<byte>>): set<seq<byte>> {
    set node | node in proof
  }

  /**
    * The proofs that are accepted: the trie's own path, followed by anything, for the value stored under the hashed
    * key; besides them only proofs that depart from it at a short node from which the walk succeeds.
    */
  lemma AcceptedProofIsTrue(keccak: HashFn, t: Trie, key: seq<byte>, expected: seq<byte>, proof: seq<seq<byte>>)
    requires WellFormed(t) && NoCollision(keccak, Nodes(keccak, t) + SetOf(proof))
    ensures var path := NibblesOf(keccak(key));
            var honest := ProofOf(keccak, t, path);
            var decided := if DepartsAtShort(honest, proof) then FromDeparture(keccak, t, path, expected, proof).Ok?
                         else honest <= proof && Lookup(t, path) == Some(expected);
            VerifyProof(keccak, keccak(Enc(keccak, t)), key, expected, proof).Ok? <==>
              decided && key != [] && |proof| <= MAX_PROOF_NODES && |expected| <= MAX_VALUE_LEN
  {
    hide Walk, Enc, NibblesOf, DepartsAtShort, FromDeparture, Nodes, EndsEmpty, WellFormed;
    var path := NibblesOf(keccak(key));
    StoredBounded(t, path);
    NothingStored(t, path);
    if t == Nothing {
      NodesOfNothing(keccak);
      EmptyTrieRejects(keccak, path, expected, proof);
      NoDeparture(keccak, t, path, proof);
    } else {
      WalkDecides(keccak, t, path, expected, proof);
      DeparturesAreSupplied(ProofOf(keccak, t, path), proof);
    }
  }

  lemma NoDeparture(keccak: HashFn, t: Trie, path: seq<nibble>, proof: seq<seq<byte>>)
    ensures |ProofOf(keccak, t, path)| <= 1 ==> !DepartsAtShort(ProofOf(keccak, t, path), proof)
  {
    hide Enc;
  }

  lemma DeparturesAreSupplied(honest: seq<seq<byte>>, proof: seq<seq<byte>>)
    ensures DepartsAtShort(honest, proof) || (honest != [] && honest <= proof) ==> proof != []
  {
  }

  /** The verdict on a proof that does not depart at a short node, with every error. */
  lemma ProofVerdict(keccak: HashFn, t: Trie, key: seq<byte>, expected: seq<byte>, proof: seq<seq<byte>>)
    requires WellFormed(t) && t != Nothing && NoCollision(keccak, Nodes(keccak, t) + SetOf(proof))
    requires !DepartsAtShort(ProofOf(keccak, t, NibblesOf(keccak(key))), proof)
    ensures var path := NibblesOf(keccak(key));
            var honest := ProofOf(keccak, t, path);
            VerifyProof(keccak, keccak(Enc(keccak, t)), key, expected, proof) ==
              if key == [] then Err(EmptyKey)
              else if proof == [] then Err(EmptyProof)
              else if |proof| > 16 then Err(ProofTooLong)
              else if |expected| > 256 then Err(MptError.InputTooLong)
              else if proof < honest then Err(KeyNotFound)
              else if honest <= proof then Ending(t, path, expected)
              else Err(if proof[0] != honest[0] then RootHashMismatch else HashMismatch)
  {
    hide Walk, Enc, NibblesOf, DepartsAtShort, FromDeparture, Nodes, EndsEmpty, WellFormed, Ending, ProofOf;
    WalkDecides(keccak, t, NibblesOf(keccak(key)), expected, proof);
  }

  /** A proof accepted for anything but the stored value departs from the trie's path at a node below 32 bytes. */
  lemma FalseProofDepartsAtShortNode(keccak: HashFn, t: Trie, key: seq<byte>, expected: seq<byte>,
                                     proof: seq<seq<byte>>)
    requires WellFormed(t) && NoCollision(keccak, Nodes(keccak, t) + SetOf(proof))
    requires VerifyProof(keccak, keccak(Enc(keccak, t)), key, expected, proof).Ok?
    requires Lookup(t, NibblesOf(keccak(key))) != Some(expected)
    ensures DepartsAtShort(ProofOf(keccak, t, NibblesOf(keccak(key))), proof)
  {
    hide Walk, Enc, NibblesOf, Nodes, WellFormed, VerifyProof, DepartsAtShort, FromDeparture, ProofOf, Lookup;
    AcceptedProofIsTrue(keccak, t, key, expected, proof);
  }

  /** When the path ends at the root, nothing but the stored value is ever accepted. */
  lemma RootDecides(keccak: HashFn, t: Trie, key: seq<byte>, expected: seq<byte>, proof: seq<seq<byte>>)
    requires WellFormed(t) && NoCollision(keccak, Nodes(keccak, t) + SetOf(proof))
    requires |ProofOf(keccak, t, NibblesOf(keccak(key)))| <= 1
    requires VerifyProof(keccak, keccak(Enc(keccak, t)), key, expected, proof).Ok?
    ensures Lookup(t, NibblesOf(keccak(key))) == Some(expected)
  {
    hide Enc, NibblesOf, Nodes, WellFormed, VerifyProof, Lookup, ProofOf, NoCollision, DepartsAtShort;
    NoDeparture(keccak, t, NibblesOf(keccak(key)), proof);
    if Lookup(t, NibblesOf(keccak(key))) != Some(expected) {
      FalseProofDepartsAtShortNode(keccak, t, key, expected, proof);
    }
  }

  lemma NodesOfNothing(keccak: HashFn)
    ensures Nodes(keccak, Nothing) == {Enc(keccak, Nothing)}
  {
    hide Enc;
  }

  lemma EmptyTrieRejects(keccak: HashFn, path: seq<nibble>, expected: seq<byte>, proof: seq<seq<byte>>)
    requires NoCollision(keccak, {Enc(keccak, Nothing)} + SetOf(proof))
    ensures var verdict := Walk(keccak, keccak(Enc(keccak, Nothing)), path, 0, expected, proof, 0);
            verdict.Err? && (proof != [] ==> verdict != Err(KeyNotFound))
  {
    var empty := Enc(keccak, Nothing);
    assert empty == [0x80];
    assert VisitBytes(keccak, empty, path, 0, expected) == Stop(Err(InvalidNodeStructure));
    if proof != [] && keccak(proof[0]) == keccak(empty) {
      assert proof[0] in SetOf(proof) && empty in {empty} + SetOf(proof);
      assert proof[0] == empty;
    }
  }

  /** The honest proof of a present key is accepted. */
  lemma HonestProofIsAccepted(keccak: HashFn, t: Trie, key: seq<byte>)
    requires WellFormed(t) && key != []
    requires Lookup(t, NibblesOf(keccak(key))).Some?
    requires |ProofOf(keccak, t, NibblesOf(keccak(key)))| <= MAX_PROOF_NODES
    ensures var path := NibblesOf(keccak(key));
            VerifyProof(keccak, keccak(Enc(keccak, t)), key, Lookup(t, path).value, ProofOf(keccak, t, path)).Ok?
  {
    hide Walk, Enc, NibblesOf;
    var path := NibblesOf(keccak(key));
    assert path[0..] == path;
    var proof := ProofOf(keccak, t, path);
    assert proof[0..] == proof;
    LookupBounded(t, path);
    NothingStored(t, path);
    hide ProofOf;
    WalkFollows(keccak, t, path, 0, Lookup(t, path).value, proof, 0);
  }

  lemma StoredBounded(t: Trie, path: seq<nibble>)
    requires WellFormed(t)
    ensures Lookup(t, path).Some? ==> 1 <= |Lookup(t, path).value| <= MAX_VALUE_LEN
  {
    if Lookup(t, path).Some? {
      LookupBounded(t, path);
    }
  }

  // --- Exclusion ----------------------------------------------------------------------------------------

  /**
    * An exclusion proof is accepted exactly when it follows the trie's path and either stops before the path does or
    * reaches an empty slot; besides, when it departs at a short node from which the walk finds no key or accepts.
    */
  lemma ExclusionExact(keccak: HashFn, t: Trie, key: seq<byte>, proof: seq<seq<byte>>)
    requires WellFormed(t) && NoCollision(keccak, Nodes(keccak, t) + SetOf(proof))
    ensures var path := NibblesOf(keccak(key));
            var honest := ProofOf(keccak, t, path);
            var decided := if DepartsAtShort(honest, proof)
                           then FromDeparture(keccak, t, path, [], proof).Ok?
                             || FromDeparture(keccak, t, path, [], proof) == Err(KeyNotFound)
                           else proof < honest || (honest <= proof && EndsEmpty(t, path));
            VerifyExclusionProof(keccak, keccak(Enc(keccak, t)), key, proof).Ok? <==>
              decided && t != Nothing && key != [] && proof != [] && |proof| <= MAX_PROOF_NODES
  {
    hide Walk, Enc, NibblesOf, DepartsAtShort, FromDeparture, Nodes, EndsEmpty, WellFormed, ProofOf;
    var path := NibblesOf(keccak(key));
    if t == Nothing {
      NodesOfNothing(keccak);
      EmptyTrieRejects(keccak, path, [], proof);
    } else {
      WalkDecides(keccak, t, path, [], proof);
    }
  }

  /** For a present key, short departures apart, what is accepted is exactly the proofs that stop early. */
  lemma PresentKeyExcludedIff(keccak: HashFn, t: Trie, key: seq<byte>, proof: seq<seq<byte>>)
    requires WellFormed(t) && NoCollision(keccak, Nodes(keccak, t) + SetOf(proof))
    requires !DepartsAtShort(ProofOf(keccak, t, NibblesOf(keccak(key))), proof)
    requires Lookup(t, NibblesOf(keccak(key))).Some?
    ensures VerifyExclusionProof(keccak, keccak(Enc(keccak, t)), key, proof).Ok? <==>
              && proof < ProofOf(keccak, t, NibblesOf(keccak(key)))
              && key != [] && proof != [] && |proof| <= MAX_PROOF_NODES
  {
    hide Enc, NibblesOf, DepartsAtShort, Nodes, EndsEmpty, WellFormed, ProofOf, VerifyExclusionProof, Lookup;
    hide FromDeparture;
    var path := NibblesOf(keccak(key));
    ExclusionExact(keccak, t, key, proof);
    EmptyIsAbsent(t, path);
    NothingStored(t, path);
  }

  /**
    * The complete honest proof of any key is accepted exactly when the path ends at an empty slot. So it is refused for
    * a present key, as it should be, and wrongly for an absent key whose path ends at some other node.
    */
  lemma HonestExclusionIff(keccak: HashFn, t: Trie, key: seq<byte>)
    requires WellFormed(t) && t != Nothing && key != []
    requires |ProofOf(keccak, t, NibblesOf(keccak(key)))| <= MAX_PROOF_NODES
    ensures var path := NibblesOf(keccak(key));
            var accepted := VerifyExclusionProof(keccak, keccak(Enc(keccak, t)), key, ProofOf(keccak, t, path)).Ok?;
            && (accepted <==> EndsEmpty(t, path))
            && ((accepted <==> Lookup(t, path) == None) <==> Lookup(t, path).Some? || EndsEmpty(t, path))
  {
    hide Walk, Enc, NibblesOf, EndsEmpty, WellFormed, ProofOf, Lookup;
    var path := NibblesOf(keccak(key));
    var proof := ProofOf(keccak, t, path);
    assert path[0..] == path && proof[0..] == proof;
    WalkFollows(keccak, t, path, 0, [], proof, 0);
    EmptyIsAbsent(t, path);
  }

  /** The first nodes of an honest proof, whatever is stored, are accepted as a proof that the key is absent. */
  lemma TruncatedProofExcludes(keccak: HashFn, t: Trie, key: seq<byte>, k: nat)
    requires WellFormed(t) && key != []
    requires 0 < k < |ProofOf(keccak, t, NibblesOf(keccak(key)))| && k <= MAX_PROOF_NODES
    ensures VerifyExclusionProof(keccak, keccak(Enc(keccak, t)), key, ProofOf(keccak, t, NibblesOf(keccak(key)))[..k])
        == Ok(())
  {
    hide Walk, Enc, NibblesOf, WellFormed;
    var path := NibblesOf(keccak(key));
    assert path[0..] == path;
    EmptyProofTail(keccak, t, path);
    hide ProofOf;
    var proof := ProofOf(keccak, t, path)[..k];
    assert proof[0..] == proof;
    WalkFollows(keccak, t, path, 0, [], proof, 0);
  }

  /** A trie whose only leaf has another path proves absence, but its proof is refused. */
  lemma OtherLeafNotExcluded(keccak: HashFn, p: seq<nibble>, v: seq<byte>, key: seq<byte>)
    requires WellFormed(Leaf(p, v)) && p != NibblesOf(keccak(key)) && key != []
    ensures var t := Leaf(p, v);
            && Lookup(t, NibblesOf(keccak(key))) == None
            && ProofOf(keccak, t, NibblesOf(keccak(key))) == [Enc(keccak, t)]
            && VerifyExclusionProof(keccak, keccak(Enc(keccak, t)), key, [Enc(keccak, t)]).Err?
  {
    hide Walk, Enc, NibblesOf;
    var t, path := Leaf(p, v), NibblesOf(keccak(key));
    var proof := [Enc(keccak, t)];
    assert path[0..] == path && proof[0..] == proof;
    WalkFollows(keccak, t, path, 0, [], proof, 0);
  }

  lemma {:induction false} LookupBounded(t: Trie, path: seq<nibble>)
    requires WellFormed(t) && Lookup(t, path).Some?
    ensures 1 <= |Lookup(t, path).value| <= MAX_VALUE_LEN
    decreases t
  {
    match t
    case Leaf(p, v) =>
    case Extension(p, c) => LookupBounded(c, path[|p|..]);
    case Branch(kids, v) =>
      if path != [] {
        LookupBounded(kids[path[0]], path[1..]);
      }
  }
}
