// Merkle-Patricia inclusion proofs (mpt.rs; appendices C and D of the Ethereum Yellow Paper).
// The hash is an arbitrary function `keccak`; nothing is assumed of it beyond each theorem's hypotheses.

module Mpt {
  import opened Common
  import opened Rlp
  import opened RlpBuffers

  const MAX_PROOF_NODES := 16
  const HASH_LEN := 32
  const MAX_VALUE_LEN := 256
  const MAX_NIBBLES := 64

  type Hash = s: seq<byte> | |s| == 32 witness seq(32, _ => 0)
  type HashFn = seq<byte> -> Hash
  type nibble = x: int | 0 <= x < 16

  datatype MptError =
    | EmptyProof | ProofTooLong | InvalidRlp | RootHashMismatch | HashMismatch | InvalidNodeStructure
    | PathMismatch | KeyNotFound | ValueMismatch | InvalidNibble | OversizedInlineNode | EmptyKey | InputTooLong

  type Verdict = Result<(), MptError>

  // --- Nibble paths and the hex-prefix encoding ----------------------------------------------------

  /** `NibblePath::get` for every position: high half of each byte first. */
  function NibblesOf(bs: seq<byte>): (p: seq<nibble>)
    ensures |p| == 2 * |bs|
    ensures forall i :: 0 <= i < |p| ==> p[i] == if i % 2 == 0 then bs[i / 2] / 16 else bs[i / 2] % 16
  {
    if bs == [] then [] else [bs[0] / 16, bs[0] % 16] + NibblesOf(bs[1..])
  }

  function Join(high: nibble, low: nibble): (b: byte)
    ensures b / 16 == high && b % 16 == low
  {
    var h: int := high;
    h * 16 + low
  }

  /** Pairs of nibbles packed into bytes. */
  function Pack(p: seq<nibble>): (bs: seq<byte>)
    requires |p| % 2 == 0
    ensures NibblesOf(bs) == p
  {
    if p == [] then []
    else
      var bs := [Join(p[0], p[1])] + Pack(p[2..]);
      assert bs[1..] == Pack(p[2..]);
      bs
  }

  /** Hex-prefix encoding: a flag nibble (2 for leaves, plus 1 for odd lengths), then the path. */
  function HexPrefix(p: seq<nibble>, isLeaf: bool): seq<byte> {
    var flag: nibble := if isLeaf then 2 else 0;
    if |p| % 2 == 0 then [Join(flag, 0)] + Pack(p) else [Join(flag + 1, p[0])] + Pack(p[1..])
  }

  /** `decode_compact`: flag values above 3 count as leaves, and the padding nibble is ignored. */
  function DecodeCompact(input: seq<byte>): Result<(bool, seq<nibble>), MptError> {
    if input == [] then Err(InvalidNodeStructure)
    else
      var flag := input[0] / 16;
      var p := (if flag % 2 == 1 then [input[0] % 16] else []) + NibblesOf(input[1..]);
      if |p| > MAX_NIBBLES then Err(PathMismatch) else Ok((flag >= 2, p))
  }

  lemma HexPrefixInverse(p: seq<nibble>, isLeaf: bool)
    requires |p| <= MAX_NIBBLES
    ensures DecodeCompact(HexPrefix(p, isLeaf)) == Ok((isLeaf, p))
  {
    var hp := HexPrefix(p, isLeaf);
    if |p| % 2 == 0 {
      assert hp[1..] == Pack(p);
      assert [] + p == p;
    } else {
      assert hp[1..] == Pack(p[1..]);
      assert [p[0]] + p[1..] == p;
    }
  }

  /** The nibble buffer of at most 64 entries. */
  class Nibbles {
    const data: array<nibble>
    var len: nat

    ghost predicate Valid()
      reads this
    {
      data.Length == MAX_NIBBLES && len <= MAX_NIBBLES
    }

    function Contents(): seq<nibble>
      requires Valid()
      reads this, data
    {
      data[..len]
    }

    constructor ()
      ensures Valid() && fresh(data) && Contents() == []
    {
      data := new nibble[MAX_NIBBLES](_ => 0);
      len := 0;
    }

    method Push(n: byte) returns (r: Verdict)
      requires Valid()
      modifies this, data
      ensures Valid()
      ensures r == if n > 0x0f then Err(InvalidNibble)
                   else if |old(Contents())| >= MAX_NIBBLES then Err(PathMismatch) else Ok(())
      ensures Contents() == if r.Ok? then old(Contents()) + [n] else old(Contents())
    {
      if n > 0x0f {
        return Err(InvalidNibble);
      }
      if len >= MAX_NIBBLES {
        return Err(PathMismatch);
      }
      data[len] := n;
      len := len + 1;
      return Ok(());
    }
  }

  method PushByte(nibbles: Nibbles, b: byte) returns (r: Verdict)
    requires nibbles.Valid()
    modifies nibbles, nibbles.data
    ensures nibbles.Valid()
    ensures r == if |old(nibbles.Contents())| + 2 <= MAX_NIBBLES then Ok(()) else Err(PathMismatch)
    ensures r.Ok? ==> nibbles.Contents() == old(nibbles.Contents()) + [b / 16, b % 16]
  {
    r := nibbles.Push(b / 16);
    if r.Ok? {
      r := nibbles.Push(b % 16);
    }
  }

  lemma {:induction false} NibblesSnoc(bs: seq<byte>, i: nat)
    requires i < |bs|
    ensures NibblesOf(bs[..i + 1]) == NibblesOf(bs[..i]) + [bs[i] / 16, bs[i] % 16]
  {
  }

  method PushBytes(nibbles: Nibbles, bs: seq<byte>) returns (r: Verdict)
    requires nibbles.Valid()
    modifies nibbles, nibbles.data
    ensures nibbles.Valid()
    ensures r == if |old(nibbles.Contents())| + 2 * |bs| <= MAX_NIBBLES then Ok(()) else Err(PathMismatch)
    ensures r.Ok? ==> nibbles.Contents() == old(nibbles.Contents()) + NibblesOf(bs)
  {
    assert NibblesOf(bs[..0]) == [];
    hide NibblesOf;
    for i := 0 to |bs|
      invariant nibbles.Valid()
      invariant nibbles.Contents() == old(nibbles.Contents()) + NibblesOf(bs[..i])
    {
      NibblesSnoc(bs, i);
      r := PushByte(nibbles, bs[i]);
      if r.Err? {
        return;
      }
    }
    assert bs[..|bs|] == bs;
    r := Ok(());
  }

  method DecodeCompactLoop(input: seq<byte>) returns (r: Result<(bool, seq<nibble>), MptError>)
    ensures r == DecodeCompact(input)
  {
    hide NibblesOf;
    if input == [] {
      return Err(InvalidNodeStructure);
    }
    var flag := input[0] / 16;
    var isLeaf, odd := flag >= 2, flag % 2 == 1;
    var nibbles := new Nibbles();
    if odd {
      var high := nibbles.Push(input[0] % 16);
    }
    ghost var first: seq<nibble> := if odd then [input[0] % 16] else [];
    assert nibbles.Contents() == first;
    var pushed := PushBytes(nibbles, input[1..]);
    if pushed.Err? {
      return Err(pushed.error);
    }
    return Ok((isLeaf, nibbles.Contents()));
  }

  // --- The walk over the supplied nodes ------------------------------------------------------------

  function VerifyNodeHash(keccak: HashFn, node: seq<byte>, expected: Hash, isRoot: bool): Verdict {
    if (isRoot || |node| >= HASH_LEN) && keccak(node) != expected
      then Err(if isRoot then RootHashMismatch else HashMismatch)
    else Ok(())
  }

  /** The hash the next node must have, read from a branch slot or an extension's value. */
  function ExtractChildHash(keccak: HashFn, item: RlpItem): Result<Hash, MptError> {
    match item
    case Bytes(b) =>
      if b == [] then Err(KeyNotFound)
      else if |b| == HASH_LEN then Ok(b)
      else if |b| < HASH_LEN then Ok(keccak(EncBytes(b)))
      else Err(OversizedInlineNode)
    case List(p) =>
      if |EncList(p)| > MAX_ENCODE_LEN then Err(InvalidNodeStructure) else Ok(keccak(EncList(p)))
  }

  method ExtractChildHashBuffered(keccak: HashFn, item: RlpItem) returns (r: Result<Hash, MptError>)
    requires PayloadLength(item) <= MAX_INPUT_LEN
    ensures r == ExtractChildHash(keccak, item)
  {
    match item {
      case Bytes(b) =>
        if b == [] {
          return Err(KeyNotFound);
        } else if |b| == HASH_LEN {
          return Ok(b);
        } else if |b| < HASH_LEN {
          var enc := new EncodeBuf();
          var e := EncodeBytesV2(b, enc);
          if e.Err? {
            return Err(InvalidNodeStructure);
          }
          assert [] + EncBytes(b) == EncBytes(b);
          return Ok(keccak(enc.Contents()));
        } else {
          return Err(OversizedInlineNode);
        }
      case List(p) =>
        var enc := new EncodeBuf();
        var e := EncodeListPayloadV2(p, enc);
        if e.Err? {
          return Err(InvalidNodeStructure);
        }
        assert [] + EncList(p) == EncList(p);
        return Ok(keccak(enc.Contents()));
    }
  }

  function MatchValue(item: RlpItem, expected: seq<byte>): Verdict {
    match item
    case Bytes(actual) => if expected != [] && actual == expected then Ok(()) else Err(ValueMismatch)
    case List(_) => Err(InvalidNodeStructure)
  }

  /** The direct children of a supplied node. */
  function ParseNode(node: seq<byte>): Result<seq<RlpItem>, MptError> {
    match DecodeExact(node)
    case Err(_) => Err(InvalidRlp)
    case Ok(Bytes(_)) => Err(InvalidNodeStructure)
    case Ok(List(payload)) => if Items(payload).Ok? then Ok(Items(payload).value) else Err(InvalidRlp)
  }

  /** What one node decides: a final verdict, or the hash and path position to go on with. */
  datatype Visit = Stop(verdict: Verdict) | Descend(hash: Hash, pos: nat)

  function DescendInto(keccak: HashFn, item: RlpItem, pos: nat): Visit {
    match ExtractChildHash(keccak, item)
    case Err(e) => Stop(Err(e))
    case Ok(h) => Descend(h, pos)
  }

  function VisitShort(keccak: HashFn, key: RlpItem, val: RlpItem, path: seq<nibble>, pos: nat,
                      expected: seq<byte>): Visit
    requires pos <= |path|
  {
    if key.List? then Stop(Err(InvalidNodeStructure))
    else
      match DecodeCompact(key.b)
      case Err(e) => Stop(Err(e))
      case Ok((isLeaf, nibbles)) =>
        var end := pos + |nibbles|;
        if end > |path| || path[pos..end] != nibbles then Stop(Err(PathMismatch))
        else if isLeaf then
          if end != |path| then Stop(Err(PathMismatch)) else Stop(MatchValue(val, expected))
        else DescendInto(keccak, val, end)
  }

  function VisitNode(keccak: HashFn, kids: seq<RlpItem>, path: seq<nibble>, pos: nat, expected: seq<byte>): (v: Visit)
    requires pos <= |path|
    ensures v.Descend? ==> v.pos <= |path|
  {
    if |kids| == 17 then
      if pos >= |path| then Stop(MatchValue(kids[16], expected))
      else DescendInto(keccak, kids[path[pos]], pos + 1)
    else if |kids| == 2 then VisitShort(keccak, kids[0], kids[1], path, pos, expected)
    else if |kids| == 0 then Stop(if expected == [] then Ok(()) else Err(KeyNotFound))
    else Stop(Err(InvalidNodeStructure))
  }

  /** What a node decides once its hash has been checked. */
  function VisitBytes(keccak: HashFn, node: seq<byte>, path: seq<nibble>, pos: nat, expected: seq<byte>): (v: Visit)
    requires pos <= |path|
    ensures v.Descend? ==> v.pos <= |path|
  {
    match ParseNode(node)
    case Err(e) => Stop(Err(e))
    case Ok(kids) => VisitNode(keccak, kids, path, pos, expected)
  }

  /** What a supplied node that is no proper leaf, extension or branch leads to. */
  lemma NodeErrors(keccak: HashFn, node: seq<byte>, path: seq<nibble>, pos: nat, expected: seq<byte>)
    requires pos <= |path|
    ensures var v, item := VisitBytes(keccak, node, path, pos, expected), DecodeExact(node);
            && (item.Err? || (item.value.List? && Items(item.value.payload).Err?) ==> v == Stop(Err(InvalidRlp)))
            && (item.Ok? && item.value.Bytes? ==> v == Stop(Err(InvalidNodeStructure)))
            && (item.Ok? && item.value.List? && Items(item.value.payload).Ok? ==>
                  var kids := Items(item.value.payload).value;
                  && (|kids| == 0 ==> v == Stop(if expected == [] then Ok(()) else Err(KeyNotFound)))
                  && (|kids| !in {0, 2, 17} ==> v == Stop(Err(InvalidNodeStructure)))
                  && (|kids| == 2 && (kids[0].List? || kids[0].b == []) ==> v == Stop(Err(InvalidNodeStructure)))
                  && (|kids| == 2 && kids[0].Bytes? && |kids[0].b| > 33 ==> v == Stop(Err(PathMismatch)))
                  && (|kids| == 17 && pos == |path| && kids[16].List? ==> v == Stop(Err(InvalidNodeStructure))))
  {
    hide DecodeAt, Items, ExtractChildHash;
  }

  /** What a child slot that is no reference leads to. */
  lemma ChildErrors(keccak: HashFn, item: RlpItem)
    ensures var r := ExtractChildHash(keccak, item);
            && (r == Err(KeyNotFound) <==> item == Bytes([]))
            && (r == Err(OversizedInlineNode) <==> item.Bytes? && |item.b| > 32)
            && (r == Err(InvalidNodeStructure) <==> item.List? && |EncList(item.payload)| > 4096)
  {
    hide EncList;
  }

  /** The walk from node `idx` on, with `hash` expected of it and `pos` nibbles consumed. */
  function Walk(keccak: HashFn, hash: Hash, path: seq<nibble>, pos: nat, expected: seq<byte>,
                proof: seq<seq<byte>>, idx: nat): Verdict
    requires pos <= |path| && idx <= |proof|
    decreases |proof| - idx
  {
    if idx == |proof| then Err(KeyNotFound)
    else
      match VerifyNodeHash(keccak, proof[idx], hash, idx == 0)
      case Err(e) => Err(e)
      case Ok(_) =>
        match VisitBytes(keccak, proof[idx], path, pos, expected)
        case Stop(v) => v
        case Descend(h, p) => Walk(keccak, h, path, p, expected, proof, idx + 1)
  }

  /** `verify_proof`. */
  function VerifyProof(keccak: HashFn, root: Hash, key: seq<byte>, expected: seq<byte>,
                       proof: seq<seq<byte>>): Verdict {
    if key == [] then Err(EmptyKey)
    else if proof == [] then Err(EmptyProof)
    else if |proof| > MAX_PROOF_NODES then Err(ProofTooLong)
    else if |expected| > MAX_VALUE_LEN then Err(MptError.InputTooLong)
    else Walk(keccak, root, NibblesOf(keccak(key)), 0, expected, proof, 0)
  }

  /** `verify_exclusion_proof`: the walk for an empty value, with a missing key taken for success. */
  function VerifyExclusionProof(keccak: HashFn, root: Hash, key: seq<byte>, proof: seq<seq<byte>>): Verdict {
    if key == [] then Err(EmptyKey)
    else if proof == [] then Err(EmptyProof)
    else if |proof| > MAX_PROOF_NODES then Err(ProofTooLong)
    else
      var verdict := Walk(keccak, root, NibblesOf(keccak(key)), 0, [], proof, 0);
      if verdict == Err(KeyNotFound) then Ok(()) else verdict
  }

  method PathMatches(path: seq<nibble>, pos: nat, nibbles: seq<nibble>) returns (b: bool)
    requires pos + |nibbles| <= |path|
    ensures b <==> path[pos..pos + |nibbles|] == nibbles
  {
    for i := 0 to |nibbles|
      invariant forall k :: 0 <= k < i ==> path[pos + k] == nibbles[k]
    {
      if path[pos + i] != nibbles[i] {
        assert path[pos..pos + |nibbles|][i] != nibbles[i];
        return false;
      }
    }
    return true;
  }

  method VerifyShortNode(keccak: HashFn, key: RlpItem, val: RlpItem, path: seq<nibble>, pos: nat, expected: seq<byte>)
    returns (v: Visit)
    requires pos <= |path| && PayloadLength(val) <= MAX_INPUT_LEN
    ensures v == VisitShort(keccak, key, val, path, pos, expected)
  {
    hide DecodeCompact, ExtractChildHash;
    if key.List? {
      return Stop(Err(InvalidNodeStructure));
    }
    var decoded := DecodeCompactLoop(key.b);
    if decoded.Err? {
      return Stop(Err(decoded.error));
    }
    var (isLeaf, nibbles) := decoded.value;
    var end := pos + |nibbles|;
    if end > |path| {
      return Stop(Err(PathMismatch));
    }
    var same := PathMatches(path, pos, nibbles);
    if !same {
      return Stop(Err(PathMismatch));
    }
    if isLeaf {
      if end != |path| {
        return Stop(Err(PathMismatch));
      }
      return Stop(MatchValue(val, expected));
    }
    var h := ExtractChildHashBuffered(keccak, val);
    return if h.Err? then Stop(Err(h.error)) else Descend(h.value, end);
  }

  /** `verify_inner`: the loop over the proof nodes. */
  method VerifyInner(keccak: HashFn, root: Hash, path: seq<nibble>, expected: seq<byte>, proof: seq<seq<byte>>)
    returns (r: Verdict)
    ensures r == Walk(keccak, root, path, 0, expected, proof, 0)
  {
    hide VerifyNodeHash, VisitBytes;
    var hash: Hash, pos: nat := root, 0;
    for idx := 0 to |proof|
      invariant pos <= |path|
      invariant Walk(keccak, root, path, 0, expected, proof, 0) == Walk(keccak, hash, path, pos, expected, proof, idx)
    {
      var ok := VerifyNodeHash(keccak, proof[idx], hash, idx == 0);
      if ok.Err? {
        return ok;
      }
      var v := VerifyOneNode(keccak, proof[idx], path, pos, expected);
      match v {
        case Stop(verdict) => return verdict;
        case Descend(h, p) => hash, pos := h, p;
      }
    }
    return Err(KeyNotFound);
  }

  method VerifyOneNode(keccak: HashFn, node: seq<byte>, path: seq<nibble>, pos: nat, expected: seq<byte>)
    returns (v: Visit)
    requires pos <= |path|
    ensures v == VisitBytes(keccak, node, path, pos, expected)
  {
    hide DecodeAt;
    var item := DecodeExact(node);
    if item.Err? {
      return Stop(Err(InvalidRlp));
    }
    if item.value.Bytes? {
      return Stop(Err(InvalidNodeStructure));
    }
    var kids := CollectItems(item.value.payload);
    if kids.Err? {
      return Stop(Err(InvalidRlp));
    }
    var children := kids.value;
    ItemsBounded(item.value.payload, 0);
    if children.len == 17 {
      if pos >= |path| {
        var slot := children.Get(16);
        return Stop(MatchValue(slot.value, expected));
      }
      var slot := children.Get(path[pos]);
      var h := ExtractChildHashBuffered(keccak, slot.value);
      return if h.Err? then Stop(Err(h.error)) else Descend(h.value, pos + 1);
    } else if children.len == 2 {
      var key := children.Get(0);
      var val := children.Get(1);
      v := VerifyShortNode(keccak, key.value, val.value, path, pos, expected);
    } else if children.len == 0 {
      return Stop(if expected == [] then Ok(()) else Err(KeyNotFound));
    } else {
      return Stop(Err(InvalidNodeStructure));
    }
  }

  lemma {:induction false} ItemsBounded(data: seq<byte>, count: nat)
    ensures ItemsFrom(data, count).Ok? ==>
              forall i :: 0 <= i < |ItemsFrom(data, count).value| ==>
                  PayloadLength(ItemsFrom(data, count).value[i]) <= |data|
    decreases |data|
  {
    hide DecodeAt;
    if data != [] && ItemsFrom(data, count).Ok? {
      ItemsBounded(data[DecodeAt(data, 1).value.1..], count + 1);
    }
  }
}
