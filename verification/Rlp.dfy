// Recursive Length Prefix encoding (rlp.rs; appendix B of the Ethereum Yellow Paper).

module Rlp {
  import opened Common

  const MAX_DEPTH := 32
  const MAX_INPUT_LEN := 4 * 1024 * 1024
  const MAX_ENCODE_LEN := 4096
  const MAX_CHILDREN := 64
  /**
    * The bytes of a `usize`: 4 on wasm32, 8 on 64-bit hosts. Nothing else is known of it, so all results
    * hold of both.
    */
  type UsizeWidth = n: nat | n == 4 || n == 8 witness 8
  const USIZE_BYTES: UsizeWidth
  const USIZE_MAX := if USIZE_BYTES == 4 then U32_MAX else U64_MAX

  datatype RlpItem = Bytes(b: seq<byte>) | List(payload: seq<byte>)

  datatype RlpError =
    | Empty | InputTooShort | InputTooLong | NonCanonicalLength | LeadingZeroInLength
    | DepthLimitExceeded | PayloadOutOfBounds | TrailingData
    | Overflow  // a `usize` addition overflows and the call aborts

  // --- Lengths ----------------------------------------------------------------------------------

  /** The integer a big-endian byte string spells. */
  function BeNat(bs: seq<byte>): nat {
    if bs == [] then 0 else BeNat(bs[..|bs| - 1]) * 256 + bs[|bs| - 1]
  }

  /** The big-endian bytes of a positive number, without leading zeroes. */
  function MinBe(n: nat): (bs: seq<byte>)
    ensures BeNat(bs) == n
    ensures n > 0 ==> |bs| > 0 && bs[0] != 0
    ensures n == 0 ==> bs == []
  {
    if n == 0 then []
    else
      var bs := MinBe(n / 256) + [n % 256];
      assert bs[..|bs| - 1] == MinBe(n / 256);
      bs
  }

  function Pow256(k: nat): nat {
    if k == 0 then 1 else 256 * Pow256(k - 1)
  }

  lemma {:induction false} MinBeLength(n: nat, k: nat)
    requires n < Pow256(k)
    ensures |MinBe(n)| <= k
  {
    if n > 0 {
      MinBeLength(n / 256, k - 1);
    }
  }

  /** A byte string without a leading zero is the minimal one for its number. */
  lemma {:induction false} MinBeUnique(bs: seq<byte>)
    requires bs == [] || bs[0] != 0
    ensures MinBe(BeNat(bs)) == bs
  {
    if bs != [] {
      var n := |bs| - 1;
      if n > 0 {
        MinBeUnique(bs[..n]);
        assert BeNat(bs[..n]) > 0;
      }
      assert bs == bs[..n] + [bs[n]];
    }
  }

  // --- Decoder ----------------------------------------------------------------------------------

  /** `decode_usize`: big-endian bytes into a `usize`. */
  function DecodeUsize(bs: seq<byte>): Result<nat, RlpError> {
    if |bs| > USIZE_BYTES then Err(InputTooShort) else Ok(BeNat(bs))
  }

  lemma Pow256Next(k: nat)
    ensures Pow256(k + 1) == 256 * Pow256(k)
  {
  }

  lemma {:induction false} Pow256Monotone(j: nat, k: nat)
    requires j <= k
    ensures Pow256(j) <= Pow256(k)
  {
    if j < k {
      Pow256Monotone(j, k - 1);
    }
  }

  /** As many bytes as a `usize` has spell numbers within its range. */
  lemma UsizeRange(n: nat)
    requires n <= USIZE_BYTES
    ensures Pow256(n) <= USIZE_MAX + 1
  {
    Pow256Monotone(n, USIZE_BYTES);
    assert Pow256(2) == 0x1_0000 && Pow256(4) == 0x1_0000_0000 && Pow256(6) == 0x1_0000_0000_0000;
  }

  method DecodeUsizeLoop(bs: seq<byte>) returns (r: Result<nat, RlpError>)
    ensures r == DecodeUsize(bs)
    ensures r.Ok? ==> r.value <= USIZE_MAX
  {
    if |bs| > USIZE_BYTES {
      return Err(InputTooShort);
    }
    var val := 0;
    UsizeRange(|bs|);
    assert Pow256(0) == 1;
    hide Pow256;
    for i := 0 to |bs|
      invariant val == BeNat(bs[..i]) && val < Pow256(i)
    {
      assert bs[..i + 1][..i] == bs[..i];
      Pow256Next(i);
      val := val * 256 + bs[i];
    }
    assert bs[..|bs|] == bs;
    return Ok(val);
  }

  /** The tail both long forms share: a length field of `lenOfLen` bytes, then the payload. */
  function DecodeLong(buf: seq<byte>, lenOfLen: nat): (r: Result<(seq<byte>, nat), RlpError>)
    requires buf != [] && 1 <= lenOfLen <= 8
  {
    var headerEnd := 1 + lenOfLen;
    if headerEnd > |buf| then Err(InputTooShort)
    else
      var lenBytes := buf[1..headerEnd];
      if lenBytes[0] == 0 then Err(LeadingZeroInLength)
      else
        match DecodeUsize(lenBytes)
        case Err(e) => Err(e)
        case Ok(len) =>
          if len <= 55 then Err(NonCanonicalLength)
          else if headerEnd + len > USIZE_MAX then Err(Overflow)
          else if headerEnd + len > |buf| then Err(PayloadOutOfBounds)
          else Ok((buf[headerEnd..headerEnd + len], headerEnd + len))
  }

  /** `decode_at` at offset 0: one item and the number of bytes it occupies. */
  function DecodeAt(buf: seq<byte>, depth: nat): (r: Result<(RlpItem, nat), RlpError>)
    ensures r.Ok? ==> 1 <= r.value.1 <= |buf|
    ensures r.Ok? && r.value.0.List? ==> |r.value.0.payload| < r.value.1
    ensures r.Ok? ==> PayloadLength(r.value.0) <= r.value.1
  {
    if depth > MAX_DEPTH then Err(DepthLimitExceeded)
    else if buf == [] then Err(InputTooShort)
    else
      var prefix: int := buf[0];
      if prefix <= 0x7f then Ok((Bytes(buf[..1]), 1))
      else if prefix <= 0xb7 then
        var len := prefix - 0x80;
        if 1 + len > |buf| then Err(PayloadOutOfBounds)
        else if len == 1 && buf[1] < 0x80 then Err(NonCanonicalLength)
        else Ok((Bytes(buf[1..1 + len]), 1 + len))
      else if prefix <= 0xbf then
        match DecodeLong(buf, prefix - 0xb7)
        case Err(e) => Err(e)
        case Ok((payload, used)) => Ok((Bytes(payload), used))
      else if prefix <= 0xf7 then
        var len := prefix - 0xc0;
        if 1 + len > |buf| then Err(PayloadOutOfBounds)
        else Ok((List(buf[1..1 + len]), 1 + len))
      else
        match DecodeLong(buf, prefix - 0xf7)
        case Err(e) => Err(e)
        case Ok((payload, used)) => Ok((List(payload), used))
  }

  function Decode(input: seq<byte>): Result<(RlpItem, nat), RlpError> {
    if input == [] then Err(Empty)
    else if |input| > MAX_INPUT_LEN then Err(InputTooLong)
    else DecodeAt(input, 0)
  }

  function DecodeExact(input: seq<byte>): Result<RlpItem, RlpError> {
    match Decode(input)
    case Err(e) => Err(e)
    case Ok((item, consumed)) => if consumed != |input| then Err(TrailingData) else Ok(item)
  }

  // --- Encoder ----------------------------------------------------------------------------------

  /** The encoding of a byte string. */
  function EncBytes(b: seq<byte>): seq<byte> {
    if |b| == 1 && b[0] < 0x80 then b else Header(0x80, |b|) + b
  }

  /** The encoding of a list whose items are already encoded. */
  function EncList(payload: seq<byte>): seq<byte> {
    Header(0xc0, |payload|) + payload
  }

  /** The prefix for a payload of `len` bytes; `MinBe` never exceeds 8 bytes for a 64-bit length. */
  function Header(base: int, len: nat): seq<byte>
    requires base == 0x80 || base == 0xc0
  {
    if len <= 55 then [base + len]
    else if |MinBe(len)| <= 8 then [base + 55 + |MinBe(len)|] + MinBe(len)
    else []
  }

  function ReEncode(item: RlpItem): seq<byte> {
    match item
    case Bytes(b) => EncBytes(b)
    case List(p) => EncList(p)
  }

  lemma LongSlices(first: byte, field: seq<byte>, payload: seq<byte>, rest: seq<byte>, buf: seq<byte>)
    requires buf == [first] + field + payload + rest
    ensures |buf| >= 1 + |field| + |payload| && buf[0] == first
    ensures buf[1..1 + |field|] == field && buf[1 + |field|..1 + |field| + |payload|] == payload
  {
  }

  lemma DecodeLongSlices(buf: seq<byte>, field: seq<byte>, payload: seq<byte>)
    requires 1 <= |field| <= USIZE_BYTES && field[0] != 0 && BeNat(field) == |payload|
        && 55 < |payload| <= MAX_INPUT_LEN
    requires |buf| >= 1 + |field| + |payload|
    requires buf[1..1 + |field|] == field && buf[1 + |field|..1 + |field| + |payload|] == payload
    ensures DecodeLong(buf, |field|) == Ok((payload, 1 + |field| + |payload|))
  {
    hide BeNat;
  }

  lemma DecodeLongHeader(base: int, payload: seq<byte>, rest: seq<byte>, buf: seq<byte>)
    requires base == 0x80 || base == 0xc0
    requires 55 < |payload| <= MAX_INPUT_LEN
    requires buf == Header(base, |payload|) + payload + rest
    ensures buf != [] && 1 <= buf[0] - (base + 55) <= 8
    ensures DecodeLong(buf, buf[0] - (base + 55)) == Ok((payload, |Header(base, |payload|)| + |payload|))
  {
    hide MinBe, BeNat, DecodeLong;
    var field := MinBe(|payload|);
    assert |field| <= 3 by {
      assert Pow256(1) == 256 && Pow256(2) == 0x10000 && Pow256(3) == 0x1000000;
      MinBeLength(|payload|, 3);
    }
    LongSlices(base + 55 + |field|, field, payload, rest, buf);
    DecodeLongSlices(buf, field, payload);
  }

  /** Decoding undoes encoding and stops at its last byte. */
  lemma DecodeReEncode(item: RlpItem, rest: seq<byte>, depth: nat)
    requires depth <= MAX_DEPTH && PayloadLength(item) <= MAX_INPUT_LEN
    ensures DecodeAt(ReEncode(item) + rest, depth) == Ok((item, |ReEncode(item)|))
  {
    if item.Bytes? && |item.b| == 1 && item.b[0] < 0x80 {
      assert (item.b + rest)[..1] == item.b;
    } else if PayloadLength(item) <= 55 {
      DecodeShort(item, rest, depth);
    } else {
      DecodeLongItem(item, rest, depth);
    }
  }

  lemma DecodeLongItem(item: RlpItem, rest: seq<byte>, depth: nat)
    requires depth <= MAX_DEPTH && 55 < PayloadLength(item) <= MAX_INPUT_LEN
    ensures DecodeAt(ReEncode(item) + rest, depth) == Ok((item, |ReEncode(item)|))
  {
    hide MinBe, DecodeLong;
    var buf := ReEncode(item) + rest;
    if item.Bytes? {
      DecodeLongHeader(0x80, item.b, rest, buf);
    } else {
      DecodeLongHeader(0xc0, item.payload, rest, buf);
    }
  }

  function PayloadLength(item: RlpItem): nat {
    if item.Bytes? then |item.b| else |item.payload|
  }

  lemma DecodeShort(item: RlpItem, rest: seq<byte>, depth: nat)
    requires depth <= MAX_DEPTH && PayloadLength(item) <= 55
    requires item.Bytes? ==> !(|item.b| == 1 && item.b[0] < 0x80)
    ensures DecodeAt(ReEncode(item) + rest, depth) == Ok((item, |ReEncode(item)|))
  {
    var payload, base := if item.Bytes? then item.b else item.payload, if item.Bytes? then 0x80 else 0xc0;
    var buf := [base + |payload|] + payload + rest;
    assert buf == ReEncode(item) + rest;
    assert buf[1..1 + |payload|] == payload;
    if |payload| == 1 {
      assert buf[1] == payload[0];
    }
  }

  /** The decoder accepts canonical encodings only: re-encoding reproduces the consumed bytes. */
  lemma ReEncodeDecode(buf: seq<byte>, depth: nat)
    ensures DecodeAt(buf, depth).Ok? ==>
              var (item, used) := DecodeAt(buf, depth).value;
              ReEncode(item) == buf[..used]
  {
    hide DecodeLong, MinBe;
    if DecodeAt(buf, depth).Ok? {
      var prefix: int := buf[0];
      if 0xb8 <= prefix <= 0xbf {
        hide Header;
        LongIsCanonical(buf, 0x80);
      } else if prefix >= 0xf8 {
        hide Header;
        LongIsCanonical(buf, 0xc0);
      } else {
        ShortIsCanonical(buf, depth);
      }
    }
  }

  lemma ShortIsCanonical(buf: seq<byte>, depth: nat)
    requires DecodeAt(buf, depth).Ok? && (buf[0] <= 0xb7 || 0xc0 <= buf[0] <= 0xf7)
    ensures var (item, used) := DecodeAt(buf, depth).value;
            ReEncode(item) == buf[..used]
  {
    hide DecodeLong, MinBe;
    var prefix: int := buf[0];
    if 0x80 <= prefix {
      var base := if prefix < 0xc0 then 0x80 else 0xc0;
      assert buf[..1 + prefix - base] == [prefix] + buf[1..1 + prefix - base];
    }
  }

  lemma LongIsCanonical(buf: seq<byte>, base: int)
    requires buf != [] && (base == 0x80 || base == 0xc0) && 1 <= buf[0] - (base + 55) <= 8
    ensures DecodeLong(buf, buf[0] - (base + 55)).Ok? ==>
              var (payload, used) := DecodeLong(buf, buf[0] - (base + 55)).value;
              Header(base, |payload|) + payload == buf[..used]
  {
    hide BeNat, MinBe, Header;
    var n: nat := buf[0] - (base + 55);
    if DecodeLong(buf, n).Ok? {
      var field := buf[1..1 + n];
      var payload := DecodeLong(buf, n).value.0;
      DecodedLong(buf, n);
      hide DecodeLong;
      MinBeUnique(field);
      HeaderOfLength(base, |payload|, field);
      LongPieces(buf, n, |payload|);
    }
  }

  lemma DecodedLong(buf: seq<byte>, n: nat)
    requires buf != [] && 1 <= n <= 8 && DecodeLong(buf, n).Ok?
    ensures var (payload, used) := DecodeLong(buf, n).value;
            && used == 1 + n + |payload| <= |buf| && payload == buf[1 + n..used] && |payload| > 55
            && buf[1..1 + n][0] != 0 && BeNat(buf[1..1 + n]) == |payload|
  {
    hide BeNat;
  }

  lemma HeaderOfLength(base: int, len: nat, field: seq<byte>)
    requires (base == 0x80 || base == 0xc0) && len > 55 && field == MinBe(len) && |field| <= 8
    ensures Header(base, len) == [base + 55 + |field|] + field
  {
    hide MinBe;
  }

  lemma LongPieces(buf: seq<byte>, n: nat, m: nat)
    requires 1 + n + m <= |buf|
    ensures [buf[0]] + buf[1..1 + n] + buf[1 + n..1 + n + m] == buf[..1 + n + m]
  {
  }

  // --- Direct children of a list ------------------------------------------------------------------

  /** The items of a list payload, of which at most `MAX_CHILDREN` fit; `count` are already stored. */
  function ItemsFrom(data: seq<byte>, count: nat): (r: Result<seq<RlpItem>, RlpError>)
    ensures r.Ok? ==> Weight(r.value) <= |data|
    ensures r.Ok? ==> data == [] || count + |r.value| <= MAX_CHILDREN
  {
    if data == [] then Ok([])
    else
      match DecodeAt(data, 1)
      case Err(e) => Err(e)
      case Ok((item, used)) =>
        if count >= MAX_CHILDREN then Err(DepthLimitExceeded)
        else
          match ItemsFrom(data[used..], count + 1)
          case Err(e) => Err(e)
          case Ok(items) => Ok([item] + items)
  }

  function Items(payload: seq<byte>): Result<seq<RlpItem>, RlpError> {
    ItemsFrom(payload, 0)
  }

  /** Bytes still to be parsed inside an item; bounds the nesting. */
  function ItemWeight(item: RlpItem): nat {
    if item.Bytes? then 0 else 1 + |item.payload|
  }

  function Weight(items: seq<RlpItem>): nat {
    if items == [] then 0 else ItemWeight(items[0]) + Weight(items[1..])
  }

  function ReEncodeAll(items: seq<RlpItem>): seq<byte> {
    if items == [] then [] else ReEncode(items[0]) + ReEncodeAll(items[1..])
  }

  lemma {:induction false} ItemsReEncode(data: seq<byte>, count: nat)
    ensures ItemsFrom(data, count).Ok? ==> ReEncodeAll(ItemsFrom(data, count).value) == data
    decreases |data|
  {
    hide DecodeAt, ReEncode;
    if data != [] && ItemsFrom(data, count).Ok? {
      var (item, used) := DecodeAt(data, 1).value;
      var tail := ItemsFrom(data[used..], count + 1).value;
      assert ItemsFrom(data, count).value == [item] + tail;
      ReEncodeDecode(data, 1);
      ItemsReEncode(data[used..], count + 1);
      ReEncodeCons(item, tail);
      assert data == data[..used] + data[used..];
    }
  }

  lemma ReEncodeCons(item: RlpItem, tail: seq<RlpItem>)
    ensures ReEncodeAll([item] + tail) == ReEncode(item) + ReEncodeAll(tail)
  {
    assert ([item] + tail)[1..] == tail;
  }

  // --- Trees ------------------------------------------------------------------------------------

  datatype Tree = Str(b: seq<byte>) | Node(kids: seq<Tree>)

  function Encode(t: Tree): seq<byte> {
    match t
    case Str(b) => EncBytes(b)
    case Node(kids) => EncList(EncodeAll(kids))
  }

  function EncodeAll(ts: seq<Tree>): seq<byte> {
    if ts == [] then [] else Encode(ts[0]) + EncodeAll(ts[1..])
  }

  /** No list in the tree has more than 64 children. */
  predicate FanOut(t: Tree) {
    t.Node? ==> |t.kids| <= MAX_CHILDREN && forall k :: k in t.kids ==> FanOut(k)
  }

  /** Parsing an item to the bottom: every list payload is split into its items, recursively. */
  function TreeOf(item: RlpItem): Option<Tree>
    decreases ItemWeight(item), 0
  {
    match item
    case Bytes(b) => Some(Str(b))
    case List(p) =>
      match Items(p)
      case Err(_) => None
      case Ok(items) => if TreesOf(items).Some? then Some(Node(TreesOf(items).value)) else None
  }

  function TreesOf(items: seq<RlpItem>): (r: Option<seq<Tree>>)
    ensures r.Some? ==> |r.value| == |items|
    decreases Weight(items), 1, |items|
  {
    if items == [] then Some([])
    else if TreeOf(items[0]).Some? && TreesOf(items[1..]).Some?
      then Some([TreeOf(items[0]).value] + TreesOf(items[1..]).value)
    else None
  }

  /** The whole decoder: one tree spanning the entire input. */
  function DecodeTree(input: seq<byte>): Option<Tree> {
    match DecodeExact(input)
    case Err(_) => None
    case Ok(item) => TreeOf(item)
  }

  function ItemOf(t: Tree): RlpItem {
    match t
    case Str(b) => Bytes(b)
    case Node(kids) => List(EncodeAll(kids))
  }

  function ItemsOf(ts: seq<Tree>): seq<RlpItem> {
    if ts == [] then [] else [ItemOf(ts[0])] + ItemsOf(ts[1..])
  }

  lemma EncodeLengths(t: Tree)
    requires |Encode(t)| <= MAX_INPUT_LEN
    ensures 0 < |Encode(t)| && PayloadLength(ItemOf(t)) <= |Encode(t)|
    ensures ReEncode(ItemOf(t)) == Encode(t)
  {
    assert Pow256(3) == 0x1000000;
    if PayloadLength(ItemOf(t)) <= MAX_INPUT_LEN {
      MinBeLength(PayloadLength(ItemOf(t)), 3);
    }
  }

  lemma {:induction false} ItemsOfEncoding(ts: seq<Tree>, count: nat)
    requires |EncodeAll(ts)| <= MAX_INPUT_LEN && count + |ts| <= MAX_CHILDREN
    ensures ItemsFrom(EncodeAll(ts), count) == Ok(ItemsOf(ts))
  {
    if ts != [] {
      var rest := EncodeAll(ts[1..]);
      EncodeLengths(ts[0]);
      DecodeReEncode(ItemOf(ts[0]), rest, 1);
      assert EncodeAll(ts)[|Encode(ts[0])|..] == rest;
      ItemsOfEncoding(ts[1..], count + 1);
    }
  }

  lemma {:induction false} TreeOfItem(t: Tree)
    requires FanOut(t) && |Encode(t)| <= MAX_INPUT_LEN
    ensures TreeOf(ItemOf(t)) == Some(t)
    decreases t, 1
  {
    if t.Node? {
      EncodeLengths(t);
      ItemsOfEncoding(t.kids, 0);
      TreesOfItems(t.kids);
    }
  }

  lemma {:induction false} TreesOfItems(ts: seq<Tree>)
    requires (forall k :: k in ts ==> FanOut(k)) && |EncodeAll(ts)| <= MAX_INPUT_LEN
    ensures TreesOf(ItemsOf(ts)) == Some(ts)
    decreases ts, 0
  {
    if ts != [] {
      TreeOfItem(ts[0]);
      TreesOfItems(ts[1..]);
      assert ItemsOf(ts)[1..] == ItemsOf(ts[1..]);
      assert ts == [ts[0]] + ts[1..];
    }
  }

  /** Decoding an encoded tree, whatever follows it, returns the tree and its exact length. */
  lemma DecodeEncode(t: Tree, rest: seq<byte>)
    requires FanOut(t) && |Encode(t)| + |rest| <= MAX_INPUT_LEN
    ensures Decode(Encode(t) + rest) == Ok((ItemOf(t), |Encode(t)|)) && TreeOf(ItemOf(t)) == Some(t)
  {
    EncodeLengths(t);
    DecodeReEncode(ItemOf(t), rest, 0);
    TreeOfItem(t);
  }

  lemma {:induction false} TreeOfInverse(item: RlpItem, t: Tree)
    requires TreeOf(item) == Some(t)
    ensures item == ItemOf(t) && FanOut(t)
    decreases ItemWeight(item), 0
  {
    if item.List? {
      var items := Items(item.payload).value;
      ItemsReEncode(item.payload, 0);
      TreesOfInverse(items, t.kids);
    }
  }

  lemma {:induction false} TreesOfInverse(items: seq<RlpItem>, ts: seq<Tree>)
    requires TreesOf(items) == Some(ts)
    ensures EncodeAll(ts) == ReEncodeAll(items) && forall k :: k in ts ==> FanOut(k)
    decreases Weight(items), 1, |items|
  {
    if items != [] {
      TreeOfInverse(items[0], ts[0]);
      assert ts[1..] == TreesOf(items[1..]).value;
      TreesOfInverse(items[1..], ts[1..]);
      assert forall k :: k in ts ==> k == ts[0] || k in ts[1..];
    }
  }

  /** The decoder accepts exactly the encodings, and returns the encoded tree. */
  lemma DecodeTreeExact(input: seq<byte>, t: Tree)
    ensures DecodeTree(input) == Some(t) <==> FanOut(t) && input == Encode(t) && |input| <= MAX_INPUT_LEN
  {
    if DecodeTree(input) == Some(t) {
      var item := DecodeExact(input).value;
      TreeOfInverse(item, t);
      ReEncodeDecode(input, 0);
      assert input[..|input|] == input;
    }
    if FanOut(t) && input == Encode(t) && |input| <= MAX_INPUT_LEN {
      DecodeEncode(t, []);
      assert input + [] == input;
    }
  }

  /** The code is prefix-free: two continuations of encoded trees agree only on equal trees. */
  lemma PrefixFree(t: Tree, u: Tree, rest: seq<byte>, rest': seq<byte>)
    requires FanOut(t) && FanOut(u) && Encode(t) + rest == Encode(u) + rest'
    requires |Encode(t) + rest| <= MAX_INPUT_LEN
    ensures t == u && rest == rest'
  {
    DecodeEncode(t, rest);
    DecodeEncode(u, rest');
    assert rest == (Encode(t) + rest)[|Encode(t)|..];
    assert rest' == (Encode(u) + rest')[|Encode(u)|..];
  }

  // --- The limits that are reached, and the one that is not -----------------------------------------

  /** Items are only ever decoded at depth 0, the input, or 1, a child, so the nesting limit is not reached there. */
  lemma DepthLimitUnreached(buf: seq<byte>, depth: nat)
    requires depth <= 1
    ensures DecodeAt(buf, depth) != Err(DepthLimitExceeded)
  {
    hide BeNat;
  }

  lemma ReEncodedLength(item: RlpItem)
    ensures |ReEncode(item)| >= PayloadLength(item)
  {
  }

  /**
    * What does report that error is a 65th child: with `count` children stored, exactly the payloads that begin with
    * one well-formed item more than there is room for. Nothing after that item matters.
    */
  lemma {:induction false} TooManyChildren(data: seq<byte>, count: nat)
    requires |data| <= MAX_INPUT_LEN && count <= 64
    ensures ItemsFrom(data, count) == Err(DepthLimitExceeded) <==>
            (exists items: seq<RlpItem> :: |items| == 65 - count && ReEncodeAll(items) <= data)
    decreases |data|
  {
    hide DecodeAt, ReEncode;
    if ItemsFrom(data, count) == Err(DepthLimitExceeded) {
      FirstItemsTooMany(data, count);
    }
    forall items: seq<RlpItem> | |items| == 65 - count && ReEncodeAll(items) <= data
      ensures ItemsFrom(data, count) == Err(DepthLimitExceeded)
    {
      var rest := data[|ReEncode(items[0])|..];
      ReEncodedLength(items[0]);
      assert data == ReEncode(items[0]) + rest;
      DecodeReEncode(items[0], rest, 1);
      if count < MAX_CHILDREN {
        TooManyChildren(rest, count + 1);
        assert ReEncodeAll(items[1..]) <= rest;
      }
    }
  }

  lemma {:induction false} FirstItemsTooMany(data: seq<byte>, count: nat)
    requires count <= MAX_CHILDREN && ItemsFrom(data, count) == Err(DepthLimitExceeded)
    ensures exists items: seq<RlpItem> :: |items| == 65 - count && ReEncodeAll(items) <= data
    decreases |data|
  {
    hide DecodeAt, ReEncode;
    DepthLimitUnreached(data, 1);
    var (item, used) := DecodeAt(data, 1).value;
    ReEncodeDecode(data, 1);
    var tail: seq<RlpItem> := [];
    if count < MAX_CHILDREN {
      FirstItemsTooMany(data[used..], count + 1);
      tail :| |tail| == 64 - count && ReEncodeAll(tail) <= data[used..];
    }
    ReEncodeCons(item, tail);
    assert ReEncodeAll([item] + tail) <= data[..used] + data[used..] == data;
  }

  /** A string inside `n` lists. */
  function Nested(n: nat): Tree {
    if n == 0 then Str([]) else Node([Nested(n - 1)])
  }

  lemma {:induction false} NestedFanOut(n: nat)
    ensures FanOut(Nested(n))
  {
    if n > 0 {
      NestedFanOut(n - 1);
    }
  }

  lemma {:induction false} NestedLength(n: nat)
    requires n <= 55
    ensures |Encode(Nested(n))| == n + 1
  {
    if n > 0 {
      NestedLength(n - 1);
      assert [Nested(n - 1)][1..] == [];
      assert EncodeAll([Nested(n - 1)]) == Encode(Nested(n - 1));
    }
  }

  /** Lists nested to any depth decode to the bottom as long as the input limit admits them, and it admits 55 levels. */
  lemma NestingIsNotLimited(n: nat)
    requires n <= 55 || |Encode(Nested(n))| <= MAX_INPUT_LEN
    ensures DecodeTree(Encode(Nested(n))) == Some(Nested(n)) && 55 > MAX_DEPTH
  {
    hide Nested, Encode, FanOut;
    NestedFanOut(n);
    if n <= 55 {
      NestedLength(n);
    }
    DecodeTreeExact(Encode(Nested(n)), Nested(n));
  }

  // --- Refusals ---------------------------------------------------------------------------------------

  /** The number of length bytes the prefix announces; none for short forms. */
  function LengthBytes(buf: seq<byte>): nat
    requires buf != []
  {
    if 0xb8 <= buf[0] <= 0xbf then buf[0] - 0xb7 else if 0xf8 <= buf[0] then buf[0] - 0xf7 else 0
  }

  /** The payload length a short prefix announces. */
  function ShortLength(buf: seq<byte>): nat
    requires buf != []
  {
    if buf[0] < 0x80 then 0 else if buf[0] <= 0xb7 then buf[0] - 0x80
    else if 0xc0 <= buf[0] <= 0xf7 then buf[0] - 0xc0 else 0
  }

  /** The bytes of the announced length, when they are all there and not led by a zero. */
  predicate LengthPresent(buf: seq<byte>) {
    buf != [] && 0 < LengthBytes(buf) < |buf| && buf[1] != 0
  }

  /** Why nothing can be decoded at the start of a buffer. */
  lemma DecodeErrors(buf: seq<byte>, depth: nat)
    requires depth <= MAX_DEPTH
    ensures var r := DecodeAt(buf, depth);
            var n := if buf == [] then 0 else LengthBytes(buf);
            var len := if LengthPresent(buf) then BeNat(buf[1..1 + n]) else 0;
            && (r == Err(InputTooShort) <==> buf == [] || |buf| <= n || (LengthPresent(buf) && n > USIZE_BYTES))
            && (r == Err(LeadingZeroInLength) <==> 0 < n < |buf| && buf[1] == 0)
            && (r == Err(NonCanonicalLength) <==>
                  (LengthPresent(buf) && n <= USIZE_BYTES && len <= 55)
                      || (|buf| > 1 && buf[0] == 0x81 && buf[1] < 0x80))
            && (r == Err(PayloadOutOfBounds) <==>
                  if LengthPresent(buf) then n <= USIZE_BYTES && 55 < len && |buf| < 1 + n + len <= USIZE_MAX
                  else buf != [] && n == 0 && |buf| <= ShortLength(buf))
            && (r == Err(Overflow) <==> LengthPresent(buf) && n <= USIZE_BYTES && USIZE_MAX < 1 + n + len)
  {
    hide BeNat;
    if buf != [] && 0 < LengthBytes(buf) {
      LongErrors(buf, LengthBytes(buf));
      hide DecodeLong;
    }
  }

  /** Why a whole input is refused besides. */
  lemma InputErrors(input: seq<byte>)
    ensures Decode(input) == Err(Empty) <==> input == []
    ensures Decode(input) == Err(InputTooLong) <==> |input| > 4_194_304
    ensures DecodeExact(input) == Err(TrailingData) <==> Decode(input).Ok? && Decode(input).value.1 < |input|
    ensures Decode(input).Err? ==> DecodeExact(input) == Err(Decode(input).error)
  {
    hide BeNat;
  }

  lemma LongErrors(buf: seq<byte>, n: nat)
    requires buf != [] && 1 <= n <= 8
    ensures var r := DecodeLong(buf, n);
            var len := if n < |buf| then BeNat(buf[1..1 + n]) else 0;
            && (r == Err(InputTooShort) <==> |buf| <= n || (buf[1] != 0 && n > USIZE_BYTES))
            && (r == Err(LeadingZeroInLength) <==> n < |buf| && buf[1] == 0)
            && (r == Err(NonCanonicalLength) <==> n < |buf| && buf[1] != 0 && n <= USIZE_BYTES && len <= 55)
            && (r == Err(PayloadOutOfBounds) <==>
                  n < |buf| && buf[1] != 0 && n <= USIZE_BYTES && 55 < len && |buf| < 1 + n + len <= USIZE_MAX)
            && (r == Err(Overflow) <==>
                n < |buf| && buf[1] != 0 && n <= USIZE_BYTES && 55 < len && USIZE_MAX < 1 + n + len)
            && r != Err(DepthLimitExceeded)
  {
    hide BeNat;
  }
}
