// The buffers rlp.rs works with: the encoder's scratch pad and the fixed-capacity child vector.

module RlpBuffers {
  import opened Common
  import opened Rlp

  /** A fixed-size scratch pad that encodings are appended to. */
  class EncodeBuf {
    const data: array<byte>
    var len: nat

    ghost predicate Valid()
      reads this
    {
      data.Length == MAX_ENCODE_LEN && len <= MAX_ENCODE_LEN
    }

    function Contents(): seq<byte>
      requires Valid()
      reads this, data
    {
      data[..len]
    }

    constructor ()
      ensures Valid() && fresh(data) && Contents() == []
    {
      data := new byte[MAX_ENCODE_LEN](_ => 0);
      len := 0;
    }

    method Push(b: byte) returns (r: Result<(), RlpError>)
      requires Valid()
      modifies this, data
      ensures Valid()
      ensures r == if |old(Contents())| < MAX_ENCODE_LEN then Ok(()) else Err(PayloadOutOfBounds)
      ensures Contents() == if r.Ok? then old(Contents()) + [b] else old(Contents())
    {
      if len >= MAX_ENCODE_LEN {
        return Err(PayloadOutOfBounds);
      }
      data[len] := b;
      len := len + 1;
      return Ok(());
    }

    method PushSlice(s: seq<byte>) returns (r: Result<(), RlpError>)
      requires Valid()
      modifies this, data
      ensures Valid()
      ensures r == if |old(Contents())| + |s| <= MAX_ENCODE_LEN then Ok(()) else Err(PayloadOutOfBounds)
      ensures Contents() == if r.Ok? then old(Contents()) + s else old(Contents())
    {
      if len + |s| > MAX_ENCODE_LEN {
        return Err(PayloadOutOfBounds);
      }
      forall i | 0 <= i < |s| {
        data[len + i] := s[i];
      }
      len := len + |s|;
      return Ok(());
    }
  }

  /** `to_be_bytes` on `n` bytes. */
  function FixedBe(v: nat, n: nat): (bs: seq<byte>)
    ensures |bs| == n
  {
    if n == 0 then [] else FixedBe(v / 256, n - 1) + [v % 256]
  }

  /** A fixed-width big-endian number is its minimal form behind zeroes. */
  lemma {:induction false} FixedBeIsPadded(v: nat, n: nat)
    requires v < Pow256(n)
    ensures |MinBe(v)| <= n
    ensures FixedBe(v, n)[n - |MinBe(v)|..] == MinBe(v)
    ensures forall i :: 0 <= i < n - |MinBe(v)| ==> FixedBe(v, n)[i] == 0
  {
    if n > 0 {
      FixedBeIsPadded(v / 256, n - 1);
    }
  }

  /** The significant bytes of a length are `be[8 - sig..]`. */
  method LenToMinBe(len: nat) returns (be: seq<byte>, sig: nat)
    requires len <= U64_MAX
    ensures |be| == 8 && 1 <= sig <= 8
    ensures be[8 - sig..] == if len == 0 then [0] else MinBe(len)
  {
    be := FixedBe(len, 8);
    assert Pow256(8) == U64_MAX + 1 by {
      assert Pow256(2) == 0x10000 && Pow256(4) == 0x1_0000_0000 && Pow256(6) == 0x1_0000_0000_0000;
    }
    FixedBeIsPadded(len, 8);
    assert len > 0 ==> be[8 - |MinBe(len)|] == MinBe(len)[0];
    var leading := 0;
    while leading < 8 && be[leading] == 0
      invariant leading <= 8 && forall i :: 0 <= i < leading ==> be[i] == 0
      invariant leading <= 8 - |MinBe(len)|
    {
      leading := leading + 1;
    }
    sig := 8 - leading;
    if sig == 0 {
      sig := 1;
    }
  }

  lemma Regroup(a: seq<byte>, b: byte, c: seq<byte>, d: seq<byte>)
    ensures a + [b] + c + d == a + ([b] + c + d)
  {
  }

  method PushLong(base: int, payload: seq<byte>, out: EncodeBuf) returns (r: Result<(), RlpError>)
    requires out.Valid() && (base == 0x80 || base == 0xc0) && 55 < |payload| <= U64_MAX
    modifies out, out.data
    ensures out.Valid()
    ensures r == if |old(out.Contents())| + |Header(base, |payload|) + payload| <= MAX_ENCODE_LEN
                 then Ok(()) else Err(PayloadOutOfBounds)
    ensures r.Ok? ==> out.Contents() == old(out.Contents()) + (Header(base, |payload|) + payload)
  {
    var be, sig := LenToMinBe(|payload|);
    ghost var before, field := out.Contents(), be[8 - sig..];
    HeaderOfLength(base, |payload|, field);
    hide Header, MinBe;
    r := out.Push(base + 55 + sig);
    if r.Err? {
      return;
    }
    r := out.PushSlice(be[8 - sig..]);
    if r.Err? {
      return;
    }
    assert out.Contents() == before + [base + 55 + sig] + field;
    r := out.PushSlice(payload);
    Regroup(before, base + 55 + sig, field, payload);
  }

  method PushShort(base: int, payload: seq<byte>, out: EncodeBuf) returns (r: Result<(), RlpError>)
    requires out.Valid() && (base == 0x80 || base == 0xc0) && |payload| <= 55
    modifies out, out.data
    ensures out.Valid()
    ensures r == if |old(out.Contents())| + |Header(base, |payload|) + payload| <= MAX_ENCODE_LEN
                 then Ok(()) else Err(PayloadOutOfBounds)
    ensures r.Ok? ==> out.Contents() == old(out.Contents()) + (Header(base, |payload|) + payload)
  {
    ghost var before := out.Contents();
    r := out.Push(base + |payload|);
    if r.Err? {
      return;
    }
    r := out.PushSlice(payload);
    Regroup(before, base + |payload|, [], payload);
    assert [base + |payload|] + [] == [base + |payload|];
  }

  /** `encode_bytes_v2`: appends the encoding, or fails when the scratch pad cannot hold it. */
  method EncodeBytesV2(bytes: seq<byte>, out: EncodeBuf) returns (r: Result<(), RlpError>)
    requires out.Valid() && |bytes| <= U64_MAX
    modifies out, out.data
    ensures out.Valid()
    ensures r == if |old(out.Contents())| + |EncBytes(bytes)| <= MAX_ENCODE_LEN
                 then Ok(()) else Err(PayloadOutOfBounds)
    ensures r.Ok? ==> out.Contents() == old(out.Contents()) + EncBytes(bytes)
  {
    if |bytes| == 1 && bytes[0] < 0x80 {
      r := out.Push(bytes[0]);
      assert bytes == [bytes[0]];
    } else if |bytes| <= 55 {
      r := PushShort(0x80, bytes, out);
    } else {
      r := PushLong(0x80, bytes, out);
    }
  }

  /** `encode_list_payload_v2`. */
  method EncodeListPayloadV2(payload: seq<byte>, out: EncodeBuf) returns (r: Result<(), RlpError>)
    requires out.Valid() && |payload| <= U64_MAX
    modifies out, out.data
    ensures out.Valid()
    ensures r == if |old(out.Contents())| + |EncList(payload)| <= MAX_ENCODE_LEN
                 then Ok(()) else Err(PayloadOutOfBounds)
    ensures r.Ok? ==> out.Contents() == old(out.Contents()) + EncList(payload)
  {
    if |payload| <= 55 {
      r := PushShort(0xc0, payload, out);
    } else {
      r := PushLong(0xc0, payload, out);
    }
  }

  // --- The first version of the encoder ---------------------------------------------------------------

  /** What `encode_bytes` and `encode_list_payload` append: long forms carry all eight length bytes, zeroes included. */
  function WideEncode(item: RlpItem): seq<byte> {
    if PayloadLength(item) <= 55 then ReEncode(item)
    else
      var payload := if item.Bytes? then item.b else item.payload;
      [if item.Bytes? then 0xbf else 0xff] + FixedBe(|payload|, 8) + payload
  }

  method PushWide(prefix: byte, payload: seq<byte>, out: EncodeBuf) returns (r: Result<(), RlpError>)
    requires out.Valid()
    modifies out, out.data
    ensures out.Valid()
    ensures r == if |old(out.Contents())| + |[prefix] + FixedBe(|payload|, 8) + payload| <= MAX_ENCODE_LEN
                 then Ok(()) else Err(PayloadOutOfBounds)
    ensures r.Ok? ==> out.Contents() == old(out.Contents()) + ([prefix] + FixedBe(|payload|, 8) + payload)
  {
    ghost var before := out.Contents();
    var field := FixedBe(|payload|, 8);
    hide FixedBe;
    r := out.Push(prefix);
    if r.Err? {
      return;
    }
    r := out.PushSlice(field);
    if r.Err? {
      return;
    }
    assert out.Contents() == before + [prefix] + field;
    r := out.PushSlice(payload);
    Regroup(before, prefix, field, payload);
  }

  /** `encode_bytes` */
  method EncodeBytes(bytes: seq<byte>, out: EncodeBuf) returns (r: Result<(), RlpError>)
    requires out.Valid()
    modifies out, out.data
    ensures out.Valid()
    ensures r == if |old(out.Contents())| + |WideEncode(Bytes(bytes))| <= MAX_ENCODE_LEN
                 then Ok(()) else Err(PayloadOutOfBounds)
    ensures r.Ok? ==> out.Contents() == old(out.Contents()) + WideEncode(Bytes(bytes))
  {
    hide FixedBe;
    if |bytes| == 1 && bytes[0] < 0x80 {
      r := out.Push(bytes[0]);
      assert bytes == [bytes[0]];
    } else if |bytes| <= 55 {
      r := PushShort(0x80, bytes, out);
    } else {
      r := PushWide(0xbf, bytes, out);
    }
  }

  /** `encode_list_payload` */
  method EncodeListPayload(payload: seq<byte>, out: EncodeBuf) returns (r: Result<(), RlpError>)
    requires out.Valid()
    modifies out, out.data
    ensures out.Valid()
    ensures r == if |old(out.Contents())| + |WideEncode(List(payload))| <= MAX_ENCODE_LEN
                 then Ok(()) else Err(PayloadOutOfBounds)
    ensures r.Ok? ==> out.Contents() == old(out.Contents()) + WideEncode(List(payload))
  {
    hide FixedBe;
    if |payload| <= 55 {
      r := PushShort(0xc0, payload, out);
    } else {
      r := PushWide(0xff, payload, out);
    }
  }

  lemma {:induction false} FixedBeStartsWithZero(v: nat, n: nat)
    requires n > 0 && v < Pow256(n - 1)
    ensures FixedBe(v, n)[0] == 0
  {
    if n > 1 {
      FixedBeStartsWithZero(v / 256, n - 1);
    }
  }

  /** The decoder reads the first version's encoding back if and only if it is a short form. */
  lemma WideEncodeDecodesIff(item: RlpItem, rest: seq<byte>, depth: nat)
    requires depth <= MAX_DEPTH && PayloadLength(item) <= MAX_INPUT_LEN
    ensures DecodeAt(WideEncode(item) + rest, depth) == Ok((item, |WideEncode(item)|)) <==> PayloadLength(item) <= 55
    ensures PayloadLength(item) > 55 ==> DecodeAt(WideEncode(item) + rest, depth) == Err(LeadingZeroInLength)
  {
    if PayloadLength(item) <= 55 {
      DecodeReEncode(item, rest, depth);
    } else {
      var buf, field := WideEncode(item) + rest, FixedBe(PayloadLength(item), 8);
      assert Pow256(3) == 0x100_0000 && Pow256(7) == 0x100_0000_0000_0000;
      FixedBeStartsWithZero(PayloadLength(item), 8);
      hide FixedBe, DecodeUsize;
      assert buf[1..9] == field;
    }
  }

  /** At most 64 decoded children. */
  class RlpChildVec {
    const items: array<Option<RlpItem>>
    var len: nat

    ghost predicate Valid()
      reads this, items
    {
      items.Length == MAX_CHILDREN && len <= MAX_CHILDREN && forall i :: 0 <= i < len ==> items[i].Some?
    }

    ghost function Contents(): (s: seq<RlpItem>)
      requires Valid()
      reads this, items
      ensures |s| == len && forall i :: 0 <= i < len ==> s[i] == items[i].value
    {
      seq(len, i requires 0 <= i < len && Valid() reads this, items => items[i].value)
    }

    constructor ()
      ensures Valid() && fresh(items) && Contents() == []
    {
      items := new Option<RlpItem>[MAX_CHILDREN](_ => None);
      len := 0;
    }

    method Push(item: RlpItem) returns (ok: bool)
      requires Valid()
      modifies this, items
      ensures Valid() && ok == (|old(Contents())| < MAX_CHILDREN)
      ensures Contents() == if ok then old(Contents()) + [item] else old(Contents())
    {
      if len >= MAX_CHILDREN {
        return false;
      }
      items[len] := Some(item);
      len := len + 1;
      return true;
    }

    method Get(i: nat) returns (r: Option<RlpItem>)
      requires Valid()
      ensures r == if i < |Contents()| then Some(Contents()[i]) else None
    {
      r := if i < len then items[i] else None;
    }
  }

  /** With `done` already collected, the rest of the payload decides the outcome. */
  predicate Pending(payload: seq<byte>, done: seq<RlpItem>, remaining: seq<byte>) {
    match ItemsFrom(remaining, |done|)
    case Ok(tail) => Items(payload) == Ok(done + tail)
    case Err(e) => Items(payload) == Err(e)
  }

  lemma PendingStart(payload: seq<byte>)
    ensures Pending(payload, [], payload[0..])
  {
    assert payload[0..] == payload;
    assert Items(payload).Ok? ==> [] + Items(payload).value == Items(payload).value;
  }

  lemma PendingStep(payload: seq<byte>, done: seq<RlpItem>, remaining: seq<byte>)
    requires Pending(payload, done, remaining) && remaining != []
    ensures match DecodeAt(remaining, 1)
            case Err(e) => Items(payload) == Err(e)
            case Ok((item, used)) =>
              if |done| >= MAX_CHILDREN then Items(payload) == Err(DepthLimitExceeded)
              else Pending(payload, done + [item], remaining[used..])
  {
    hide DecodeAt;
    if DecodeAt(remaining, 1).Ok? && |done| < MAX_CHILDREN {
      var (item, used) := DecodeAt(remaining, 1).value;
      var tail := ItemsFrom(remaining[used..], |done| + 1);
      assert tail.Ok? ==> done + ([item] + tail.value) == done + [item] + tail.value;
    }
  }

  lemma PendingEnd(payload: seq<byte>, done: seq<RlpItem>)
    requires Pending(payload, done, [])
    ensures Items(payload) == Ok(done)
  {
    assert done + [] == done;
  }

  /** `RlpList::items`: splits a payload into its direct children. */
  method CollectItems(payload: seq<byte>) returns (r: Result<RlpChildVec, RlpError>)
    ensures r.Ok? ==> fresh(r.value) && fresh(r.value.items) && r.value.Valid()
    ensures r.Ok? ==> Items(payload) == Ok(r.value.Contents())
    ensures r.Err? ==> Items(payload) == Err(r.error)
  {
    hide Pending, DecodeAt, ItemsFrom;
    var out := new RlpChildVec();
    var pos := 0;
    PendingStart(payload);
    while pos < |payload|
      invariant pos <= |payload|
      invariant out.Valid() && fresh(out) && fresh(out.items)
      invariant Pending(payload, out.Contents(), payload[pos..])
      decreases |payload| - pos
    {
      var remaining := payload[pos..];
      PendingStep(payload, out.Contents(), remaining);
      match DecodeAt(remaining, 1) {
        case Err(e) => return Err(e);
        case Ok((item, consumed)) =>
          var ok := out.Push(item);
          if !ok {
            return Err(DepthLimitExceeded);
          }
          assert remaining[consumed..] == payload[pos + consumed..];
          pos := pos + consumed;
      }
    }
    assert payload[pos..] == [];
    PendingEnd(payload, out.Contents());
    return Ok(out);
  }
}
