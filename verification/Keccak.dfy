// Keccak-256 (keccak.rs): the streaming hasher against the sponge of FIPS 202, section 4, with the
// pad10*1 padding of section 5.1 and no domain-separation suffix.

module Keccak {
  import opened KeccakF

  type octet = bv8

  const RATE := 136

  // --- Bytes of a lane ----------------------------------------------------------------------------

  function LowByte(l: Lane): octet {
    (l & 0xff) as octet
  }

  /** `l >> (8 * k)`. */
  function ShiftDown(l: Lane, k: nat): Lane
    requires k < 8
  {
    match k
    case 0 => l
    case 1 => l >> 8
    case 2 => l >> 16
    case 3 => l >> 24
    case 4 => l >> 32
    case 5 => l >> 40
    case 6 => l >> 48
    case _ => l >> 56
  }

  /** Byte `k` of a lane, least significant first. */
  function ByteAt(l: Lane, k: nat): octet
    requires k < 8
  {
    LowByte(ShiftDown(l, k))
  }

  /** `(byte as u64) << (8 * k)`. */
  function Shifted(b: octet, k: nat): Lane
    requires k < 8
  {
    var l := b as Lane;
    match k
    case 0 => l
    case 1 => l << 8
    case 2 => l << 16
    case 3 => l << 24
    case 4 => l << 32
    case 5 => l << 40
    case 6 => l << 48
    case _ => l << 56
  }

  function XorByte(a: octet, b: octet): octet {
    a ^ b
  }

  lemma ByteOfXor(x: Lane, y: Lane, k: nat)
    requires k < 8
    ensures ByteAt(Xor(x, y), k) == XorByte(ByteAt(x, k), ByteAt(y, k))
  {
    hide ByteAt, Xor, XorByte;
    match k
    case 0 => ByteOfXor0(x, y);
    case 1 => ByteOfXor1(x, y);
    case 2 => ByteOfXor2(x, y);
    case 3 => ByteOfXor3(x, y);
    case 4 => ByteOfXor4(x, y);
    case 5 => ByteOfXor5(x, y);
    case 6 => ByteOfXor6(x, y);
    case _ => ByteOfXor7(x, y);
  }

  lemma ByteOfXor0(x: Lane, y: Lane)
    ensures ByteAt(Xor(x, y), 0) == XorByte(ByteAt(x, 0), ByteAt(y, 0))
  {
  }

  lemma ByteOfXor1(x: Lane, y: Lane)
    ensures ByteAt(Xor(x, y), 1) == XorByte(ByteAt(x, 1), ByteAt(y, 1))
  {
  }

  lemma ByteOfXor2(x: Lane, y: Lane)
    ensures ByteAt(Xor(x, y), 2) == XorByte(ByteAt(x, 2), ByteAt(y, 2))
  {
  }

  lemma ByteOfXor3(x: Lane, y: Lane)
    ensures ByteAt(Xor(x, y), 3) == XorByte(ByteAt(x, 3), ByteAt(y, 3))
  {
  }

  lemma ByteOfXor4(x: Lane, y: Lane)
    ensures ByteAt(Xor(x, y), 4) == XorByte(ByteAt(x, 4), ByteAt(y, 4))
  {
  }

  lemma ByteOfXor5(x: Lane, y: Lane)
    ensures ByteAt(Xor(x, y), 5) == XorByte(ByteAt(x, 5), ByteAt(y, 5))
  {
  }

  lemma ByteOfXor6(x: Lane, y: Lane)
    ensures ByteAt(Xor(x, y), 6) == XorByte(ByteAt(x, 6), ByteAt(y, 6))
  {
  }

  lemma ByteOfXor7(x: Lane, y: Lane)
    ensures ByteAt(Xor(x, y), 7) == XorByte(ByteAt(x, 7), ByteAt(y, 7))
  {
  }

  lemma ByteOfShifted(b: octet, k: nat, j: nat)
    requires k < 8 && j < 8
    ensures ByteAt(Shifted(b, k), j) == if j == k then b else 0
  {
    hide ByteAt, Shifted;
    match k
    case 0 => ByteOfShifted0(b, j);
    case 1 => ByteOfShifted1(b, j);
    case 2 => ByteOfShifted2(b, j);
    case 3 => ByteOfShifted3(b, j);
    case 4 => ByteOfShifted4(b, j);
    case 5 => ByteOfShifted5(b, j);
    case 6 => ByteOfShifted6(b, j);
    case _ => ByteOfShifted7(b, j);
  }

  lemma ByteOfShifted0(b: octet, j: nat)
    requires j < 8
    ensures ByteAt(Shifted(b, 0), j) == if j == 0 then b else 0
  {
  }

  lemma ByteOfShifted1(b: octet, j: nat)
    requires j < 8
    ensures ByteAt(Shifted(b, 1), j) == if j == 1 then b else 0
  {
  }

  lemma ByteOfShifted2(b: octet, j: nat)
    requires j < 8
    ensures ByteAt(Shifted(b, 2), j) == if j == 2 then b else 0
  {
  }

  lemma ByteOfShifted3(b: octet, j: nat)
    requires j < 8
    ensures ByteAt(Shifted(b, 3), j) == if j == 3 then b else 0
  {
  }

  lemma ByteOfShifted4(b: octet, j: nat)
    requires j < 8
    ensures ByteAt(Shifted(b, 4), j) == if j == 4 then b else 0
  {
  }

  lemma ByteOfShifted5(b: octet, j: nat)
    requires j < 8
    ensures ByteAt(Shifted(b, 5), j) == if j == 5 then b else 0
  {
  }

  lemma ByteOfShifted6(b: octet, j: nat)
    requires j < 8
    ensures ByteAt(Shifted(b, 6), j) == if j == 6 then b else 0
  {
  }

  lemma ByteOfShifted7(b: octet, j: nat)
    requires j < 8
    ensures ByteAt(Shifted(b, 7), j) == if j == 7 then b else 0
  {
  }

  lemma XorZero(x: octet)
    ensures XorByte(x, 0) == x
  {
  }

  /** XORing a shifted byte into a lane changes exactly that byte. */
  lemma XorShifted(l: Lane, b: octet, k: nat, j: nat)
    requires k < 8 && j < 8
    ensures ByteAt(Xor(l, Shifted(b, k)), j) == if j == k then XorByte(ByteAt(l, j), b) else ByteAt(l, j)
  {
    hide ByteAt, Shifted, XorByte, Xor;
    ByteOfXor(l, Shifted(b, k), j);
    ByteOfShifted(b, k, j);
    XorZero(ByteAt(l, j));
  }

  /** A lane is its eight bytes. */
  lemma LaneFromBytes(l: Lane)
    ensures LaneOf(ByteAt(l, 0), ByteAt(l, 1), ByteAt(l, 2), ByteAt(l, 3),
                   ByteAt(l, 4), ByteAt(l, 5), ByteAt(l, 6), ByteAt(l, 7)) == l
  {
  }

  function LaneOf(b0: octet, b1: octet, b2: octet, b3: octet, b4: octet, b5: octet, b6: octet, b7: octet): Lane {
    Shifted(b0, 0) | Shifted(b1, 1) | Shifted(b2, 2) | Shifted(b3, 3)
      | Shifted(b4, 4) | Shifted(b5, 5) | Shifted(b6, 6) | Shifted(b7, 7)
  }

  // --- The sponge on byte strings (FIPS 202, section 4) -----------------------------------------------

  function Zeros(n: nat): (s: seq<octet>)
    ensures |s| == n && forall i :: 0 <= i < n ==> s[i] == 0
  {
    if n == 0 then [] else Zeros(n - 1) + [0]
  }

  /** A 1600-bit state as 200 bytes. */
  type ByteState = s: seq<octet> | |s| == 200 witness Zeros(200)

  /** The byte string of a lane state (FIPS 202, section 3.1.3). */
  function Bytes(s: State): ByteState {
    seq(200, p requires 0 <= p < 200 => ByteAt(s[p / 8], p % 8))
  }

  /** The lane state of a byte string (FIPS 202, section 3.1.2). */
  function Lanes(b: ByteState): State {
    seq(25, i requires 0 <= i < 25 =>
      LaneOf(b[8 * i], b[8 * i + 1], b[8 * i + 2], b[8 * i + 3], b[8 * i + 4], b[8 * i + 5], b[8 * i + 6],
             b[8 * i + 7]))
  }

  lemma BytesOfLane(s: State, i: nat)
    requires i < 25
    ensures Bytes(s)[8 * i] == ByteAt(s[i], 0) && Bytes(s)[8 * i + 1] == ByteAt(s[i], 1)
    ensures Bytes(s)[8 * i + 2] == ByteAt(s[i], 2) && Bytes(s)[8 * i + 3] == ByteAt(s[i], 3)
    ensures Bytes(s)[8 * i + 4] == ByteAt(s[i], 4) && Bytes(s)[8 * i + 5] == ByteAt(s[i], 5)
    ensures Bytes(s)[8 * i + 6] == ByteAt(s[i], 6) && Bytes(s)[8 * i + 7] == ByteAt(s[i], 7)
  {
    hide ByteAt;
  }

  lemma LanesOfBytes(s: State)
    ensures Lanes(Bytes(s)) == s
  {
    hide ByteAt, LaneOf, Bytes;
    forall i | 0 <= i < 25
      ensures Lanes(Bytes(s))[i] == s[i]
    {
      BytesOfLane(s, i);
      LaneFromBytes(s[i]);
    }
  }

  function PermuteBytes(b: ByteState): ByteState {
    Bytes(Permute(Lanes(b)))
  }

  const ZERO_STATE: ByteState := Zeros(200)

  /** XORs a prefix of the state with at most one block. */
  function XorInto(s: ByteState, block: seq<octet>): ByteState
    requires |block| <= RATE
  {
    seq(200, p requires 0 <= p < 200 => if p < |block| then XorByte(s[p], block[p]) else s[p])
  }

  /** Absorbs a whole number of blocks, one after the other. */
  function Absorb(m: seq<octet>): ByteState
    requires |m| % RATE == 0
  {
    if m == [] then ZERO_STATE
    else
      var n := |m| - RATE;
      PermuteBytes(XorInto(Absorb(m[..n]), m[n..]))
  }

  /** pad10*1 in bytes, least significant bit first: a leading 1 bit, zeroes, a closing 1 bit. */
  function Padding(q: nat): (p: seq<octet>)
    requires 1 <= q <= RATE
    ensures |p| == q
  {
    if q == 1 then [0x81] else [0x01] + Zeros(q - 2) + [0x80]
  }

  function Pad(m: seq<octet>): (p: seq<octet>)
    ensures |p| % RATE == 0
  {
    m + Padding(RATE - |m| % RATE)
  }

  /** The reference digest: absorb the padded message, squeeze 32 bytes. */
  function Digest(m: seq<octet>): (d: seq<octet>)
    ensures |d| == 32
  {
    Absorb(Pad(m))[..32]
  }

  /** Where the whole blocks of a message end. */
  function Whole(m: seq<octet>): (n: nat)
    ensures n <= |m| && n % RATE == 0 && |m| - n == |m| % RATE
  {
    |m| - |m| % RATE
  }

  /** The state after a message of any length: whole blocks absorbed, the tail XORed in. */
  function Absorbed(m: seq<octet>): ByteState {
    XorInto(Absorb(m[..Whole(m)]), m[Whole(m)..])
  }

  /** XORing at an offset continues a prefix. */
  function XorAt(s: ByteState, pos: nat, bs: seq<octet>): ByteState
    requires pos + |bs| <= RATE
  {
    seq(200, p requires 0 <= p < 200 => if pos <= p < pos + |bs| then XorByte(s[p], bs[p - pos]) else s[p])
  }

  lemma XorIntoContinues(s: ByteState, tail: seq<octet>, bs: seq<octet>)
    requires |tail| + |bs| <= RATE
    ensures XorAt(XorInto(s, tail), |tail|, bs) == XorInto(s, tail + bs)
  {
    hide XorByte;
  }

  lemma PaddingXor(x: octet)
    ensures XorByte(x, 0) == x && XorByte(XorByte(x, 0x01), 0x80) == XorByte(x, 0x81)
  {
  }

  /** The two padding bytes XORed in place are the padding block XORed as a whole. */
  lemma PaddingInPlace(s: ByteState, tail: seq<octet>)
    requires |tail| < RATE
    ensures XorAt(XorAt(XorInto(s, tail), |tail|, [0x01]), RATE - 1, [0x80])
        == XorInto(s, tail + Padding(RATE - |tail|))
  {
    hide XorByte;
    var padding := Padding(RATE - |tail|);
    var block := tail + padding;
    forall p | 0 <= p < 200
      ensures XorAt(XorAt(XorInto(s, tail), |tail|, [0x01]), RATE - 1, [0x80])[p] == XorInto(s, block)[p]
    {
      PaddingXor(s[p]);
      if |tail| <= p < RATE {
        assert block[p] == padding[p - |tail|];
      }
    }
  }

  // --- The streaming hasher -------------------------------------------------------------------------

  lemma XorByteIntoLane(s: State, pos: nat, b: octet)
    requires pos < 200
    ensures Bytes(s[pos / 8 := Xor(s[pos / 8], Shifted(b, pos % 8))]) == Bytes(s)[pos := XorByte(Bytes(s)[pos], b)]
  {
    hide ByteAt, Shifted, XorByte, Xor;
    var t: State := s[pos / 8 := Xor(s[pos / 8], Shifted(b, pos % 8))];
    forall p | 0 <= p < 200
      ensures Bytes(t)[p] == Bytes(s)[pos := XorByte(Bytes(s)[pos], b)][p]
    {
      if p / 8 == pos / 8 {
        XorShifted(s[pos / 8], b, pos % 8, p % 8);
      }
    }
  }

  /** `xor_byte_into_state`. */
  method XorByteIntoState(state: array<Lane>, pos: nat, b: octet)
    requires state.Length == 25 && pos < RATE
    modifies state
    ensures Bytes(state[..]) == XorAt(old(Bytes(state[..])), pos, [b])
  {
    hide Bytes, XorByte, Xor, Shifted;
    ghost var s: State := state[..];
    XorByteIntoLane(s, pos, b);
    state[pos / 8] := Xor(state[pos / 8], Shifted(b, pos % 8));
    assert state[..] == s[pos / 8 := Xor(s[pos / 8], Shifted(b, pos % 8))];
    assert XorAt(Bytes(s), pos, [b]) == Bytes(s)[pos := XorByte(Bytes(s)[pos], b)];
  }

  lemma XorAtSnoc(s: ByteState, pos: nat, bs: seq<octet>, i: nat)
    requires i < |bs| && pos + |bs| <= RATE
    ensures XorAt(XorAt(s, pos, bs[..i]), pos + i, [bs[i]]) == XorAt(s, pos, bs[..i + 1])
  {
    hide XorByte;
  }

  /** `xor_into_state`. */
  method XorIntoState(state: array<Lane>, pos: nat, bs: seq<octet>)
    requires state.Length == 25 && pos + |bs| <= RATE
    modifies state
    ensures Bytes(state[..]) == XorAt(old(Bytes(state[..])), pos, bs)
  {
    hide Bytes, XorByte;
    ghost var s := Bytes(state[..]);
    assert XorAt(s, pos, bs[..0]) == s;
    for i := 0 to |bs|
      invariant Bytes(state[..]) == XorAt(s, pos, bs[..i])
    {
      XorAtSnoc(s, pos, bs, i);
      XorByteIntoState(state, pos + i, bs[i]);
    }
    assert bs[..|bs|] == bs;
  }

  /** `squeeze`: the first four lanes as bytes. */
  method Squeeze(state: array<Lane>) returns (out: seq<octet>)
    requires state.Length == 25
    ensures out == Bytes(state[..])[..32]
  {
    hide ByteAt, Bytes;
    out := [];
    for i := 0 to 4
      invariant out == Bytes(state[..])[..8 * i]
    {
      var l := state[i];
      BytesOfLane(state[..], i);
      out := out + [ByteAt(l, 0), ByteAt(l, 1), ByteAt(l, 2), ByteAt(l, 3), ByteAt(l, 4), ByteAt(l, 5), ByteAt(l, 6),
                    ByteAt(l, 7)];
    }
  }

  /** `keccak_f1600` on the lanes is the permutation of the byte string. */
  method PermuteState(state: array<Lane>)
    requires state.Length == 25
    modifies state
    ensures Bytes(state[..]) == PermuteBytes(old(Bytes(state[..])))
  {
    hide Bytes, Lanes, Permute;
    LanesOfBytes(state[..]);
    KeccakF1600(state);
  }

  class Keccak256 {
    const state: array<Lane>
    var pos: nat
    /** Everything absorbed so far. */
    ghost var msg: seq<octet>

    ghost predicate Valid()
      reads this, state
    {
      state.Length == 25 && pos == |msg| % RATE && Bytes(state[..]) == Absorbed(msg)
    }

    constructor ()
      ensures Valid() && fresh(state) && msg == []
    {
      state := new Lane[25](_ => 0);
      pos := 0;
      msg := [];
      new;
      ZeroBytes(state[..]);
    }

    /** One chunk that fits the current block. */
    method UpdateChunk(chunk: seq<octet>)
      requires Valid() && 0 < |chunk| <= RATE - pos
      modifies this, state
      ensures Valid() && msg == old(msg) + chunk
    {
      hide Bytes, Absorbed, XorAt, PermuteBytes;
      AbsorbChunk(msg, chunk);
      XorIntoState(state, pos, chunk);
      pos := pos + |chunk|;
      msg := msg + chunk;
      if pos == RATE {
        PermuteState(state);
        pos := 0;
      }
    }

    /** Absorbs more data, whatever the fill level of the current block. */
    method Update(data0: seq<octet>)
      requires Valid()
      modifies this, state
      ensures Valid() && msg == old(msg) + data0
    {
      hide Bytes, Absorbed;
      var data := data0;
      while |data| > 0
        invariant Valid() && msg + data == old(msg) + data0
        decreases |data|
      {
        var available := RATE - pos;
        var n := if |data| < available then |data| else available;
        assert data == data[..n] + data[n..];
        UpdateChunk(data[..n]);
        data := data[n..];
      }
    }

    /** Pads, permutes once more and squeezes. */
    method Finalize() returns (digest: seq<octet>)
      requires Valid()
      modifies state
      ensures digest == Digest(msg)
    {
      hide Bytes, Absorbed, XorAt, PermuteBytes, Pad, Absorb;
      FinalBlock(msg);
      XorByteIntoState(state, pos, 0x01);
      XorByteIntoState(state, RATE - 1, 0x80);
      PermuteState(state);
      digest := Squeeze(state);
    }
  }

  lemma ZeroBytes(s: State)
    requires forall i :: 0 <= i < 25 ==> s[i] == 0
    ensures Bytes(s) == Absorbed([])
  {
    hide ByteAt, XorByte, PermuteBytes;
    forall k: nat | k < 8
      ensures ByteAt(0, k) == 0
    {
      ZeroByte(k);
    }
    var none: seq<octet> := [];
    assert none[..0] == none && none[0..] == none;
  }

  lemma ZeroByte(k: nat)
    requires k < 8
    ensures ByteAt(0, k) == 0
  {
  }

  /** One chunk that stays within the current block: a longer tail, or one more whole block. */
  lemma AbsorbChunk(msg: seq<octet>, chunk: seq<octet>)
    requires |msg| % RATE + |chunk| <= RATE && chunk != []
    ensures var x := XorAt(Absorbed(msg), |msg| % RATE, chunk);
            Absorbed(msg + chunk) == if |msg| % RATE + |chunk| == RATE then PermuteBytes(x) else x
  {
    hide XorByte, PermuteBytes;
    var w, m := Whole(msg), msg + chunk;
    var tail := msg[w..];
    XorIntoContinues(Absorb(msg[..w]), tail, chunk);
    if |tail| + |chunk| == RATE {
      assert Whole(m) == |m| && m[..|m|] == m;
      assert m[..|m| - RATE] == msg[..w] && m[|m| - RATE..] == tail + chunk;
      assert m[|m|..] == [];
      assert XorInto(Absorb(m), []) == Absorb(m);
    } else {
      assert Whole(m) == w && m[..w] == msg[..w] && m[w..] == tail + chunk;
    }
  }

  lemma AbsorbLast(m: seq<octet>)
    requires |m| % RATE == 0 && m != []
    ensures Absorb(m) == PermuteBytes(XorInto(Absorb(m[..|m| - RATE]), m[|m| - RATE..]))
  {
    hide PermuteBytes, XorInto;
  }

  lemma FinalBlock(msg: seq<octet>)
    ensures PermuteBytes(XorAt(XorAt(Absorbed(msg), |msg| % RATE, [0x01]), RATE - 1, [0x80])) == Absorb(Pad(msg))
  {
    hide XorByte, PermuteBytes, XorInto, XorAt, Padding;
    var w, p := Whole(msg), Pad(msg);
    PaddingInPlace(Absorb(msg[..w]), msg[w..]);
    assert |p| == w + RATE && p[..w] == msg[..w];
    assert p[w..] == msg[w..] + Padding(RATE - |msg[w..]|);
    AbsorbLast(p);
  }

  /** `keccak256`: one update, one finalize. */
  method Hash(data: seq<octet>) returns (digest: seq<octet>)
    ensures digest == Digest(data)
  {
    hide Digest, Bytes, Absorbed;
    var h := new Keccak256();
    h.Update(data);
    assert [] + data == data;
    digest := h.Finalize();
  }

  function Concat(chunks: seq<seq<octet>>): seq<octet> {
    if chunks == [] then [] else Concat(chunks[..|chunks| - 1]) + chunks[|chunks| - 1]
  }

  /** Any way of cutting a message into updates yields its digest; `keccak256_concat` is the case of two. */
  method HashChunks(chunks: seq<seq<octet>>) returns (digest: seq<octet>)
    ensures digest == Digest(Concat(chunks))
  {
    hide Digest, Bytes, Absorbed;
    var h := new Keccak256();
    for i := 0 to |chunks|
      invariant h.Valid() && fresh(h) && fresh(h.state)
      invariant h.msg == Concat(chunks[..i])
    {
      h.Update(chunks[i]);
      assert chunks[..i + 1][..i] == chunks[..i];
    }
    assert chunks[..|chunks|] == chunks;
    digest := h.Finalize();
  }
}
