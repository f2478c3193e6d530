// The Keccak-f[1600] permutation bit by bit, as section 3 of FIPS 202 writes it, and the lanes and bytes of keccak.rs
// as representations of those bits.

module KeccakBits {
  import opened KeccakF
  import opened Keccak

  // --- Bits of octets and lanes -----------------------------------------------------------------------------------

  function OctetMask(i: nat): octet
    requires i < 8
  {
    match i
    case 0 => 0x01
    case 1 => 0x02
    case 2 => 0x04
    case 3 => 0x08
    case 4 => 0x10
    case 5 => 0x20
    case 6 => 0x40
    case _ => 0x80
  }

  predicate Masked(b: octet, m: octet) {
    b & m != 0
  }

  /** Bit `i` of an octet, least significant first. */
  function OctetBit(b: octet, i: nat): bool
    requires i < 8
  {
    Masked(b, OctetMask(i))
  }

  predicate OneBit(m: octet) {
    m != 0 && m & (m - 1) == 0
  }

  lemma MasksAreBits(i: nat)
    requires i < 8
    ensures OneBit(OctetMask(i))
  {
  }

  /** Bit `z` of a lane. */
  function Bit(l: Lane, z: nat): bool
    requires z < 64
  {
    OctetBit(ByteAt(l, z / 8), z % 8)
  }

  /** Bit `n` of a string of octets. */
  function StringBit(s: seq<octet>, n: nat): bool
    requires n < 8 * |s|
  {
    OctetBit(s[n / 8], n % 8)
  }

  function AndNot(b: octet, c: octet): octet {
    !b & c
  }

  function ChiOctet(a: octet, b: octet, c: octet): octet {
    XorByte(a, AndNot(b, c))
  }

  /** An octet of a rotated lane: shifted up, with the top bit of the octet below. */
  function RotOctet(b: octet, below: octet): octet {
    (b << 1) | (below >> 7)
  }

  lemma MaskedXor(a: octet, b: octet, m: octet)
    requires OneBit(m)
    ensures Masked(XorByte(a, b), m) <==> (Masked(a, m) != Masked(b, m))
  {
  }

  lemma MaskedAndNot(b: octet, c: octet, m: octet)
    requires OneBit(m)
    ensures Masked(AndNot(b, c), m) <==> !Masked(b, m) && Masked(c, m)
  {
  }

  lemma OctetBitXor(a: octet, b: octet, i: nat)
    requires i < 8
    ensures OctetBit(XorByte(a, b), i) <==> (OctetBit(a, i) != OctetBit(b, i))
  {
    hide OctetMask, Masked, XorByte, OneBit;
    MasksAreBits(i);
    MaskedXor(a, b, OctetMask(i));
  }

  lemma OctetBitChi(a: octet, b: octet, c: octet, i: nat)
    requires i < 8
    ensures OctetBit(ChiOctet(a, b, c), i) <==> (OctetBit(a, i) != (!OctetBit(b, i) && OctetBit(c, i)))
  {
    hide OctetMask, Masked, XorByte, AndNot, OneBit;
    MasksAreBits(i);
    MaskedXor(a, AndNot(b, c), OctetMask(i));
    MaskedAndNot(b, c, OctetMask(i));
  }

  lemma OctetBitRot(b: octet, below: octet, i: nat)
    requires i < 8
    ensures OctetBit(RotOctet(b, below), i) == if i == 0 then OctetBit(below, 7) else OctetBit(b, i - 1)
  {
  }

  lemma ByteOfChi(a: Lane, b: Lane, c: Lane, k: nat)
    requires k < 8
    ensures ByteAt(ChiCell(a, b, c), k) == ChiOctet(ByteAt(a, k), ByteAt(b, k), ByteAt(c, k))
  {
    hide ByteAt, ChiCell, ChiOctet, RotOne, RotOctet;
    match k
    case 0 => ByteOfChi0(a, b, c);
    case 1 => ByteOfChi1(a, b, c);
    case 2 => ByteOfChi2(a, b, c);
    case 3 => ByteOfChi3(a, b, c);
    case 4 => ByteOfChi4(a, b, c);
    case 5 => ByteOfChi5(a, b, c);
    case 6 => ByteOfChi6(a, b, c);
    case _ => ByteOfChi7(a, b, c);
  }

  lemma ByteOfChi0(a: Lane, b: Lane, c: Lane)
    ensures ByteAt(ChiCell(a, b, c), 0) == ChiOctet(ByteAt(a, 0), ByteAt(b, 0), ByteAt(c, 0))
  {
  }

  lemma ByteOfChi1(a: Lane, b: Lane, c: Lane)
    ensures ByteAt(ChiCell(a, b, c), 1) == ChiOctet(ByteAt(a, 1), ByteAt(b, 1), ByteAt(c, 1))
  {
  }

  lemma ByteOfChi2(a: Lane, b: Lane, c: Lane)
    ensures ByteAt(ChiCell(a, b, c), 2) == ChiOctet(ByteAt(a, 2), ByteAt(b, 2), ByteAt(c, 2))
  {
  }

  lemma ByteOfChi3(a: Lane, b: Lane, c: Lane)
    ensures ByteAt(ChiCell(a, b, c), 3) == ChiOctet(ByteAt(a, 3), ByteAt(b, 3), ByteAt(c, 3))
  {
  }

  lemma ByteOfChi4(a: Lane, b: Lane, c: Lane)
    ensures ByteAt(ChiCell(a, b, c), 4) == ChiOctet(ByteAt(a, 4), ByteAt(b, 4), ByteAt(c, 4))
  {
  }

  lemma ByteOfChi5(a: Lane, b: Lane, c: Lane)
    ensures ByteAt(ChiCell(a, b, c), 5) == ChiOctet(ByteAt(a, 5), ByteAt(b, 5), ByteAt(c, 5))
  {
  }

  lemma ByteOfChi6(a: Lane, b: Lane, c: Lane)
    ensures ByteAt(ChiCell(a, b, c), 6) == ChiOctet(ByteAt(a, 6), ByteAt(b, 6), ByteAt(c, 6))
  {
  }

  lemma ByteOfChi7(a: Lane, b: Lane, c: Lane)
    ensures ByteAt(ChiCell(a, b, c), 7) == ChiOctet(ByteAt(a, 7), ByteAt(b, 7), ByteAt(c, 7))
  {
  }

  lemma ByteOfRotOne(l: Lane, k: nat)
    requires k < 8
    ensures ByteAt(RotOne(l), k) == RotOctet(ByteAt(l, k), ByteAt(l, (k + 7) % 8))
  {
    hide ByteAt, ChiCell, ChiOctet, RotOne, RotOctet;
    match k
    case 0 => ByteOfRotOne0(l);
    case 1 => ByteOfRotOne1(l);
    case 2 => ByteOfRotOne2(l);
    case 3 => ByteOfRotOne3(l);
    case 4 => ByteOfRotOne4(l);
    case 5 => ByteOfRotOne5(l);
    case 6 => ByteOfRotOne6(l);
    case _ => ByteOfRotOne7(l);
  }

  lemma ByteOfRotOne0(l: Lane)
    ensures ByteAt(RotOne(l), 0) == RotOctet(ByteAt(l, 0), ByteAt(l, 7))
  {
  }

  lemma ByteOfRotOne1(l: Lane)
    ensures ByteAt(RotOne(l), 1) == RotOctet(ByteAt(l, 1), ByteAt(l, 0))
  {
  }

  lemma ByteOfRotOne2(l: Lane)
    ensures ByteAt(RotOne(l), 2) == RotOctet(ByteAt(l, 2), ByteAt(l, 1))
  {
  }

  lemma ByteOfRotOne3(l: Lane)
    ensures ByteAt(RotOne(l), 3) == RotOctet(ByteAt(l, 3), ByteAt(l, 2))
  {
  }

  lemma ByteOfRotOne4(l: Lane)
    ensures ByteAt(RotOne(l), 4) == RotOctet(ByteAt(l, 4), ByteAt(l, 3))
  {
  }

  lemma ByteOfRotOne5(l: Lane)
    ensures ByteAt(RotOne(l), 5) == RotOctet(ByteAt(l, 5), ByteAt(l, 4))
  {
  }

  lemma ByteOfRotOne6(l: Lane)
    ensures ByteAt(RotOne(l), 6) == RotOctet(ByteAt(l, 6), ByteAt(l, 5))
  {
  }

  lemma ByteOfRotOne7(l: Lane)
    ensures ByteAt(RotOne(l), 7) == RotOctet(ByteAt(l, 7), ByteAt(l, 6))
  {
  }

  lemma BytesOfLaneOf(b0: octet, b1: octet, b2: octet, b3: octet, b4: octet, b5: octet, b6: octet, b7: octet)
    ensures var l := LaneOf(b0, b1, b2, b3, b4, b5, b6, b7);
            && ByteAt(l, 0) == b0 && ByteAt(l, 1) == b1 && ByteAt(l, 2) == b2 && ByteAt(l, 3) == b3
            && ByteAt(l, 4) == b4 && ByteAt(l, 5) == b5 && ByteAt(l, 6) == b6 && ByteAt(l, 7) == b7
  {
  }

  // --- The operations on lanes, bit by bit ------------------------------------------------------------------------

  lemma BitOfXor(a: Lane, b: Lane, z: nat)
    requires z < 64
    ensures Bit(Xor(a, b), z) <==> (Bit(a, z) != Bit(b, z))
  {
    hide ByteAt, Xor, XorByte, OctetBit;
    ByteOfXor(a, b, z / 8);
    OctetBitXor(ByteAt(a, z / 8), ByteAt(b, z / 8), z % 8);
  }

  lemma BitOfChi(a: Lane, b: Lane, c: Lane, z: nat)
    requires z < 64
    ensures Bit(ChiCell(a, b, c), z) <==> (Bit(a, z) != (!Bit(b, z) && Bit(c, z)))
  {
    hide ByteAt, ChiCell, ChiOctet, OctetBit;
    ByteOfChi(a, b, c, z / 8);
    OctetBitChi(ByteAt(a, z / 8), ByteAt(b, z / 8), ByteAt(c, z / 8), z % 8);
  }

  lemma BitOfRotOne(l: Lane, z: nat)
    requires z < 64
    ensures Bit(RotOne(l), z) == Bit(l, (z + 63) % 64)
  {
    hide ByteAt, RotOne, RotOctet, OctetBit;
    ByteOfRotOne(l, z / 8);
    OctetBitRot(ByteAt(l, z / 8), ByteAt(l, (z / 8 + 7) % 8), z % 8);
  }

  /** Rotating by `n` moves every bit up by `n`, modulo 64. */
  lemma {:induction false} BitOfRot(l: Lane, n: nat, z: nat)
    requires z < 64
    ensures Bit(Rot(l, n), z) == Bit(l, (z - n) % 64)
  {
    hide Bit, RotOne;
    if n > 0 {
      BitOfRotOne(Rot(l, n - 1), z);
      BitOfRot(l, n - 1, (z + 63) % 64);
    }
  }

  // --- The step mappings of section 3.2 ---------------------------------------------------------------------------

  /** A state array `A[x, y, z]`. */
  type Cube = (nat, nat, nat) -> bool

  /** The index of lane `(x, y)`. */
  function At(x: nat, y: nat): (i: nat)
    requires x < 5 && y < 5
    ensures i < 25 && i % 5 == x && i / 5 == y
  {
    x + 5 * y
  }

  /** The lanes hold the bits of the cube. */
  ghost predicate Holds(s: State, a: Cube) {
    forall x: nat, y: nat, z: nat :: x < 5 && y < 5 && z < 64 ==> (Bit(s[At(x, y)], z) <==> a(x, y, z))
  }

  /** The parity of a column. */
  function Column(a: Cube, x: nat, z: nat): bool {
    a(x, 0, z) != (a(x, 1, z) != (a(x, 2, z) != (a(x, 3, z) != a(x, 4, z))))
  }

  function ThetaCube(a: Cube): Cube {
    (x: nat, y: nat, z: nat) => a(x, y, z) != (Column(a, (x + 4) % 5, z) != Column(a, (x + 1) % 5, (z + 63) % 64))
  }

  /** The offset of lane `(x, y)`; `RhoTable` derives the table from the walk of section 3.2.2. */
  function Offset(x: nat, y: nat): nat {
    if x < 5 && y < 5 then RHO[At(x, y)] else 0
  }

  function RhoCube(a: Cube): Cube {
    (x: nat, y: nat, z: nat) => a(x, y, (z - Offset(x, y)) % 64)
  }

  function PiX(x: nat, y: nat): (r: nat)
    ensures r < 5
  {
    (x + 3 * y) % 5
  }

  function PiCube(a: Cube): Cube {
    (x: nat, y: nat, z: nat) => a(PiX(x, y), x, z)
  }

  function ChiCube(a: Cube): Cube {
    (x: nat, y: nat, z: nat) => a(x, y, z) != (!a((x + 1) % 5, y, z) && a((x + 2) % 5, y, z))
  }

  function IotaCube(a: Cube, round: nat): Cube
    requires round < 24
  {
    (x: nat, y: nat, z: nat) => a(x, y, z) != (x == 0 && y == 0 && z < 64 && Bit(RC[round], z))
  }

  function RoundCube(a: Cube, round: nat): Cube
    requires round < 24
  {
    IotaCube(ChiCube(PiCube(RhoCube(ThetaCube(a)))), round)
  }

  /** `KECCAK-p[1600, 24]` */
  function RoundsCube(a: Cube, n: nat): Cube
    requires n <= 24
  {
    if n == 0 then a else RoundCube(RoundsCube(a, n - 1), n - 1)
  }

  lemma ThetaLane(s: State, x: nat, y: nat)
    requires x < 5 && y < 5
    ensures Theta(s)[At(x, y)] == Xor(s[At(x, y)], ThetaD(s, x))
  {
    hide Xor, ThetaD, At;
  }

  lemma RhoLane(s: State, x: nat, y: nat)
    requires x < 5 && y < 5
    ensures RHO[At(x, y)] < 64 && Rho(s)[At(x, y)] == Rot(s[At(x, y)], RHO[At(x, y)])
  {
    hide Rot, At;
    RhoBelow(At(x, y));
  }

  lemma PiLane(s: State, x: nat, y: nat)
    requires x < 5 && y < 5
    ensures Pi(s)[At(x, y)] == s[At(PiX(x, y), x)]
  {
    hide PiSource, At, PiX;
    PiSourceAt(x, y);
  }

  lemma PiSourceAt(x: nat, y: nat)
    requires x < 5 && y < 5
    ensures PiSource(At(x, y)) == At(PiX(x, y), x)
  {
    var i := At(x, y);
    assert i % 5 == x && i / 5 == y;
  }

  lemma ChiLaneAt(s: State, x: nat, y: nat)
    requires x < 5 && y < 5
    ensures Chi(s)[At(x, y)] == ChiCell(s[At(x, y)], s[At((x + 1) % 5, y)], s[At((x + 2) % 5, y)])
  {
    hide ChiCell;
  }

  lemma IotaLane(s: State, x: nat, y: nat, round: nat)
    requires x < 5 && y < 5 && round < 24
    ensures Iota(s, round)[At(x, y)] == if x == 0 && y == 0 then Xor(s[0], RC[round]) else s[At(x, y)]
  {
    hide Xor;
  }

  lemma ColumnHolds(s: State, a: Cube, x: nat, z: nat)
    requires Holds(s, a) && x < 5 && z < 64
    ensures Bit(ThetaC(s, x), z) <==> Column(a, x, z)
  {
    hide Bit, Xor, Holds;
    HoldsAt(s, a, x, 0, z); HoldsAt(s, a, x, 1, z); HoldsAt(s, a, x, 2, z); HoldsAt(s, a, x, 3, z); HoldsAt(s, a, x, 4,
                                                                                                            z);
    BitOfFive(s[x], s[x + 5], s[x + 10], s[x + 15], s[x + 20], z);
  }

  lemma BitOfFive(l0: Lane, l1: Lane, l2: Lane, l3: Lane, l4: Lane, z: nat)
    requires z < 64
    ensures Bit(Xor(Xor(Xor(Xor(l0, l1), l2), l3), l4), z) <==>
              (Bit(l0, z) != (Bit(l1, z) != (Bit(l2, z) != (Bit(l3, z) != Bit(l4, z)))))
  {
    hide Bit, Xor;
    BitOfXor(l0, l1, z); BitOfXor(Xor(l0, l1), l2, z); BitOfXor(Xor(Xor(l0, l1), l2), l3, z);
    BitOfXor(Xor(Xor(Xor(l0, l1), l2), l3), l4, z);
  }

  lemma HoldsAt(s: State, a: Cube, x: nat, y: nat, z: nat)
    requires Holds(s, a) && x < 5 && y < 5 && z < 64
    ensures Bit(s[At(x, y)], z) <==> a(x, y, z)
  {
    hide Bit, At;
  }

  lemma HoldsEverywhere(s: State, a: Cube)
    requires forall x: nat, y: nat, z: nat :: x < 5 && y < 5 && z < 64 ==> (Bit(s[At(x, y)], z) <==> a(x, y, z))
    ensures Holds(s, a)
  {
    hide Bit, At;
  }

  lemma ThetaBit(s: State, a: Cube, x: nat, y: nat, z: nat)
    requires Holds(s, a) && x < 5 && y < 5 && z < 64
    ensures Bit(Theta(s)[At(x, y)], z) <==> ThetaCube(a)(x, y, z)
  {
    hide Bit, Xor, ThetaC, Column, RotOne, Rot, Holds, Theta, At;
    var c1 := ThetaC(s, (x + 1) % 5);
    ThetaLane(s, x, y);
    HoldsAt(s, a, x, y, z);
    ColumnHolds(s, a, (x + 4) % 5, z);
    ColumnHolds(s, a, (x + 1) % 5, (z + 63) % 64);
    BitOfRot(c1, 1, z);
    BitOfXor(ThetaC(s, (x + 4) % 5), Rot(c1, 1), z);
    BitOfXor(s[At(x, y)], ThetaD(s, x), z);
  }

  lemma ThetaBits(s: State, a: Cube)
    requires Holds(s, a)
    ensures Holds(Theta(s), ThetaCube(a))
  {
    hide Bit, Holds, Theta, ThetaCube, At;
    forall x: nat, y: nat, z: nat | x < 5 && y < 5 && z < 64
      ensures Bit(Theta(s)[At(x, y)], z) <==> ThetaCube(a)(x, y, z)
    {
      ThetaBit(s, a, x, y, z);
    }
    HoldsEverywhere(Theta(s), ThetaCube(a));
  }

  lemma RhoBit(s: State, a: Cube, x: nat, y: nat, z: nat)
    requires Holds(s, a) && x < 5 && y < 5 && z < 64
    ensures Bit(Rho(s)[At(x, y)], z) <==> RhoCube(a)(x, y, z)
  {
    hide Bit, Rot, Holds, Rho, At;
    RhoLane(s, x, y);
    var n := RHO[At(x, y)];
    assert n == Offset(x, y);
    var from: nat := (z - n) % 64;
    BitOfRot(s[At(x, y)], n, z);
    HoldsAt(s, a, x, y, from);
  }

  lemma RhoBits(s: State, a: Cube)
    requires Holds(s, a)
    ensures Holds(Rho(s), RhoCube(a))
  {
    hide Bit, Holds, Rho, RhoCube, At;
    forall x: nat, y: nat, z: nat | x < 5 && y < 5 && z < 64
      ensures Bit(Rho(s)[At(x, y)], z) <==> RhoCube(a)(x, y, z)
    {
      RhoBit(s, a, x, y, z);
    }
    HoldsEverywhere(Rho(s), RhoCube(a));
  }

  lemma PiBit(s: State, a: Cube, x: nat, y: nat, z: nat)
    requires Holds(s, a) && x < 5 && y < 5 && z < 64
    ensures Bit(Pi(s)[At(x, y)], z) <==> PiCube(a)(x, y, z)
  {
    hide Bit, Holds, Pi, At, PiX;
    PiLane(s, x, y);
    HoldsAt(s, a, PiX(x, y), x, z);
  }

  lemma PiBits(s: State, a: Cube)
    requires Holds(s, a)
    ensures Holds(Pi(s), PiCube(a))
  {
    hide Bit, Holds, Pi, PiCube, At;
    forall x: nat, y: nat, z: nat | x < 5 && y < 5 && z < 64
      ensures Bit(Pi(s)[At(x, y)], z) <==> PiCube(a)(x, y, z)
    {
      PiBit(s, a, x, y, z);
    }
    HoldsEverywhere(Pi(s), PiCube(a));
  }

  lemma ChiBit(s: State, a: Cube, x: nat, y: nat, z: nat)
    requires Holds(s, a) && x < 5 && y < 5 && z < 64
    ensures Bit(Chi(s)[At(x, y)], z) <==> ChiCube(a)(x, y, z)
  {
    hide Bit, Holds, ChiCell, Chi, At;
    var b, c := (x + 1) % 5, (x + 2) % 5;
    ChiLaneAt(s, x, y);
    HoldsAt(s, a, x, y, z); HoldsAt(s, a, b, y, z); HoldsAt(s, a, c, y, z);
    BitOfChi(s[At(x, y)], s[At(b, y)], s[At(c, y)], z);
  }

  lemma ChiBits(s: State, a: Cube)
    requires Holds(s, a)
    ensures Holds(Chi(s), ChiCube(a))
  {
    hide Bit, Holds, Chi, ChiCube, At;
    forall x: nat, y: nat, z: nat | x < 5 && y < 5 && z < 64
      ensures Bit(Chi(s)[At(x, y)], z) <==> ChiCube(a)(x, y, z)
    {
      ChiBit(s, a, x, y, z);
    }
    HoldsEverywhere(Chi(s), ChiCube(a));
  }

  lemma IotaBit(s: State, a: Cube, round: nat, x: nat, y: nat, z: nat)
    requires Holds(s, a) && x < 5 && y < 5 && z < 64 && round < 24
    ensures Bit(Iota(s, round)[At(x, y)], z) <==> IotaCube(a, round)(x, y, z)
  {
    hide Bit, Holds, Xor, Iota;
    IotaLane(s, x, y, round);
    HoldsAt(s, a, x, y, z);
    BitOfXor(s[0], RC[round], z);
  }

  lemma IotaBits(s: State, a: Cube, round: nat)
    requires Holds(s, a) && round < 24
    ensures Holds(Iota(s, round), IotaCube(a, round))
  {
    hide Bit, Holds, Iota, IotaCube, At;
    forall x: nat, y: nat, z: nat | x < 5 && y < 5 && z < 64
      ensures Bit(Iota(s, round)[At(x, y)], z) <==> IotaCube(a, round)(x, y, z)
    {
      IotaBit(s, a, round, x, y, z);
    }
    HoldsEverywhere(Iota(s, round), IotaCube(a, round));
  }

  /** The lane rounds compute the rounds of the standard. */
  lemma {:induction false} RoundsBits(s: State, a: Cube, n: nat)
    requires Holds(s, a) && n <= 24
    ensures Holds(Rounds(s, n), RoundsCube(a, n))
  {
    hide Holds, Theta, Rho, Pi, Chi, Iota, ThetaCube, RhoCube, PiCube, ChiCube, IotaCube;
    if n > 0 {
      RoundsBits(s, a, n - 1);
      var t, b := Rounds(s, n - 1), RoundsCube(a, n - 1);
      ThetaBits(t, b);
      RhoBits(Theta(t), ThetaCube(b));
      PiBits(Rho(Theta(t)), RhoCube(ThetaCube(b)));
      ChiBits(Pi(Rho(Theta(t))), PiCube(RhoCube(ThetaCube(b))));
      IotaBits(Chi(Pi(Rho(Theta(t)))), ChiCube(PiCube(RhoCube(ThetaCube(b)))), n - 1);
    }
  }

  // --- Strings of bits --------------------------------------------------------------------------------------------

  /** The state array of a 1600-bit string (section 3.1.2): `A[x, y, z] = S[64 (5 y + x) + z]`. */
  function StringCube(b: ByteState): Cube {
    (x: nat, y: nat, z: nat) => x < 5 && y < 5 && z < 64 && StringBit(b, 64 * At(x, y) + z)
  }

  lemma BytesOfLanes(b: ByteState)
    ensures Bytes(Lanes(b)) == b
  {
    hide ByteAt, LaneOf, Lanes;
    forall p | 0 <= p < 200
      ensures Bytes(Lanes(b))[p] == b[p]
    {
      var i := p / 8;
      LaneOfBytes(b, i);
      BytesOfLaneOf(b[8 * i], b[8 * i + 1], b[8 * i + 2], b[8 * i + 3], b[8 * i + 4], b[8 * i + 5], b[8 * i + 6],
                    b[8 * i + 7]);
      var k := p % 8;
      assert p == 8 * i + k;
      assert k == 0 || k == 1 || k == 2 || k == 3 || k == 4 || k == 5 || k == 6 || k == 7;
    }
  }

  lemma LaneOfBytes(b: ByteState, i: nat)
    requires i < 25
    ensures Lanes(b)[i] == LaneOf(b[8 * i], b[8 * i + 1], b[8 * i + 2], b[8 * i + 3], b[8 * i + 4], b[8 * i + 5],
                                  b[8 * i + 6], b[8 * i + 7])
  {
    hide LaneOf;
  }

  /** The bits of the bytes of a state are the bits of its lanes, lane after lane. */
  lemma StringBits(s: State, i: nat, z: nat)
    requires i < 25 && z < 64
    ensures StringBit(Bytes(s), 64 * i + z) == Bit(s[i], z)
  {
    hide ByteAt, OctetBit;
    var n := 64 * i + z;
    assert n / 8 == 8 * i + z / 8 && n % 8 == z % 8;
    assert (8 * i + z / 8) / 8 == i && (8 * i + z / 8) % 8 == z / 8;
  }

  lemma StringHolds(s: State, b: ByteState)
    requires Bytes(s) == b
    ensures Holds(s, StringCube(b))
  {
    hide Bit, StringBit, Bytes, At, Holds;
    forall x: nat, y: nat, z: nat | x < 5 && y < 5 && z < 64
      ensures Bit(s[At(x, y)], z) <==> StringCube(b)(x, y, z)
    {
      StringBits(s, At(x, y), z);
    }
    HoldsEverywhere(s, StringCube(b));
  }

  /** The permutation of a 1600-bit string is `KECCAK-p[1600, 24]` of its state array, bit for bit. */
  lemma PermutationBits(b: ByteState, x: nat, y: nat, z: nat)
    requires x < 5 && y < 5 && z < 64
    ensures StringBit(PermuteBytes(b), 64 * At(x, y) + z) <==> RoundsCube(StringCube(b), 24)(x, y, z)
  {
    hide Bit, StringBit, Bytes, Lanes, At, Holds, Rounds, RoundsCube, StringCube;
    var s := Lanes(b);
    BytesOfLanes(b);
    StringHolds(s, b);
    RoundsBits(s, StringCube(b), 24);
    HoldsAt(Rounds(s, 24), RoundsCube(StringCube(b), 24), x, y, z);
    StringBits(Permute(s), At(x, y), z);
  }

  // --- The sponge -------------------------------------------------------------------------------------------------

  /** Absorbing a block is exclusive-or with its bits; the rate leaves a capacity of twice the digest's 256 bits. */
  lemma AbsorbedBits(s: ByteState, block: seq<octet>, n: nat)
    requires |block| <= RATE && n < 1600
    ensures 8 * RATE + 2 * 256 == 1600
    ensures StringBit(XorInto(s, block), n) <==>
              (StringBit(s, n) != (n < 8 * |block| && StringBit(block, n)))
  {
    hide XorByte, OctetBit;
    if n < 8 * |block| {
      OctetBitXor(s[n / 8], block[n / 8], n % 8);
    }
  }

  /** pad10*1 (section 5.1): a one, as many zeroes as needed, a one. */
  lemma PaddingBits(q: nat, n: nat)
    requires 1 <= q <= RATE && n < 8 * q
    ensures StringBit(Padding(q), n) <==> n == 0 || n == 8 * q - 1
  {
    hide OctetBit;
    PaddingOctets(n % 8);
  }

  lemma PaddingOctets(i: nat)
    requires i < 8
    ensures OctetBit(0x01, i) <==> i == 0
    ensures OctetBit(0x80, i) <==> i == 7
    ensures OctetBit(0x81, i) <==> i == 0 || i == 7
    ensures !OctetBit(0, i)
  {
  }
}
