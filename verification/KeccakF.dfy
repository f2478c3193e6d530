// The Keccak-f[1600] permutation: the step mappings of FIPS 202, section 3.2, and the in-place
// rounds of keccak.rs that compute them.

module KeccakF {

  type Lane = bv64

  /** 25 lanes; lane (x, y) is at index `x + 5 * y`. */
  type State = s: seq<Lane> | |s| == 25 witness seq(25, _ => 0)

  const RC: seq<Lane> := [
    0x0000000000000001, 0x0000000000008082, 0x800000000000808a, 0x8000000080008000,
    0x000000000000808b, 0x0000000080000001, 0x8000000080008081, 0x8000000000008009,
    0x000000000000008a, 0x0000000000000088, 0x0000000080008009, 0x000000008000000a,
    0x000000008000808b, 0x800000000000008b, 0x8000000000008089, 0x8000000000008003,
    0x8000000000008002, 0x8000000000000080, 0x000000000000800a, 0x800000008000000a,
    0x8000000080008081, 0x8000000000008080, 0x0000000080000001, 0x8000000080008008]

  const RHO: seq<nat> := [
     0,  1, 62, 28, 27,
    36, 44,  6, 55, 20,
     3, 10, 43, 25, 39,
    41, 45, 15, 21,  8,
    18,  2, 61, 56, 14]

  const PI: seq<nat> := [
     0, 10, 20,  5, 15,
    16,  1, 11, 21,  6,
     7, 17,  2, 12, 22,
    23,  8, 18,  3, 13,
    14, 24,  9, 19,  4]

  // --- Step mappings (FIPS 202, section 3.2) ------------------------------------------------------

  function RotOne(x: Lane): Lane {
    x.RotateLeft(1)
  }

  /** `rotate_left`: `n` rotations by one bit. */
  function Rot(x: Lane, n: nat): Lane {
    if n == 0 then x else RotOne(Rot(x, n - 1))
  }

  function Xor(a: Lane, b: Lane): Lane {
    a ^ b
  }

  function ThetaC(s: State, x: nat): Lane
    requires x < 5
  {
    Xor(Xor(Xor(Xor(s[x], s[x + 5]), s[x + 10]), s[x + 15]), s[x + 20])
  }

  function ThetaD(s: State, x: nat): Lane
    requires x < 5
  {
    Xor(ThetaC(s, (x + 4) % 5), Rot(ThetaC(s, (x + 1) % 5), 1))
  }

  function Theta(s: State): State {
    seq(25, i requires 0 <= i < 25 => Xor(s[i], ThetaD(s, i % 5)))
  }

  /** The rotation offset of the lane at `(x, y)` for step `t` of the walk from `(1, 0)`. */
  function RhoWalk(t: nat): (p: (nat, nat))
    ensures p.0 < 5 && p.1 < 5
  {
    if t == 0 then (1, 0) else var (x, y) := RhoWalk(t - 1); (y, (2 * x + 3 * y) % 5)
  }

  function Rho(s: State): State {
    seq(25, i requires 0 <= i < 25 => assert RHO[i] < 64; Rot(s[i], RHO[i]))
  }

  /** The lane that pi moves to index `i`: `A'[x, y] = A[(x + 3y) mod 5, x]`. */
  function PiSource(i: nat): (j: nat)
    requires i < 25
    ensures j < 25
  {
    (i % 5 + 3 * (i / 5)) % 5 + 5 * (i % 5)
  }

  function Pi(s: State): State {
    seq(25, i requires 0 <= i < 25 => s[PiSource(i)])
  }

  function ChiCell(a: Lane, b: Lane, c: Lane): Lane {
    a ^ (!b & c)
  }

  function ChiLane(s: State, x: nat, y: nat): Lane
    requires x < 5 && y < 5
  {
    ChiCell(s[5 * y + x], s[5 * y + (x + 1) % 5], s[5 * y + (x + 2) % 5])
  }

  function Chi(s: State): State {
    seq(25, i requires 0 <= i < 25 => ChiLane(s, i % 5, i / 5))
  }

  function Iota(s: State, round: nat): State
    requires round < 24
  {
    s[0 := Xor(s[0], RC[round])]
  }

  function Round(s: State, round: nat): State
    requires round < 24
  {
    Iota(Chi(Pi(Rho(Theta(s)))), round)
  }

  /** The first `n` rounds. */
  function Rounds(s: State, n: nat): State
    requires n <= 24
  {
    if n == 0 then s else Round(Rounds(s, n - 1), n - 1)
  }

  function Permute(s: State): State {
    Rounds(s, 24)
  }

  // --- The constant tables are the ones the standard generates -------------------------------------

  /** `RHO` agrees with the standard at step `t` of the walk of section 3.2.2. */
  predicate RhoAgrees(t: nat) {
    var (x, y) := RhoWalk(t);
    RHO[x + 5 * y] == ((t + 1) * (t + 2) / 2) % 64
  }

  lemma RhoStep(t: nat, x: nat, y: nat, offset: nat)
    requires x < 5 && y < 5 && RHO[x + 5 * y] == offset
    requires RhoWalk(t) == (x, y) && offset == ((t + 1) * (t + 2) / 2) % 64
    ensures RhoAgrees(t) && RhoWalk(t + 1) == (y, (2 * x + 3 * y) % 5)
  {
  }

  lemma RhoQuarter0()
    requires RhoWalk(0) == (1, 0)
    ensures forall t :: 0 <= t < 6 ==> RhoAgrees(t)
    ensures RhoWalk(6) == (3, 0)
  {
    hide RhoAgrees, RhoWalk;
    RhoStep(0, 1, 0, 1); RhoStep(1, 0, 2, 3); RhoStep(2, 2, 1, 6);
    RhoStep(3, 1, 2, 10); RhoStep(4, 2, 3, 15); RhoStep(5, 3, 3, 21);
  }

  lemma RhoQuarter1()
    requires RhoWalk(6) == (3, 0)
    ensures forall t :: 6 <= t < 12 ==> RhoAgrees(t)
    ensures RhoWalk(12) == (4, 0)
  {
    hide RhoAgrees, RhoWalk;
    RhoStep(6, 3, 0, 28); RhoStep(7, 0, 1, 36); RhoStep(8, 1, 3, 45);
    RhoStep(9, 3, 1, 55); RhoStep(10, 1, 4, 2); RhoStep(11, 4, 4, 14);
  }

  lemma RhoQuarter2()
    requires RhoWalk(12) == (4, 0)
    ensures forall t :: 12 <= t < 18 ==> RhoAgrees(t)
    ensures RhoWalk(18) == (2, 0)
  {
    hide RhoAgrees, RhoWalk;
    RhoStep(12, 4, 0, 27); RhoStep(13, 0, 3, 41); RhoStep(14, 3, 4, 56);
    RhoStep(15, 4, 3, 8); RhoStep(16, 3, 2, 25); RhoStep(17, 2, 2, 43);
  }

  lemma RhoQuarter3()
    requires RhoWalk(18) == (2, 0)
    ensures forall t :: 18 <= t < 24 ==> RhoAgrees(t)
  {
    hide RhoAgrees, RhoWalk;
    RhoStep(18, 2, 0, 62); RhoStep(19, 0, 4, 18); RhoStep(20, 4, 2, 39);
    RhoStep(21, 2, 4, 61); RhoStep(22, 4, 1, 20); RhoStep(23, 1, 1, 44);
  }

  /** The rotation table holds the offsets `(t+1)(t+2)/2 mod 64` of the standard's walk, and 0 at the origin. */
  lemma RhoTable(t: nat)
    requires t < 24
    ensures RHO[0] == 0 && RhoAgrees(t)
  {
    RhoQuarter0(); RhoQuarter1(); RhoQuarter2(); RhoQuarter3();
  }

  lemma PiRow0(i: nat)
    requires 0 <= i < 5
    ensures PI[i] < 25 && PiSource(PI[i]) == i
  {
  }

  lemma PiRow1(i: nat)
    requires 5 <= i < 10
    ensures PI[i] < 25 && PiSource(PI[i]) == i
  {
  }

  lemma PiRow2(i: nat)
    requires 10 <= i < 15
    ensures PI[i] < 25 && PiSource(PI[i]) == i
  {
  }

  lemma PiRow3(i: nat)
    requires 15 <= i < 20
    ensures PI[i] < 25 && PiSource(PI[i]) == i
  {
  }

  lemma PiRow4(i: nat)
    requires 20 <= i < 25
    ensures PI[i] < 25 && PiSource(PI[i]) == i
  {
  }

  lemma PiForward(i: nat)
    requires i < 25
    ensures PI[i] < 25 && PiSource(PI[i]) == i
  {
    hide PiSource;
    if i < 5 { PiRow0(i); } else if i < 10 { PiRow1(i); } else if i < 15 { PiRow2(i); }
    else if i < 20 { PiRow3(i); } else { PiRow4(i); }
  }

  lemma PiBackward(i: nat)
    requires i < 25
    ensures PI[PiSource(i)] == i
  {
    if i < 5 { PiSources0(i); } else if i < 10 { PiSources1(i); } else if i < 15 { PiSources2(i); }
    else if i < 20 { PiSources3(i); } else { PiSources4(i); }
  }

  lemma PiSources0(i: nat)
    requires 0 <= i < 5
    ensures PI[PiSource(i)] == i
  {
  }

  lemma PiSources1(i: nat)
    requires 5 <= i < 10
    ensures PI[PiSource(i)] == i
  {
  }

  lemma PiSources2(i: nat)
    requires 10 <= i < 15
    ensures PI[PiSource(i)] == i
  {
  }

  lemma PiSources3(i: nat)
    requires 15 <= i < 20
    ensures PI[PiSource(i)] == i
  {
  }

  lemma PiSources4(i: nat)
    requires 20 <= i < 25
    ensures PI[PiSource(i)] == i
  {
    if i == 20 {
    } else if i == 21 {
    } else if i == 22 {
    } else if i == 23 {
    } else {
    }
  }

  // The round constants come from the linear feedback shift register of section 3.2.5.

  function LfsrStep(r: bv8): bv8 {
    (r << 1) ^ (if r & 0x80 != 0 then 0x71 else 0)
  }

  function Lfsr(n: nat): bv8 {
    if n == 0 then 1 else LfsrStep(Lfsr(n - 1))
  }

  /** The register's low bit, seven times in a row, at bit positions 0, 1, 3, 7, 15, 31 and 63. */
  function RoundConstant(r0: bv8): Lane {
    var r1 := LfsrStep(r0); var r2 := LfsrStep(r1); var r3 := LfsrStep(r2);
    var r4 := LfsrStep(r3); var r5 := LfsrStep(r4); var r6 := LfsrStep(r5);
    ((r0 & 1) as Lane) | (((r1 & 1) as Lane) << 1) | (((r2 & 1) as Lane) << 3) | (((r3 & 1) as Lane) << 7)
      | (((r4 & 1) as Lane) << 15) | (((r5 & 1) as Lane) << 31) | (((r6 & 1) as Lane) << 63)
  }

  function LfsrStep7(r: bv8): bv8 {
    LfsrStep(LfsrStep(LfsrStep(LfsrStep(LfsrStep(LfsrStep(LfsrStep(r)))))))
  }

  predicate RcAgrees(round: nat)
    requires round < 24
  {
    RC[round] == RoundConstant(Lfsr(7 * round))
  }

  lemma LfsrAdvance(n: nat)
    ensures Lfsr(n + 7) == LfsrStep7(Lfsr(n))
  {
    assert Lfsr(n + 2) == LfsrStep(LfsrStep(Lfsr(n)));
    assert Lfsr(n + 4) == LfsrStep(LfsrStep(Lfsr(n + 2)));
    assert Lfsr(n + 6) == LfsrStep(LfsrStep(Lfsr(n + 4)));
  }

  lemma RcStep(round: nat, r: bv8, next: bv8)
    requires round < 24 && Lfsr(7 * round) == r
    requires RC[round] == RoundConstant(r) && next == LfsrStep7(r)
    ensures RcAgrees(round) && Lfsr(7 * (round + 1)) == next
  {
    LfsrAdvance(7 * round);
  }

  lemma RcGroup0()
    requires Lfsr(0) == 0x1
    ensures forall r :: 0 <= r < 3 ==> RcAgrees(r)
    ensures Lfsr(21) == 0x1a
  {
    hide RcAgrees, Lfsr;
    RcStep(0, 0x1, 0x80); RcStep(1, 0x80, 0xd8); RcStep(2, 0xd8, 0x1a);
  }

  lemma RcGroup1()
    requires Lfsr(21) == 0x1a
    ensures forall r :: 3 <= r < 6 ==> RcAgrees(r)
    ensures Lfsr(42) == 0x35
  {
    hide RcAgrees, Lfsr;
    RcStep(3, 0x1a, 0xdf); RcStep(4, 0xdf, 0x9); RcStep(5, 0x9, 0x35);
  }

  lemma RcGroup2()
    requires Lfsr(42) == 0x35
    ensures forall r :: 6 <= r < 9 ==> RcAgrees(r)
    ensures Lfsr(63) == 0x70
  {
    hide RcAgrees, Lfsr;
    RcStep(6, 0x35, 0x4f); RcStep(7, 0x4f, 0xca); RcStep(8, 0xca, 0x70);
  }

  lemma RcGroup3()
    requires Lfsr(63) == 0x70
    ensures forall r :: 9 <= r < 12 ==> RcAgrees(r)
    ensures Lfsr(84) == 0xd5
  {
    hide RcAgrees, Lfsr;
    RcStep(9, 0x70, 0x41); RcStep(10, 0x41, 0xec); RcStep(11, 0xec, 0xd5);
  }

  lemma RcGroup4()
    requires Lfsr(84) == 0xd5
    ensures forall r :: 12 <= r < 15 ==> RcAgrees(r)
    ensures Lfsr(105) == 0xab
  {
    hide RcAgrees, Lfsr;
    RcStep(12, 0xd5, 0xcd); RcStep(13, 0xcd, 0x63); RcStep(14, 0x63, 0xab);
  }

  lemma RcGroup5()
    requires Lfsr(105) == 0xab
    ensures forall r :: 15 <= r < 18 ==> RcAgrees(r)
    ensures Lfsr(126) == 0xf2
  {
    hide RcAgrees, Lfsr;
    RcStep(15, 0xab, 0xaa); RcStep(16, 0xaa, 0x2a); RcStep(17, 0x2a, 0xf2);
  }

  lemma RcGroup6()
    requires Lfsr(126) == 0xf2
    ensures forall r :: 18 <= r < 21 ==> RcAgrees(r)
    ensures Lfsr(147) == 0x3e
  {
    hide RcAgrees, Lfsr;
    RcStep(18, 0xf2, 0xe8); RcStep(19, 0xe8, 0x37); RcStep(20, 0x37, 0x3e);
  }

  lemma RcGroup7()
    requires Lfsr(147) == 0x3e
    ensures forall r :: 21 <= r < 24 ==> RcAgrees(r)
    ensures Lfsr(168) == 0x8e
  {
    hide RcAgrees, Lfsr;
    RcStep(21, 0x3e, 0xb); RcStep(22, 0xb, 0x44); RcStep(23, 0x44, 0x8e);
  }

  /** The round constants are the bits the standard's shift register emits. */
  lemma RcTable(round: nat)
    requires round < 24
    ensures RcAgrees(round)
  {
    assert Lfsr(0) == 1;
    hide RcAgrees, Lfsr;
    RcGroup0(); RcGroup1(); RcGroup2(); RcGroup3();
    RcGroup4(); RcGroup5(); RcGroup6(); RcGroup7();
  }

  // --- The in-place rounds ----------------------------------------------------------------------

  method ApplyTheta(a: array<Lane>)
    requires a.Length == 25
    modifies a
    ensures a[..] == Theta(old(a[..]))
  {
    hide Xor, Rot, ThetaC, ThetaD;
    ghost var s: State := a[..];
    var c := new Lane[5];
    for x := 0 to 5
      invariant forall i :: 0 <= i < x ==> c[i] == ThetaC(s, i)
      invariant a[..] == s
    {
      c[x] := Xor(Xor(Xor(Xor(a[x], a[x + 5]), a[x + 10]), a[x + 15]), a[x + 20]);
      ThetaCUnfold(s, x);
    }
    var d := new Lane[5];
    for x := 0 to 5
      invariant forall i :: 0 <= i < 5 ==> c[i] == ThetaC(s, i)
      invariant forall i :: 0 <= i < x ==> d[i] == ThetaD(s, i)
      invariant a[..] == s
    {
      d[x] := Xor(c[(x + 4) % 5], Rot(c[(x + 1) % 5], 1));
      ThetaDUnfold(s, x);
    }
    for i := 0 to 25
      invariant forall k :: 0 <= k < 5 ==> d[k] == ThetaD(s, k)
      invariant forall k :: 0 <= k < 25 ==> a[k] == if k < i then Xor(s[k], ThetaD(s, k % 5)) else s[k]
    {
      a[i] := Xor(a[i], d[i % 5]);
    }
  }

  lemma ThetaCUnfold(s: State, x: nat)
    requires x < 5
    ensures ThetaC(s, x) == Xor(Xor(Xor(Xor(s[x], s[x + 5]), s[x + 10]), s[x + 15]), s[x + 20])
  {
  }

  lemma ThetaDUnfold(s: State, x: nat)
    requires x < 5
    ensures ThetaD(s, x) == Xor(ThetaC(s, (x + 4) % 5), Rot(ThetaC(s, (x + 1) % 5), 1))
  {
    hide Xor, Rot, ThetaC;
  }

  lemma TablesInvert()
    ensures forall i :: 0 <= i < 25 ==> PI[i] < 25 && PiSource(PI[i]) == i && RHO[i] < 64
    ensures forall i :: 0 <= i < 25 ==> PI[PiSource(i)] == i
  {
    hide PiSource;
    forall i | 0 <= i < 25
      ensures PI[i] < 25 && PiSource(PI[i]) == i && PI[PiSource(i)] == i && RHO[i] < 64
    {
      PiForward(i);
      PiBackward(i);
      RhoBelow(i);
    }
  }

  lemma RhoPiAt(s: State, k: nat)
    requires k < 25
    ensures RHO[PiSource(k)] < 64 && Pi(Rho(s))[k] == Rot(s[PiSource(k)], RHO[PiSource(k)])
  {
    hide PiSource, Rot;
    RhoBelow(PiSource(k));
  }

  /** Lanes that hold every rotated lane at its place in the table are the lanes after rho and pi. */
  lemma RhoPiWhole(s: State, b: State)
    requires forall k :: 0 <= k < 25 ==> PI[k] < 25 && RHO[k] < 64 && b[PI[k]] == Rot(s[k], RHO[k])
    ensures b == Pi(Rho(s))
  {
    hide PiSource, Rot, Rho, Pi;
    TablesInvert();
    forall k | 0 <= k < 25
      ensures b[k] == Pi(Rho(s))[k]
    {
      RhoPiAt(s, k);
      assert b[PI[PiSource(k)]] == Rot(s[PiSource(k)], RHO[PiSource(k)]);
    }
  }

  method ApplyRhoPi(a: array<Lane>) returns (b: array<Lane>)
    requires a.Length == 25
    ensures fresh(b) && b.Length == 25 && b[..] == Pi(Rho(a[..]))
  {
    hide PiSource, Rot, Rho, Pi;
    b := new Lane[25];
    TablesInvert();
    for i := 0 to 25
      invariant forall k :: 0 <= k < i ==> b[PI[k]] == Rot(a[k], RHO[k])
    {
      b[PI[i]] := Rot(a[i], RHO[i]);
    }
    RhoPiWhole(a[..], b[..]);
  }

  lemma RhoBelow(i: nat)
    requires i < 25
    ensures RHO[i] < 64
  {
  }

  method ApplyChiRow(a: array<Lane>, b: array<Lane>, y: nat)
    requires a.Length == b.Length == 25 && a != b && y < 5
    modifies a
    ensures a[5 * y] == ChiLane(b[..], 0, y) && a[5 * y + 1] == ChiLane(b[..], 1, y)
    ensures a[5 * y + 2] == ChiLane(b[..], 2, y) && a[5 * y + 3] == ChiLane(b[..], 3, y)
    ensures a[5 * y + 4] == ChiLane(b[..], 4, y)
    ensures forall k :: 0 <= k < 25 && !(5 * y <= k < 5 * y + 5) ==> a[k] == old(a[k])
  {
    hide ChiCell, ChiLane;
    var base := y * 5;
    var t0, t1, t2, t3, t4 := b[base], b[base + 1], b[base + 2], b[base + 3], b[base + 4];
    ChiRow(b[..], y, t0, t1, t2, t3, t4);
    a[base] := ChiCell(t0, t1, t2);
    a[base + 1] := ChiCell(t1, t2, t3);
    a[base + 2] := ChiCell(t2, t3, t4);
    a[base + 3] := ChiCell(t3, t4, t0);
    a[base + 4] := ChiCell(t4, t0, t1);
  }

  method ApplyChi(a: array<Lane>, b: array<Lane>)
    requires a.Length == b.Length == 25 && a != b
    modifies a
    ensures a[..] == Chi(b[..])
  {
    hide ChiLane;
    ghost var s: State := b[..];
    for y := 0 to 5
      invariant b[..] == s
      invariant forall k :: 0 <= k < 5 * y ==> a[k] == ChiLane(s, k % 5, k / 5)
    {
      ApplyChiRow(a, b, y);
      forall k | 5 * y <= k < 5 * y + 5
        ensures a[k] == ChiLane(s, k % 5, k / 5)
      {
        assert k / 5 == y && k % 5 == k - 5 * y;
        assert k % 5 == 0 || k % 5 == 1 || k % 5 == 2 || k % 5 == 3 || k % 5 == 4;
      }
    }
  }

  lemma ChiRow(s: State, y: nat, t0: Lane, t1: Lane, t2: Lane, t3: Lane, t4: Lane)
    requires y < 5
    requires t0 == s[5 * y] && t1 == s[5 * y + 1] && t2 == s[5 * y + 2] && t3 == s[5 * y + 3] && t4 == s[5 * y + 4]
    ensures ChiLane(s, 0, y) == ChiCell(t0, t1, t2)
    ensures ChiLane(s, 1, y) == ChiCell(t1, t2, t3)
    ensures ChiLane(s, 2, y) == ChiCell(t2, t3, t4)
    ensures ChiLane(s, 3, y) == ChiCell(t3, t4, t0)
    ensures ChiLane(s, 4, y) == ChiCell(t4, t0, t1)
  {
    hide ChiCell;
  }

  /** `keccak_f1600`: 24 rounds in place. */
  method KeccakF1600(a: array<Lane>)
    requires a.Length == 25
    modifies a
    ensures a[..] == Permute(old(a[..]))
  {
    hide Xor, Theta, Rho, Pi, Chi;
    for round := 0 to 24
      invariant a[..] == Rounds(old(a[..]), round)
    {
      ghost var s: State := a[..];
      ApplyTheta(a);
      var b := ApplyRhoPi(a);
      ApplyChi(a, b);
      ghost var chi: State := a[..];
      a[0] := Xor(a[0], RC[round]);
      assert a[..] == Iota(chi, round);
    }
  }
}
