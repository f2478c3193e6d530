// 64-bit limbs, little-endian, and the integer a limb sequence stands for.

module Limbs {

  const BASE: int := 0x1_0000_0000_0000_0000

  type u64 = x: int | 0 <= x < BASE

  /** BASE to the power `k`. */
  function BPow(k: nat): (r: int)
    ensures 1 <= r
  {
    if k == 0 then 1 else BASE * BPow(k - 1)
  }

  /** The integer whose little-endian limbs are `s`. */
  function Val(s: seq<u64>): int
  {
    if s == [] then 0 else Val(s[..|s| - 1]) + s[|s| - 1] * BPow(|s| - 1)
  }

  lemma ValSnoc(s: seq<u64>, i: nat)
    requires i < |s|
    ensures Val(s[..i + 1]) == Val(s[..i]) + s[i] * BPow(i)
  {
    assert s[..i + 1][..i] == s[..i];
  }

  lemma ScaleLe(a: int, b: int, c: int)
    requires a <= b && 0 <= c
    ensures a * c <= b * c
  {
  }

  lemma {:induction false} ValBound(s: seq<u64>)
    ensures 0 <= Val(s) < BPow(|s|)
  {
    if s != [] {
      var n := |s| - 1;
      ValBound(s[..n]);
      ScaleLe(0, s[n], BPow(n));
      ScaleLe(s[n], BASE - 1, BPow(n));
    }
  }

  /** Overwriting one limb changes the value by the weighted difference. */
  lemma {:induction false} ValUpdate(s: seq<u64>, k: nat, v: u64)
    requires k < |s|
    ensures Val(s[k := v]) == Val(s) + (v - s[k]) * BPow(k)
  {
    var n := |s| - 1;
    if k == n {
      assert s[k := v][..n] == s[..n];
      assert v * BPow(k) == s[k] * BPow(k) + (v - s[k]) * BPow(k);
    } else {
      ValUpdate(s[..n], k, v);
      assert s[k := v][..n] == s[..n][k := v];
    }
  }

  lemma {:induction false} ValConcat(s: seq<u64>, t: seq<u64>)
    ensures Val(s + t) == Val(s) + Val(t) * BPow(|s|)
  {
    if t == [] {
      assert s + t == s;
    } else {
      var n := |t| - 1;
      ValConcat(s, t[..n]);
      assert (s + t)[..|s + t| - 1] == s + t[..n];
      BPowAdd(n, |s|);
      Regroup(Val(t[..n]), t[n], BPow(n), BPow(|s|));
    }
  }

  lemma Regroup(low: int, top: int, w: int, shift: int)
    ensures (low + top * w) * shift == low * shift + top * (w * shift)
  {
  }

  lemma {:induction false} BPowAdd(a: nat, b: nat)
    ensures BPow(a + b) == BPow(a) * BPow(b)
  {
    if a > 0 {
      BPowAdd(a - 1, b);
      assert BASE * (BPow(a - 1) * BPow(b)) == (BASE * BPow(a - 1)) * BPow(b);
    }
  }

  lemma {:induction false} ValZeros(s: seq<u64>)
    requires forall k :: 0 <= k < |s| ==> s[k] == 0
    ensures Val(s) == 0
  {
    if s != [] {
      ValZeros(s[..|s| - 1]);
    }
  }

  lemma ValTop(s: seq<u64>)
    requires s != []
    ensures Val(s) == Val(s[..|s| - 1]) + s[|s| - 1] * BPow(|s| - 1)
  {
  }

  /** Limb sequences of one length are determined by their value. */
  lemma {:induction false} ValInjective(s: seq<u64>, t: seq<u64>)
    requires |s| == |t| && Val(s) == Val(t)
    ensures s == t
  {
    hide Val, BPow;
    if s != [] {
      var n := |s| - 1;
      ValBound(s[..n]);
      ValBound(t[..n]);
      ValTop(s);
      ValTop(t);
      TopLimbEqual(s[n], t[n], Val(s[..n]), Val(t[..n]), BPow(n));
      ValInjective(s[..n], t[..n]);
      assert s == s[..n] + [s[n]] && t == t[..n] + [t[n]];
    }
  }

  lemma TopLimbEqual(x: int, y: int, low: int, low': int, w: int)
    requires 0 <= low < w && 0 <= low' < w && low + x * w == low' + y * w
    ensures x == y && low == low'
  {
    if x < y {
      TopLimbDecides(x, y, low, low', w);
    } else if y < x {
      TopLimbDecides(y, x, low', low, w);
    }
  }

  lemma TopLimbDecides(x: int, y: int, low: int, low': int, w: int)
    requires x < y && 0 <= low < w && 0 <= low' < w
    ensures low + x * w < low' + y * w
  {
    ScaleLe(x + 1, y, w);
  }

  /** The `n` low limbs of a natural number. */
  function ToLimbs(v: nat, n: nat): (s: seq<u64>)
    ensures |s| == n
  {
    if n == 0 then [] else [v % BASE] + ToLimbs(v / BASE, n - 1)
  }

  lemma {:induction false} ValToLimbs(v: nat, n: nat)
    requires v < BPow(n)
    ensures Val(ToLimbs(v, n)) == v
  {
    if n > 0 {
      ValToLimbs(v / BASE, n - 1);
      ValConcat([v % BASE], ToLimbs(v / BASE, n - 1));
      assert Val([v % BASE]) == v % BASE by {
        assert [v % BASE][..0] == [];
      }
    }
  }
}
