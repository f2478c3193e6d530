// The binary search over vesting tranches (vesting_search.rs).

module VestingSearch {
  import opened Common

  datatype VestingTranche = VestingTranche(unlockTimestamp: nat, amount: int)

  type Schedule = seq<VestingTranche>

  ghost predicate Sorted(s: Schedule) {
    forall i, j :: 0 <= i < j < |s| ==> s[i].unlockTimestamp <= s[j].unlockTimestamp
  }

  /** The sum of the first `k` amounts. */
  function PrefixSum(s: Schedule, k: nat): int
    requires k <= |s|
  {
    if k == 0 then 0 else PrefixSum(s, k - 1) + s[k - 1].amount
  }

  function TrancheTotal(s: Schedule): int {
    PrefixSum(s, |s|)
  }

  function CheckedPrefixSum(s: Schedule, k: nat): (r: Option<int>)
    requires k <= |s|
    ensures r.Some? ==> r.value == PrefixSum(s, k)
  {
    if k == 0 then Some(0)
    else
      var sum := CheckedPrefixSum(s, k - 1);
      if sum.None? || !FitsI128(sum.value + s[k - 1].amount) then None else Some(sum.value + s[k - 1].amount)
  }

  /** Every partial sum of the first `k` amounts fits. */
  ghost predicate SumsFit(s: Schedule, k: nat)
    requires k <= |s|
  {
    forall j :: 0 <= j <= k ==> FitsI128(PrefixSum(s, j))
  }

  /** Checked summation fails exactly when some partial sum leaves the i128 range. */
  lemma {:induction false} CheckedSumExact(s: Schedule, k: nat)
    requires k <= |s|
    ensures CheckedPrefixSum(s, k).Some? <==> SumsFit(s, k)
  {
    if k > 0 {
      CheckedSumExact(s, k - 1);
      assert SumsFit(s, k) <==> SumsFit(s, k - 1) && FitsI128(PrefixSum(s, k));
    }
  }

  lemma {:induction false} FailureStays(s: Schedule, j: nat, k: nat)
    requires j <= k <= |s| && CheckedPrefixSum(s, j).None?
    ensures CheckedPrefixSum(s, k).None?
  {
    if j < k {
      FailureStays(s, j, k - 1);
    }
  }

  /** The amounts whose time has come, wherever they stand: the linear scan the search replaces. */
  function LinearScan(s: Schedule, now: nat): int {
    if s == [] then 0
    else LinearScan(s[..|s| - 1], now) + (if s[|s| - 1].unlockTimestamp <= now then s[|s| - 1].amount else 0)
  }

  lemma {:induction false} PrefixSumOf(s: Schedule, t: Schedule, k: nat)
    requires k <= |s| && k <= |t| && s[..k] == t[..k]
    ensures PrefixSum(s, k) == PrefixSum(t, k)
  {
    if k > 0 {
      assert s[..k - 1] == s[..k][..k - 1] == t[..k][..k - 1] == t[..k - 1];
      assert s[k - 1] == s[..k][k - 1] == t[..k][k - 1] == t[k - 1];
      PrefixSumOf(s, t, k - 1);
    }
  }

  lemma {:induction false} TotalConcat(s: Schedule, t: Schedule)
    ensures TrancheTotal(s + t) == TrancheTotal(s) + TrancheTotal(t)
  {
    if t == [] {
      assert s + t == s;
    } else {
      var k := |t| - 1;
      assert s + t == (s + t[..k]) + [t[k]];
      TotalConcat(s, t[..k]);
      PrefixSumOf(s + t, s + t[..k], |s| + k);
      PrefixSumOf(t, t[..k], k);
    }
  }

  /** With positive amounts longer prefixes weigh more. */
  lemma {:induction false} PrefixSumMonotone(s: Schedule, j: nat, k: nat)
    requires j <= k <= |s| && forall i :: 0 <= i < |s| ==> s[i].amount > 0
    ensures PrefixSum(s, j) <= PrefixSum(s, k)
    ensures j < k ==> PrefixSum(s, j) < PrefixSum(s, k)
  {
    if j < k {
      PrefixSumMonotone(s, j, k - 1);
    }
  }

  /** The place the search ends at between an unlocked `lo` and a locked `hi`. */
  function Search(s: Schedule, now: nat, lo: nat, hi: nat): (k: nat)
    requires lo < hi < |s| && s[lo].unlockTimestamp <= now < s[hi].unlockTimestamp
    ensures lo < k <= hi && s[k - 1].unlockTimestamp <= now < s[k].unlockTimestamp
    decreases hi - lo
  {
    if lo + 1 < hi then
      var mid := lo + (hi - lo) / 2;
      if s[mid].unlockTimestamp <= now then Search(s, now, mid, hi) else Search(s, now, lo, mid)
    else lo + 1
  }

  lemma SearchHalves(s: Schedule, now: nat, lo: nat, hi: nat)
    requires lo < hi < |s| && s[lo].unlockTimestamp <= now < s[hi].unlockTimestamp
    ensures lo + 1 < hi ==>
      var mid := lo + (hi - lo) / 2;
      Search(s, now, lo, hi) ==
        if s[mid].unlockTimestamp <= now then Search(s, now, mid, hi) else Search(s, now, lo, mid)
    ensures lo + 1 == hi ==> Search(s, now, lo, hi) == hi
  {
  }

  /**
    * The length of the prefix `vested_amount_binary` sums. Sorted or not, its last tranche is unlocked and the
    * tranche after it is locked.
    */
  function UnlockedCount(s: Schedule, now: nat): (k: nat)
    ensures k <= |s|
    ensures k > 0 ==> s[k - 1].unlockTimestamp <= now
    ensures k < |s| ==> s[k].unlockTimestamp > now
  {
    if |s| == 0 || s[0].unlockTimestamp > now then 0
    else if s[|s| - 1].unlockTimestamp <= now then |s|
    else Search(s, now, 0, |s| - 1)
  }

  /** What `vested_amount_binary` returns; `None` when the checked sum overflows. */
  function Vested(s: Schedule, now: nat): Option<int> {
    CheckedPrefixSum(s, UnlockedCount(s, now))
  }

  lemma {:induction false} LinearScanSplit(s: Schedule, now: nat, k: nat, n: nat)
    requires k <= n <= |s|
    requires forall i :: 0 <= i < k ==> s[i].unlockTimestamp <= now
    requires forall i :: k <= i < |s| ==> s[i].unlockTimestamp > now
    ensures LinearScan(s[..n], now) == PrefixSum(s, k)
    decreases n
  {
    if n > k {
      assert s[..n][..n - 1] == s[..n - 1];
      LinearScanSplit(s, now, k, n - 1);
    } else {
      UnlockedScan(s, now, k);
    }
  }

  lemma {:induction false} UnlockedScan(s: Schedule, now: nat, k: nat)
    requires k <= |s| && forall i :: 0 <= i < k ==> s[i].unlockTimestamp <= now
    ensures LinearScan(s[..k], now) == PrefixSum(s, k)
  {
    if k > 0 {
      assert s[..k][..k - 1] == s[..k - 1];
      UnlockedScan(s, now, k - 1);
    }
  }

  /** At time `now` no locked tranche stands before an unlocked one. */
  ghost predicate PrefixUnlocked(s: Schedule, now: nat) {
    forall i, j :: 0 <= i < j < |s| && s[j].unlockTimestamp <= now ==> s[i].unlockTimestamp <= now
  }

  /** The first `k` tranches are the unlocked ones, neither fewer nor more. */
  ghost predicate CoversExactly(s: Schedule, k: nat, now: nat) {
    forall i :: 0 <= i < |s| ==> (i < k <==> s[i].unlockTimestamp <= now)
  }

  /** The search finds exactly the unlocked tranches if and only if they form a prefix. */
  lemma SearchExactIffPrefix(s: Schedule, now: nat)
    ensures CoversExactly(s, UnlockedCount(s, now), now) <==> PrefixUnlocked(s, now)
  {
    hide Search;
    var k: int := UnlockedCount(s, now);
    if PrefixUnlocked(s, now) {
      forall i | 0 <= i < |s|
        ensures i < k <==> s[i].unlockTimestamp <= now
      {
        PrefixAt(s, now, i, k - 1);
        PrefixAt(s, now, k, i);
      }
    }
  }

  lemma PrefixAt(s: Schedule, now: nat, i: int, j: int)
    requires PrefixUnlocked(s, now)
    ensures 0 <= i <= j < |s| && s[j].unlockTimestamp <= now ==> s[i].unlockTimestamp <= now
  {
  }

  /** The search is exact at every time if and only if the schedule is sorted. */
  lemma SearchExactIffSorted(s: Schedule)
    ensures Sorted(s) <==> (forall now: nat :: CoversExactly(s, UnlockedCount(s, now), now))
  {
    hide UnlockedCount, CoversExactly;
    forall now: nat
      ensures CoversExactly(s, UnlockedCount(s, now), now) <==> PrefixUnlocked(s, now)
    {
      SearchExactIffPrefix(s, now);
    }
    if Sorted(s) {
      forall now: nat
        ensures PrefixUnlocked(s, now)
      {
        SortedIsPrefixUnlocked(s, now);
      }
    }
    if forall now: nat :: CoversExactly(s, UnlockedCount(s, now), now) {
      forall i, j | 0 <= i < j < |s|
        ensures s[i].unlockTimestamp <= s[j].unlockTimestamp
      {
        assert CoversExactly(s, UnlockedCount(s, s[j].unlockTimestamp), s[j].unlockTimestamp);
        PrefixAt(s, s[j].unlockTimestamp, i, j);
      }
    }
  }

  lemma SortedIsPrefixUnlocked(s: Schedule, now: nat)
    requires Sorted(s)
    ensures PrefixUnlocked(s, now)
  {
  }

  /** When the unlocked tranches form a prefix the search sums exactly them; on a sorted schedule they always do. */
  lemma SearchIsLinearScan(s: Schedule, now: nat)
    requires PrefixUnlocked(s, now)
    ensures PrefixSum(s, UnlockedCount(s, now)) == LinearScan(s, now)
  {
    assert s[..|s|] == s;
    SearchExactIffPrefix(s, now);
    LinearScanSplit(s, now, UnlockedCount(s, now), |s|);
  }

  /** Once every time has passed the whole schedule is vested, sorted or not. */
  lemma AllMatured(s: Schedule, now: nat)
    requires forall i :: 0 <= i < |s| ==> s[i].unlockTimestamp <= now
    ensures UnlockedCount(s, now) == |s| && PrefixSum(s, UnlockedCount(s, now)) == TrancheTotal(s)
  {
  }

  /** From the same bracket, a later time ends the search no earlier: it goes right wherever the earlier one does. */
  lemma {:induction false} SearchMonotone(s: Schedule, now: nat, later: nat, lo: nat, hi: nat)
    requires lo < hi < |s| && now <= later
    requires s[lo].unlockTimestamp <= now && later < s[hi].unlockTimestamp
    ensures Search(s, now, lo, hi) <= Search(s, later, lo, hi)
    decreases hi - lo
  {
    hide Search;
    SearchHalves(s, now, lo, hi);
    SearchHalves(s, later, lo, hi);
    if lo + 1 < hi {
      var mid := lo + (hi - lo) / 2;
      if s[mid].unlockTimestamp <= now {
        SearchMonotone(s, now, later, mid, hi);
      } else if later < s[mid].unlockTimestamp {
        SearchMonotone(s, now, later, lo, mid);
      } else {
        SearchWithin(s, now, lo, mid);
        SearchWithin(s, later, mid, hi);
      }
    }
  }

  lemma SearchWithin(s: Schedule, now: nat, lo: nat, hi: nat)
    requires lo < hi < |s| && s[lo].unlockTimestamp <= now < s[hi].unlockTimestamp
    ensures lo < Search(s, now, lo, hi) <= hi
  {
  }

  /** As time goes on the search ends no earlier, on any schedule. */
  lemma CountOnlyGrows(s: Schedule, now: nat, later: nat)
    requires now <= later
    ensures UnlockedCount(s, now) <= UnlockedCount(s, later)
  {
    hide Search;
    if |s| > 0 && s[0].unlockTimestamp <= now && later < s[|s| - 1].unlockTimestamp {
      SearchMonotone(s, now, later, 0, |s| - 1);
    }
  }

  /** Nothing vested is ever taken back as time goes on, whether the schedule is sorted or not. */
  lemma VestingOnlyGrows(s: Schedule, now: nat, later: nat)
    requires now <= later
    requires forall i :: 0 <= i < |s| ==> s[i].amount > 0
    ensures PrefixSum(s, UnlockedCount(s, now)) <= PrefixSum(s, UnlockedCount(s, later))
  {
    CountOnlyGrows(s, now, later);
    PrefixSumMonotone(s, UnlockedCount(s, now), UnlockedCount(s, later));
  }

  /** An unlocked tranche behind a locked one can be missed. */
  lemma UnsortedSearchMisses()
    ensures var s := [VestingTranche(0, 5), VestingTranche(9, 5), VestingTranche(0, 5), VestingTranche(9, 5)];
            PrefixSum(s, UnlockedCount(s, 3)) == 5 < 10 == LinearScan(s, 3)
  {
    var s := [VestingTranche(0, 5), VestingTranche(9, 5), VestingTranche(0, 5), VestingTranche(9, 5)];
    assert Search(s, 3, 0, 3) == Search(s, 3, 0, 1) == 1;
    assert PrefixSum(s, 0) == 0;
    var a, b, c := s[..1], s[..2], s[..3];
    assert a[..0] == [] && b[..1] == a && c[..2] == b && s[..3] == c;
    assert LinearScan(a, 3) == 5;
    assert LinearScan(b, 3) == 5;
    assert LinearScan(c, 3) == 10;
  }

  /** A locked tranche before an unlocked one can be summed before its time. */
  lemma UnsortedSearchAnticipates()
    ensures var s := [VestingTranche(0, 1), VestingTranche(100, 5), VestingTranche(0, 1)];
            UnlockedCount(s, 1) == 3 && PrefixSum(s, 3) == 7 && LinearScan(s, 1) == 2
  {
    var s := [VestingTranche(0, 1), VestingTranche(100, 5), VestingTranche(0, 1)];
    assert PrefixSum(s, 0) == 0 && PrefixSum(s, 1) == 1 && PrefixSum(s, 2) == 6;
    var a, b := s[..1], s[..2];
    assert a[..0] == [] && b[..1] == a && s[..2] == b;
    assert LinearScan(a, 1) == 1;
    assert LinearScan(b, 1) == 1;
  }

  /** `sum_prefix`, over the tranches up to and including `last` */
  method SumPrefix(s: Schedule, last: nat) returns (r: Option<int>)
    requires last < |s|
    ensures r == CheckedPrefixSum(s, last + 1)
  {
    var total := 0;
    for i := 0 to last + 1
      invariant CheckedPrefixSum(s, i) == Some(total)
    {
      if !FitsI128(total + s[i].amount) {
        assert CheckedPrefixSum(s, i + 1).None?;
        FailureStays(s, i + 1, last + 1);
        return None;
      }
      total := total + s[i].amount;
    }
    return Some(total);
  }

  lemma NothingVested(s: Schedule)
    ensures CheckedPrefixSum(s, 0) == Some(0)
  {
  }

  /** `vested_amount_binary` */
  method VestedAmountBinary(s: Schedule, now: nat) returns (r: Option<int>)
    ensures r == Vested(s, now)
  {
    hide CheckedPrefixSum, Search;
    NothingVested(s);
    if |s| == 0 {
      return Some(0);
    }
    if s[0].unlockTimestamp > now {
      return Some(0);
    }
    if s[|s| - 1].unlockTimestamp <= now {
      r := SumPrefix(s, |s| - 1);
      return;
    }
    var lo, hi := 0, |s| - 1;
    while lo + 1 < hi
      invariant 0 <= lo < hi < |s| && s[lo].unlockTimestamp <= now < s[hi].unlockTimestamp
      invariant Search(s, now, lo, hi) == Search(s, now, 0, |s| - 1)
    {
      var mid := lo + (hi - lo) / 2;
      SearchHalves(s, now, lo, hi);
      if s[mid].unlockTimestamp <= now {
        lo := mid;
      } else {
        hi := mid;
      }
    }
    SearchHalves(s, now, lo, hi);
    r := SumPrefix(s, lo);
  }

  /** `assert_tranches_sorted`: accepted exactly when the whole list is sorted. */
  method TranchesSorted(s: Schedule) returns (sorted: bool)
    ensures sorted == Sorted(s)
  {
    if |s| <= 1 {
      return true;
    }
    var previous := s[0].unlockTimestamp;
    for i := 1 to |s|
      invariant previous == s[i - 1].unlockTimestamp
      invariant forall p, q :: 0 <= p < q < i ==> s[p].unlockTimestamp <= s[q].unlockTimestamp
    {
      var current := s[i].unlockTimestamp;
      if current < previous {
        assert s[i - 1].unlockTimestamp > s[i].unlockTimestamp;
        return false;
      }
      forall p | 0 <= p < i
        ensures s[p].unlockTimestamp <= s[i].unlockTimestamp
      {
        assert p == i - 1 || s[p].unlockTimestamp <= s[i - 1].unlockTimestamp;
      }
      previous := current;
    }
    return true;
  }
}
