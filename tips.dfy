/**
 * The rotating "Daily Tip" banner (`QuoteBanner` in src/learning/Components.tsx).
 * The banner keeps one index into the tip list; every timer tick replaces it by
 * `(prev + 1) % length`. The timer itself is not modelled; a run of the banner is
 * described by the number of ticks that have happened.
 */
module Tips {

  /** The number of entries in the `dailyTips` list. */
  const DailyTipCount: nat := 5

  /** The index the banner shows before the first tick. */
  const InitialTip: nat := 0

  /** One timer tick: the index of the tip shown next. */
  function NextTip(prev: nat, len: nat): (next: nat)
    requires len > 0
    ensures next < len
    ensures prev + 1 < len ==> next == prev + 1
    ensures prev + 1 == len ==> next == 0
  {
    (prev + 1) % len
  }

  /** The index shown after `ticks` timer ticks, starting from the initial index. */
  function TipAfter(len: nat, ticks: nat): (tip: nat)
    requires len > 0
    ensures tip < len
    ensures ticks == 0 ==> tip == InitialTip
  {
    if ticks == 0 then InitialTip else NextTip(TipAfter(len, ticks - 1), len)
  }

  /** Taking the remainder before or after one tick gives the same index. */
  lemma {:induction false} ModOfSuccessor(k: nat, len: nat)
    requires len > 0
    ensures (k % len + 1) % len == (k + 1) % len
  {
    var q, r := k / len, k % len;
    assert k == q * len + r;
    if r + 1 < len {
      assert k + 1 == q * len + (r + 1);
      ModUnique(k + 1, len, q, r + 1);
    } else {
      assert k + 1 == (q + 1) * len;
      ModUnique(k + 1, len, q + 1, 0);
      ModUnique(r + 1, len, 1, 0);
    }
  }

  /** Euclidean division is unique: any quotient/remainder decomposition of `a` gives `a % len`. */
  lemma ModUnique(a: nat, len: nat, q: nat, r: nat)
    requires len > 0 && r < len && a == q * len + r
    ensures a % len == r
  {
    var q', r' := a / len, a % len;
    assert (q - q') * len == r' - r;
    if q > q' {
      MulAtLeast(q - q', len);
    } else if q < q' {
      MulAtLeast(q' - q, len);
    }
  }

  lemma MulAtLeast(x: int, len: int)
    requires x >= 1 && len > 0
    ensures x * len >= len
  {
  }

  /** After `ticks` ticks the banner shows tip number `ticks mod len`: it never leaves the list. */
  lemma {:induction false} TipAfterIsTicksModLen(len: nat, ticks: nat)
    requires len > 0
    ensures TipAfter(len, ticks) == ticks % len
    ensures TipAfter(len, ticks) < len
  {
    if ticks > 0 {
      TipAfterIsTicksModLen(len, ticks - 1);
      ModOfSuccessor(ticks - 1, len);
    }
  }

  /** The first `len` ticks visit every tip in order, and tick `len` wraps back to the first. */
  lemma VisitsEveryTipInOrder(len: nat)
    requires len > 0
    ensures forall k :: 0 <= k < len ==> TipAfter(len, k) == k
    ensures TipAfter(len, len) == 0
  {
    forall k | 0 <= k < len
      ensures TipAfter(len, k) == k
    {
      TipAfterIsTicksModLen(len, k);
      ModUnique(k, len, 0, k);
    }
    TipAfterIsTicksModLen(len, len);
    ModUnique(len, len, 1, 0);
  }

  /** The banner is periodic: `len` further ticks show the same tip again. */
  lemma {:induction false} TipAfterIsPeriodic(len: nat, ticks: nat)
    requires len > 0
    ensures TipAfter(len, ticks + len) == TipAfter(len, ticks)
  {
    TipAfterIsTicksModLen(len, ticks + len);
    TipAfterIsTicksModLen(len, ticks);
    ModOfAddLen(ticks, len);
  }

  /** Adding one full period does not change the remainder. */
  lemma ModOfAddLen(k: nat, len: nat)
    requires len > 0
    ensures (k + len) % len == k % len
  {
    var q, r := k / len, k % len;
    assert k + len == (q + 1) * len + r;
    ModUnique(k + len, len, q + 1, r);
  }

  /** With the five built-in tips, the indices shown are 0, 1, 2, 3, 4, 0. */
  lemma DailyTipsCycle()
    ensures [TipAfter(DailyTipCount, 0), TipAfter(DailyTipCount, 1), TipAfter(DailyTipCount, 2),
             TipAfter(DailyTipCount, 3), TipAfter(DailyTipCount, 4), TipAfter(DailyTipCount, 5)]
            == [0, 1, 2, 3, 4, 0]
  {
    VisitsEveryTipInOrder(DailyTipCount);
  }
}
