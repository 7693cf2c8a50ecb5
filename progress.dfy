/**
 * Progress arithmetic: a key result's percentage, an OKR's overall progress
 * (computed identically by the server and by the client API module), the
 * clamped percentage the OKR dialogs display, and the two status
 * classifiers of the client pages.
 */
module Progress {
  import opened Common
  import opened OkrSchema

  /** `(current / target) * 100`. */
  function Percent(current: real, target: real): real
    requires target > 0.0
  {
    current / target * 100.0
  }

  /** `Math.round((kr.currentValue / kr.targetValue) * 100)`: not clamped. */
  function KeyResultProgress(current: real, target: real): int
    requires target > 0.0
  {
    Round(Percent(current, target))
  }

  /** Dividing by a positive target keeps a lower bound: c >= k * t gives c / t >= k. */
  lemma QuotientAtLeast(c: real, t: real, k: real)
    requires t > 0.0 && c >= k * t
    ensures c / t >= k
  {
    var q := c / t;
    assert q * t == c;
    if q < k {
      assert (k - q) * t > 0.0;
    }
  }

  /** A key result with 0 <= current <= target has a percentage in 0..100. */
  lemma PercentBounds(current: real, target: real)
    requires target > 0.0 && 0.0 <= current <= target
    ensures 0.0 <= Percent(current, target) <= 100.0
  {
    assert current / target <= 1.0 by {
      assert current / target * target == current;
    }
  }

  /** A positive number divided by itself is one. */
  lemma DivSelf(x: real)
    requires x > 0.0
    ensures x / x == 1.0
  {
  }

  /** Against a positive target, the percentage reaches `100 * k` exactly when the current value reaches `k` times the target. */
  lemma PercentAtLeast(c: real, t: real, k: real)
    requires t > 0.0
    ensures Percent(c, t) >= 100.0 * k <==> c >= k * t
  {
    var q := c / t;
    assert q * t == c;
    if c >= k * t {
      QuotientAtLeast(c, t, k);
    } else {
      assert (k - q) * t > 0.0;
    }
  }

  /**
   * The per-key-result progress is not clamped: it exceeds 100 exactly when
   * the current value reaches 100.5 % of the target, and is negative exactly
   * when the current value is below -0.5 % of the target, so it lies in
   * 0..100 exactly between those two bounds; a value within its target is
   * always in 0..100, and a met target gives 100.
   */
  lemma KeyResultProgressRange(current: real, target: real)
    requires target > 0.0
    ensures KeyResultProgress(current, target) > 100 <==> current >= 1.005 * target
    ensures KeyResultProgress(current, target) < 0 <==> current < -0.005 * target
    ensures 0 <= KeyResultProgress(current, target) <= 100 <==> -0.005 * target <= current < 1.005 * target
    ensures 0.0 <= current <= target ==> 0 <= KeyResultProgress(current, target) <= 100
    ensures current == target ==> KeyResultProgress(current, target) == 100
  {
    PercentAtLeast(current, target, 1.005);
    PercentAtLeast(current, target, -0.005);
    if current == target {
      DivSelf(target);
      assert Percent(current, target) == 100.0;
    }
  }

  predicate TargetsPositive(krs: seq<KeyResult>) {
    forall i :: 0 <= i < |krs| ==> krs[i].targetValue > 0.0
  }

  predicate WithinTargets(krs: seq<KeyResult>) {
    forall i :: 0 <= i < |krs| ==> 0.0 <= krs[i].currentValue <= krs[i].targetValue
  }

  /** The `reduce` of `calculateProgress`: the sum of the raw percentages. */
  function SumPercents(krs: seq<KeyResult>): real
    requires TargetsPositive(krs)
  {
    if krs == [] then 0.0
    else Percent(krs[0].currentValue, krs[0].targetValue) + SumPercents(krs[1..])
  }

  /**
   * `calculateProgress` / `calculateOKRProgress`: 0 for no key results,
   * otherwise the rounded mean of the raw (unrounded) percentages.
   */
  function OverallProgress(krs: seq<KeyResult>): int
    requires TargetsPositive(krs)
  {
    if |krs| == 0 then 0 else Round(SumPercents(krs) / |krs| as real)
  }

  lemma {:induction false} SumPercentsBounds(krs: seq<KeyResult>)
    requires TargetsPositive(krs) && WithinTargets(krs)
    ensures 0.0 <= SumPercents(krs) <= 100.0 * |krs| as real
  {
    if krs != [] {
      PercentBounds(krs[0].currentValue, krs[0].targetValue);
      SumPercentsBounds(krs[1..]);
    }
  }

  lemma {:induction false} SumPercentsAllMet(krs: seq<KeyResult>)
    requires TargetsPositive(krs)
    requires forall i :: 0 <= i < |krs| ==> krs[i].currentValue == krs[i].targetValue
    ensures SumPercents(krs) == 100.0 * |krs| as real
  {
    if krs != [] {
      SumPercentsAllMet(krs[1..]);
    }
  }

  /**
   * Overall progress is 0 without key results, lies in 0..100 when every key
   * result is within its target, and is 100 when every target is met.
   */
  lemma OverallProgressRange(krs: seq<KeyResult>)
    requires TargetsPositive(krs)
    ensures krs == [] ==> OverallProgress(krs) == 0
    ensures WithinTargets(krs) ==> 0 <= OverallProgress(krs) <= 100
    ensures krs != [] && (forall i :: 0 <= i < |krs| ==> krs[i].currentValue == krs[i].targetValue)
      ==> OverallProgress(krs) == 100
  {
    if krs != [] {
      var n := |krs| as real;
      if WithinTargets(krs) {
        SumPercentsBounds(krs);
        assert SumPercents(krs) / n <= 100.0 by {
          assert SumPercents(krs) / n * n == SumPercents(krs);
        }
        RoundBounds(SumPercents(krs) / n, 0, 100);
      }
      if forall i :: 0 <= i < |krs| ==> krs[i].currentValue == krs[i].targetValue {
        SumPercentsAllMet(krs);
        assert SumPercents(krs) / n == 100.0;
      }
    }
  }

  /** The mean of the already rounded per-key-result progress values. */
  function MeanOfRounded(krs: seq<KeyResult>): int
    requires TargetsPositive(krs)
  {
    if |krs| == 0 then 0
    else Round(SumRounded(krs) as real / |krs| as real)
  }

  function SumRounded(krs: seq<KeyResult>): int
    requires TargetsPositive(krs)
  {
    if krs == [] then 0
    else KeyResultProgress(krs[0].currentValue, krs[0].targetValue) + SumRounded(krs[1..])
  }

  /**
   * Overall progress averages the raw ratios, not the stored per-key-result
   * progress: key results at 0.5% and 0.4% are stored as 1 and 0, whose mean
   * rounds to 1, while the OKR's progress is 0.
   */
  lemma OverallProgressUsesRawRatios()
    ensures var krs := [KeyResult("a", 1.0, 200.0, 1), KeyResult("b", 2.0, 500.0, 0)];
      OverallProgress(krs) == 0 && MeanOfRounded(krs) == 1
  {
    var krs := [KeyResult("a", 1.0, 200.0, 1), KeyResult("b", 2.0, 500.0, 0)];
    assert Percent(1.0, 200.0) == 0.5;
    assert Percent(2.0, 500.0) == 0.4;
    assert krs[1..][1..] == [];
    assert SumPercents(krs) == 0.9;
    assert KeyResultProgress(1.0, 200.0) == 1;
    assert KeyResultProgress(2.0, 500.0) == 0;
    assert SumRounded(krs) == 1;
  }

  // ---------------------------------------------------------------------------
  // The dialogs' clamped display percentage
  // ---------------------------------------------------------------------------

  /**
   * The dialogs' `calculateProgress(current || 0, target || 1)`:
   * `Math.min(Math.round((current / target) * 100), 100)`, where a zero target
   * is replaced by 1.
   */
  function DisplayedProgress(current: real, target: real): int {
    var t := if target == 0.0 then 1.0 else target;
    var p := Round(current / t * 100.0);
    if p < 100 then p else 100
  }

  /**
   * The displayed percentage never exceeds 100, and for a key result within a
   * positive target it is exactly the progress the server stores for it.
   */
  lemma DisplayedProgressSpec(current: real, target: real)
    ensures DisplayedProgress(current, target) <= 100
    ensures target > 0.0 && 0.0 <= current <= target ==>
      DisplayedProgress(current, target) == KeyResultProgress(current, target)
    ensures target > 0.0 && current > target ==>
      DisplayedProgress(current, target) == 100 <= KeyResultProgress(current, target)
  {
    if target > 0.0 {
      KeyResultProgressRange(current, target);
      if current > target {
        QuotientAtLeast(current, target, 1.0);
        RoundBounds(Percent(current, target), 100, Round(Percent(current, target)) + 100);
      }
    }
  }

  // ---------------------------------------------------------------------------
  // Status classifiers
  // ---------------------------------------------------------------------------

  /** The OKR list's `getStatusFromProgress`: "Unknown" outside 0..100. */
  function ListStatus(progress: int): string {
    if progress == 0 then NOT_STARTED
    else if 0 < progress < 100 then IN_PROGRESS
    else if progress == 100 then COMPLETED
    else "Unknown"
  }

  /**
   * The detail page's `getStatusFromProgress`, which is also the client API's
   * `getOKRStatus`: anything other than 0 and 100 is in progress.
   */
  function DetailStatus(progress: int): string {
    if progress == 0 then NOT_STARTED
    else if progress == 100 then COMPLETED
    else IN_PROGRESS
  }

  /**
   * The detail classifier always names a schema status; the two classifiers
   * agree exactly on progress values in 0..100, and the list's answer is a
   * schema status exactly there.
   */
  lemma StatusClassifiersAgree(progress: int)
    ensures DetailStatus(progress) in STATUSES
    ensures ListStatus(progress) == DetailStatus(progress) <==> 0 <= progress <= 100
    ensures ListStatus(progress) in STATUSES <==> 0 <= progress <= 100
  {
  }

  /** The classifiers name a status by its progress band. */
  lemma DetailStatusBands(progress: int)
    ensures DetailStatus(progress) == NOT_STARTED <==> progress == 0
    ensures DetailStatus(progress) == COMPLETED <==> progress == 100
    ensures ListStatus(progress) == IN_PROGRESS <==> 0 < progress < 100
  {
  }

  // ---------------------------------------------------------------------------
  // Rollups of stored progress (dashboard and team directory)
  // ---------------------------------------------------------------------------

  /** Dividing by a positive count keeps an upper bound: c <= k * t gives c / t <= k. */
  lemma QuotientAtMost(c: real, t: real, k: real)
    requires t > 0.0 && c <= k * t
    ensures c / t <= k
  {
    var q := c / t;
    assert q * t == c;
    if q > k {
      assert (q - k) * t > 0.0;
    }
  }

  /** `okrs.reduce((sum, okr) => sum + okr.progress, 0)`. */
  function SumProgress(okrs: seq<Okr>): int {
    if okrs == [] then 0 else okrs[0].progress + SumProgress(okrs[1..])
  }

  /** 0 for no OKRs, otherwise `Math.round(sum / okrs.length)` of their stored progress. */
  function MeanProgress(okrs: seq<Okr>): int {
    if |okrs| == 0 then 0 else Round(SumProgress(okrs) as real / |okrs| as real)
  }

  predicate ProgressWithin(okrs: seq<Okr>, lo: int, hi: int) {
    forall i :: 0 <= i < |okrs| ==> lo <= okrs[i].progress <= hi
  }

  lemma {:induction false} SumProgressBounds(okrs: seq<Okr>, lo: int, hi: int)
    requires ProgressWithin(okrs, lo, hi)
    ensures lo * |okrs| <= SumProgress(okrs) <= hi * |okrs|
  {
    if okrs != [] {
      var n := |okrs[1..]|;
      SumProgressBounds(okrs[1..], lo, hi);
      assert SumProgress(okrs) == okrs[0].progress + SumProgress(okrs[1..]);
      assert lo * (n + 1) == lo * n + lo && hi * (n + 1) == hi * n + hi;
    }
  }

  /**
   * The rollup is 0 for no OKRs and otherwise lies within the range of the
   * progress values it averages; in particular OKRs that all report p roll
   * up to p.
   */
  lemma MeanProgressBounds(okrs: seq<Okr>, lo: int, hi: int)
    requires ProgressWithin(okrs, lo, hi)
    ensures okrs == [] ==> MeanProgress(okrs) == 0
    ensures okrs != [] ==> lo <= MeanProgress(okrs) <= hi
  {
    if okrs != [] {
      var n := |okrs| as real;
      var sum := SumProgress(okrs) as real;
      SumProgressBounds(okrs, lo, hi);
      assert lo as real * n <= sum <= hi as real * n;
      QuotientAtLeast(sum, n, lo as real);
      QuotientAtMost(sum, n, hi as real);
      RoundBounds(sum / n, lo, hi);
    }
  }
}
