/**
 * Model of `calculate_commission`: a sales commission read off two band
 * tables (one for the ROI, one for the GMV), converted from USD to CNY, and a
 * separate bonus for reaching a GMV target. Amounts are in units of 10 000.
 *
 * The source computes on floats; here every quantity is an exact `real`.
 */
module Commission {

  import opened RealArith

  const UsdToCny := 7.0

  /** The rate of lines 14-38: bands `[lo, hi)` of the ROI. */
  function RoiRate(roi: real): (rate: real)
    ensures 0.0 <= rate <= 0.02
  {
    if roi < 1.5 then 0.000
    else if 1.5 <= roi < 1.6 then 0.002
    else if 1.6 <= roi < 1.7 then 0.004
    else if 1.7 <= roi < 1.8 then 0.005
    else if 1.8 <= roi < 1.9 then 0.007
    else if 1.9 <= roi < 2.0 then 0.009
    else if 2.0 <= roi < 2.2 then 0.010
    else if 2.2 <= roi < 2.4 then 0.012
    else if 2.4 <= roi < 2.6 then 0.014
    else if 2.6 <= roi < 2.8 then 0.016
    else if 2.8 <= roi < 3.1 then 0.018
    else if roi >= 3.1 then 0.02
    else 0.0  // the initial value; no real ROI gets here
  }

  /** The multiplier of lines 41-59: bands `(lo, hi]` of the GMV. */
  function GmvMultiplier(gmv: real): (m: real)
    ensures 0.6 <= m <= 2.0
  {
    if gmv <= 1.5 then 0.6
    else if 1.5 < gmv <= 3.0 then 0.8
    else if 3.0 < gmv <= 6.0 then 1.15
    else if 6.0 < gmv <= 10.0 then 1.2
    else if 10.0 < gmv <= 15.0 then 1.3
    else if 15.0 < gmv <= 20.0 then 1.4
    else if 20.0 < gmv <= 30.0 then 1.5
    else if 30.0 < gmv <= 50.0 then 1.6
    else if gmv > 50.0 then 2.0
    else 0.0  // the initial value; no real GMV gets here
  }

  /** The bonus tiers of lines 74-81, on the completion ratio. */
  function BonusForRatio(completion: real): (bonus: real)
    ensures bonus in {0.0, 0.03, 0.05, 0.1, 0.2}
  {
    if completion >= 2.0 then 0.2
    else if completion >= 1.5 then 0.1
    else if completion >= 1.2 then 0.05
    else if completion >= 1.0 then 0.03
    else 0.0
  }

  /** The task bonus of lines 71-81: nothing without a positive target. */
  function TaskBonus(gmv: real, targetGmv: real): (bonus: real)
    ensures targetGmv <= 0.0 ==> bonus == 0.0
    ensures 0.0 <= bonus <= 0.2
  {
    if targetGmv > 0.0 then BonusForRatio(gmv / targetGmv) else 0.0
  }

  /** What the function returns: the USD commission, the CNY commission and
      the task bonus. */
  datatype Payout = Payout(usd: real, cny: real, bonus: real)

  /** `commission_rate` of line 62: the ROI rate times the GMV multiplier. */
  function CommissionRate(gmv: real, roi: real): (rate: real)
    ensures 0.0 <= rate <= 0.04
  {
    RateTimesMultiplier(RoiRate(roi), GmvMultiplier(gmv));
    RoiRate(roi) * GmvMultiplier(gmv)
  }

  lemma RateTimesMultiplier(rate: real, m: real)
    requires 0.0 <= rate <= 0.02 && 0.0 <= m <= 2.0
    ensures 0.0 <= rate * m <= 0.04
  {
    MulNonnegative(rate, m);
    MulMonotone(rate, 0.02, m);
  }

  /** `final_commission_usd` of line 65. */
  function Usd(gmv: real, roi: real): (usd: real)
    ensures usd == gmv * RoiRate(roi) * GmvMultiplier(gmv)
    ensures 0.0 <= gmv ==> 0.0 <= usd <= 0.04 * gmv
    ensures gmv <= 0.0 ==> usd <= 0.0
  {
    var rate := CommissionRate(gmv, roi);
    if 0.0 <= gmv then
      MulNonnegative(rate, gmv);
      MulMonotone(rate, 0.04, gmv);
      gmv * rate
    else
      MulNonnegative(rate, -gmv);
      gmv * rate
  }

  /** `calculate_commission` (lines 1-83). */
  function CalculateCommission(gmv: real, roi: real, targetGmv: real): (r: Payout)
    ensures r.usd == gmv * RoiRate(roi) * GmvMultiplier(gmv)
    ensures r.cny == r.usd * UsdToCny
    ensures r.bonus == TaskBonus(gmv, targetGmv)
    ensures targetGmv <= 0.0 ==> r.bonus == 0.0
  {
    var usd := Usd(gmv, roi);
    Payout(usd, usd * UsdToCny, TaskBonus(gmv, targetGmv))
  }

  // An independent description of the band tables, as sorted thresholds.

  /** From `threshold` on (or strictly above it) the table yields `value`. */
  datatype Step = Step(threshold: real, value: real)

  /** Whether `x` has reached `threshold`: `threshold <= x`, or, for tables
      whose bands exclude their lower bound, `threshold < x`. */
  predicate Reached(threshold: real, x: real, strict: bool)
  {
    if strict then threshold < x else threshold <= x
  }

  /** The value of the last step that `x` reaches, or `base` below the first. */
  function StepAt(base: real, table: seq<Step>, x: real, strict: bool): real
    decreases |table|
  {
    if table == [] || !Reached(table[0].threshold, x, strict) then base
    else StepAt(table[0].value, table[1..], x, strict)
  }

  /** Thresholds strictly increase along the table. */
  predicate Ascending(table: seq<Step>)
  {
    forall i, j :: 0 <= i < j < |table| ==> table[i].threshold < table[j].threshold
  }

  /** Values never decrease along the table, starting from `base`. */
  predicate Rising(base: real, table: seq<Step>)
    decreases |table|
  {
    table == [] || (base <= table[0].value && Rising(table[0].value, table[1..]))
  }

  /** In band `i` (between thresholds `i - 1` and `i`) the table yields the
      value of step `i - 1`, or `base` in band 0. */
  lemma {:induction false} StepAtBand(base: real, table: seq<Step>, x: real, strict: bool, i: nat)
    requires Ascending(table) && i <= |table|
    requires i == 0 || Reached(table[i - 1].threshold, x, strict)
    requires i == |table| || !Reached(table[i].threshold, x, strict)
    ensures StepAt(base, table, x, strict) == if i == 0 then base else table[i - 1].value
    decreases |table|
  {
    if i > 0 {
      assert table[0].threshold <= table[i - 1].threshold;
      var rest := table[1..];
      assert Ascending(rest);
      StepAtBand(table[0].value, rest, x, strict, i - 1);
    }
  }

  /** A rising table never yields less than its base. */
  lemma {:induction false} StepAtAtLeastBase(base: real, table: seq<Step>, x: real, strict: bool)
    requires Rising(base, table)
    ensures base <= StepAt(base, table, x, strict)
    decreases |table|
  {
    if table != [] && Reached(table[0].threshold, x, strict) {
      StepAtAtLeastBase(table[0].value, table[1..], x, strict);
    }
  }

  /** A rising table is a non-decreasing step function. */
  lemma {:induction false} StepAtMonotone(base: real, table: seq<Step>, x: real, y: real, strict: bool)
    requires Rising(base, table) && x <= y
    ensures StepAt(base, table, x, strict) <= StepAt(base, table, y, strict)
    decreases |table|
  {
    if table != [] {
      if Reached(table[0].threshold, x, strict) {
        StepAtMonotone(table[0].value, table[1..], x, y, strict);
      } else {
        StepAtAtLeastBase(base, table, y, strict);
      }
    }
  }

  const RoiTable := [
    Step(1.5, 0.002), Step(1.6, 0.004), Step(1.7, 0.005), Step(1.8, 0.007),
    Step(1.9, 0.009), Step(2.0, 0.010), Step(2.2, 0.012), Step(2.4, 0.014),
    Step(2.6, 0.016), Step(2.8, 0.018), Step(3.1, 0.02)]

  const GmvTable := [
    Step(1.5, 0.8), Step(3.0, 1.15), Step(6.0, 1.2), Step(10.0, 1.3),
    Step(15.0, 1.4), Step(20.0, 1.5), Step(30.0, 1.6), Step(50.0, 2.0)]

  const BonusTable := [Step(1.0, 0.03), Step(1.2, 0.05), Step(1.5, 0.1), Step(2.0, 0.2)]

  /** The three tables are sorted by threshold. */
  lemma TablesAscending()
    ensures Ascending(RoiTable) && Ascending(GmvTable) && Ascending(BonusTable)
  {
  }

  /** The ROI chain is the ROI table, lower bounds included; and the rate
      never decreases as the ROI grows. */
  lemma RoiRateIsTable(roi: real)
    ensures RoiRate(roi) == StepAt(0.0, RoiTable, roi, false)
  {
    if roi < 2.0 {
      LowRoiIsTable(roi);
    } else {
      HighRoiIsTable(roi);
    }
  }

  lemma LowRoiIsTable(roi: real)
    requires roi < 2.0
    ensures RoiRate(roi) == StepAt(0.0, RoiTable, roi, false)
  {
    var t := RoiTable;
    TablesAscending();
    if roi < 1.5 { StepAtBand(0.0, t, roi, false, 0); }
    else if roi < 1.6 { StepAtBand(0.0, t, roi, false, 1); }
    else if roi < 1.7 { StepAtBand(0.0, t, roi, false, 2); }
    else if roi < 1.8 { StepAtBand(0.0, t, roi, false, 3); }
    else if roi < 1.9 { StepAtBand(0.0, t, roi, false, 4); }
    else { StepAtBand(0.0, t, roi, false, 5); }
  }

  lemma HighRoiIsTable(roi: real)
    requires roi >= 2.0
    ensures RoiRate(roi) == StepAt(0.0, RoiTable, roi, false)
  {
    var t := RoiTable;
    TablesAscending();
    if roi < 2.2 { StepAtBand(0.0, t, roi, false, 6); }
    else if roi < 2.4 { StepAtBand(0.0, t, roi, false, 7); }
    else if roi < 2.6 { StepAtBand(0.0, t, roi, false, 8); }
    else if roi < 2.8 { StepAtBand(0.0, t, roi, false, 9); }
    else if roi < 3.1 { StepAtBand(0.0, t, roi, false, 10); }
    else { StepAtBand(0.0, t, roi, false, 11); }
  }

  /** The GMV chain is the GMV table, lower bounds excluded. */
  lemma GmvMultiplierIsTable(gmv: real)
    ensures GmvMultiplier(gmv) == StepAt(0.6, GmvTable, gmv, true)
  {
    var t := GmvTable;
    TablesAscending();
    if gmv <= 1.5 { StepAtBand(0.6, t, gmv, true, 0); }
    else if gmv <= 3.0 { StepAtBand(0.6, t, gmv, true, 1); }
    else if gmv <= 6.0 { StepAtBand(0.6, t, gmv, true, 2); }
    else if gmv <= 10.0 { StepAtBand(0.6, t, gmv, true, 3); }
    else if gmv <= 15.0 { StepAtBand(0.6, t, gmv, true, 4); }
    else if gmv <= 20.0 { StepAtBand(0.6, t, gmv, true, 5); }
    else if gmv <= 30.0 { StepAtBand(0.6, t, gmv, true, 6); }
    else if gmv <= 50.0 { StepAtBand(0.6, t, gmv, true, 7); }
    else { StepAtBand(0.6, t, gmv, true, 8); }
  }

  /** The bonus tiers are the bonus table, thresholds included. */
  lemma BonusForRatioIsTable(completion: real)
    ensures BonusForRatio(completion) == StepAt(0.0, BonusTable, completion, false)
  {
    var t := BonusTable;
    TablesAscending();
    if completion < 1.0 { StepAtBand(0.0, t, completion, false, 0); }
    else if completion < 1.2 { StepAtBand(0.0, t, completion, false, 1); }
    else if completion < 1.5 { StepAtBand(0.0, t, completion, false, 2); }
    else if completion < 2.0 { StepAtBand(0.0, t, completion, false, 3); }
    else { StepAtBand(0.0, t, completion, false, 4); }
  }

  /** A higher ROI never earns a lower rate. */
  lemma RoiRateMonotone(roi: real, roi': real)
    requires roi <= roi'
    ensures RoiRate(roi) <= RoiRate(roi')
  {
    RoiRateIsTable(roi);
    RoiRateIsTable(roi');
    assert Rising(0.0, RoiTable);
    StepAtMonotone(0.0, RoiTable, roi, roi', false);
  }

  /** A higher GMV never earns a lower multiplier. */
  lemma GmvMultiplierMonotone(gmv: real, gmv': real)
    requires gmv <= gmv'
    ensures GmvMultiplier(gmv) <= GmvMultiplier(gmv')
  {
    GmvMultiplierIsTable(gmv);
    GmvMultiplierIsTable(gmv');
    assert Rising(0.6, GmvTable);
    StepAtMonotone(0.6, GmvTable, gmv, gmv', true);
  }

  lemma DivMonotone(x: real, y: real, d: real)
    requires x <= y && 0.0 < d
    ensures x / d <= y / d
  {
    MulMonotone(x, y, 1.0 / d);
    assert x / d == x * (1.0 / d) && y / d == y * (1.0 / d);
  }

  /** For a fixed positive target, a higher GMV never earns a lower bonus. */
  lemma TaskBonusMonotone(gmv: real, gmv': real, targetGmv: real)
    requires gmv <= gmv' && 0.0 < targetGmv
    ensures TaskBonus(gmv, targetGmv) <= TaskBonus(gmv', targetGmv)
  {
    var c, c' := gmv / targetGmv, gmv' / targetGmv;
    DivMonotone(gmv, gmv', targetGmv);
    BonusForRatioIsTable(c);
    BonusForRatioIsTable(c');
    assert Rising(0.0, BonusTable);
    StepAtMonotone(0.0, BonusTable, c, c', false);
  }

  /** The bonus is earned exactly when the target is positive and at least met. */
  lemma TaskBonusEarned(gmv: real, targetGmv: real)
    ensures TaskBonus(gmv, targetGmv) > 0.0 <==> targetGmv > 0.0 && gmv / targetGmv >= 1.0
  {
  }

  /** For a non-negative GMV the USD commission is between 0 and 4% of it:
      the highest rate 0.02 times the highest multiplier 2.0. */
  lemma UsdBounds(gmv: real, roi: real, targetGmv: real)
    requires 0.0 <= gmv
    ensures var usd := CalculateCommission(gmv, roi, targetGmv).usd;
      0.0 <= usd <= 0.04 * gmv
  {
    var rate := CommissionRate(gmv, roi);
    MulNonnegative(rate, gmv);
    MulMonotone(rate, 0.04, gmv);
  }

  /** For a fixed non-negative GMV, a higher ROI never earns a lower USD (and
      so CNY) commission. */
  lemma UsdMonotoneInRoi(gmv: real, roi: real, roi': real, targetGmv: real)
    requires 0.0 <= gmv && roi <= roi'
    ensures CalculateCommission(gmv, roi, targetGmv).usd <= CalculateCommission(gmv, roi', targetGmv).usd
  {
    UsdMonotone(gmv, roi, roi');
  }

  lemma UsdMonotone(gmv: real, roi: real, roi': real)
    requires 0.0 <= gmv && roi <= roi'
    ensures Usd(gmv, roi) <= Usd(gmv, roi')
  {
    CommissionRateMonotone(gmv, roi, roi');
    MulMonotone(CommissionRate(gmv, roi), CommissionRate(gmv, roi'), gmv);
  }

  /** For a fixed GMV, a higher ROI never gives a lower commission rate. */
  lemma CommissionRateMonotone(gmv: real, roi: real, roi': real)
    requires roi <= roi'
    ensures CommissionRate(gmv, roi) <= CommissionRate(gmv, roi')
  {
    RoiRateMonotone(roi, roi');
    MulMonotone(RoiRate(roi), RoiRate(roi'), GmvMultiplier(gmv));
  }
}
