/**
 The mode classifier: from the ledger, the balance to judge and the current
 month, decide whether the account is stopped, defending, normal or
 attacking.  The first rule that matches wins.
 */
module Modes {
  import opened Trades
  import opened Statistics

  /**
   The most recent `k` trades, or all of them when there are fewer; `k` is
   positive, since a window of 0 would be the whole ledger, not an empty one.
   */
  function Recent(ts: seq<Trade>, k: nat): (w: seq<Trade>)
    requires k > 0
    ensures |w| <= k && |w| <= |ts|
    ensures |ts| >= k ==> |w| == k
    ensures |ts| <= k ==> w == ts
    ensures w == ts[|ts| - |w|..]
  {
    if |ts| <= k then ts else ts[|ts| - k..]
  }

  /** The average result over the last ten trades, as the classifier computes it (dividing by at least 1). */
  function ModeAvgR(ts: seq<Trade>): (r: real)
    ensures |ts| == 0 ==> r == 0.0
    ensures |ts| >= 10 ==> r == Share(SumR(ts[|ts| - 10..]), 10.0)
    ensures 0 < |ts| < 10 ==> r == Share(SumR(ts), |ts| as real)
  {
    var w := Recent(ts, 10);
    Share(SumR(w), Max(|w| as real, 1.0))
  }

  /** The average result over the last ten trades, as the conditions checklist computes it. */
  function AvgR10(ts: seq<Trade>): (r: real)
    ensures |ts| == 0 ==> r == 0.0
    ensures |ts| >= 10 ==> r == Share(SumR(ts[|ts| - 10..]), 10.0)
    ensures 0 < |ts| < 10 ==> r == Share(SumR(ts), |ts| as real)
  {
    var w := Recent(ts, 10);
    if |w| > 0 then Share(SumR(w), |w| as real) else 0.0
  }

  /**
   The classifier recomputes the ten-trade average and the drawdown on its
   own; on the latest balance both agree with the dashboard's figures.
   */
  lemma DashboardAgrees(ts: seq<Trade>)
    ensures ModeAvgR(ts) == AvgR10(ts)
    ensures |ts| == 0 ==> AvgR10(ts) == 0.0
    ensures |ts| > 0 ==> ModeDD(ts, Balance(ts)) == CurrentDD(ts)
  {
  }

  /** Whether the last three trades exist and all three lost. */
  function Con3Loss(ts: seq<Trade>): (c: bool)
    ensures c <==> |ts| >= 3 && forall i :: |ts| - 3 <= i < |ts| ==> R(ts[i]) < 0.0
  {
    var w := Recent(ts, 3);
    |w| == 3 && forall i :: 0 <= i < |w| ==> R(w[i]) < 0.0
  }

  /** The three-loss flag is exactly "the losing streak has reached 3". */
  lemma Con3LossIffStreak(ts: seq<Trade>)
    ensures Con3Loss(ts) <==> Streak(ts) >= 3
    ensures |ts| < 3 ==> !Con3Loss(ts)
  {
    var s := Streak(ts);
    var w := Recent(ts, 3);
    if |ts| >= 3 {
      assert forall i :: 0 <= i < 3 ==> w[i] == ts[|ts| - 3 + i];
      if s < 3 {
        assert R(w[2 - s]) >= 0.0;
      }
    }
  }

  /**
   The sum of the P&L of the trades whose date starts with `month`. On strings
   `month <= date` is Dafny's prefix test, not an ordering: the month is the
   leading `YYYY-MM` of the date.
   */
  function MonthPnl(ts: seq<Trade>, month: string): (r: real)
    ensures (forall i :: 0 <= i < |ts| ==> !(month <= ts[i].setup.date)) ==> r == 0.0
    ensures (forall i :: 0 <= i < |ts| ==> ts[i].pnl >= 0.0) ==> r >= 0.0
    ensures (forall i :: 0 <= i < |ts| ==> ts[i].pnl <= 0.0) ==> r <= 0.0
  {
    if |ts| == 0 then 0.0
    else
      var t := ts[|ts| - 1];
      assert forall i :: 0 <= i < |ts| - 1 ==> ts[..|ts| - 1][i] == ts[i];
      MonthPnl(ts[..|ts| - 1], month) + (if month <= t.setup.date then t.pnl else 0.0)
  }

  /** The monthly P&L of a ledger split in two is the sum over the halves. */
  lemma {:induction false} MonthPnlAppend(a: seq<Trade>, b: seq<Trade>, month: string)
    ensures MonthPnl(a + b, month) == MonthPnl(a, month) + MonthPnl(b, month)
    decreases |b|
  {
    if |b| == 0 {
      assert a + b == a;
    } else {
      assert (a + b)[..|a + b| - 1] == a + b[..|b| - 1];
      MonthPnlAppend(a, b[..|b| - 1], month);
    }
  }

  /** The drawdown of `balance` against the ledger's peak, as the classifier computes it. */
  function ModeDD(ts: seq<Trade>, balance: real): real {
    Drawdown(Peak(ts), balance)
  }

  /** A drawdown of at least `x` percent is a balance at most `(100 - x)` percent of the peak. */
  lemma DrawdownThreshold(peak: real, balance: real, x: real)
    requires peak > 0.0
    ensures Drawdown(peak, balance) >= x <==> balance <= peak * (100.0 - x) / 100.0
  {
    var f := (peak - balance) / peak;
    assert f * peak == peak - balance;
    assert Drawdown(peak, balance) == f * 100.0;
    if f * 100.0 >= x {
      assert (f * 100.0) * peak >= x * peak;
    } else {
      assert (f * 100.0) * peak < x * peak;
    }
  }

  /** The two drawdown thresholds of the classifier, as fractions of the peak. */
  lemma ModeThresholds(peak: real, balance: real)
    requires peak > 0.0
    ensures Drawdown(peak, balance) >= 10.0 <==> balance <= peak * 0.9
    ensures Drawdown(peak, balance) < 5.0 <==> balance > peak * 0.95
  {
    DrawdownThreshold(peak, balance, 10.0);
    DrawdownThreshold(peak, balance, 5.0);
  }

  /** The operating mode of the account. */
  function GetMode(ts: seq<Trade>, balance: real, month: string): (m: Mode)
    ensures |ts| == 0 ==> m == Normal
    ensures m == Stopped <==> |ts| > 0 && balance <= Peak(ts) * 0.9
    ensures m == Defense <==> |ts| > 0 && balance > Peak(ts) * 0.9 && MonthPnl(ts, month) <= -5000.0
    ensures m == Attack <==>
      && |ts| > 0
      && balance > Peak(ts) * 0.95
      && MonthPnl(ts, month) > -5000.0
      && !Con3Loss(ts)
      && ModeAvgR(ts) > 0.5
    ensures |ts| > 0 && Con3Loss(ts) && m != Stopped && m != Defense ==> m == Normal
  {
    if |ts| == 0 then Normal
    else
      var dd := ModeDD(ts, balance);
      ModeThresholds(Peak(ts), balance);
      if dd >= 10.0 then Stopped
      else if MonthPnl(ts, month) / InitialBalance * 100.0 <= -5.0 then Defense
      else if Con3Loss(ts) then Normal
      else if ModeAvgR(ts) > 0.5 && dd < 5.0 then Attack
      else Normal
  }

  /** The recommended risk percentage for the next trade. */
  function RecommendedRisk(ts: seq<Trade>, month: string): (r: nat)
    ensures r <= 3
    ensures r == 0 <==> |ts| > 0 && CurrentDD(ts) >= 10.0
    ensures |ts| == 0 ==> r == 2
    ensures r == GetMode(ts, Balance(ts), month).Risk()
  {
    ModeThresholds(Peak(ts), Balance(ts));
    GetMode(ts, Balance(ts), month).Risk()
  }

  /**
   The classifier, judging the latest balance, says ATTACK exactly when the
   conditions checklist shows all three of its attack conditions met (ten-trade
   average above 0.5, current drawdown below 5, streak below 3) and the month's
   P&L stays above the defence threshold.
   */
  lemma {:induction false} AttackChecklist(ts: seq<Trade>, month: string)
    ensures GetMode(ts, Balance(ts), month) == Attack <==>
      && AvgR10(ts) > 0.5
      && CurrentDD(ts) < 5.0
      && StatsOf(ts).streak < 3
      && MonthPnl(ts, month) > -5000.0
  {
    Con3LossIffStreak(ts);
    DashboardAgrees(ts);
    ModeThresholds(Peak(ts), Balance(ts));
  }

  /** Whatever the month and the averages, a drawdown of 10 percent or more stops trading. */
  lemma StoppedOverridesAll(ts: seq<Trade>, month: string)
    requires |ts| > 0 && CurrentDD(ts) >= 10.0
    ensures GetMode(ts, Balance(ts), month) == Stopped
    ensures RecommendedRisk(ts, month) == 0
  {
    ModeThresholds(Peak(ts), Balance(ts));
  }
}
