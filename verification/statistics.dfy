/**
 The performance statistics derived from the ledger: win/loss partition,
 win rate, average winning R, expectancy, total R, the drawdown scan and the
 trailing losing streak.  Everything is recomputed from the ordered ledger;
 a ledger is a `seq<Trade>` in chronological order.
 */
module Statistics {
  import opened Trades

  function Max(a: real, b: real): real {
    if a >= b then a else b
  }

  // ---------------------------------------------------------------------------
  // Sums and the win/loss partition
  // ---------------------------------------------------------------------------

  /** The sum of the coerced results of all trades. */
  function SumR(ts: seq<Trade>): real {
    if |ts| == 0 then 0.0 else SumR(ts[..|ts| - 1]) + R(ts[|ts| - 1])
  }

  /** The total R has the sign its results share: no loss gives a non-negative total, no win a non-positive one. */
  lemma {:induction false} SumRSign(ts: seq<Trade>)
    ensures (forall i :: 0 <= i < |ts| ==> R(ts[i]) >= 0.0) ==> SumR(ts) >= 0.0
    ensures (forall i :: 0 <= i < |ts| ==> R(ts[i]) <= 0.0) ==> SumR(ts) <= 0.0
    decreases |ts|
  {
    if |ts| > 0 {
      var p := ts[..|ts| - 1];
      assert forall i :: 0 <= i < |p| ==> p[i] == ts[i];
      SumRSign(p);
    }
  }

  /** Summing a ledger split in two is summing the halves. */
  lemma {:induction false} SumRAppend(a: seq<Trade>, b: seq<Trade>)
    ensures SumR(a + b) == SumR(a) + SumR(b)
    decreases |b|
  {
    if |b| > 0 {
      var b' := b[..|b| - 1];
      assert (a + b)[..|a + b| - 1] == a + b';
      SumRAppend(a, b');
    } else {
      assert a + b == a;
    }
  }

  /** A non-empty ledger of strictly positive results has a strictly positive sum. */
  lemma {:induction false} SumRPositive(ts: seq<Trade>)
    requires |ts| > 0
    requires forall i :: 0 <= i < |ts| ==> R(ts[i]) > 0.0
    ensures SumR(ts) > 0.0
    decreases |ts|
  {
    if |ts| > 1 {
      SumRPositive(ts[..|ts| - 1]);
    }
  }

  /** The winning trades (result strictly above 0), in ledger order. */
  function Winners(ts: seq<Trade>): (w: seq<Trade>)
    ensures |w| <= |ts|
    ensures forall i :: 0 <= i < |w| ==> R(w[i]) > 0.0
    ensures forall t :: t in w <==> t in ts && R(t) > 0.0
    ensures forall t :: multiset(w)[t] == if R(t) > 0.0 then multiset(ts)[t] else 0
  {
    if |ts| == 0 then []
    else
      var w := Winners(ts[..|ts| - 1]);
      assert ts == ts[..|ts| - 1] + [ts[|ts| - 1]];
      assert forall t :: t in ts <==> t in ts[..|ts| - 1] || t == ts[|ts| - 1];
      if R(ts[|ts| - 1]) > 0.0 then w + [ts[|ts| - 1]] else w
  }

  /** The losing trades (result strictly below 0), in ledger order. */
  function Losers(ts: seq<Trade>): (l: seq<Trade>)
    ensures |l| <= |ts|
    ensures forall i :: 0 <= i < |l| ==> R(l[i]) < 0.0
    ensures forall t :: t in l <==> t in ts && R(t) < 0.0
    ensures forall t :: multiset(l)[t] == if R(t) < 0.0 then multiset(ts)[t] else 0
  {
    if |ts| == 0 then []
    else
      var l := Losers(ts[..|ts| - 1]);
      assert ts == ts[..|ts| - 1] + [ts[|ts| - 1]];
      assert forall t :: t in ts <==> t in ts[..|ts| - 1] || t == ts[|ts| - 1];
      if R(ts[|ts| - 1]) < 0.0 then l + [ts[|ts| - 1]] else l
  }

  lemma ConcatAssoc(x: seq<Trade>, y: seq<Trade>, z: seq<Trade>)
    ensures x + y + z == x + (y + z)
  {
  }

  /** A single trade is its own winners when it won, and has none otherwise. */
  lemma WinnersSingle(t: Trade)
    ensures Winners([t]) == if R(t) > 0.0 then [t] else []
  {
    assert [t][..0] == [];
  }

  /** A single trade is its own losers when it lost, and has none otherwise. */
  lemma LosersSingle(t: Trade)
    ensures Losers([t]) == if R(t) < 0.0 then [t] else []
  {
    assert [t][..0] == [];
  }

  /**
   The winners of a ledger split in two are the winners of the first part
   followed by those of the second: the filter keeps ledger order.
   */
  lemma {:induction false} WinnersAppend(a: seq<Trade>, b: seq<Trade>)
    ensures Winners(a + b) == Winners(a) + Winners(b)
    decreases |b|
  {
    if |b| > 0 {
      var b', x := b[..|b| - 1], b[|b| - 1];
      assert (a + b)[..|a + b| - 1] == a + b';
      assert (a + b)[|a + b| - 1] == x;
      WinnersAppend(a, b');
      var tail := if R(x) > 0.0 then [x] else [];
      assert Winners(a + b) == Winners(a + b') + tail;
      assert Winners(b) == Winners(b') + tail;
      ConcatAssoc(Winners(a), Winners(b'), tail);
    } else {
      assert a + b == a;
    }
  }

  /** The losers of a ledger split in two, likewise in ledger order. */
  lemma {:induction false} LosersAppend(a: seq<Trade>, b: seq<Trade>)
    ensures Losers(a + b) == Losers(a) + Losers(b)
    decreases |b|
  {
    if |b| > 0 {
      var b', x := b[..|b| - 1], b[|b| - 1];
      assert (a + b)[..|a + b| - 1] == a + b';
      assert (a + b)[|a + b| - 1] == x;
      LosersAppend(a, b');
      var tail := if R(x) < 0.0 then [x] else [];
      assert Losers(a + b) == Losers(a + b') + tail;
      assert Losers(b) == Losers(b') + tail;
      ConcatAssoc(Losers(a), Losers(b'), tail);
    } else {
      assert a + b == a;
    }
  }

  /** The number of trades whose result is exactly 0: neither a win nor a loss. */
  function Scratches(ts: seq<Trade>): nat {
    if |ts| == 0 then 0
    else Scratches(ts[..|ts| - 1]) + (if R(ts[|ts| - 1]) == 0.0 then 1 else 0)
  }

  /** Every trade is exactly one of a win, a loss or a scratch. */
  lemma {:induction false} Partition(ts: seq<Trade>)
    ensures |Winners(ts)| + |Losers(ts)| + Scratches(ts) == |ts|
    decreases |ts|
  {
    if |ts| > 0 {
      Partition(ts[..|ts| - 1]);
    }
  }

  // ---------------------------------------------------------------------------
  // Drawdown
  // ---------------------------------------------------------------------------

  /** The drawdown, in percent, of `balance` from `peak`. */
  function Drawdown(peak: real, balance: real): real
    requires peak > 0.0
  {
    (peak - balance) / peak * 100.0
  }

  /** A balance at or below a positive peak has a drawdown in [0, 100] when it is not negative. */
  lemma DrawdownBounds(peak: real, balance: real)
    requires 0.0 < peak && balance <= peak
    ensures 0.0 <= Drawdown(peak, balance)
    ensures balance >= 0.0 ==> Drawdown(peak, balance) <= 100.0
  {
    var f := (peak - balance) / peak;
    assert f * peak == peak - balance;
    assert 0.0 <= f;
    if balance >= 0.0 {
      assert f <= 1.0;
    }
  }

  /** The running peak balance over the ledger, seeded with the initial balance. */
  function Peak(ts: seq<Trade>): (p: real)
    ensures p >= InitialBalance
    ensures forall i :: 0 <= i < |ts| ==> ts[i].balance <= p
    ensures p == InitialBalance || exists i :: 0 <= i < |ts| && ts[i].balance == p
  {
    if |ts| == 0 then InitialBalance
    else
      var p := Peak(ts[..|ts| - 1]);
      assert forall i :: 0 <= i < |ts| - 1 ==> ts[..|ts| - 1][i] == ts[i];
      Max(p, ts[|ts| - 1].balance)
  }

  /** The drawdown observed at step `i` of the scan: against the peak of the first `i + 1` trades. */
  function StepDrawdown(ts: seq<Trade>, i: nat): real
    requires i < |ts|
  {
    Drawdown(Peak(ts[..i + 1]), ts[i].balance)
  }

  /** The largest drawdown observed along the scan, starting from 0. */
  function MaxDD(ts: seq<Trade>): (m: real)
    ensures m >= 0.0
  {
    if |ts| == 0 then 0.0
    else Max(MaxDD(ts[..|ts| - 1]), Drawdown(Peak(ts), ts[|ts| - 1].balance))
  }

  /** The scan's maximum bounds the drawdown of every step, and is 0 or attained at some step. */
  lemma {:induction false} MaxDDIsMaximum(ts: seq<Trade>)
    ensures forall i :: 0 <= i < |ts| ==> StepDrawdown(ts, i) <= MaxDD(ts)
    ensures MaxDD(ts) == 0.0 || exists i :: 0 <= i < |ts| && MaxDD(ts) == StepDrawdown(ts, i)
    decreases |ts|
  {
    if |ts| > 0 {
      var n := |ts|;
      var pre := ts[..n - 1];
      MaxDDIsMaximum(pre);
      assert ts[..n] == ts;
      forall i | 0 <= i < n - 1
        ensures StepDrawdown(pre, i) == StepDrawdown(ts, i)
      {
        assert pre[..i + 1] == ts[..i + 1];
      }
      if MaxDD(ts) != 0.0 && MaxDD(ts) != StepDrawdown(ts, n - 1) {
        var i :| 0 <= i < |pre| && MaxDD(pre) == StepDrawdown(pre, i);
        assert MaxDD(ts) == StepDrawdown(ts, i);
      }
    }
  }

  /** The maximum drawdown never decreases as the scan proceeds. */
  lemma {:induction false} MaxDDMonotone(ts: seq<Trade>, i: nat, j: nat)
    requires i <= j <= |ts|
    ensures MaxDD(ts[..i]) <= MaxDD(ts[..j])
    decreases j - i
  {
    if i < j {
      MaxDDMonotone(ts, i, j - 1);
      assert ts[..j][..j - 1] == ts[..j - 1];
    }
  }

  /** The drawdown of the latest balance against the all-time peak; 0 for an empty ledger. */
  function CurrentDD(ts: seq<Trade>): (d: real)
    ensures 0.0 <= d <= MaxDD(ts)
    ensures Balance(ts) >= 0.0 ==> d <= 100.0
    ensures |ts| > 0 ==> d == Drawdown(Peak(ts), Balance(ts))
  {
    if |ts| == 0 then 0.0
    else
      DrawdownBounds(Peak(ts), ts[|ts| - 1].balance);
      Drawdown(Peak(ts), ts[|ts| - 1].balance)
  }

  /** The loop that computes the peak and the maximum drawdown in one pass. */
  method ScanDrawdown(ts: seq<Trade>) returns (peak: real, maxDD: real)
    ensures peak == Peak(ts) && maxDD == MaxDD(ts)
    ensures peak >= InitialBalance && maxDD >= 0.0
  {
    peak, maxDD := InitialBalance, 0.0;
    var i := 0;
    while i < |ts|
      invariant 0 <= i <= |ts|
      invariant peak == Peak(ts[..i])
      invariant maxDD == MaxDD(ts[..i])
    {
      assert ts[..i + 1][..i] == ts[..i];
      peak := Max(peak, ts[i].balance);
      maxDD := Max(maxDD, Drawdown(peak, ts[i].balance));
      i := i + 1;
    }
    assert ts[..i] == ts;
  }

  // ---------------------------------------------------------------------------
  // Losing streak
  // ---------------------------------------------------------------------------

  /** The number of consecutive losses at the end of the ledger. */
  function Streak(ts: seq<Trade>): (s: nat)
    ensures s <= |ts|
    ensures forall k :: |ts| - s <= k < |ts| ==> R(ts[k]) < 0.0
    ensures s < |ts| ==> R(ts[|ts| - 1 - s]) >= 0.0
  {
    if |ts| == 0 || R(ts[|ts| - 1]) >= 0.0 then 0
    else
      var s := Streak(ts[..|ts| - 1]);
      assert forall k :: 0 <= k < |ts| - 1 ==> ts[..|ts| - 1][k] == ts[k];
      s + 1
  }

  /** The backward loop that counts the trailing losses, stopping at the first non-loss. */
  method ScanStreak(ts: seq<Trade>) returns (s: nat)
    ensures s == Streak(ts)
  {
    s := 0;
    var i := |ts|;
    assert ts[..i] == ts;
    while i > 0
      invariant 0 <= i <= |ts|
      invariant Streak(ts) == s + Streak(ts[..i])
    {
      assert ts[..i][..i - 1] == ts[..i - 1];
      if R(ts[i - 1]) < 0.0 {
        s := s + 1;
      } else {
        break;
      }
      i := i - 1;
    }
  }

  // ---------------------------------------------------------------------------
  // The snapshot
  // ---------------------------------------------------------------------------

  datatype Stats = Stats(
    winRate: real,
    avgWinR: real,
    expectancy: real,
    maxDD: real,
    totalR: real,
    streak: nat,
    wins: nat,
    losses: nat
  )

  const ZeroStats: Stats := Stats(0.0, 0.0, 0.0, 0.0, 0.0, 0, 0, 0)

  lemma PositiveQuotient(a: real, b: real)
    requires a > 0.0 && b > 0.0
    ensures a / b > 0.0 && a / b * b == a
  {
  }

  /** The quotient `part / whole`: the number that, times `whole`, gives `part`. */
  function Share(part: real, whole: real): (r: real)
    requires whole > 0.0
    ensures r * whole == part
    ensures 0.0 <= part <= whole ==> 0.0 <= r <= 1.0
  {
    part / whole
  }

  /** The quotient is the only number with that property. */
  lemma ShareUnique(x: real, part: real, whole: real)
    requires whole > 0.0 && x * whole == part
    ensures x == Share(part, whole)
  {
    var r := Share(part, whole);
    assert (x - r) * whole == 0.0;
  }

  /** The share of winning trades among `n` trades. */
  function WinRate(n: nat, wins: nat): (r: real)
    requires 0 < n && wins <= n
    ensures 0.0 <= r <= 1.0 && r * (n as real) == wins as real
  {
    Share(wins as real, n as real)
  }

  /** The mean result of the winning trades `w`, 0 when nothing won. */
  function AvgWinR(w: seq<Trade>): (r: real)
    requires forall i :: 0 <= i < |w| ==> R(w[i]) > 0.0
    ensures r * (|w| as real) == SumR(w)
    ensures |w| == 0 ==> r == 0.0
    ensures |w| > 0 ==> r > 0.0
  {
    if |w| > 0 then
      SumRPositive(w);
      PositiveQuotient(SumR(w), |w| as real);
      Share(SumR(w), |w| as real)
    else 0.0
  }

  /**
   The expected result per trade, `winRate * avgWinR - (1 - winRate)`, for
   `n` trades of which the trades `w` won: the winners' sum with every
   non-winning trade counted as -1R, per trade.
   */
  function Expectancy(n: nat, w: seq<Trade>): (r: real)
    requires 0 < n && |w| <= n
    requires forall i :: 0 <= i < |w| ==> R(w[i]) > 0.0
    ensures r == Share(SumR(w) - (n as real - |w| as real), n as real)
    ensures r >= -1.0 && (r == -1.0 <==> |w| == 0)
  {
    var winRate := WinRate(n, |w|);
    var avgWinR := AvgWinR(w);
    ExpectancyShare(n, |w|, SumR(w), winRate, avgWinR);
    winRate * avgWinR - (1.0 - winRate)
  }

  /** The performance snapshot of a ledger. */
  function StatsOf(ts: seq<Trade>): (st: Stats)
    ensures |ts| == 0 ==> st == ZeroStats
    ensures |ts| > 0 ==> st.wins + st.losses + Scratches(ts) == |ts|
    ensures 0.0 <= st.winRate <= 1.0
    ensures |ts| > 0 ==> st.wins == |Winners(ts)| && st.losses == |Losers(ts)| && st.totalR == SumR(ts)
    ensures |ts| > 0 ==> st.winRate == Share(|Winners(ts)| as real, |ts| as real)
    ensures |ts| > 0 && |Winners(ts)| > 0 ==> st.avgWinR == Share(SumR(Winners(ts)), |Winners(ts)| as real)
    ensures |Winners(ts)| == 0 ==> st.avgWinR == 0.0
    ensures |ts| > 0 ==> st.expectancy == Expectancy(|ts|, Winners(ts))
    ensures st.maxDD == MaxDD(ts)
    ensures |ts| > 0 ==> st.expectancy >= -1.0 && (st.expectancy == -1.0 <==> st.wins == 0)
    ensures st.maxDD >= CurrentDD(ts) && st.maxDD >= 0.0
    ensures st.streak == Streak(ts)
  {
    if |ts| == 0 then ZeroStats
    else
      var w := Winners(ts);
      Partition(ts);
      Stats(WinRate(|ts|, |w|), AvgWinR(w), Expectancy(|ts|, w),
            MaxDD(ts), SumR(ts), Streak(ts), |w|, |Losers(ts)|)
  }

  /**
   The expectancy formula for `n` trades of which `k` won, from the win rate
   and the average winning R: the unique quotient of its per-trade sum.
   */
  lemma ExpectancyShare(n: nat, k: nat, sum: real, rate: real, avg: real)
    requires 0 < n && k <= n
    requires 0.0 <= rate <= 1.0 && rate * (n as real) == k as real
    requires avg * (k as real) == sum
    requires k == 0 ==> avg == 0.0
    requires k > 0 ==> avg > 0.0
    ensures (rate * avg - (1.0 - rate)) * (n as real) == sum - (n as real - k as real)
    ensures rate * avg - (1.0 - rate) == Share(sum - (n as real - k as real), n as real)
    ensures rate * avg - (1.0 - rate) >= -1.0
    ensures rate * avg - (1.0 - rate) == -1.0 <==> k == 0
  {
    var nr, kr := n as real, k as real;
    var e := rate * avg - (1.0 - rate);
    assert (rate * avg) * nr == avg * (rate * nr);
    assert e * nr == sum - (nr - kr);
    ShareUnique(e, sum - (nr - kr), nr);
    assert rate * avg >= 0.0;
    if k > 0 {
      assert rate > 0.0;
    }
  }

}
