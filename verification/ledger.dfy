/**
 The ledger operations: committing a filled-in form as a new trade, the
 preview of that commit, deleting a trade by id and clearing the ledger.
 Each operation returns the new ledger; none edits a record in place.
 */
module Ledger {
  import opened Trades
  import opened Scoring
  import opened Statistics
  import opened Modes

  /** A form may be committed only when its result and its reward ratio are both filled in. */
  predicate Complete(form: Setup) {
    form.resultR.filled && form.rr.filled
  }

  /** The balance each record must carry: the balance before it plus its own P&L. */
  predicate Chained(ts: seq<Trade>) {
    forall i {:trigger ts[i]} :: 0 <= i < |ts| ==>
      ts[i].balance == (if i == 0 then InitialBalance else ts[i - 1].balance) + ts[i].pnl
  }

  /** The amount risked, the P&L and the resulting balance of a result on a balance. */
  lemma BalanceAfter(prev: real, resultR: real, riskPct: real)
    ensures prev + resultR * (prev * (riskPct / 100.0)) == prev * (1.0 + resultR * riskPct / 100.0)
  {
  }

  /** The record a complete form becomes when committed on top of the ledger. */
  function NewTrade(ts: seq<Trade>, form: Setup, id: int): (t: Trade)
    ensures t.setup == form && t.id == id && t.score == CalcScore(form)
    ensures t.win <==> R(t) > 0.0
    ensures t.pnl == form.resultR.value * (Balance(ts) * (form.riskPct / 100.0))
    ensures t.balance == Balance(ts) + t.pnl
    ensures t.balance == Balance(ts) * (1.0 + form.resultR.value * form.riskPct / 100.0)
  {
    BalanceAfter(Balance(ts), form.resultR.value, form.riskPct);
    var prevBal := Balance(ts);
    var riskAmt := prevBal * (form.riskPct / 100.0);
    var pnl := form.resultR.value * riskAmt;
    Trade(form, id, CalcScore(form), pnl, prevBal + pnl, form.resultR.value > 0.0)
  }

  /** Commit the form: append one record, or leave the ledger alone when a mandatory field is empty. */
  function HandleAdd(ts: seq<Trade>, form: Setup, id: int): (r: seq<Trade>)
    ensures !Complete(form) ==> r == ts
    ensures Complete(form) ==> |r| == |ts| + 1 && r[..|ts|] == ts
    ensures Complete(form) ==>
      var t := r[|ts|];
      && t.setup == form && t.id == id
      && t.score == CalcScore(form)
      && t.win == (R(t) > 0.0)
      && t.balance == Balance(ts) * (1.0 + form.resultR.value * form.riskPct / 100.0)
      && t.balance == Balance(ts) + t.pnl
      && Balance(r) == t.balance
  {
    if !Complete(form) then ts
    else ts + [NewTrade(ts, form, id)]
  }

  /** The sum of the P&L of every record. */
  function TotalPnl(ts: seq<Trade>): real {
    if |ts| == 0 then 0.0 else TotalPnl(ts[..|ts| - 1]) + ts[|ts| - 1].pnl
  }

  /** On a chained ledger the last balance is the initial balance plus every record's P&L. */
  lemma {:induction false} ChainedBalance(ts: seq<Trade>)
    requires Chained(ts)
    ensures Balance(ts) == InitialBalance + TotalPnl(ts)
  {
    if |ts| > 0 {
      var p := ts[..|ts| - 1];
      assert Chained(p) by {
        forall i | 0 <= i < |p|
          ensures p[i].balance == (if i == 0 then InitialBalance else p[i - 1].balance) + p[i].pnl
        {
          assert p[i] == ts[i];
          assert ts[i].balance == (if i == 0 then InitialBalance else ts[i - 1].balance) + ts[i].pnl;
        }
      }
      ChainedBalance(p);
      assert ts[|ts| - 1].balance == Balance(p) + ts[|ts| - 1].pnl;
    }
  }

  /**
   The completeness guard decides everything about a commit: the preview, the
   appended record and the record button's refusal.
   */
  lemma CompleteGuard(ts: seq<Trade>, form: Setup, month: string, id: int)
    ensures Complete(form) <==> GetPreview(form, Balance(ts)).Some?
    ensures Complete(form) <==> |HandleAdd(ts, form, id)| == |ts| + 1
    ensures !Complete(form) ==> HandleAdd(ts, form, id) == ts && Record(ts, form, month, id).Failure?
    ensures Complete(form) && !(|ts| > 0 && CurrentDD(ts) >= 10.0) ==> Record(ts, form, month, id).Success?
  {
  }

  /** Committing keeps every record's balance chained to the one before it. */
  lemma HandleAddKeepsChain(ts: seq<Trade>, form: Setup, id: int)
    requires Chained(ts)
    ensures Chained(HandleAdd(ts, form, id))
  {
    var r := HandleAdd(ts, form, id);
    if Complete(form) {
      forall i | 0 <= i < |r|
        ensures r[i].balance == (if i == 0 then InitialBalance else r[i - 1].balance) + r[i].pnl
      {
        if i < |ts| {
          assert r[i] == ts[i];
          assert i > 0 ==> r[i - 1] == ts[i - 1];
        } else {
          assert r[i] == NewTrade(ts, form, id);
          assert i > 0 ==> r[i - 1] == ts[|ts| - 1];
        }
      }
      assert Chained(r);
    }
  }

  /** After a commit the streak grows by one on a loss and resets on anything else. */
  lemma HandleAddStreak(ts: seq<Trade>, form: Setup, id: int)
    requires Complete(form)
    ensures Streak(HandleAdd(ts, form, id)) == if form.resultR.value < 0.0 then Streak(ts) + 1 else 0
    ensures SumR(HandleAdd(ts, form, id)) == SumR(ts) + form.resultR.value
  {
    var r := HandleAdd(ts, form, id);
    assert r[..|r| - 1] == ts;
  }

  /** A larger balance under the same peak has a smaller drawdown. */
  lemma DrawdownAntitone(peak: real, lower: real, higher: real)
    requires peak > 0.0 && lower <= higher
    ensures Drawdown(peak, higher) <= Drawdown(peak, lower)
  {
    var fl := (peak - lower) / peak;
    var fh := (peak - higher) / peak;
    assert fl * peak == peak - lower;
    assert fh * peak == peak - higher;
    assert (fl - fh) * peak >= 0.0;
  }

  /** Committing a loss at a non-negative risk on a non-negative balance never lowers the current drawdown. */
  lemma LossNeverReducesDrawdown(ts: seq<Trade>, form: Setup, id: int)
    requires Complete(form) && form.resultR.value < 0.0 && form.riskPct >= 0.0
    requires Balance(ts) >= 0.0
    ensures CurrentDD(HandleAdd(ts, form, id)) >= CurrentDD(ts)
  {
    var r := HandleAdd(ts, form, id);
    var b := Balance(ts);
    var b' := Balance(r);
    assert form.resultR.value * form.riskPct <= 0.0;
    assert b * (form.resultR.value * form.riskPct / 100.0) <= 0.0;
    assert b' <= b;
    assert r[..|r| - 1] == ts;
    assert Peak(r) == Peak(ts);
    if |ts| > 0 {
      DrawdownAntitone(Peak(ts), b', b);
    }
  }

  /** What the form would commit: score, amount at risk, P&L and new balance. */
  datatype Preview = Preview(score: real, riskAmt: real, pnl: real, newBal: real)

  /** The preview shown under the form, against the current balance. */
  function GetPreview(form: Setup, balance: real): (p: Option<Preview>)
    ensures p.Some? <==> Complete(form)
    ensures p.Some? ==> p.value.newBal == balance * (1.0 + form.resultR.value * form.riskPct / 100.0)
    ensures p.Some? ==> p.value.pnl == form.resultR.value * p.value.riskAmt
    ensures p.Some? ==> p.value.riskAmt == balance * (form.riskPct / 100.0)
    ensures p.Some? ==> p.value.score == CalcScore(form)
  {
    if !Complete(form) then None
    else
      var riskAmt := balance * (form.riskPct / 100.0);
      var pnl := form.resultR.value * riskAmt;
      BalanceAfter(balance, form.resultR.value, form.riskPct);
      Some(Preview(CalcScore(form), riskAmt, pnl, balance + pnl))
  }

  /** The preview shows exactly what committing the form would append. */
  lemma PreviewMatchesCommit(ts: seq<Trade>, form: Setup, id: int)
    ensures GetPreview(form, Balance(ts)).Some? <==> |HandleAdd(ts, form, id)| == |ts| + 1
    ensures GetPreview(form, Balance(ts)).Some? ==>
      var p := GetPreview(form, Balance(ts)).value;
      var t := HandleAdd(ts, form, id)[|ts|];
      p.newBal == t.balance && p.pnl == t.pnl && p.score == t.score
  {
  }

  /** Why a commit was refused. */
  datatype Blocked = ForcedStop | MissingFields

  /**
   The record button: in STOPPED mode it is replaced by a disabled stop
   notice; otherwise it is disabled until both mandatory fields are filled.
   */
  function Record(ts: seq<Trade>, form: Setup, month: string, id: int): (r: Result<seq<Trade>, Blocked>)
    ensures r.Failure? <==> (|ts| > 0 && CurrentDD(ts) >= 10.0) || !Complete(form)
    ensures |ts| > 0 && CurrentDD(ts) >= 10.0 ==> r == Failure(ForcedStop)
    ensures !(|ts| > 0 && CurrentDD(ts) >= 10.0) && !Complete(form) ==> r == Failure(MissingFields)
    ensures r.Success? ==> |r.value| == |ts| + 1 && r.value[..|ts|] == ts
    ensures r.Success? ==> r.value == HandleAdd(ts, form, id)
  {
    if GetMode(ts, Balance(ts), month) == Stopped then
      StoppedOverridesAll(ts, month);
      Failure(ForcedStop)
    else if !Complete(form) then Failure(MissingFields)
    else
      assert !(|ts| > 0 && CurrentDD(ts) >= 10.0) by {
        if |ts| > 0 && CurrentDD(ts) >= 10.0 { StoppedOverridesAll(ts, month); }
      }
      Success(HandleAdd(ts, form, id))
  }

  /** Remove every record carrying the given id. */
  function Delete(ts: seq<Trade>, id: int): (r: seq<Trade>)
    ensures |r| <= |ts|
    ensures forall t :: t in r <==> t in ts && t.id != id
  {
    if |ts| == 0 then []
    else
      var rest := Delete(ts[..|ts| - 1], id);
      assert forall t :: t in ts <==> t in ts[..|ts| - 1] || t == ts[|ts| - 1];
      if ts[|ts| - 1].id != id then rest + [ts[|ts| - 1]] else rest
  }

  lemma {:induction false} DeleteAppend(a: seq<Trade>, b: seq<Trade>, id: int)
    ensures Delete(a + b, id) == Delete(a, id) + Delete(b, id)
    decreases |b|
  {
    if |b| == 0 {
      assert a + b == a;
    } else {
      assert (a + b)[..|a + b| - 1] == a + b[..|b| - 1];
      DeleteAppend(a, b[..|b| - 1], id);
    }
  }

  /** Deleting an id no record carries changes nothing. */
  lemma {:induction false} DeleteAbsent(ts: seq<Trade>, id: int)
    requires forall i :: 0 <= i < |ts| ==> ts[i].id != id
    ensures Delete(ts, id) == ts
    decreases |ts|
  {
    if |ts| > 0 {
      DeleteAbsent(ts[..|ts| - 1], id);
      assert ts[..|ts| - 1] + [ts[|ts| - 1]] == ts;
    }
  }

  /** No two records share an id. */
  predicate UniqueIds(ts: seq<Trade>) {
    forall i, j :: 0 <= i < |ts| && 0 <= j < |ts| && ts[i].id == ts[j].id ==> i == j
  }

  /** With unique ids, deleting a record's id removes that record only, keeping the rest unchanged and in order. */
  lemma DeleteById(ts: seq<Trade>, k: nat)
    requires UniqueIds(ts) && k < |ts|
    ensures Delete(ts, ts[k].id) == ts[..k] + ts[k + 1..]
    ensures |Delete(ts, ts[k].id)| == |ts| - 1
  {
    var id := ts[k].id;
    var a, b := ts[..k], ts[k + 1..];
    assert ts == (a + [ts[k]]) + b;
    forall i | 0 <= i < |a|
      ensures a[i].id != id
    {
      assert a[i] == ts[i];
    }
    forall i | 0 <= i < |b|
      ensures b[i].id != id
    {
      assert b[i] == ts[k + 1 + i];
    }
    DeleteAbsent(a, id);
    DeleteAbsent(b, id);
    DeleteSingle(ts[k]);
    DeleteAppend(a + [ts[k]], b, id);
    DeleteAppend(a, [ts[k]], id);
  }

  lemma DeleteSingle(t: Trade)
    ensures Delete([t], t.id) == []
  {
    assert [t][..0] == [];
  }

  /**
   Deleting a record with a non-zero P&L from the middle of a chained ledger
   leaves the ledger unchained: later balances are not recomputed.
   */
  lemma DeleteLeavesStaleBalances(ts: seq<Trade>, k: nat)
    requires Chained(ts) && UniqueIds(ts)
    requires k + 1 < |ts| && ts[k].pnl != 0.0
    ensures !Chained(Delete(ts, ts[k].id))
  {
    DeleteById(ts, k);
    SpliceUnchains(ts, k);
  }

  /** Cutting a record with a non-zero P&L out of a chained ledger breaks the chain at the record after it. */
  lemma SpliceUnchains(ts: seq<Trade>, k: nat)
    requires Chained(ts)
    requires k + 1 < |ts| && ts[k].pnl != 0.0
    ensures !Chained(ts[..k] + ts[k + 1..])
  {
    var r := ts[..k] + ts[k + 1..];
    assert ts[k].balance == (if k == 0 then InitialBalance else ts[k - 1].balance) + ts[k].pnl;
    assert ts[k + 1].balance == (if k + 1 == 0 then InitialBalance else ts[k + 1 - 1].balance) + ts[k + 1].pnl;
    assert r[k] == ts[k + 1];
    if k > 0 {
      assert r[k - 1] == ts[k - 1];
    }
    assert r[k].balance != (if k == 0 then InitialBalance else r[k - 1].balance) + r[k].pnl;
  }

  /** The ledger after "delete all": empty, so every statistic resets and the mode is NORMAL. */
  function Clear(): (r: seq<Trade>)
    ensures |r| == 0 && Chained(r)
    ensures StatsOf(r) == ZeroStats && Balance(r) == InitialBalance
    ensures forall month :: GetMode(r, Balance(r), month) == Normal
  {
    []
  }
}
