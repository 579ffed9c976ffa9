# FX trading journal core, in Dafny

This project models the logic of a single-page FX trading journal. Each trade
goes into the journal as a setup form. Committing a form appends an immutable
record to a ledger. The record carries:

- a quality score
- the profit or loss for the trade
- the running balance

The dashboard recomputes everything else from the ledger:

- the win/loss statistics
- the drawdown from the peak balance
- the trailing losing streak

An operating mode (STOPPED, DEFENSE, NORMAL or ATTACK) sets the recommended
risk for the next trade.

Modules:

- `Trades`: the setup form, the trade record and the four modes with their
  recommended risk percentages. Also holds the last balance, which is 100000
  for an empty ledger.
- `Scoring`: the quality score of a setup, from four capped criteria.
- `Statistics`: the performance snapshot. This covers winners and losers,
  win rate, average winning R, expectancy, total R, the running peak, the
  maximum and current drawdown, and the losing streak. The two scanning loops
  of the source are methods, proved against the recursive definitions.
- `Modes`: the mode classifier, its ten-trade average, three-loss flag and
  monthly P&L. Also the recommended risk and the conditions checklist.
- `Ledger`: committing a form, the commit preview, the guarded record button,
  deleting by id and clearing.

Numbers are `real`. A text field of the form is kept as the number its text
coerces to, and the two mandatory fields also record whether their text is
non-empty.

The score is the sum of four terms, each read off the form:

- an alignment term: 30 when the daily and 4-hour directions match, else 0;
- a grade term: 30, 20 or 10 for grades A, B and C, else 0;
- a space term: 20 from 50 pips, 10 from 30 pips, else 0;
- the time score, capped at 20.

So the score never exceeds 100. A fractional time score gives a fractional
score. A negative time score lowers the score and can make it negative.

Each stored balance is the previous balance plus the record's P&L. Committing
keeps this chain. Deleting does not: the stored balances are never
recomputed, so removing a record with a non-zero P&L from the middle of the
ledger leaves the later balances stale. `Ledger.DeleteLeavesStaleBalances`
proves it.

## Model

| member | source | states |
|---|---|---|
| Trades.Mode.Risk | src/App.tsx:46-51 | Each mode has its own risk percentage: STOPPED 0, DEFENSE 1, NORMAL 2, ATTACK 3. Each value is taken by exactly one mode, so the risk determines the mode. |
| Scoring.CalcScore | src/App.tsx:21-27 | The score never exceeds 100. It is non-negative when the time score is non-negative. It is exactly 100 iff the daily and 4-hour directions match, the grade is A, the space is at least 50 pips and the time score is at least 20. |
| Scoring.TimeScoreMonotone | src/App.tsx:25 | Raising only the time score never lowers the score. Past 20, raising it changes nothing. |
| Statistics.SumRAppend | src/App.tsx:88 | The total R of a ledger split in two is the sum of the halves' totals. |
| Statistics.SumRSign | src/App.tsx:88 | The total R is non-negative when no trade lost and non-positive when no trade won. |
| Statistics.Winners | src/App.tsx:83 | The winners are exactly the trades with result above 0. Each winning trade appears as often as it does in the ledger, and no other trade appears. |
| Statistics.WinnersSingle | src/App.tsx:83 | A single trade is its own list of winners when its result is above 0, and has none otherwise. |
| Statistics.WinnersAppend | src/App.tsx:83 | The winners of a ledger split in two are the first part's winners followed by the second part's. With the single-trade case this fixes the winners as the filter in ledger order. |
| Statistics.Losers | src/App.tsx:84 | The losers are exactly the trades with result below 0. Each losing trade appears as often as it does in the ledger, and no other trade appears. |
| Statistics.LosersSingle | src/App.tsx:84 | A single trade is its own list of losers when its result is below 0, and has none otherwise. |
| Statistics.LosersAppend | src/App.tsx:84 | The losers of a ledger split in two are the first part's losers followed by the second part's. With the single-trade case this fixes the losers as the filter in ledger order. |
| Statistics.Partition | src/App.tsx:83-84 | Winners, losers and zero-result trades together account for every trade. So wins + losses never exceeds the trade count. |
| Statistics.DrawdownBounds | src/App.tsx:34 | The drawdown of a balance not above a positive peak is between 0 and 100 when the balance is non-negative. |
| Statistics.Peak | src/App.tsx:33 | The peak is at least 100000 and at least every balance in the ledger. It is either 100000 or one of those balances. |
| Statistics.MaxDD | src/App.tsx:89-93 | The maximum drawdown is non-negative. |
| Statistics.MaxDDIsMaximum | src/App.tsx:89-93 | The maximum drawdown bounds every per-trade drawdown against the running peak, and it is attained by one of them unless it is 0. |
| Statistics.MaxDDMonotone | src/App.tsx:89-93 | Along the scan, the maximum drawdown never decreases. |
| Statistics.CurrentDD | src/App.tsx:75-79 | The current drawdown is 0 for an empty ledger. It lies between 0 and the maximum drawdown. It is at most 100 when the balance is non-negative. Otherwise it is the last balance's drawdown from the peak. |
| Statistics.ScanDrawdown | src/App.tsx:89-93 | The loop that tracks the running peak and the maximum drawdown returns exactly the peak and maximum drawdown of the whole ledger. |
| Statistics.Streak | src/App.tsx:94-98 | The streak is at most the trade count. The last streak-many trades all lost. The trade before them, if any, did not lose. |
| Statistics.ScanStreak | src/App.tsx:94-98 | The backwards loop with early exit returns exactly the losing streak. |
| Statistics.Share | src/App.tsx:85-86 | The quotient of a part by a positive whole is the number that, times the whole, gives the part. It lies in [0,1] when the part is between 0 and the whole. |
| Statistics.ShareUnique | src/App.tsx:85-87 | That quotient is the only such number. |
| Statistics.WinRate | src/App.tsx:85 | The win rate lies in [0,1]. Times the trade count, it is the win count. |
| Statistics.AvgWinR | src/App.tsx:86 | The average winning R times the number of winners is the winners' total R. It is 0 when nothing won and positive otherwise. |
| Statistics.Expectancy | src/App.tsx:87 | The expectancy is the quotient by the trade count of the winners' total R minus one R for every non-winning trade. It is at least -1, with equality iff nothing won. |
| Statistics.ExpectancyShare | src/App.tsx:87 | For a win rate that times the trade count gives the wins, and an average winning R that times the wins gives the winners' total, the formula winRate x avgWinR - (1 - winRate) times the trade count is that total minus one R per non-winning trade. It is the quotient of that sum by the trade count, at least -1, and -1 exactly when nothing won. |
| Statistics.StatsOf | src/App.tsx:81-100 | An empty ledger gives all zeros. Otherwise wins and losses are the sizes of the winners and losers, and total R is the sum of all results. The win rate is the wins' share of the trades. The average winning R is the winners' mean R, or 0 when nothing won. The expectancy is the per-trade figure above, at least -1 and equal to -1 iff nothing won. The maximum drawdown is that of the whole scan and at least the current one. The streak is the losing streak. |
| Modes.Recent | src/App.tsx:31 | For a positive window size, the window is the trailing part of the ledger, of the window size. A ledger no longer than the window is returned whole. |
| Modes.ModeAvgR | src/App.tsx:31-32 | The classifier's average is 0 on an empty ledger. From ten trades on it is the quotient of the last ten trades' total R by 10. On a shorter ledger it is the quotient of the whole total R by the trade count. |
| Modes.AvgR10 | src/App.tsx:137-138 | The dashboard's ten-trade average is 0 on an empty ledger. From ten trades on it is the quotient of the last ten trades' total R by 10. On a shorter ledger it is the quotient of the whole total R by the trade count. |
| Modes.DashboardAgrees | src/App.tsx:137-138 | The classifier's ten-trade average equals the dashboard's on every ledger. On the latest balance, the classifier's drawdown equals the current drawdown. |
| Modes.Con3Loss | src/App.tsx:35-36 | The three-loss flag holds iff the ledger has at least three trades and each of the last three has a result below 0. |
| Modes.Con3LossIffStreak | src/App.tsx:35-36 | The three-loss flag holds iff the losing streak is at least 3. Ledgers of fewer than three trades never trip it. |
| Modes.MonthPnl | src/App.tsx:38 | The month's P&L is 0 when no trade's date starts with the month. It is non-negative when no trade lost money and non-positive when no trade made money. |
| Modes.MonthPnlAppend | src/App.tsx:38 | The month's P&L of a ledger split in two is the sum over the halves. |
| Modes.DrawdownThreshold | src/App.tsx:34 | A drawdown of at least x percent is a balance at most (100 - x) percent of the peak. |
| Modes.ModeThresholds | src/App.tsx:39-42 | The 10 and 5 percent drawdown thresholds are the balances at most 90 percent, and above 95 percent, of the peak. |
| Modes.GetMode | src/App.tsx:29-44 | An empty ledger is NORMAL. STOPPED iff the balance is at most 90 percent of the peak. DEFENSE iff not stopped and the month's P&L is at most -5000. ATTACK iff above 95 percent of the peak, the month's P&L is above -5000, the three-loss flag is off and the ten-trade average exceeds 0.5. When the three-loss flag is on and neither STOPPED nor DEFENSE applies, the mode is NORMAL. |
| Modes.RecommendedRisk | src/App.tsx:72-73 | The recommended risk is the risk of the mode the classifier gives for the latest balance. It is at most 3, 0 exactly when the current drawdown is 10 or more, and 2 on an empty ledger. |
| Modes.AttackChecklist | src/App.tsx:386-389 | The classifier says ATTACK iff the three checklist conditions hold and the month's P&L stays above the defence threshold. The conditions are a ten-trade average above 0.5, a current drawdown below 5 and a streak below 3. |
| Modes.StoppedOverridesAll | src/App.tsx:39 | A current drawdown of 10 or more is STOPPED, with risk 0, whatever the month, streak or average. |
| Ledger.HandleAdd | src/App.tsx:102-113 | An incomplete form leaves the ledger unchanged. Otherwise exactly one record is appended and the earlier ones are kept. The new record carries the form, the id and the form's score, and its win flag is result > 0. Its balance is the previous balance times (1 + R x risk/100), which is the previous balance plus its P&L. |
| Ledger.NewTrade | src/App.tsx:104-109 | The new record carries the form, the id and the form's score, and its win flag is result > 0. Its P&L is the result times the amount at risk, which is the previous balance times the risk percentage. Its balance is the previous balance plus the P&L, which is the previous balance times (1 + R x risk/100). |
| Ledger.CompleteGuard | src/App.tsx:103 | A form is complete iff a preview exists, iff a commit appends a record. An incomplete form leaves the ledger unchanged and the record button refuses. A complete form is recorded unless the account is STOPPED. |
| Ledger.ChainedBalance | src/App.tsx:68-70 | On a chained ledger the last balance is 100000 plus the P&L of every record. |
| Ledger.HandleAddKeepsChain | src/App.tsx:105-109 | Committing keeps every balance equal to the previous balance plus the record's P&L. |
| Ledger.HandleAddStreak | src/App.tsx:94-98 | After a commit, the streak grows by one on a loss and resets to 0 otherwise. Total R grows by the new result. |
| Ledger.DrawdownAntitone | src/App.tsx:78 | Under the same peak, a higher balance has a lower drawdown. |
| Ledger.LossNeverReducesDrawdown | src/App.tsx:75-79 | Committing a loss at non-negative risk on a non-negative balance never lowers the current drawdown. |
| Ledger.GetPreview | src/App.tsx:130-135 | A preview exists iff the form is complete. Its amount at risk is the balance times the risk percentage, its P&L is R times that amount, and its score is the form's score. Its new balance is the balance times (1 + R x risk/100). |
| Ledger.PreviewMatchesCommit | src/App.tsx:130-135 | The preview exists iff a commit appends a record. Its new balance, P&L and score are exactly those of the appended record. |
| Ledger.Record | src/App.tsx:317-319 | The record button refuses iff the current drawdown is 10 or more (STOPPED) or a mandatory field is empty. STOPPED is reported as the forced stop and takes precedence. A form that is only missing fields is reported as such. Otherwise it gives exactly the ledger the commit gives, one record longer. |
| Ledger.Delete | src/App.tsx:372 | The ledger after deleting an id holds exactly the records with a different id. |
| Ledger.DeleteAppend | src/App.tsx:372 | Deleting from a ledger split in two is deleting from each half. |
| Ledger.DeleteAbsent | src/App.tsx:372 | Deleting an id that no record carries changes nothing. |
| Ledger.DeleteById | src/App.tsx:372 | With unique ids, deleting a record's id removes that record only. Every other record is kept unchanged and in order. |
| Ledger.DeleteLeavesStaleBalances | src/App.tsx:372 | Deleting a non-zero-P&L record that is not the last one breaks the balance chain. The stored balances are not recomputed. |
| Ledger.SpliceUnchains | src/App.tsx:372 | Cutting a non-zero-P&L record that is not the last one out of a chained ledger leaves the next record's balance unequal to its new predecessor's balance plus its P&L. |
| Ledger.Clear | src/App.tsx:341 | After clearing, the ledger is empty and chained. The statistics are all zero, the balance is 100000 and the mode is NORMAL for any month. |

## Left out

- React rendering, styles, tabs and the confirmation dialog: display only, no logic.
- Loading and saving through `localStorage`: browser I/O.
- The wall clock:
  - The current month (`YYYY-MM`) is a parameter of the classifier.
  - The id (`Date.now()`) is a parameter of the commit.
  - The default form date is left out.
- The equity-curve SVG geometry and all number formatting: display only.
- JavaScript number parsing and floating point:
  - A text field is kept as the real number its text coerces to, with unparseable text coerced to 0.
  - NaN is not modelled. The commit reads the result without the `|| 0` fallback, so NaN could reach the P&L and balance, where the model has 0.
  - IEEE rounding is not modelled.
- A grade string naming an inherited object property (such as `"constructor"`) is not modelled. The model's grade table gives 0 to any grade other than A, B or C.
- The optional chaining on a missing date: the model's date is always a string.
- The labels, colours and emoji of the mode table: presentation only. Only the risk values are modelled.
- The commit method does not check the mode. The STOPPED block exists only through the disabled button, which `Ledger.Record` models as a wrapper around `Ledger.HandleAdd`.
- Modes.Recent: a window of 0 trades is not modelled. In JavaScript `slice(-0)` returns the whole array, and the code only uses windows of 10 and 3.
