# Fee/tax contract simulator and holdings timeline, in Dafny

This project models the two pieces of arithmetic that the portfolio dashboard
carries in its own code:

* **The contract simulator.** A savings contract is followed year by year. The previous year's value
  grows by the annual return, the security fee and then the bank fee are taken
  off, and the yearly contribution is added last; the total amount invested is
  counted alongside. The after-tax curve then gives, for each year, what would
  be kept on selling everything: capital-gains tax is due only on the part of
  the value above the amount invested. The dashboard holds three copies of this
  code (positional arguments, a contract dictionary, and a service class); each
  has its own module, and all three are proved against one shared specification
  in `ContractMath`.
* **The holdings timeline of the portfolio-evolution page.** The portfolio's
  history of signed buy/sell events is replayed, in the order the entries
  were made, into a running volume per ticker. An event is skipped when the
  price table has no row for its date or no column for its ticker (the label
  lookup raises `KeyError`); an event on a cell whose close is NaN is still
  recorded. The running totals are written into a frame laid out on the price table's
  dates × tickers grid. That frame is forward-filled down each column, then
  zero-filled. Every date is valued as Σ volume × close. A second frame adds up
  the net volume traded on each (date, ticker).

Files and modules:

| file | module | what it holds |
|---|---|---|
| `wrappers.dfy` | `Wrappers` | `Option` |
| `contract_math.dfy` | `ContractMath` | contract terms, the yearly recurrence as functions, the year loop `SimulateYears`, the after-tax value, and the lemmas about them |
| `security_comparator.dfy` | `SecurityComparator` | the positional-argument `simulate_contract` and `compute_after_tax_curve`, plus the after-tax finding |
| `utils_sec_comp.dfy` | `SecCompUtils` | the contract-dictionary copies |
| `simulation_service.dfy` | `SimulationService` | the `SimulationService` static-method copies |
| `evolution.dfy` | `Evolution` | the replay, the fills, the valuation and the traded-volume tally |

Modelling choices:

* **Money.** Money is `real`.
* **The horizon.** `years` is an `int`, as in the source. `years = -1` fails like
  `values[0]` on an empty numpy array (`IndexOutOfBounds`). Anything lower
  fails like `np.empty` on a negative size (`NegativeDimensions`).
* **The contribution test.** The source guards the contribution with
  `if yearly_contribution:`. This is modelled as "contribution ≠ 0". Adding a
  zero contribution would give the same values, and the proofs state the
  recurrence with the contribution always added.
* **The price table.** It is an `Axes` value plus a close grid
  `close[i][j]`. `Axes` holds the row labels (trading dates, strictly
  increasing) and the column labels (tickers, all different).
* **Label lookups.** A lookup by label fails (pandas raises `KeyError`) exactly
  when the date is not a row or the ticker is not a column.
* **Missing cells.** A missing cell of a frame is `None`, where pandas holds NaN.
* **Frames as arrays.** The frames are `array2` values updated in place, as
  the source's `DataFrame`s are. The `Value` column is a separate
  `array<real>`.

## Model

| member | source | states |
|---|---|---|
| ContractMath.Values | dashboard/security_comparator.py:24-41 | reference definition of the yearly curve (`years + 1` entries, entry `y` the value after `y` years); what it means is proved of `SimulateYears`, `CurveSteps` and `ClosedForm` |
| ContractMath.InvestedStep | dashboard/security_comparator.py:37-39 | each simulated year adds exactly one contribution to the amount invested |
| ContractMath.StepByNetFactor | dashboard/security_comparator.py:31-38 | one year multiplies the previous value by (1+return)(1−security fee)(1−bank fee) and then adds the contribution, so the contribution is not charged that year's fees |
| ContractMath.FeesInOrder | dashboard/security_comparator.py:31-35 | taking the return, then the security fee, then the bank fee, one multiplication at a time, gives the year-end value less the contribution |
| ContractMath.ClosedForm | dashboard/security_comparator.py:29-41 | after `y` years the value is initial·F^y + contribution·(1 + F + … + F^(y−1)), where F is the yearly net factor |
| ContractMath.ZeroContributionCompounds | dashboard/security_comparator.py:5 | with no contribution (the default) the value after `y` years is initial·F^y and the amount invested stays `initial` |
| ContractMath.NetFactorNonNegative | dashboard/security_comparator.py:31-35 | with a return of at least −100% and fees of at most 100%, the yearly net factor is not negative |
| ContractMath.ValuesStayNonNegative | dashboard/security_comparator.py:29-41 | with a non-negative start and contribution, and rates in range, no simulated year's value is negative |
| ContractMath.LargerNetFactorGrowsMore | dashboard/security_comparator.py:29-41 | two contracts with the same start and contribution: the one with the larger net factor is worth at least as much in every year |
| ContractMath.ZeroContributionCurve | dashboard/utils_sec_comp.py:50-52 | with a zero yearly investment the invested amount stays `initial` and every year's value is pure compounding of `initial` |
| ContractMath.CurveSteps | dashboard/security_comparator.py:24-39 | the simulated curve starts at `initial`, and each later year is the previous one after return, security fee, bank fee and contribution |
| ContractMath.SimulateYears | dashboard/security_comparator.py:24-42 | the year loop: fails exactly for a negative horizon (two error kinds); otherwise returns a fresh array equal to the recurrence's values and `invested = initial + years·contribution` |
| ContractMath.AfterTaxValue | dashboard/security_comparator.py:58-62 | a value at or below the amount invested is kept whole; above it, the amount invested plus (1−tax) of the gain is kept |
| ContractMath.AfterTaxBounds | dashboard/security_comparator.py:58-62 | with a tax rate in [0,1], the after-tax value lies between min(value, invested) and the value |
| ContractMath.AfterTaxMonotoneInValue | dashboard/security_comparator.py:58-62 | with a tax rate of at most 1, a larger pre-tax value never keeps less after tax |
| ContractMath.AfterTaxAntitoneInBasis | dashboard/security_comparator.py:58-62 | with a non-negative tax rate, comparing against a larger amount invested never keeps less |
| ContractMath.AfterTaxByYear | dashboard/security_comparator.py:58-62 | reference definition of the corrected curve (year `y` taxed against the amount invested up to year `y`); it is compared with the curve as written by `FinalBasisUndertaxesEarlyYears`, `AsWrittenNeverTaxesMore` and `CurvesAgreeAtHorizonOrWithoutContributions` |
| SecurityComparator.SimulateContract | dashboard/security_comparator.py:4-42 | fails exactly when `years < 0`; otherwise `years + 1` values, the first `initial`, each later one the previous after return, security fee, bank fee and then the contribution; `invested = initial + years·contribution`; a zero contribution leaves `invested = initial` and makes the values pure compounding |
| SecurityComparator.ComputeAfterTaxCurve | dashboard/security_comparator.py:45-63 | same length as `values`; years at or below `invested` are untaxed; others keep `invested + (1−tax)(value−invested)`; with a tax rate in [0,1] each entry lies between min(value, invested) and the value |
| SecurityComparator.FinalBasisUndertaxesEarlyYears | dashboard/security_comparator.py:58-62 | a concrete contract where the curve keeps 2100 in year 1, whereas taxing the gain made up to year 1 keeps 2070 |
| SecurityComparator.AsWrittenNeverTaxesMore | dashboard/security_comparator.py:58-62 | with non-negative contributions and tax, the curve as written keeps at least what the per-year curve keeps in every year |
| SecurityComparator.CurvesAgreeAtHorizonOrWithoutContributions | dashboard/security_comparator.py:58-62 | the two curves agree in the final year, and in every year when the contribution is zero |
| SecCompUtils.SimulateContract | dashboard/utils_sec_comp.py:17-55 | the contract-dictionary copy: same failure cases, length, first entry, yearly recurrence and `invested` total, all read from the contract's fields |
| SecCompUtils.ComputeAfterTaxCurve | dashboard/utils_sec_comp.py:58-76 | same length; untaxed at or below `invested`; gains taxed at the rate; bounded by min(value, invested) and the value for a rate in [0,1] |
| SimulationService.SimulateContract | src/services/simulation_service.py:5-29 | the service copy: same failure cases, length, first entry, yearly recurrence and `invested` total |
| SimulationService.ComputeAfterTaxCurve | src/services/simulation_service.py:31-42 | same length; untaxed at or below `invested`; gains taxed at the rate; bounded for a rate in [0,1] |
| Evolution.IndexOf | dashboard/utils_evolution.py:100 | a label lookup finds a position holding the label, and fails exactly when the label is absent |
| Evolution.Cell | dashboard/utils_evolution.py:99-103 | an event has a grid cell exactly when its date is a row and its ticker a column, and the cell carries those labels |
| Evolution.CellOfLabels | dashboard/utils_evolution.py:109 | on valid axes, an event falls in cell (i, j) exactly when it carries date i and ticker j |
| Evolution.ReplayHistory | dashboard/utils_evolution.py:92-109 | every ticker starts at 0; after the loop each running volume is the sum of that ticker's priced events, and each cell holds the running total after the last priced event in it |
| Evolution.RecordEvent | dashboard/utils_evolution.py:105-109 | one priced event: its volume is added to its ticker's running volume and the new total is written into its cell, which turns the replay of the events before it into the replay including it |
| Evolution.SkippedEventLeavesReplayUnchanged | dashboard/utils_evolution.py:99-103 | an event without a close price changes no running volume and no cell |
| Evolution.HeldConcat | dashboard/utils_evolution.py:94-108 | replaying two stretches of history in turn adds their volumes (sells subtract) |
| Evolution.RecordedIsLastLanding | dashboard/utils_evolution.py:108-109 | a cell holds the running total right after the last event that fell in it; earlier events there are overwritten |
| Evolution.UnrecordedMeansNoLanding | dashboard/utils_evolution.py:109 | a cell stays empty exactly when no priced event falls in it |
| Evolution.LatestRecordWins | dashboard/utils_evolution.py:112 | a forward-filled entry is the entry of the latest recorded row at or above it |
| Evolution.NothingRecordedYet | dashboard/utils_evolution.py:112-114 | a forward-filled entry is still missing exactly when no row up to it was recorded |
| Evolution.LastRecordedLooksUp | dashboard/utils_evolution.py:112 | the forward fill at a row depends only on that row and the rows above it |
| Evolution.FillColumn | dashboard/utils_evolution.py:112 | in place, one column: each cell becomes the latest recorded entry at or above it, and every other column is untouched |
| Evolution.ForwardFill | dashboard/utils_evolution.py:112 | in place: every cell becomes the latest recorded entry at or above it in its column (missing if none) |
| Evolution.FillMissingWithZero | dashboard/utils_evolution.py:114 | in place: every missing cell becomes 0 and every other cell is kept |
| Evolution.FilledVolumeIsKeptVolumeToDate | dashboard/utils_evolution.py:89-114 | for a history in date order, the filled frame holds at each (date, ticker) the kept volume up to that date: the ticker's events that have a row and a column, dated then or earlier (0 before the first); events the replay skips count nowhere, and a history out of date order breaks it (see Findings) |
| Evolution.SortByDate | dashboard/utils_evolution.py:94 | the history in date order: a permutation of the entries (same multiset) that is chronological |
| Evolution.SortKeepsKeptVolume | dashboard/utils_evolution.py:94-109 | sorting the history by date changes the kept volume at no date |
| Evolution.SortedReplayIsKeptVolumeToDate | dashboard/utils_evolution.py:94-114 | corrected: replaying the history sorted by date fills each cell with the kept volume of its date, for entries made in any order |
| Evolution.BackDatedEntryMisstatesHoldings | dashboard/utils_evolution.py:94-114 | as written: with rows 5, 6, 7 and entries `+10 on day 7` then `+5 on day 5`, the frame shows 15 on day 5 (5 kept) and 10 on day 7 (15 kept) |
| Evolution.SnapCountsWhenHeld | dashboard/utils_evolution.py:99-103 | an event moved to the first trading date on or after it counts at a trading date exactly when the event itself is held by then |
| Evolution.KeptVolumeOfSnapped | dashboard/utils_evolution.py:94-109 | after moving every event to the first trading date on or after it, the kept volume at each trading date is the volume actually held then |
| Evolution.CarriedReplayIsHoldingAtDate | dashboard/utils_evolution.py:94-114 | corrected: replaying the moved and sorted history fills each cell with the volume held at its date, counting every event of the ticker dated then or earlier, in any entry order and whatever its date |
| Evolution.OffGridEventIsLost | dashboard/utils_evolution.py:99-108 | as written: with rows 5, 6, 7, buying 10 on day 4 and selling 2 on day 6 leaves 8 held on day 7, but the frame shows −2 |
| Evolution.ValuePortfolio | dashboard/utils_evolution.py:117-123 | each date's value is Σ over tickers of volume × close at that date |
| Evolution.ZeroFrame | dashboard/utils_evolution.py:141-143 | a fresh frame of the given shape holding 0 in every cell |
| Evolution.FirstUnplaced | dashboard/utils_evolution.py:145-150 | names the first event whose date or ticker the traded-volume frame lacks; none exactly when every event has a cell |
| Evolution.NetTradedStep | dashboard/utils_evolution.py:150 | adding one event to the tally changes only the cell of its own date and ticker, by its volume |
| Evolution.AddTrade | dashboard/utils_evolution.py:150 | the `+=` of one event's volume into its cell turns the tally of the events before it into the tally including it |
| Evolution.TallyTrades | dashboard/utils_evolution.py:141-150 | as written: starts from a zero frame; raises at exactly the first event without a cell; otherwise each cell holds the net volume traded on that date in that ticker |
| Evolution.TallyTradesSkipping | dashboard/utils_evolution.py:141-150 | corrected: events without a cell are skipped, and each cell holds the net volume traded on that date in that ticker |
| Evolution.TalliesSumToHolding | dashboard/utils_evolution.py:141-150 | a ticker's traded volumes summed over all dates equal its final running volume in the replay |
| Evolution.WeekendEventAbortsTally | dashboard/utils_evolution.py:150 | an event dated on a day with no price row aborts the tally as written, although the replay skips it |
| Evolution.PortfolioEvolution | dashboard/utils_evolution.py:89-150 | the whole chain of lines 89-123 and 141-150 on the corrected history: each filled cell is the last recorded running total (0 before any); each date's value is Σ volume × close and equals the value of that date's holdings; the traded-volume frame holds the net volume per (date, ticker) |

## Left out

- The `foliotrack` package is not part of this model. It provides the `Portfolio` class, the rebalancing solver, market data and storage. The history is taken as a given sequence of events.
- Fetching prices from yfinance, and the forward fill of the price table itself, are left out. `close` is the table after that fill (dashboard/utils_evolution.py:75-80).
- Plotly figures, Streamlit pages and `create_contract_form` are left out; they are presentation only.
- Floating point is not modelled. Money is `real`, with no rounding, NaN or infinity. A close price that is still NaN before a ticker's first quote is therefore not modelled.
- Evolution.ValuePortfolio requires every cell of the frame to be present. The source calls it only after the zero fill, which guarantees that.
- Evolution.ReplayHistory requires distinct tickers on the axes. With a repeated ticker, pandas would write to every column of that name, while the model writes to one.
- Dates are plain integers ordered like trading days. Parsing date strings against pandas timestamps is left out.
- A missing dictionary key (`contract["years"]` and the like) raising `KeyError` is left out. A `Contract` always has every field.
- The contribution is a `real`. Python's truthiness for other types, such as `None`, is left out.
- Evolution.PortfolioEvolution runs the corrected computation, not the one as written. It replays the history after moving each event to the first trading date on or after it and sorting by date, and it builds the traded-volume frame with the tally that skips events without a cell. The as-written replay is `Evolution.ReplayHistory` on the history as entered, and the as-written tally is `Evolution.TallyTrades`; see Findings.

## Findings

| source | as written | input that shows it | evidently intended | confidence | as-written member | corrected member |
|---|---|---|---|---|---|---|
| dashboard/security_comparator.py:58-62 (the same code is in dashboard/utils_sec_comp.py:71-75 and src/services/simulation_service.py:37-41) | every year's value is taxed against the total invested over the whole horizon | initial 1000, return 10%, no fees, 1000 a year, 2 years, tax 30%: year 1 is worth 2100 after 2000 paid in, but the curve keeps all 2100 | tax each year's gain against the amount paid in up to that year (keeps 2070) | medium, not executed | SecurityComparator.FinalBasisUndertaxesEarlyYears | ContractMath.AfterTaxByYear |
| dashboard/utils_evolution.py:150 | `+=` on a cell whose date is not a row of the price table raises `KeyError` | price rows on days 5 and 7, one event for the only ticker dated day 6 | the bar chart leaves out an event it has no bar for, as the replay's lookup at lines 99-103 does, instead of aborting the page | medium, not executed | Evolution.TallyTrades, Evolution.WeekendEventAbortsTally | Evolution.TallyTradesSkipping |
| dashboard/utils_evolution.py:94-109 | the history is replayed in the order the entries were made, while each entry's date is chosen by the user (src/ui/fragments/portfolio_actions.py:70-84), so a back-dated entry leaves wrong running totals in the frame | price rows on days 5, 6, 7; entries `+10 on day 7` then `+5 on day 5`: the frame shows 15 on day 5 and 10 on day 7, where 5 and 15 are held | replay the history in date order | medium, not executed | Evolution.BackDatedEntryMisstatesHoldings | Evolution.SortedReplayIsKeptVolumeToDate |
| dashboard/utils_evolution.py:99-108 | the `continue` for a date with no price row also skips adding the volume to the running total, so an event before the page's start date (pages/evolution.py:19-23) or on a day without prices is lost from every later date | price rows on days 5, 6, 7; entries `+10 on day 4`, `−2 on day 6`: the frame shows −2 on day 7, where 8 are held | count every event from the first trading date on or after it | medium, not executed | Evolution.OffGridEventIsLost | Evolution.CarriedReplayIsHoldingAtDate |
