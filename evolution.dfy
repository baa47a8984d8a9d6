/**
 * The holdings timeline behind the portfolio-evolution chart
 * (dashboard/utils_evolution.py, `plot_portfolio_evolution`).
 *
 * The price table is given: its row labels are the trading dates (strictly
 * increasing), its column labels the portfolio's tickers (all different), and
 * `close[i][j]` is the close of ticker j on date i. The history is replayed
 * into a running volume per ticker and into a frame of recorded volumes on
 * the same grid; the frame is forward-filled and zero-filled; every date is
 * then valued as the sum of volume times close. A second frame adds up the
 * volume traded per (date, ticker). Fetching prices and drawing the charts
 * are not modelled; a missing cell of a frame is `None`, as NaN is in the
 * source.
 */
module Evolution {
  import opened Wrappers

  type Date = int
  type Ticker = string

  /** One entry of the portfolio history: a signed volume (buys positive, sells negative). */
  datatype Event = Event(ticker: Ticker, volume: real, date: Date)

  /** Row and column labels shared by the price table and the frames built on it. */
  datatype Axes = Axes(dates: seq<Date>, tickers: seq<Ticker>) {
    predicate Valid() {
      (forall i, j :: 0 <= i < j < |dates| ==> dates[i] < dates[j]) &&
      (forall i, j :: 0 <= i < j < |tickers| ==> tickers[i] != tickers[j])
    }
  }

  /** Position of `x` in `s`; None when `s` has no such label (a lookup by label raises). */
  function IndexOf<T(==)>(s: seq<T>, x: T): (r: Option<nat>)
    ensures r.Some? ==> r.value < |s| && s[r.value] == x
    ensures r.None? <==> x !in s
  {
    if |s| == 0 then None
    else if s[0] == x then Some(0)
    else match IndexOf(s[1..], x)
      case None => None
      case Some(k) => Some(k + 1)
  }

  /**
   * The grid cell an event falls in: the row of its date and the column of
   * its ticker, or None when the price table has no close for that pair.
   */
  function Cell(ax: Axes, e: Event): (c: Option<(nat, nat)>)
    ensures c.Some? <==> e.date in ax.dates && e.ticker in ax.tickers
    ensures c.Some? ==>
      c.value.0 < |ax.dates| && ax.dates[c.value.0] == e.date &&
      c.value.1 < |ax.tickers| && ax.tickers[c.value.1] == e.ticker
  {
    match (IndexOf(ax.dates, e.date), IndexOf(ax.tickers, e.ticker))
    case (Some(r), Some(k)) => Some((r, k))
    case _ => None
  }

  /** On valid axes, an event falls in cell (i, j) exactly when it carries that date and ticker. */
  lemma CellOfLabels(ax: Axes, e: Event, i: nat, j: nat)
    requires ax.Valid() && i < |ax.dates| && j < |ax.tickers|
    ensures Cell(ax, e) == Some((i, j)) <==> e.date == ax.dates[i] && e.ticker == ax.tickers[j]
  {
    if e.date == ax.dates[i] && e.ticker == ax.tickers[j] {
      var c := Cell(ax, e).value;
      assert ax.dates[c.0] == ax.dates[i] && ax.tickers[c.1] == ax.tickers[j];
    }
  }

  // ---------------------------------------------------------------------
  // Replay of the history (the first loop over the events)
  // ---------------------------------------------------------------------

  /**
   * Running volume of `t` after replaying `events` in order: the signed
   * volumes of its events that have a close price; the others are skipped.
   */
  function Held(ax: Axes, events: seq<Event>, t: Ticker): real {
    if events == [] then 0.0
    else
      var e := events[|events| - 1];
      Held(ax, events[..|events| - 1], t) + (if e.ticker == t && Cell(ax, e).Some? then e.volume else 0.0)
  }

  /**
   * What the replay leaves in cell (row, col) of the volume frame: the
   * running total of the last priced event that fell there, or None.
   */
  function Recorded(ax: Axes, events: seq<Event>, row: nat, col: nat): Option<real> {
    if events == [] then None
    else
      var e := events[|events| - 1];
      if Cell(ax, e) == Some((row, col)) then Some(Held(ax, events, e.ticker))
      else Recorded(ax, events[..|events| - 1], row, col)
  }

  /** State of the replay after `events`: running volumes of the tickers and the frame of recorded totals. */
  ghost predicate Replayed(trackVolume: map<Ticker, real>, comp: array2<Option<real>>, ax: Axes, events: seq<Event>)
    reads comp
  {
    comp.Length0 == |ax.dates| && comp.Length1 == |ax.tickers| &&
    trackVolume.Keys == (set t | t in ax.tickers) &&
    (forall t :: t in trackVolume ==> trackVolume[t] == Held(ax, events, t)) &&
    forall i, j :: 0 <= i < comp.Length0 && 0 <= j < comp.Length1 ==> comp[i, j] == Recorded(ax, events, i, j)
  }

  /**
   * Replays the history: every ticker starts at volume 0; an event without a
   * close price is skipped; otherwise its volume is added to its ticker's
   * running volume, and that running volume is written into the event's cell.
   */
  method ReplayHistory(ax: Axes, events: seq<Event>) returns (trackVolume: map<Ticker, real>, comp: array2<Option<real>>)
    requires ax.Valid()
    ensures fresh(comp) && comp.Length0 == |ax.dates| && comp.Length1 == |ax.tickers|
    ensures trackVolume.Keys == set t | t in ax.tickers
    ensures forall t :: t in trackVolume ==> trackVolume[t] == Held(ax, events, t)
    ensures forall i, j :: 0 <= i < comp.Length0 && 0 <= j < comp.Length1 ==> comp[i, j] == Recorded(ax, events, i, j)
  {
    comp := new Option<real>[|ax.dates|, |ax.tickers|]((i, j) => None);
    trackVolume := map t | t in ax.tickers :: 0.0;
    assert events[..0] == [];
    for k := 0 to |events|
      invariant Replayed(trackVolume, comp, ax, events[..k])
    {
      if Cell(ax, events[k]).None? {
        assert events[..k + 1] == events[..k] + [events[k]];
        SkippedEventLeavesReplayUnchanged(ax, events[..k], events[k]);
        continue;
      }
      trackVolume := RecordEvent(trackVolume, comp, ax, events, k);
    }
    assert events[..|events|] == events;
  }

  /** Adds priced event `k` to its ticker's running volume and writes the new total into its cell. */
  method RecordEvent(trackVolume: map<Ticker, real>, comp: array2<Option<real>>, ax: Axes, events: seq<Event>, k: nat)
    returns (updated: map<Ticker, real>)
    requires ax.Valid() && k < |events| && Cell(ax, events[k]).Some?
    requires Replayed(trackVolume, comp, ax, events[..k])
    modifies comp
    ensures Replayed(updated, comp, ax, events[..k + 1])
  {
    var e := events[k];
    assert events[..k + 1][..k] == events[..k];
    var (row, col) := Cell(ax, e).value;
    updated := trackVolume[e.ticker := trackVolume[e.ticker] + e.volume];
    comp[row, col] := Some(updated[e.ticker]);
  }

  /** An event without a close price changes neither a running volume nor a cell of the frame. */
  lemma SkippedEventLeavesReplayUnchanged(ax: Axes, events: seq<Event>, e: Event)
    requires Cell(ax, e).None?
    ensures forall t :: Held(ax, events + [e], t) == Held(ax, events, t)
    ensures forall row: nat, col: nat :: Recorded(ax, events + [e], row, col) == Recorded(ax, events, row, col)
  {
    assert (events + [e])[..|events|] == events;
  }

  /** Replaying two stretches of history one after the other adds their volumes. */
  lemma {:induction false} HeldConcat(ax: Axes, a: seq<Event>, b: seq<Event>, t: Ticker)
    ensures Held(ax, a + b, t) == Held(ax, a, t) + Held(ax, b, t)
  {
    if b != [] {
      var b' := b[..|b| - 1];
      assert (a + b)[..|a + b| - 1] == a + b';
      HeldConcat(ax, a, b', t);
    } else {
      assert a + b == a;
    }
  }

  /**
   * A cell holds the running total right after the LAST priced event that
   * fell in it: an earlier event in the same cell is overwritten.
   */
  lemma {:induction false} RecordedIsLastLanding(ax: Axes, events: seq<Event>, row: nat, col: nat, k: nat)
    requires k < |events| && Cell(ax, events[k]) == Some((row, col))
    requires forall m :: k < m < |events| ==> Cell(ax, events[m]) != Some((row, col))
    ensures Recorded(ax, events, row, col) == Some(Held(ax, events[..k + 1], events[k].ticker))
  {
    if k < |events| - 1 {
      var prefix := events[..|events| - 1];
      assert prefix[..k + 1] == events[..k + 1];
      RecordedIsLastLanding(ax, prefix, row, col, k);
    } else {
      assert events[..k + 1] == events;
    }
  }

  /** A cell stays empty exactly when no priced event falls in it. */
  lemma {:induction false} UnrecordedMeansNoLanding(ax: Axes, events: seq<Event>, row: nat, col: nat)
    ensures Recorded(ax, events, row, col).None? <==>
      forall m :: 0 <= m < |events| ==> Cell(ax, events[m]) != Some((row, col))
  {
    if events != [] {
      var prefix := events[..|events| - 1];
      UnrecordedMeansNoLanding(ax, prefix, row, col);
      assert forall m :: 0 <= m < |prefix| ==> prefix[m] == events[m];
    }
  }

  // ---------------------------------------------------------------------
  // Forward fill and zero fill of the volume frame
  // ---------------------------------------------------------------------

  /** Most recent recorded entry of a column at or above row `i`; None when there is none. */
  function LastRecorded(col: seq<Option<real>>, i: nat): Option<real>
    requires i < |col|
  {
    if col[i].Some? then col[i]
    else if i == 0 then None
    else LastRecorded(col, i - 1)
  }

  /** The filled entry at row `i` is the entry of the latest recorded row `k <= i`. */
  lemma {:induction false} LatestRecordWins(col: seq<Option<real>>, i: nat, k: nat)
    requires k <= i < |col| && col[k].Some?
    requires forall m :: k < m <= i ==> col[m].None?
    ensures LastRecorded(col, i) == col[k]
  {
    if i > k {
      LatestRecordWins(col, i - 1, k);
    }
  }

  /** The filled entry at row `i` is missing exactly when no row up to `i` was recorded. */
  lemma {:induction false} NothingRecordedYet(col: seq<Option<real>>, i: nat)
    requires i < |col|
    ensures LastRecorded(col, i).None? <==> forall m :: 0 <= m <= i ==> col[m].None?
  {
    if i > 0 && col[i].None? {
      NothingRecordedYet(col, i - 1);
    }
  }

  /** Filling down a column only looks at the rows above and at the current one. */
  lemma {:induction false} LastRecordedLooksUp(a: seq<Option<real>>, b: seq<Option<real>>, i: nat)
    requires i < |a| && i < |b|
    requires forall m :: 0 <= m <= i ==> a[m] == b[m]
    ensures LastRecorded(a, i) == LastRecorded(b, i)
  {
    if i > 0 && a[i].None? {
      LastRecordedLooksUp(a, b, i - 1);
    }
  }

  /** Column `j` of a frame, top to bottom. */
  ghost function Column(comp: array2<Option<real>>, j: nat): (col: seq<Option<real>>)
    requires j < comp.Length1
    reads comp
    ensures |col| == comp.Length0
    ensures forall i :: 0 <= i < comp.Length0 ==> col[i] == comp[i, j]
  {
    seq(comp.Length0, i requires 0 <= i < comp.Length0 reads comp => comp[i, j])
  }

  /** Forward fill of column `j` alone, top to bottom; every other column is left as it is. */
  method FillColumn(comp: array2<Option<real>>, j: nat, ghost col: seq<Option<real>>)
    requires j < comp.Length1
    requires |col| == comp.Length0 && forall r :: 0 <= r < comp.Length0 ==> col[r] == comp[r, j]
    modifies comp
    ensures forall i :: 0 <= i < comp.Length0 ==> comp[i, j] == LastRecorded(col, i)
    ensures forall i, c :: 0 <= i < comp.Length0 && 0 <= c < comp.Length1 && c != j ==> comp[i, c] == old(comp[i, c])
  {
    if comp.Length0 == 0 {
      return;
    }
    var last := comp[0, j];
    for i := 1 to comp.Length0
      invariant last == LastRecorded(col, i - 1)
      invariant forall r :: 0 <= r < i ==> comp[r, j] == LastRecorded(col, r)
      invariant forall r :: i <= r < comp.Length0 ==> comp[r, j] == col[r]
      invariant forall r, c :: 0 <= r < comp.Length0 && 0 <= c < comp.Length1 && c != j ==> comp[r, c] == old(comp[r, c])
    {
      if comp[i, j].None? {
        comp[i, j] := last;
      } else {
        last := comp[i, j];
      }
    }
  }

  /** In-place forward fill: a missing cell takes the value of the cell above it, column by column. */
  method ForwardFill(comp: array2<Option<real>>)
    modifies comp
    ensures forall i, j :: 0 <= i < comp.Length0 && 0 <= j < comp.Length1 ==>
      comp[i, j] == LastRecorded(old(Column(comp, j)), i)
  {
    for j := 0 to comp.Length1
      invariant forall i, c :: 0 <= i < comp.Length0 && 0 <= c < j ==> comp[i, c] == LastRecorded(old(Column(comp, c)), i)
      invariant forall i, c :: 0 <= i < comp.Length0 && j <= c < comp.Length1 ==> comp[i, c] == old(comp[i, c])
    {
      FillColumn(comp, j, old(Column(comp, j)));
    }
  }

  /** In-place zero fill: every cell still missing becomes 0. */
  method FillMissingWithZero(comp: array2<Option<real>>)
    modifies comp
    ensures forall i, j :: 0 <= i < comp.Length0 && 0 <= j < comp.Length1 ==>
      comp[i, j] == Some(old(comp[i, j]).GetOr(0.0))
  {
    for i := 0 to comp.Length0
      invariant forall r, c :: 0 <= r < i && 0 <= c < comp.Length1 ==> comp[r, c] == Some(old(comp[r, c]).GetOr(0.0))
      invariant forall r, c :: i <= r < comp.Length0 && 0 <= c < comp.Length1 ==> comp[r, c] == old(comp[r, c])
    {
      for j := 0 to comp.Length1
        invariant forall c :: 0 <= c < j ==> comp[i, c] == Some(old(comp[i, c]).GetOr(0.0))
        invariant forall r, c :: 0 <= r < i && 0 <= c < comp.Length1 ==> comp[r, c] == Some(old(comp[r, c]).GetOr(0.0))
        invariant forall r, c :: i <= r < comp.Length0 && 0 <= c < comp.Length1 && (r != i || j <= c) ==> comp[r, c] == old(comp[r, c])
      {
        if comp[i, j].None? {
          comp[i, j] := Some(0.0);
        }
      }
    }
  }

  /** The replay's entries in column `j`, top to bottom. */
  function RecordedColumn(ax: Axes, events: seq<Event>, j: nat): (col: seq<Option<real>>)
    ensures |col| == |ax.dates|
    ensures forall i :: 0 <= i < |ax.dates| ==> col[i] == Recorded(ax, events, i, j)
  {
    seq(|ax.dates|, i requires 0 <= i => Recorded(ax, events, i, j))
  }

  /** Volume of ticker j on date i once the replayed frame is forward-filled and zero-filled. */
  function FilledVolume(ax: Axes, events: seq<Event>, i: nat, j: nat): real
    requires i < |ax.dates|
  {
    LastRecorded(RecordedColumn(ax, events, j), i).GetOr(0.0)
  }

  // ---------------------------------------------------------------------
  // What the filled frame holds, for a history in date order
  // ---------------------------------------------------------------------

  /**
   * Events listed in date order. The history is kept in the order the
   * entries were made, and each entry's date is chosen by the user, so a
   * back-dated entry breaks this order.
   */
  predicate Chronological(events: seq<Event>) {
    forall a, b :: 0 <= a < b < |events| ==> events[a].date <= events[b].date
  }

  /**
   * Volume of `t` from the events the replay keeps (a row for the date and a
   * column for the ticker) dated `d` or earlier. An event the replay skips
   * (before the first price row, on a day without prices) counts nowhere,
   * so this is less than what is held whenever such an event exists.
   */
  function KeptVolumeBy(ax: Axes, events: seq<Event>, t: Ticker, d: Date): real {
    if events == [] then 0.0
    else
      var e := events[|events| - 1];
      KeptVolumeBy(ax, events[..|events| - 1], t, d) +
        (if e.ticker == t && Cell(ax, e).Some? && e.date <= d then e.volume else 0.0)
  }

  /** Once every event is dated `d` or earlier, the kept volume at `d` is the whole replay's running volume. */
  lemma {:induction false} KeptVolumeByEverything(ax: Axes, events: seq<Event>, t: Ticker, d: Date)
    requires forall m :: 0 <= m < |events| ==> events[m].date <= d
    ensures KeptVolumeBy(ax, events, t, d) == Held(ax, events, t)
  {
    if events != [] {
      KeptVolumeByEverything(ax, events[..|events| - 1], t, d);
    }
  }

  /** Events dated after `d` do not change the kept volume at `d`. */
  lemma {:induction false} KeptVolumeByIgnoresLater(ax: Axes, events: seq<Event>, e: Event, t: Ticker, d: Date)
    requires e.date > d
    ensures KeptVolumeBy(ax, events + [e], t, d) == KeptVolumeBy(ax, events, t, d)
  {
    assert (events + [e])[..|events|] == events;
  }

  /**
   * For a history in date order, the filled frame holds, at each date and
   * ticker, exactly the volume of that ticker's kept events up to that
   * date: the forward fill carries the last recorded running total down to
   * the following dates, and the zero fill stands for "nothing kept yet".
   */
  lemma {:induction false} FilledVolumeIsKeptVolumeToDate(ax: Axes, events: seq<Event>, i: nat, j: nat)
    requires ax.Valid() && Chronological(events)
    requires i < |ax.dates| && j < |ax.tickers|
    ensures FilledVolume(ax, events, i, j) == KeptVolumeBy(ax, events, ax.tickers[j], ax.dates[i])
  {
    if events == [] {
      NothingRecordedYet(RecordedColumn(ax, events, j), i);
    } else {
      var n := |events|;
      var prefix, e := events[..n - 1], events[n - 1];
      assert events == prefix + [e];
      assert Chronological(prefix);
      FilledVolumeIsKeptVolumeToDate(ax, prefix, i, j);
      FilledStep(ax, prefix, e, i, j);
    }
  }

  /** Induction step of `FilledVolumeIsKeptVolumeToDate`: one more event, in date order. */
  lemma FilledStep(ax: Axes, prefix: seq<Event>, e: Event, i: nat, j: nat)
    requires ax.Valid() && Chronological(prefix + [e])
    requires i < |ax.dates| && j < |ax.tickers|
    requires FilledVolume(ax, prefix, i, j) == KeptVolumeBy(ax, prefix, ax.tickers[j], ax.dates[i])
    ensures FilledVolume(ax, prefix + [e], i, j) == KeptVolumeBy(ax, prefix + [e], ax.tickers[j], ax.dates[i])
  {
    var events := prefix + [e];
    assert events[..|prefix|] == prefix;
    var t, d := ax.tickers[j], ax.dates[i];
    var oldCol, newCol := RecordedColumn(ax, prefix, j), RecordedColumn(ax, events, j);
    if Cell(ax, e).None? {
      SkippedEventLeavesReplayUnchanged(ax, prefix, e);
      assert oldCol == newCol;
    } else {
      var (r, c) := Cell(ax, e).value;
      if c != j {
        assert oldCol == newCol;
        assert e.ticker != t by { CellOfLabels(ax, e, r, j); }
      } else if i < r {
        assert e.date > d;
        LastRecordedLooksUp(oldCol, newCol, i);
        KeptVolumeByIgnoresLater(ax, prefix, e, t, d);
      } else {
        FilledStepAtOrBelowLanding(ax, prefix, e, i, j, r);
      }
    }
  }

  /**
   * The case of `FilledStep` where the new event lands in column `j` at row
   * `r <= i`: the filled entry is now the final running total, and every
   * event so far is dated on or before date `i`.
   */
  lemma FilledStepAtOrBelowLanding(ax: Axes, prefix: seq<Event>, e: Event, i: nat, j: nat, r: nat)
    requires ax.Valid() && Chronological(prefix + [e])
    requires r <= i < |ax.dates| && j < |ax.tickers|
    requires Cell(ax, e) == Some((r, j))
    ensures FilledVolume(ax, prefix + [e], i, j) == KeptVolumeBy(ax, prefix + [e], ax.tickers[j], ax.dates[i])
  {
    var events := prefix + [e];
    var n := |events|;
    var t, d := ax.tickers[j], ax.dates[i];
    var oldCol, newCol := RecordedColumn(ax, prefix, j), RecordedColumn(ax, events, j);
    assert events[..n - 1] == prefix;
    assert newCol[r] == Some(Held(ax, events, t));
    forall m | r < m <= i
      ensures newCol[m].None?
    {
      forall k | 0 <= k < |prefix|
        ensures Cell(ax, prefix[k]) != Some((m, j))
      {
        assert events[k].date <= events[n - 1].date;
        assert prefix[k].date <= e.date < ax.dates[m];
      }
      UnrecordedMeansNoLanding(ax, prefix, m, j);
      assert newCol[m] == oldCol[m];
    }
    LatestRecordWins(newCol, i, r);
    forall m | 0 <= m < n
      ensures events[m].date <= d
    {
      assert events[m].date <= events[n - 1].date;
    }
    KeptVolumeByEverything(ax, events, t, d);
  }

  // ---------------------------------------------------------------------
  // Holdings at a date, and the history the replay needs to show them
  // ---------------------------------------------------------------------

  /** Volume of `t` held at the close of day `d`: the signed volumes of all its events dated `d` or earlier. */
  function Holding(events: seq<Event>, t: Ticker, d: Date): real {
    if events == [] then 0.0
    else
      var e := events[|events| - 1];
      Holding(events[..|events| - 1], t, d) + (if e.ticker == t && e.date <= d then e.volume else 0.0)
  }

  /** The kept volume of two stretches of history listed one after the other adds up. */
  lemma {:induction false} KeptVolumeByConcat(ax: Axes, a: seq<Event>, b: seq<Event>, t: Ticker, d: Date)
    ensures KeptVolumeBy(ax, a + b, t, d) == KeptVolumeBy(ax, a, t, d) + KeptVolumeBy(ax, b, t, d)
  {
    if b != [] {
      var b' := b[..|b| - 1];
      assert (a + b)[..|a + b| - 1] == a + b';
      KeptVolumeByConcat(ax, a, b', t, d);
    } else {
      assert a + b == a;
    }
  }

  /**
   * How many leading events stay in front of a new event dated `d`: the
   * history is scanned from its end past every event dated after `d`.
   */
  function InsertionPoint(s: seq<Event>, d: Date): (k: nat)
    ensures k <= |s|
    ensures forall m :: k <= m < |s| ==> s[m].date > d
    ensures Chronological(s) ==> forall m :: 0 <= m < k ==> s[m].date <= d
  {
    if s == [] || s[|s| - 1].date <= d then |s| else InsertionPoint(s[..|s| - 1], d)
  }

  /** Puts `e` into a history, after every event dated on or before it that ends the history. */
  function InsertByDate(s: seq<Event>, e: Event): (r: seq<Event>)
    ensures multiset(r) == multiset(s) + multiset{e}
  {
    var k := InsertionPoint(s, e.date);
    assert s == s[..k] + s[k..];
    s[..k] + [e] + s[k..]
  }

  /** Inserting into a history in date order keeps it in date order. */
  lemma InsertByDateKeepsOrder(s: seq<Event>, e: Event)
    requires Chronological(s)
    ensures Chronological(InsertByDate(s, e))
  {
    var k := InsertionPoint(s, e.date);
    var r := InsertByDate(s, e);
    assert forall m :: 0 <= m < |r| ==> r[m] == if m < k then s[m] else if m == k then e else s[m - 1];
    forall a, b | 0 <= a < b < |r|
      ensures r[a].date <= r[b].date
    {
      if a < k && k < b {
        assert s[a].date <= s[b - 1].date;
      } else if k < a {
        assert s[a - 1].date <= s[b - 1].date;
      }
    }
  }

  /** The history sorted by date, built by inserting its events one at a time. */
  function SortByDate(events: seq<Event>): (r: seq<Event>)
    ensures multiset(r) == multiset(events)
    ensures Chronological(r)
  {
    if events == [] then []
    else
      var prefix, e := events[..|events| - 1], events[|events| - 1];
      assert events == prefix + [e];
      InsertByDateKeepsOrder(SortByDate(prefix), e);
      InsertByDate(SortByDate(prefix), e)
  }

  /** Inserting an event adds its own share to the kept volume, wherever it goes. */
  lemma InsertAddsKeptVolume(ax: Axes, s: seq<Event>, e: Event, t: Ticker, d: Date)
    ensures KeptVolumeBy(ax, InsertByDate(s, e), t, d) ==
      KeptVolumeBy(ax, s, t, d) + (if e.ticker == t && Cell(ax, e).Some? && e.date <= d then e.volume else 0.0)
  {
    var k := InsertionPoint(s, e.date);
    KeptVolumeByConcat(ax, s[..k] + [e], s[k..], t, d);
    KeptVolumeByConcat(ax, s[..k], [e], t, d);
    KeptVolumeByConcat(ax, s[..k], s[k..], t, d);
    assert s[..k] + s[k..] == s;
    assert [e][..0] == [];
  }

  /** Sorting the history by date does not change the kept volume at any date. */
  lemma {:induction false} SortKeepsKeptVolume(ax: Axes, events: seq<Event>, t: Ticker, d: Date)
    ensures KeptVolumeBy(ax, SortByDate(events), t, d) == KeptVolumeBy(ax, events, t, d)
  {
    if events != [] {
      var prefix, e := events[..|events| - 1], events[|events| - 1];
      SortKeepsKeptVolume(ax, prefix, t, d);
      InsertAddsKeptVolume(ax, SortByDate(prefix), e, t, d);
    }
  }

  /**
   * Replaying the history sorted by date fills every cell with the kept
   * volume of its date, whatever order the entries were made in.
   */
  lemma SortedReplayIsKeptVolumeToDate(ax: Axes, events: seq<Event>, i: nat, j: nat)
    requires ax.Valid() && i < |ax.dates| && j < |ax.tickers|
    ensures FilledVolume(ax, SortByDate(events), i, j) == KeptVolumeBy(ax, events, ax.tickers[j], ax.dates[i])
  {
    FilledVolumeIsKeptVolumeToDate(ax, SortByDate(events), i, j);
    SortKeepsKeptVolume(ax, events, ax.tickers[j], ax.dates[i]);
  }

  /**
   * A back-dated entry, replayed in the order it was made: the frame shows
   * 15 units on the earlier date, where 5 are held, and 10 on the later
   * date, where 15 are held.
   */
  lemma BackDatedEntryMisstatesHoldings()
    ensures var ax := Axes([5, 6, 7], ["A"]);
      var events := [Event("A", 10.0, 7), Event("A", 5.0, 5)];
      ax.Valid() && !Chronological(events) &&
      FilledVolume(ax, events, 0, 0) == 15.0 && KeptVolumeBy(ax, events, "A", 5) == 5.0 &&
      FilledVolume(ax, events, 2, 0) == 10.0 && KeptVolumeBy(ax, events, "A", 7) == 15.0
  {
    var ax := Axes([5, 6, 7], ["A"]);
    var events := [Event("A", 10.0, 7), Event("A", 5.0, 5)];
    assert events[..1] == [events[0]] && [events[0]][..0] == [];
    assert Cell(ax, events[0]) == Some((2, 0));
    assert Cell(ax, events[1]) == Some((0, 0));
    assert Held(ax, events[..1], "A") == 10.0;
    assert Held(ax, events, "A") == 15.0;
    var col := RecordedColumn(ax, events, 0);
    assert col[0] == Some(15.0);
    UnrecordedMeansNoLanding(ax, events, 1, 0);
    assert col[2] == Some(10.0);
  }

  /** Row of the first trading date on or after `d`; None when every trading date is earlier. */
  function FirstAtOrAfter(dates: seq<Date>, d: Date): (r: Option<nat>)
    ensures r.None? <==> forall m :: 0 <= m < |dates| ==> dates[m] < d
    ensures r.Some? ==>
      r.value < |dates| && dates[r.value] >= d && (forall m :: 0 <= m < r.value ==> dates[m] < d)
  {
    if dates == [] then None
    else if dates[0] >= d then Some(0)
    else match FirstAtOrAfter(dates[1..], d)
      case None => None
      case Some(k) => Some(k + 1)
  }

  /** `e` moved to the first trading date on or after its own; left as it is when there is none. */
  function Snap(ax: Axes, e: Event): Event {
    match FirstAtOrAfter(ax.dates, e.date)
    case None => e
    case Some(k) => Event(e.ticker, e.volume, ax.dates[k])
  }

  function SnapAll(ax: Axes, events: seq<Event>): seq<Event> {
    seq(|events|, m requires 0 <= m < |events| => Snap(ax, events[m]))
  }

  /**
   * A moved event counts toward the kept volume at a trading date exactly
   * when the event itself is held by then.
   */
  lemma SnapCountsWhenHeld(ax: Axes, e: Event, t: Ticker, i: nat)
    requires ax.Valid() && t in ax.tickers && i < |ax.dates|
    ensures (Snap(ax, e).ticker == t && Cell(ax, Snap(ax, e)).Some? && Snap(ax, e).date <= ax.dates[i]) <==>
      (e.ticker == t && e.date <= ax.dates[i])
  {
    match FirstAtOrAfter(ax.dates, e.date)
    case None =>
      assert e.date !in ax.dates;
    case Some(k) =>
      assert ax.dates[k] in ax.dates;
      if e.date <= ax.dates[i] {
        assert k <= i;
      }
  }

  /** The kept volume of the moved history at a trading date is what is held at that date. */
  lemma {:induction false} KeptVolumeOfSnapped(ax: Axes, events: seq<Event>, t: Ticker, i: nat)
    requires ax.Valid() && t in ax.tickers && i < |ax.dates|
    ensures KeptVolumeBy(ax, SnapAll(ax, events), t, ax.dates[i]) == Holding(events, t, ax.dates[i])
  {
    if events != [] {
      var prefix := events[..|events| - 1];
      assert SnapAll(ax, events)[..|events| - 1] == SnapAll(ax, prefix);
      KeptVolumeOfSnapped(ax, prefix, t, i);
      SnapCountsWhenHeld(ax, events[|events| - 1], t, i);
    }
  }

  /**
   * The history the replay needs to show holdings: each event moved to the
   * first trading date on or after it, then sorted by date.
   */
  function CarriedHistory(ax: Axes, events: seq<Event>): seq<Event> {
    SortByDate(SnapAll(ax, events))
  }

  /**
   * Replaying the carried history fills every cell with the volume held at
   * its date: every event of the ticker dated then or earlier, in whatever
   * order the entries were made and whether or not their dates have prices.
   */
  lemma CarriedReplayIsHoldingAtDate(ax: Axes, events: seq<Event>, i: nat, j: nat)
    requires ax.Valid() && i < |ax.dates| && j < |ax.tickers|
    ensures FilledVolume(ax, CarriedHistory(ax, events), i, j) == Holding(events, ax.tickers[j], ax.dates[i])
  {
    var snapped := SnapAll(ax, events);
    FilledVolumeIsKeptVolumeToDate(ax, SortByDate(snapped), i, j);
    SortKeepsKeptVolume(ax, snapped, ax.tickers[j], ax.dates[i]);
    KeptVolumeOfSnapped(ax, events, ax.tickers[j], i);
  }

  /**
   * A buy dated before the first price row is lost: in a history in date
   * order, 10 units bought on day 4 and 2 sold on day 6 leave 8 held on day
   * 7, but the frame shows -2.
   */
  lemma OffGridEventIsLost()
    ensures var ax := Axes([5, 6, 7], ["A"]);
      var events := [Event("A", 10.0, 4), Event("A", -2.0, 6)];
      ax.Valid() && Chronological(events) &&
      FilledVolume(ax, events, 2, 0) == -2.0 && Holding(events, "A", 7) == 8.0
  {
    var ax := Axes([5, 6, 7], ["A"]);
    var events := [Event("A", 10.0, 4), Event("A", -2.0, 6)];
    assert events[..1] == [events[0]] && [events[0]][..0] == [];
    assert 4 !in ax.dates;
    assert Cell(ax, events[0]).None?;
    assert Cell(ax, events[1]) == Some((1, 0));
    assert Held(ax, events, "A") == -2.0;
    var col := RecordedColumn(ax, events, 0);
    assert col[1] == Some(-2.0);
    UnrecordedMeansNoLanding(ax, events, 2, 0);
  }

  // ---------------------------------------------------------------------
  // Valuation of every date
  // ---------------------------------------------------------------------

  /** Value of holdings `volumes` at prices `prices`: volume times price, summed over the tickers in order. */
  function Worth(volumes: seq<real>, prices: seq<real>): real
    requires |volumes| == |prices|
  {
    if |volumes| == 0 then 0.0
    else Worth(volumes[..|volumes| - 1], prices[..|prices| - 1]) + volumes[|volumes| - 1] * prices[|prices| - 1]
  }

  /** Volumes of row `i` of a filled frame. */
  ghost function RowVolumes(comp: array2<Option<real>>, i: nat): (row: seq<real>)
    requires i < comp.Length0
    reads comp
    ensures |row| == comp.Length1
    ensures forall j :: 0 <= j < comp.Length1 ==> row[j] == comp[i, j].GetOr(0.0)
  {
    seq(comp.Length1, j requires 0 <= j < comp.Length1 reads comp => comp[i, j].GetOr(0.0))
  }

  /** Price table shaped like the axes: one row of closes per date, one close per ticker. */
  predicate Shaped(close: seq<seq<real>>, rows: nat, cols: nat) {
    |close| == rows && forall i :: 0 <= i < rows ==> |close[i]| == cols
  }

  /** Values every date of the filled frame: the sum over tickers of volume times close. */
  method ValuePortfolio(comp: array2<Option<real>>, close: seq<seq<real>>) returns (value: array<real>)
    requires Shaped(close, comp.Length0, comp.Length1)
    requires forall i, j :: 0 <= i < comp.Length0 && 0 <= j < comp.Length1 ==> comp[i, j].Some?
    ensures fresh(value) && value.Length == comp.Length0
    ensures forall i :: 0 <= i < comp.Length0 ==> value[i] == Worth(RowVolumes(comp, i), close[i])
  {
    value := new real[comp.Length0];
    for i := 0 to comp.Length0
      invariant forall r :: 0 <= r < i ==> value[r] == Worth(RowVolumes(comp, r), close[r])
    {
      var totalValue := 0.0;
      ghost var row := RowVolumes(comp, i);
      for j := 0 to comp.Length1
        invariant totalValue == Worth(row[..j], close[i][..j])
      {
        assert row[..j + 1][..j] == row[..j] && close[i][..j + 1][..j] == close[i][..j];
        totalValue := totalValue + comp[i, j].value * close[i][j];
      }
      assert row[..comp.Length1] == row && close[i][..comp.Length1] == close[i];
      value[i] := totalValue;
    }
  }

  /** Holdings of every ticker at date `i`. */
  function HoldingsAt(ax: Axes, events: seq<Event>, i: nat): (h: seq<real>)
    requires i < |ax.dates|
    ensures |h| == |ax.tickers|
  {
    seq(|ax.tickers|, j requires 0 <= j < |ax.tickers| => Holding(events, ax.tickers[j], ax.dates[i]))
  }

  // ---------------------------------------------------------------------
  // Volume traded per (date, ticker): the bar chart's frame
  // ---------------------------------------------------------------------

  /** Net volume traded in `t` on day `d`: the signed volumes of all its events dated `d`. */
  function NetTraded(events: seq<Event>, d: Date, t: Ticker): real {
    if events == [] then 0.0
    else
      var e := events[|events| - 1];
      NetTraded(events[..|events| - 1], d, t) + (if e.date == d && e.ticker == t then e.volume else 0.0)
  }

  /** Index of the first event the traded-volume frame has no cell for. */
  function FirstUnplaced(ax: Axes, events: seq<Event>): (r: Option<nat>)
    ensures r.None? <==> forall m :: 0 <= m < |events| ==> Cell(ax, events[m]).Some?
    ensures r.Some? ==>
      r.value < |events| && Cell(ax, events[r.value]).None? &&
      (forall m :: 0 <= m < r.value ==> Cell(ax, events[m]).Some?)
  {
    if events == [] then None
    else if Cell(ax, events[0]).None? then Some(0)
    else match FirstUnplaced(ax, events[1..])
      case None => None
      case Some(k) => Some(k + 1)
  }

  /** The first event without a cell is the one `FirstUnplaced` names. */
  lemma FirstUnplacedIs(ax: Axes, events: seq<Event>, k: nat)
    requires k < |events| && Cell(ax, events[k]).None?
    requires forall m :: 0 <= m < k ==> Cell(ax, events[m]).Some?
    ensures FirstUnplaced(ax, events) == Some(k)
  {
  }

  /** Adding one more event to a tally changes only the cell of its own date and ticker. */
  lemma NetTradedStep(ax: Axes, events: seq<Event>, k: nat, i: nat, j: nat)
    requires ax.Valid() && k < |events| && i < |ax.dates| && j < |ax.tickers|
    ensures NetTraded(events[..k + 1], ax.dates[i], ax.tickers[j]) ==
      NetTraded(events[..k], ax.dates[i], ax.tickers[j]) +
      (if Cell(ax, events[k]) == Some((i, j)) then events[k].volume else 0.0)
  {
    assert events[..k + 1][..k] == events[..k];
    CellOfLabels(ax, events[k], i, j);
  }

  /** A fresh frame of zeros, as `pd.DataFrame(0, ...)` builds it. */
  method ZeroFrame(rows: nat, cols: nat) returns (frame: array2<real>)
    ensures fresh(frame) && frame.Length0 == rows && frame.Length1 == cols
    ensures forall i, j :: 0 <= i < rows && 0 <= j < cols ==> frame[i, j] == 0.0
  {
    frame := new real[rows, cols]((i, j) => 0.0);
  }

  /** `traded` is laid out on the axes and holds the net volume of `events` in every cell. */
  ghost predicate Tallied(traded: array2<real>, ax: Axes, events: seq<Event>)
    reads traded
  {
    traded.Length0 == |ax.dates| && traded.Length1 == |ax.tickers| &&
    forall i, j :: 0 <= i < traded.Length0 && 0 <= j < traded.Length1 ==>
      traded[i, j] == NetTraded(events, ax.dates[i], ax.tickers[j])
  }

  /** Adds priced event `k` to the tally of the events before it. */
  method AddTrade(traded: array2<real>, ax: Axes, events: seq<Event>, k: nat)
    requires ax.Valid() && k < |events| && Cell(ax, events[k]).Some?
    requires Tallied(traded, ax, events[..k])
    modifies traded
    ensures Tallied(traded, ax, events[..k + 1])
  {
    forall i, j | 0 <= i < traded.Length0 && 0 <= j < traded.Length1 {
      NetTradedStep(ax, events, k, i, j);
    }
    var (row, col) := Cell(ax, events[k]).value;
    traded[row, col] := traded[row, col] + events[k].volume;
  }

  /** The tally is unchanged by an event without a cell. */
  lemma SkipTrade(traded: array2<real>, ax: Axes, events: seq<Event>, k: nat)
    requires ax.Valid() && k < |events| && Cell(ax, events[k]).None?
    requires Tallied(traded, ax, events[..k])
    ensures Tallied(traded, ax, events[..k + 1])
  {
    forall i, j | 0 <= i < traded.Length0 && 0 <= j < traded.Length1 {
      NetTradedStep(ax, events, k, i, j);
    }
  }

  /** A zero frame on the axes is the tally of no events. */
  lemma ZeroFrameTalliesNothing(traded: array2<real>, ax: Axes, events: seq<Event>)
    requires traded.Length0 == |ax.dates| && traded.Length1 == |ax.tickers|
    requires forall i, j :: 0 <= i < traded.Length0 && 0 <= j < traded.Length1 ==> traded[i, j] == 0.0
    ensures Tallied(traded, ax, events[..0])
  {
    assert events[..0] == [];
  }

  /**
   * The traded-volume frame AS WRITTEN: a zero frame on the price table's
   * grid, incremented cell by cell; the first event whose date or ticker
   * the frame lacks raises, and `raisedAt` names it.
   */
  method TallyTrades(ax: Axes, events: seq<Event>) returns (traded: array2<real>, raisedAt: Option<nat>)
    requires ax.Valid()
    ensures fresh(traded) && traded.Length0 == |ax.dates| && traded.Length1 == |ax.tickers|
    ensures raisedAt == FirstUnplaced(ax, events)
    ensures raisedAt.None? ==> forall i, j :: 0 <= i < traded.Length0 && 0 <= j < traded.Length1 ==>
      traded[i, j] == NetTraded(events, ax.dates[i], ax.tickers[j])
  {
    traded := ZeroFrame(|ax.dates|, |ax.tickers|);
    ZeroFrameTalliesNothing(traded, ax, events);
    for k := 0 to |events|
      invariant forall m :: 0 <= m < k ==> Cell(ax, events[m]).Some?
      invariant Tallied(traded, ax, events[..k])
    {
      if Cell(ax, events[k]).None? {
        FirstUnplacedIs(ax, events, k);
        return traded, Some(k);
      }
      AddTrade(traded, ax, events, k);
    }
    assert events[..|events|] == events;
    raisedAt := None;
  }

  /** The traded-volume frame with events outside the grid skipped, as the replay skips them. */
  method TallyTradesSkipping(ax: Axes, events: seq<Event>) returns (traded: array2<real>)
    requires ax.Valid()
    ensures fresh(traded) && traded.Length0 == |ax.dates| && traded.Length1 == |ax.tickers|
    ensures forall i, j :: 0 <= i < traded.Length0 && 0 <= j < traded.Length1 ==>
      traded[i, j] == NetTraded(events, ax.dates[i], ax.tickers[j])
  {
    traded := ZeroFrame(|ax.dates|, |ax.tickers|);
    ZeroFrameTalliesNothing(traded, ax, events);
    for k := 0 to |events|
      invariant Tallied(traded, ax, events[..k])
    {
      if Cell(ax, events[k]).Some? {
        AddTrade(traded, ax, events, k);
      } else {
        SkipTrade(traded, ax, events, k);
      }
    }
    assert events[..|events|] == events;
  }

  /** Traded volume of `t` summed over the first `n` dates of the axis. */
  function TradedOverDates(ax: Axes, events: seq<Event>, t: Ticker, n: nat): real
    requires n <= |ax.dates|
  {
    if n == 0 then 0.0 else TradedOverDates(ax, events, t, n - 1) + NetTraded(events, ax.dates[n - 1], t)
  }

  lemma {:induction false} TradedOverDatesStep(ax: Axes, events: seq<Event>, e: Event, t: Ticker, n: nat)
    requires ax.Valid() && n <= |ax.dates|
    ensures TradedOverDates(ax, events + [e], t, n) ==
      TradedOverDates(ax, events, t, n) + (if e.ticker == t && e.date in ax.dates[..n] then e.volume else 0.0)
  {
    assert (events + [e])[..|events|] == events;
    if n > 0 {
      TradedOverDatesStep(ax, events, e, t, n - 1);
      assert ax.dates[..n] == ax.dates[..n - 1] + [ax.dates[n - 1]];
      if e.date == ax.dates[n - 1] {
        assert e.date !in ax.dates[..n - 1];
      }
    }
  }

  lemma {:induction false} NothingTraded(ax: Axes, t: Ticker, n: nat)
    requires n <= |ax.dates|
    ensures TradedOverDates(ax, [], t, n) == 0.0
  {
    if n > 0 {
      NothingTraded(ax, t, n - 1);
    }
  }

  /**
   * The traded-volume bars of a ticker add up, over all dates, to its final
   * running volume in the replay.
   */
  lemma {:induction false} TalliesSumToHolding(ax: Axes, events: seq<Event>, j: nat)
    requires ax.Valid() && j < |ax.tickers|
    ensures TradedOverDates(ax, events, ax.tickers[j], |ax.dates|) == Held(ax, events, ax.tickers[j])
  {
    if events == [] {
      NothingTraded(ax, ax.tickers[j], |ax.dates|);
    } else {
      var n := |events|;
      var prefix, e := events[..n - 1], events[n - 1];
      assert events == prefix + [e];
      TalliesSumToHolding(ax, prefix, j);
      TradedOverDatesStep(ax, prefix, e, ax.tickers[j], |ax.dates|);
      assert ax.dates[..|ax.dates|] == ax.dates;
      assert ax.tickers[j] in ax.tickers;
      assert Held(ax, events, ax.tickers[j]) == Held(ax, prefix, ax.tickers[j]) +
        (if e.ticker == ax.tickers[j] && Cell(ax, e).Some? then e.volume else 0.0);
    }
  }

  /**
   * The as-written frame raises on an event dated on a day the price table
   * has no row for (a weekend, say), although the replay skips that event.
   */
  lemma WeekendEventAbortsTally()
    ensures var ax := Axes([5, 7], ["AAA"]);
      var events := [Event("AAA", 10.0, 6)];
      ax.Valid() &&
      FirstUnplaced(ax, events) == Some(0) &&
      Held(ax, events, "AAA") == 0.0
  {
    var ax := Axes([5, 7], ["AAA"]);
    var events := [Event("AAA", 10.0, 6)];
    assert 6 !in ax.dates;
    assert Cell(ax, events[0]).None?;
  }

  // ---------------------------------------------------------------------
  // The whole computation
  // ---------------------------------------------------------------------

  /**
   * The computations of the evolution page in order, with the history
   * carried to trading dates and sorted first: replay, forward fill, zero
   * fill, valuation of every date, and the traded-volume frame (events
   * outside the grid skipped). Each date is valued at the holdings of that
   * date.
   */
  method PortfolioEvolution(ax: Axes, close: seq<seq<real>>, events: seq<Event>)
    returns (comp: array2<Option<real>>, value: array<real>, traded: array2<real>)
    requires ax.Valid() && Shaped(close, |ax.dates|, |ax.tickers|)
    ensures fresh(comp) && fresh(value) && fresh(traded)
    ensures comp.Length0 == |ax.dates| && comp.Length1 == |ax.tickers| && value.Length == |ax.dates|
    ensures forall i, j :: 0 <= i < comp.Length0 && 0 <= j < comp.Length1 ==>
      comp[i, j] == Some(FilledVolume(ax, CarriedHistory(ax, events), i, j))
    ensures forall i :: 0 <= i < value.Length ==> value[i] == Worth(RowVolumes(comp, i), close[i])
    ensures forall i :: 0 <= i < value.Length ==> value[i] == Worth(HoldingsAt(ax, events, i), close[i])
    ensures traded.Length0 == |ax.dates| && traded.Length1 == |ax.tickers|
    ensures forall i, j :: 0 <= i < traded.Length0 && 0 <= j < traded.Length1 ==>
      traded[i, j] == NetTraded(events, ax.dates[i], ax.tickers[j])
  {
    var history := CarriedHistory(ax, events);
    var trackVolume;
    trackVolume, comp := ReplayHistory(ax, history);
    assert forall j :: 0 <= j < comp.Length1 ==> Column(comp, j) == RecordedColumn(ax, history, j);
    ForwardFill(comp);
    FillMissingWithZero(comp);
    value := ValuePortfolio(comp, close);
    forall i | 0 <= i < value.Length
      ensures value[i] == Worth(HoldingsAt(ax, events, i), close[i])
    {
      forall j | 0 <= j < |ax.tickers| {
        CarriedReplayIsHoldingAtDate(ax, events, i, j);
      }
      assert RowVolumes(comp, i) == HoldingsAt(ax, events, i);
    }
    traded := TallyTradesSkipping(ax, events);
  }
}
