/** The day loop that rebuilds the daily feature table from minute bars. */
module DailyFeatures {
  import opened RealArithmetic
  import opened Wrappers

  datatype Bar = Bar(open: real, high: real, low: real, close: real, volume: real)

  datatype Key = Key(code: string, date: int)

  /** The bars of one code on one trade date, in minute order. */
  datatype Day = Day(key: Key, bars: seq<Bar>)

  datatype Feature = Feature(
    open: real, high: real, low: real, close: real, volume: real,
    gain: real, spread: real, gainPct: real, spreadPct: real,
    gap: real, closePosition: real)

  type Table = map<Key, Feature>

  predicate NonEmpty(days: seq<Day>) {
    forall i | 0 <= i < |days| :: days[i].bars != []
  }

  /** What grouping and sorting the rows delivers: no empty group, and a code's dates increasing. */
  ghost predicate Grouped(days: seq<Day>) {
    && NonEmpty(days)
    && (forall i, j | 0 <= i < j < |days| && days[i].key.code == days[j].key.code
          :: days[i].key.date < days[j].key.date)
  }

  function High(bars: seq<Bar>): real
    requires bars != []
  {
    if |bars| == 1 then bars[0].high
    else
      var rest := High(bars[1..]);
      if bars[0].high >= rest then bars[0].high else rest
  }

  function Low(bars: seq<Bar>): real
    requires bars != []
  {
    if |bars| == 1 then bars[0].low
    else
      var rest := Low(bars[1..]);
      if bars[0].low <= rest then bars[0].low else rest
  }

  function Volume(bars: seq<Bar>): real {
    if bars == [] then 0.0 else bars[0].volume + Volume(bars[1..])
  }

  function SafeRatio(numerator: real, denominator: real): real {
    if denominator == 0.0 then 0.0 else numerator / denominator
  }

  /** The features of one day, given the close the gap is measured from. */
  function Compute(bars: seq<Bar>, previousClose: real): Feature
    requires bars != []
  {
    var open, close := bars[0].open, bars[|bars| - 1].close;
    var high, low := High(bars), Low(bars);
    Feature(open, high, low, close, Volume(bars),
            close - open, high - low, SafeRatio(close - open, open), SafeRatio(high - low, open),
            open - previousClose,
            if high - low == 0.0 then 0.5 else SafeRatio(close - low, high - low))
  }

  /** The close of the code's latest day among the first n, if it has one. */
  function LastClose(days: seq<Day>, n: nat, code: string): Option<real>
    requires n <= |days| && NonEmpty(days)
  {
    if n == 0 then None
    else if days[n - 1].key.code == code then Some(days[n - 1].bars[|days[n - 1].bars| - 1].close)
    else LastClose(days, n - 1, code)
  }

  /** The open of the code's earliest day among the first n, if it has one. */
  function FirstOpen(days: seq<Day>, n: nat, code: string): Option<real>
    requires n <= |days| && NonEmpty(days)
  {
    if n == 0 then None
    else if FirstOpen(days, n - 1, code).Some? then FirstOpen(days, n - 1, code)
    else if days[n - 1].key.code == code then Some(days[n - 1].bars[0].open)
    else None
  }

  /** What the i-th day's gap is measured from. */
  function PreviousClose(days: seq<Day>, i: nat): real
    requires i < |days| && NonEmpty(days)
  {
    LastClose(days, i, days[i].key.code).GetOr(days[i].bars[0].open)
  }

  /** The features of the i-th day of a rebuild. */
  function FeatureAt(days: seq<Day>, i: nat): Feature
    requires i < |days| && NonEmpty(days)
  {
    Compute(days[i].bars, PreviousClose(days, i))
  }

  /** The table once the first n days of a rebuild are stored. */
  ghost function Rebuilt(days: seq<Day>, n: nat, table: Table): Table
    requires n <= |days| && NonEmpty(days)
  {
    if n == 0 then table else Rebuilt(days, n - 1, table)[days[n - 1].key := FeatureAt(days, n - 1)]
  }

  /** The closes the loop carries are the last closes of the first n days. */
  ghost predicate Tracks(closes: map<string, real>, days: seq<Day>, n: nat)
    requires n <= |days| && NonEmpty(days)
  {
    forall c :: LastClose(days, n, c) == if c in closes then Some(closes[c]) else None
  }

  method RebuildDailyFeatures(days: seq<Day>, stored: Table) returns (rows: nat, table: Table)
    requires Grouped(days)
    ensures rows == |days| && table == Rebuilt(days, |days|, stored)
  {
    table, rows := stored, 0;
    var previousCloseByCode: map<string, real> := map[];
    for n := 0 to |days|
      invariant rows == n && table == Rebuilt(days, n, stored)
      invariant Tracks(previousCloseByCode, days, n)
    {
      var day := days[n];
      var code := day.key.code;
      var previous := if code in previousCloseByCode then previousCloseByCode[code] else day.bars[0].open;
      assert previous == PreviousClose(days, n);
      table := table[day.key := Compute(day.bars, previous)];
      rows := rows + 1;
      previousCloseByCode := previousCloseByCode[code := day.bars[|day.bars| - 1].close];
    }
  }

  // ----- what a rebuilt table says

  /** Every day of a rebuild has its features in the table, under its own key. */
  lemma {:induction false} RebuiltAt(days: seq<Day>, n: nat, table: Table, i: nat)
    requires Grouped(days) && i < n <= |days|
    ensures days[i].key in Rebuilt(days, n, table) && Rebuilt(days, n, table)[days[i].key] == FeatureAt(days, i)
  {
    if i < n - 1 {
      RebuiltAt(days, n - 1, table, i);
      assert days[i].key != days[n - 1].key;
    }
  }

  /** A rebuild touches no other row. */
  lemma {:induction false} RebuiltElsewhere(days: seq<Day>, n: nat, table: Table, key: Key)
    requires n <= |days| && NonEmpty(days) && forall i | 0 <= i < n :: days[i].key != key
    ensures key in Rebuilt(days, n, table) <==> key in table
    ensures key in table ==> Rebuilt(days, n, table)[key] == table[key]
  {
    if n > 0 {
      RebuiltElsewhere(days, n - 1, table, key);
    }
  }

  /** The day moves and the overnight gaps of one code over the first n days, added up. */
  function TotalMove(days: seq<Day>, n: nat, code: string): real
    requires n <= |days| && NonEmpty(days)
  {
    if n == 0 then 0.0
    else
      TotalMove(days, n - 1, code) +
      (if days[n - 1].key.code == code then FeatureAt(days, n - 1).gap + FeatureAt(days, n - 1).gain else 0.0)
  }

  /** Gaps and day moves telescope: together they are the last close less the first open, code by code. */
  lemma {:induction false} MovesTelescope(days: seq<Day>, n: nat, code: string)
    requires n <= |days| && NonEmpty(days)
    ensures FirstOpen(days, n, code).Some? == LastClose(days, n, code).Some?
         == exists k :: 0 <= k < n && days[k].key.code == code
    ensures TotalMove(days, n, code) ==
            if FirstOpen(days, n, code).Some? then LastClose(days, n, code).value - FirstOpen(days, n, code).value
            else 0.0
  {
    if n > 0 {
      MovesTelescope(days, n - 1, code);
    }
  }

  lemma PlaceInRange(a: real, b: real)
    requires 0.0 <= a <= b && b > 0.0
    ensures 0.0 <= SafeRatio(a, b) <= 1.0
    ensures (SafeRatio(a, b) == 1.0 <==> a == b) && (SafeRatio(a, b) == 0.0 <==> a == 0.0)
  {
    RatioInUnit(a, b);
    var q := a / b;
    assert q * b == a;
  }

  lemma {:induction false} HighLow(bars: seq<Bar>, k: nat)
    requires k < |bars|
    ensures Low(bars) <= bars[k].low && bars[k].high <= High(bars)
  {
    if |bars| > 1 {
      HighLow(bars[1..], if k == 0 then 0 else k - 1);
    }
  }

  lemma {:induction false} HighLowReached(bars: seq<Bar>)
    requires bars != []
    ensures exists k :: 0 <= k < |bars| && bars[k].high == High(bars)
    ensures exists k :: 0 <= k < |bars| && bars[k].low == Low(bars)
  {
    if |bars| == 1 {
      assert bars[0].high == High(bars) && bars[0].low == Low(bars);
    } else {
      HighLowReached(bars[1..]);
      var h :| 0 <= h < |bars| - 1 && bars[1..][h].high == High(bars[1..]);
      var l :| 0 <= l < |bars| - 1 && bars[1..][l].low == Low(bars[1..]);
      assert bars[h + 1].high == High(bars[1..]) && bars[l + 1].low == Low(bars[1..]);
      assert bars[0].high == High(bars) || bars[h + 1].high == High(bars);
      assert bars[0].low == Low(bars) || bars[l + 1].low == Low(bars);
    }
  }

  /** Bars whose open and close lie within their range give a day whose open and close do, at a position in [0, 1]. */
  lemma DayShape(bars: seq<Bar>, previousClose: real)
    requires bars != []
    requires forall k | 0 <= k < |bars| :: bars[k].low <= bars[k].open <= bars[k].high
                                        && bars[k].low <= bars[k].close <= bars[k].high
    ensures var f := Compute(bars, previousClose);
            && f.low <= f.open <= f.high && f.low <= f.close <= f.high && f.spread >= 0.0
            && 0.0 <= f.closePosition <= 1.0
            && (f.spread > 0.0 ==> (f.closePosition == 1.0 <==> f.close == f.high))
            && (f.spread > 0.0 ==> (f.closePosition == 0.0 <==> f.close == f.low))
  {
    HighLow(bars, 0);
    HighLow(bars, |bars| - 1);
    var close, high, low := bars[|bars| - 1].close, High(bars), Low(bars);
    if high > low {
      PlaceInRange(close - low, high - low);
    }
  }

  /** r is n as a part of d, and 0 when d is. */
  ghost predicate IsRatio(r: real, n: real, d: real) {
    if d == 0.0 then r == 0.0 else r * d == n
  }

  /** The volumes of the bars, summed. */
  lemma {:induction false} VolumeAdds(a: seq<Bar>, b: seq<Bar>)
    ensures Volume(a + b) == Volume(a) + Volume(b)
    ensures |a| == 1 ==> Volume(a) == a[0].volume
  {
    if a == [] {
      assert a + b == b;
    } else {
      assert (a + b)[1..] == a[1..] + b;
      VolumeAdds(a[1..], b);
    }
  }

  /** Every number of a day's features, told by its bars and the previous close. */
  lemma FeaturesRead(bars: seq<Bar>, previousClose: real)
    requires bars != []
    ensures var f, first, last := Compute(bars, previousClose), bars[0], bars[|bars| - 1];
            && f.open == first.open && f.close == last.close && f.volume == Volume(bars)
            && f.gain == last.close - first.open && f.gap == first.open - previousClose
            && (forall k | 0 <= k < |bars| :: f.low <= bars[k].low && bars[k].high <= f.high)
            && (exists k :: 0 <= k < |bars| && bars[k].high == f.high)
            && (exists k :: 0 <= k < |bars| && bars[k].low == f.low)
            && f.spread == f.high - f.low
            && IsRatio(f.gainPct, f.gain, f.open) && IsRatio(f.spreadPct, f.spread, f.open)
            && (if f.high == f.low then f.closePosition == 0.5 else IsRatio(f.closePosition, f.close - f.low, f.spread))
  {
    forall k | 0 <= k < |bars| {
      HighLow(bars, k);
    }
    HighLowReached(bars);
  }

  /** The close that a day's gap is measured from: that of the code's latest earlier day, or its own open. */
  lemma {:induction false} LatestClose(days: seq<Day>, n: nat, code: string)
    requires n <= |days| && NonEmpty(days)
    ensures var c := LastClose(days, n, code);
            if c.None? then forall k | 0 <= k < n :: days[k].key.code != code
            else exists k :: 0 <= k < n && days[k].key.code == code && c.value == days[k].bars[|days[k].bars| - 1].close
                             && forall l | k < l < n :: days[l].key.code != code
  {
    if n > 0 && days[n - 1].key.code != code {
      LatestClose(days, n - 1, code);
    }
  }

  // ----- rebuilding a code or a range of dates

  /** The filters of a rebuild. */
  datatype Query = Query(code: Option<string>, since: Option<int>, until: Option<int>)

  predicate Selects(q: Query, key: Key) {
    && (q.code.None? || q.code.value == key.code)
    && (q.since.None? || q.since.value <= key.date)
    && (q.until.None? || key.date <= q.until.value)
  }

  /** The selected days among the first n, in their order. */
  function Selection(days: seq<Day>, n: nat, q: Query): seq<Day>
    requires n <= |days|
  {
    if n == 0 then []
    else if Selects(q, days[n - 1].key) then Selection(days, n - 1, q) + [days[n - 1]]
    else Selection(days, n - 1, q)
  }

  function Selected(days: seq<Day>, q: Query): seq<Day> {
    Selection(days, |days|, q)
  }

  lemma {:induction false} SelectionGrows(days: seq<Day>, i: nat, n: nat, q: Query)
    requires i <= n <= |days|
    ensures Selection(days, i, q) <= Selection(days, n, q)
    ensures i < n && Selects(q, days[i].key) ==>
              |Selection(days, i, q)| < |Selection(days, n, q)| && Selection(days, n, q)[|Selection(days, i, q)|] == days[i]
  {
    if i < n {
      SelectionGrows(days, i, n - 1, q);
    }
  }

  lemma {:induction false} SelectionComesFrom(days: seq<Day>, n: nat, q: Query, m: nat) returns (i: nat)
    requires n <= |days| && m < |Selection(days, n, q)|
    ensures i < n && Selects(q, days[i].key) && Selection(days, n, q)[m] == days[i]
  {
    if Selects(q, days[n - 1].key) && m == |Selection(days, n - 1, q)| {
      i := n - 1;
    } else {
      i := SelectionComesFrom(days, n - 1, q, m);
    }
  }

  lemma {:induction false} SelectionIsGrouped(days: seq<Day>, n: nat, q: Query)
    requires Grouped(days) && n <= |days|
    ensures Grouped(Selection(days, n, q))
  {
    if n > 0 {
      SelectionIsGrouped(days, n - 1, q);
      var init := Selection(days, n - 1, q);
      forall m | 0 <= m < |init| && init[m].key.code == days[n - 1].key.code
        ensures init[m].key.date < days[n - 1].key.date
      {
        var i := SelectionComesFrom(days, n - 1, q, m);
      }
    }
  }

  /** The day is of the code and between the dates that are given, both included. */
  ghost predicate Asked(q: Query, day: Day) {
    && (q.code.Some? ==> day.key.code == q.code.value)
    && (q.since.Some? ==> q.since.value <= day.key.date)
    && (q.until.Some? ==> day.key.date <= q.until.value)
  }

  /** Selected are exactly the days that were asked for. */
  lemma SelectedAreAsked(days: seq<Day>, q: Query, day: Day)
    ensures day in Selected(days, q) <==> day in days && Asked(q, day)
  {
    if day in Selected(days, q) {
      var m :| 0 <= m < |Selected(days, q)| && Selected(days, q)[m] == day;
      var i := SelectionComesFrom(days, |days|, q, m);
    }
    if day in days && Asked(q, day) {
      var i :| 0 <= i < |days| && days[i] == day;
      SelectionGrows(days, i, |days|, q);
    }
  }

  /** The close of the code's latest selected day among the first n. */
  function LastSelectedClose(days: seq<Day>, n: nat, q: Query, code: string): Option<real>
    requires n <= |days| && NonEmpty(days)
  {
    if n == 0 then None
    else if Selects(q, days[n - 1].key) && days[n - 1].key.code == code then
      Some(days[n - 1].bars[|days[n - 1].bars| - 1].close)
    else LastSelectedClose(days, n - 1, q, code)
  }

  lemma {:induction false} LastCloseOfSelection(days: seq<Day>, i: nat, q: Query, code: string)
    requires Grouped(days) && i <= |days| && NonEmpty(Selected(days, q))
    ensures |Selection(days, i, q)| <= |Selected(days, q)|
    ensures LastClose(Selected(days, q), |Selection(days, i, q)|, code) == LastSelectedClose(days, i, q, code)
  {
    SelectionGrows(days, i, |days|, q);
    if i > 0 {
      LastCloseOfSelection(days, i - 1, q, code);
      var n := SelectedAt(days, i - 1, q);
      if Selects(q, days[i - 1].key) {
        LastCloseNext(Selected(days, q), n, code, days[i - 1]);
      }
    }
  }

  /** Where a selected day is in the selection. */
  lemma SelectedAt(days: seq<Day>, i: nat, q: Query) returns (n: nat)
    requires i < |days|
    ensures n == |Selection(days, i, q)|
    ensures if Selects(q, days[i].key)
            then |Selection(days, i + 1, q)| == n + 1 && n < |Selected(days, q)| && Selected(days, q)[n] == days[i]
            else |Selection(days, i + 1, q)| == n
  {
    n := |Selection(days, i, q)|;
    SelectionGrows(days, i, |days|, q);
  }

  lemma LastCloseNext(days: seq<Day>, n: nat, code: string, day: Day)
    requires n < |days| && days[n] == day && NonEmpty(days)
    ensures LastClose(days, n + 1, code) ==
            if day.key.code == code then Some(day.bars[|day.bars| - 1].close) else LastClose(days, n, code)
  {
  }

  /** The i-th day is its code's first selected one. */
  ghost predicate FirstSelected(days: seq<Day>, q: Query, i: nat)
    requires i < |days|
  {
    forall j | 0 <= j < i && days[j].key.code == days[i].key.code :: !Selects(q, days[j].key)
  }

  ghost predicate SelectedBefore(days: seq<Day>, n: nat, q: Query, code: string)
    requires n <= |days|
  {
    exists j | 0 <= j < n :: days[j].key.code == code && Selects(q, days[j].key)
  }

  /** Before a selected day, a day of its code that is not selected has no selected day of the code before it. */
  lemma {:induction false} SelectedCloseIsLast(days: seq<Day>, i: nat, n: nat, q: Query)
    requires Grouped(days) && n <= i < |days| && Selects(q, days[i].key)
    ensures LastSelectedClose(days, n, q, days[i].key.code) ==
            if SelectedBefore(days, n, q, days[i].key.code) then LastClose(days, n, days[i].key.code) else None
  {
    if n > 0 {
      SelectedCloseIsLast(days, i, n - 1, q);
      if days[n - 1].key.code == days[i].key.code && !Selects(q, days[n - 1].key) {
        assert days[n - 1].key.date < q.since.value;
        assert !SelectedBefore(days, n - 1, q, days[i].key.code);
      }
    }
  }

  lemma {:induction false} SomeClose(days: seq<Day>, n: nat, j: nat)
    requires NonEmpty(days) && j < n <= |days|
    ensures LastClose(days, n, days[j].key.code).Some?
  {
    if days[n - 1].key.code != days[j].key.code {
      SomeClose(days, n - 1, j);
    }
  }

  /** In a rebuild of the selected days, only the previous close of a code's first one is lost. */
  lemma PreviousOfSelection(days: seq<Day>, q: Query, i: nat)
    requires Grouped(days) && i < |days| && Selects(q, days[i].key) && NonEmpty(Selected(days, q))
    ensures var m := |Selection(days, i, q)|;
            && m < |Selected(days, q)| && Selected(days, q)[m] == days[i]
            && PreviousClose(Selected(days, q), m) ==
                 if FirstSelected(days, q, i) then days[i].bars[0].open else PreviousClose(days, i)
  {
    SelectionGrows(days, i, |days|, q);
    LastCloseOfSelection(days, i, q, days[i].key.code);
    SelectedCloseIsLast(days, i, i, q);
    if j :| 0 <= j < i && days[j].key.code == days[i].key.code && Selects(q, days[j].key) {
      SomeClose(days, i, j);
      assert SelectedBefore(days, i, q, days[i].key.code);
    }
  }

  lemma GapDecides(bars: seq<Bar>, p: real, q: real)
    requires bars != []
    ensures Compute(bars, p) == Compute(bars, q) <==> p == q
    ensures Compute(bars, p).gap == 0.0 <==> p == bars[0].open
  {
    assert Compute(bars, p) == Compute(bars, q) ==> Compute(bars, p).gap == Compute(bars, q).gap;
  }

  /** The i-th day is unaffected by a rebuild of the selection: it is not its code's first there, or it has no gap. */
  ghost predicate Settled(days: seq<Day>, q: Query, i: nat)
    requires NonEmpty(days) && i < |days|
  {
    FirstSelected(days, q, i) ==> FeatureAt(days, i).gap == 0.0
  }

  /** A rebuild of the selection gives a day the features a full one does exactly when the day is settled. */
  lemma SettledAgrees(days: seq<Day>, q: Query, i: nat)
    requires Grouped(days) && i < |days| && Selects(q, days[i].key) && NonEmpty(Selected(days, q))
    ensures var m := |Selection(days, i, q)|;
            && m < |Selected(days, q)| && Selected(days, q)[m] == days[i]
            && (Settled(days, q, i) <==> FeatureAt(Selected(days, q), m) == FeatureAt(days, i))
  {
    PreviousOfSelection(days, q, i);
    GapDecides(days[i].bars, PreviousClose(days, i), PreviousClose(Selected(days, q), |Selection(days, i, q)|));
  }

  lemma PartialRow(days: seq<Day>, table: Table, q: Query, i: nat)
    requires Grouped(days) && i < |days| && Selects(q, days[i].key) && Grouped(Selected(days, q))
    ensures var full := Rebuilt(days, |days|, table);
            var partial := Rebuilt(Selected(days, q), |Selected(days, q)|, full);
            && days[i].key in full && days[i].key in partial
            && (Settled(days, q, i) <==> partial[days[i].key] == full[days[i].key])
  {
    var part, full := Selected(days, q), Rebuilt(days, |days|, table);
    RebuiltAt(days, |days|, table, i);
    SettledAgrees(days, q, i);
    RebuiltAt(part, |part|, full, |Selection(days, i, q)|);
  }

  lemma OtherRow(days: seq<Day>, table: Table, q: Query, key: Key)
    requires Grouped(days) && NonEmpty(Selected(days, q))
    requires forall i | 0 <= i < |days| && Selects(q, days[i].key) :: days[i].key != key
    ensures var partial := Rebuilt(Selected(days, q), |Selected(days, q)|, table);
            (key in partial <==> key in table) && (key in table ==> partial[key] == table[key])
  {
    var part := Selected(days, q);
    forall m | 0 <= m < |part|
      ensures part[m].key != key
    {
      var i := SelectionComesFrom(days, |days|, q, m);
    }
    RebuiltElsewhere(part, |part|, table, key);
  }

  /**
    Rebuilding only a code or a range of dates, over a fully rebuilt table, changes nothing if and only if
    each code's first selected day has no gap.
   */
  lemma PartialRebuildAgrees(days: seq<Day>, table: Table, q: Query)
    requires Grouped(days)
    ensures Grouped(Selected(days, q))
    ensures var full := Rebuilt(days, |days|, table);
            Rebuilt(Selected(days, q), |Selected(days, q)|, full) == full <==>
            forall i | 0 <= i < |days| && Selects(q, days[i].key) :: Settled(days, q, i)
  {
    SelectionIsGrouped(days, |days|, q);
    var full := Rebuilt(days, |days|, table);
    var partial := Rebuilt(Selected(days, q), |Selected(days, q)|, full);
    forall i | 0 <= i < |days| && Selects(q, days[i].key)
      ensures days[i].key in full && days[i].key in partial
      ensures Settled(days, q, i) <==> partial[days[i].key] == full[days[i].key]
    {
      PartialRow(days, table, q, i);
    }
    forall key | forall i | 0 <= i < |days| && Selects(q, days[i].key) :: days[i].key != key
      ensures key in partial <==> key in full
      ensures key in full ==> partial[key] == full[key]
    {
      OtherRow(days, full, q, key);
    }
    if forall i | 0 <= i < |days| && Selects(q, days[i].key) :: Settled(days, q, i) {
      assert partial.Keys == full.Keys;
      assert partial == full;
    }
  }

  lemma {:induction false} NoFilter(days: seq<Day>, n: nat)
    requires n <= |days|
    ensures Selection(days, n, Query(None, None, None)) == days[..n]
  {
    if n > 0 {
      NoFilter(days, n - 1);
    }
  }

  /** A full rebuild can be repeated. */
  lemma RebuildIsIdempotent(days: seq<Day>, table: Table)
    requires Grouped(days)
    ensures var full := Rebuilt(days, |days|, table);
            Rebuilt(days, |days|, full) == full
  {
    var all := Query(None, None, None);
    NoFilter(days, |days|);
    assert Selected(days, all) == days;
    forall i | 0 <= i < |days|
      ensures Settled(days, all, i)
    {
      SettledAgrees(days, all, i);
      NoFilter(days, i);
    }
    PartialRebuildAgrees(days, table, all);
  }
}
