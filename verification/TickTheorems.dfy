/** The online minute bars of every run are the accepted ticks grouped by minute. */
module TickTheorems {
  import opened RealArithmetic
  import opened Wrappers
  import opened TaipeiTime
  import opened TickBars

  datatype Outcome = Outcome(machine: Machine, archived: seq<Bar>)

  /** The outcome after one more tick. */
  ghost function Then(r: Outcome, t: Tick): Outcome {
    var (m, done) := Apply(r.machine, t);
    Outcome(m, if done.Some? then r.archived + [done.value] else r.archived)
  }

  ghost function Run(ticks: seq<Tick>): Outcome {
    if ticks == [] then Outcome(Initial, []) else Then(Run(ticks[..|ticks| - 1]), ticks[|ticks| - 1])
  }

  /** All bars so far, the open one included. */
  ghost function Bars(r: Outcome): seq<Bar> {
    if r.machine.current.Some? then r.archived + [r.machine.current.value] else r.archived
  }

  // ----- the batch view

  /** The i-th tick counts: it has a price, and no earlier priced tick is of a later minute. */
  ghost predicate Accepted(ticks: seq<Tick>, i: nat)
    requires i < |ticks|
  {
    && ticks[i].price.Some?
    && forall j | 0 <= j < i && ticks[j].price.Some? :: MinuteStart(ticks[j]) <= MinuteStart(ticks[i])
  }

  ghost function AcceptedTicks(ticks: seq<Tick>): seq<Tick> {
    if ticks == [] then []
    else
      var n := |ticks| - 1;
      if Accepted(ticks, n) then AcceptedTicks(ticks[..n]) + [ticks[n]] else AcceptedTicks(ticks[..n])
  }

  ghost predicate Priced(ts: seq<Tick>) {
    forall i | 0 <= i < |ts| :: ts[i].price.Some?
  }

  ghost predicate MinutesAscend(ts: seq<Tick>) {
    forall i, j | 0 <= i <= j < |ts| :: MinuteStart(ts[i]) <= MinuteStart(ts[j])
  }

  /** The ticks of one minute, in order. */
  ghost function Group(ts: seq<Tick>, minute: int): (g: seq<Tick>)
    ensures Priced(ts) ==> Priced(g)
  {
    if ts == [] then []
    else
      var n := |ts| - 1;
      if MinuteStart(ts[n]) == minute then Group(ts[..n], minute) + [ts[n]] else Group(ts[..n], minute)
  }

  ghost function TotalVolume(ts: seq<Tick>): real {
    if ts == [] then 0.0
    else
      var v := ts[|ts| - 1].volume;
      TotalVolume(ts[..|ts| - 1]) + (if v.Some? then v.value else 0.0)
  }

  ghost predicate IsMax(ts: seq<Tick>, h: real)
    requires Priced(ts)
  {
    && (forall i | 0 <= i < |ts| :: ts[i].price.value <= h)
    && exists i | 0 <= i < |ts| :: ts[i].price.value == h
  }

  ghost predicate IsMin(ts: seq<Tick>, l: real)
    requires Priced(ts)
  {
    && (forall i | 0 <= i < |ts| :: l <= ts[i].price.value)
    && exists i | 0 <= i < |ts| :: ts[i].price.value == l
  }

  /** b summarizes the group: first, maximum, minimum, last, summed volume. */
  ghost predicate Summarizes(b: Bar, g: seq<Tick>) {
    && Priced(g) && g != []
    && b.open == g[0].price.value && b.close == g[|g| - 1].price.value && b.lastAt == g[|g| - 1].at
    && b.tradeDate == DateOf(g[0])
    && IsMax(g, b.high) && IsMin(g, b.low) && b.volume == TotalVolume(g)
  }

  lemma SummarizesOne(m: Machine, t: Tick)
    requires t.price.Some?
    ensures Summarizes(OpenBar(m, t), [t])
  {
    assert [t][..0] == [];
    assert TotalVolume([t]) == TotalVolume([]) + VolumeOf(t);
  }

  lemma SummarizesMore(b: Bar, g: seq<Tick>, m: Machine, t: Tick)
    requires Summarizes(b, g) && t.price.Some?
    ensures Summarizes(ExtendBar(b, m, t), g + [t])
  {
    var g' := g + [t];
    assert g'[..|g|] == g && g'[|g|] == t;
    var ih :| 0 <= ih < |g| && g[ih].price.value == b.high;
    var il :| 0 <= il < |g| && g[il].price.value == b.low;
    assert g'[ih] == g[ih] && g'[il] == g[il];
    assert forall i | 0 <= i < |g'| :: g'[i] == if i < |g| then g[i] else t;
  }

  ghost predicate BarAt(ts: seq<Tick>, b: Bar) {
    Summarizes(b, Group(ts, b.minute))
  }

  ghost predicate HasBar(bars: seq<Bar>, minute: int) {
    exists i | 0 <= i < |bars| :: bars[i].minute == minute
  }

  /** Bars in strictly increasing minutes, one for each minute that has ticks, each summarizing its ticks. */
  ghost predicate BarsOf(bars: seq<Bar>, ts: seq<Tick>) {
    && (forall i, j | 0 <= i < j < |bars| :: bars[i].minute < bars[j].minute)
    && (forall i {:trigger BarAt(ts, bars[i])} | 0 <= i < |bars| :: BarAt(ts, bars[i]))
    && (forall k {:trigger HasBar(bars, MinuteStart(ts[k]))} | 0 <= k < |ts| :: HasBar(bars, MinuteStart(ts[k])))
  }

  ghost predicate Current(r: Outcome, ts: seq<Tick>) {
    && (r.machine.current.None? <==> ts == []) && (ts == [] ==> r.archived == [])
    && (ts != [] ==> r.machine.current.value.minute == MinuteStart(ts[|ts| - 1]))
  }

  lemma GroupSnoc(ts: seq<Tick>, t: Tick, minute: int)
    ensures Group(ts + [t], minute) == if MinuteStart(t) == minute then Group(ts, minute) + [t] else Group(ts, minute)
  {
    assert (ts + [t])[..|ts|] == ts;
  }

  lemma {:induction false} GroupEmpty(ts: seq<Tick>, minute: int)
    requires forall i | 0 <= i < |ts| :: MinuteStart(ts[i]) != minute
    ensures Group(ts, minute) == []
  {
    if ts != [] {
      GroupEmpty(ts[..|ts| - 1], minute);
    }
  }

  /** A tick of the open minute extends the last bar. */
  lemma ExtendKeepsBars(bars: seq<Bar>, ts: seq<Tick>, m: Machine, t: Tick)
    requires BarsOf(bars, ts) && bars != [] && t.price.Some? && MinuteStart(t) == bars[|bars| - 1].minute
    ensures BarsOf(bars[..|bars| - 1] + [ExtendBar(bars[|bars| - 1], m, t)], ts + [t])
  {
    var n, ts' := |bars| - 1, ts + [t];
    var bars' := bars[..n] + [ExtendBar(bars[n], m, t)];
    assert forall i | 0 <= i < |bars| :: bars'[i].minute == bars[i].minute;
    forall i | 0 <= i < |bars'|
      ensures BarAt(ts', bars'[i])
    {
      assert BarAt(ts, bars[i]);
      GroupSnoc(ts, t, bars[i].minute);
      if i == n {
        SummarizesMore(bars[n], Group(ts, bars[n].minute), m, t);
      } else {
        assert bars[i].minute < bars[n].minute;
      }
    }
    forall k | 0 <= k < |ts'|
      ensures HasBar(bars', MinuteStart(ts'[k]))
    {
      if k < |ts| {
        assert HasBar(bars, MinuteStart(ts[k]));
        var i :| 0 <= i < |bars| && bars[i].minute == MinuteStart(ts[k]);
        assert bars'[i].minute == MinuteStart(ts'[k]);
      } else {
        assert bars'[n].minute == MinuteStart(t);
      }
    }
  }

  /** A tick of a later minute starts a new bar. */
  lemma OpenKeepsBars(bars: seq<Bar>, ts: seq<Tick>, m: Machine, t: Tick)
    requires BarsOf(bars, ts) && t.price.Some?
    requires forall i | 0 <= i < |bars| :: bars[i].minute < MinuteStart(t)
    ensures BarsOf(bars + [OpenBar(m, t)], ts + [t])
  {
    var n, ts' := |bars|, ts + [t];
    var bars' := bars + [OpenBar(m, t)];
    assert bars'[n] == OpenBar(m, t);
    forall i | 0 <= i < |bars'|
      ensures BarAt(ts', bars'[i])
    {
      GroupSnoc(ts, t, bars'[i].minute);
      if i == n {
        forall k | 0 <= k < |ts|
          ensures MinuteStart(ts[k]) != MinuteStart(t)
        {
          assert HasBar(bars, MinuteStart(ts[k]));
        }
        GroupEmpty(ts, MinuteStart(t));
        SummarizesOne(m, t);
      } else {
        assert BarAt(ts, bars[i]) && bars'[i] == bars[i];
      }
    }
    forall k | 0 <= k < |ts'|
      ensures HasBar(bars', MinuteStart(ts'[k]))
    {
      if k < |ts| {
        assert HasBar(bars, MinuteStart(ts[k]));
        var i :| 0 <= i < |bars| && bars[i].minute == MinuteStart(ts[k]);
        assert bars'[i].minute == MinuteStart(ts'[k]);
      }
    }
  }

  ghost predicate RunInvariant(r: Outcome, ts: seq<Tick>) {
    Priced(ts) && MinutesAscend(ts) && Current(r, ts) && BarsOf(Bars(r), ts)
  }

  lemma StepKeepsBars(r: Outcome, ts: seq<Tick>, t: Tick)
    requires RunInvariant(r, ts) && !Drops(r.machine, t)
    ensures RunInvariant(Then(r, t), ts + [t])
  {
    var bars, d := Bars(r), UpdateDay(r.machine, t);
    assert forall i | 0 <= i < |ts + [t]| :: (ts + [t])[i] == if i < |ts| then ts[i] else t;
    if r.machine.current.Some? && MinuteStart(t) == r.machine.current.value.minute {
      ExtendKeepsBars(bars, ts, d, t);
      assert bars[..|bars| - 1] == r.archived;
    } else {
      forall i | 0 <= i < |bars|
        ensures bars[i].minute < MinuteStart(t)
      {
        assert bars[|bars| - 1].minute < MinuteStart(t);
      }
      OpenKeepsBars(bars, ts, d, t);
    }
  }

  /** The machine drops exactly the ticks that the batch view does not accept. */
  lemma {:induction false} DropsExactlyNext(ticks: seq<Tick>)
    requires ticks != []
    requires RunInvariant(Run(ticks[..|ticks| - 1]), AcceptedTicks(ticks[..|ticks| - 1]))
    ensures Drops(Run(ticks[..|ticks| - 1]).machine, ticks[|ticks| - 1]) <==> !Accepted(ticks, |ticks| - 1)
  {
    var n := |ticks| - 1;
    var init, acc := ticks[..n], AcceptedTicks(ticks[..n]);
    LastAcceptedIsLatest(init);
    if acc != [] {
      AcceptedAreTicks(init, acc[|acc| - 1]);
      var k :| 0 <= k < n && init[k] == acc[|acc| - 1];
      assert ticks[k] == init[k];
    }
    assert forall j | 0 <= j < n :: ticks[j] == init[j];
  }

  lemma {:induction false} AcceptedAreTicks(ticks: seq<Tick>, t: Tick)
    requires t in AcceptedTicks(ticks)
    ensures t.price.Some? && exists k :: 0 <= k < |ticks| && ticks[k] == t
  {
    var n := |ticks| - 1;
    if Accepted(ticks, n) && t == ticks[n] {
    } else {
      AcceptedAreTicks(ticks[..n], t);
      var k :| 0 <= k < n && ticks[..n][k] == t;
      assert ticks[k] == t;
    }
  }

  /** The last accepted tick is of the latest minute among all priced ticks. */
  lemma {:induction false} LastAcceptedIsLatest(ticks: seq<Tick>)
    ensures var acc := AcceptedTicks(ticks);
            forall j | 0 <= j < |ticks| && ticks[j].price.Some? ::
              acc != [] && MinuteStart(ticks[j]) <= MinuteStart(acc[|acc| - 1])
  {
    if ticks != [] {
      var n := |ticks| - 1;
      LastAcceptedIsLatest(ticks[..n]);
      assert forall j | 0 <= j < n :: ticks[..n][j] == ticks[j];
      if !Accepted(ticks, n) && ticks[n].price.Some? {
        var j :| 0 <= j < n && ticks[j].price.Some? && MinuteStart(ticks[j]) > MinuteStart(ticks[n]);
        assert ticks[..n][j] == ticks[j];
      }
    }
  }

  /**
    Online equals batch: after any ticks, the archived bars and the open one are the
    accepted ticks grouped by minute, in strictly increasing minutes.
   */
  lemma {:induction false} BarsEqualGroups(ticks: seq<Tick>)
    ensures RunInvariant(Run(ticks), AcceptedTicks(ticks))
  {
    if ticks != [] {
      var n := |ticks| - 1;
      BarsEqualGroups(ticks[..n]);
      DropsExactlyNext(ticks);
      if Accepted(ticks, n) {
        StepKeepsBars(Run(ticks[..n]), AcceptedTicks(ticks[..n]), ticks[n]);
      }
    }
  }

  /** A tick is dropped exactly when it has no price or an earlier priced tick is of a later minute. */
  lemma DropsExactly(ticks: seq<Tick>, t: Tick)
    ensures Drops(Run(ticks).machine, t) <==> !Accepted(ticks + [t], |ticks|)
  {
    BarsEqualGroups(ticks);
    assert (ticks + [t])[..|ticks|] == ticks;
    DropsExactlyNext(ticks + [t]);
  }

  /** A dropped tick changes nothing. */
  lemma DroppedTicksChangeNothing(ticks: seq<Tick>, t: Tick)
    requires !Accepted(ticks + [t], |ticks|)
    ensures Run(ticks + [t]) == Run(ticks)
  {
    var all := ticks + [t];
    assert all[..|ticks|] == ticks;
    BarsEqualGroups(ticks);
    DropsExactlyNext(all);
  }

  // ----- volume

  ghost function BarVolume(bars: seq<Bar>): real {
    if bars == [] then 0.0 else BarVolume(bars[..|bars| - 1]) + bars[|bars| - 1].volume
  }

  /** Nothing is lost: the bars' volumes add up to the accepted volume. */
  lemma {:induction false} VolumeConserved(ticks: seq<Tick>)
    ensures BarVolume(Bars(Run(ticks))) == TotalVolume(AcceptedTicks(ticks))
  {
    if ticks != [] {
      var n := |ticks| - 1;
      VolumeConserved(ticks[..n]);
      BarsEqualGroups(ticks[..n]);
      DropsExactlyNext(ticks);
      var r, r', acc := Run(ticks[..n]), Run(ticks), AcceptedTicks(ticks[..n]);
      if Accepted(ticks, n) {
        assert (acc + [ticks[n]])[..|acc|] == acc;
        assert Bars(r')[..|Bars(r')| - 1] == r'.archived;
        if r.machine.current.Some? {
          assert Bars(r)[..|Bars(r)| - 1] == r.archived;
        }
      }
    }
  }

  // ----- trade-day statistics

  /** Seconds since midnight of a Taipei clock at the tick. */
  ghost function TaipeiSecond(t: Tick): int {
    (t.at / MICROS_PER_SECOND + 8 * 3600) % 86400
  }

  /** The session is 08:45 to 13:45 in Taipei, whatever clock the tick was written with; the last instant is 13:45:00 sharp. */
  lemma SessionByTheClock(t: Tick)
    ensures InSession(t) <==>
            || 8 * 3600 + 45 * 60 <= TaipeiSecond(t) < 13 * 3600 + 45 * 60
            || (TaipeiSecond(t) == 13 * 3600 + 45 * 60 && t.at % MICROS_PER_SECOND == 0)
  {
    var s, micros := t.at / MICROS_PER_SECOND + 8 * 3600, t.at % MICROS_PER_SECOND;
    var day, second := s / 86400, s % 86400;
    assert t.at + TAIPEI_OFFSET_SECONDS * MICROS_PER_SECOND
        == day * MICROS_PER_DAY + (second * MICROS_PER_SECOND + micros);
    TimeOfDay(day, second * MICROS_PER_SECOND + micros);
  }

  lemma TimeOfDay(day: int, time: int)
    requires 0 <= time < MICROS_PER_DAY
    ensures (day * MICROS_PER_DAY + time) % MICROS_PER_DAY == time
  {
  }

  /** The longest run of ticks at the end that share a trade date. */
  ghost function DayRun(ts: seq<Tick>): seq<Tick> {
    if ts == [] then []
    else
      var n := |ts| - 1;
      if n > 0 && DateOf(ts[n - 1]) == DateOf(ts[n]) then DayRun(ts[..n]) + [ts[n]] else [ts[n]]
  }

  ghost function SessionTicks(ts: seq<Tick>): (g: seq<Tick>)
    ensures Priced(ts) ==> Priced(g)
  {
    if ts == [] then []
    else
      var n := |ts| - 1;
      if InSession(ts[n]) then SessionTicks(ts[..n]) + [ts[n]] else SessionTicks(ts[..n])
  }

  /** Open, high and low of the priced ticks g; all absent when there are none. */
  ghost predicate DayStats(g: seq<Tick>, dayOpen: Option<real>, dayHigh: Option<real>, dayLow: Option<real>) {
    && Priced(g)
    && if g == [] then dayOpen.None? && dayHigh.None? && dayLow.None?
       else dayOpen == g[0].price && dayHigh.Some? && dayLow.Some? && IsMax(g, dayHigh.value) && IsMin(g, dayLow.value)
  }

  lemma DayStatsMore(g: seq<Tick>, o: Option<real>, h: Option<real>, l: Option<real>, t: Tick)
    requires DayStats(g, o, h, l) && t.price.Some?
    ensures var p := t.price.value;
            DayStats(g + [t], if o.None? then Some(p) else o,
                     Some(if h.None? then p else Max(h.value, p)), Some(if l.None? then p else Min(l.value, p)))
  {
    var g' := g + [t];
    assert g'[|g|] == t && forall i | 0 <= i < |g| :: g'[i] == g[i];
    if g != [] {
      var ih :| 0 <= ih < |g| && g[ih].price.value == h.value;
      var il :| 0 <= il < |g| && g[il].price.value == l.value;
      assert g'[ih] == g[ih] && g'[il] == g[il];
    }
  }

  /** The machine's day fields describe the in-session ticks of the current day run. */
  ghost predicate DayCorrect(m: Machine, ts: seq<Tick>) {
    && m.tradeDate == (if ts == [] then None else Some(DateOf(ts[|ts| - 1])))
    && DayStats(SessionTicks(DayRun(ts)), m.dayOpen, m.dayHigh, m.dayLow)
  }

  lemma DayStep(m: Machine, ts: seq<Tick>, t: Tick)
    requires DayCorrect(m, ts) && t.price.Some? && Priced(ts)
    ensures DayCorrect(UpdateDay(m, t), ts + [t])
  {
    var base := DayBase(ts, t);
    DayRunSnoc(ts, t);
    SessionTicksSnoc(base, t);
    var m0 := if m.tradeDate != Some(DateOf(t)) then Machine(m.current, Some(DateOf(t)), None, None, None) else m;
    DayUpdate(m0, SessionTicks(base), t);
  }

  /** What the day run keeps of the ticks before t. */
  ghost function DayBase(ts: seq<Tick>, t: Tick): seq<Tick> {
    if ts != [] && DateOf(ts[|ts| - 1]) == DateOf(t) then DayRun(ts) else []
  }

  lemma DayRunSnoc(ts: seq<Tick>, t: Tick)
    ensures DayRun(ts + [t]) == DayBase(ts, t) + [t]
  {
    assert (ts + [t])[..|ts|] == ts;
  }

  lemma SessionTicksSnoc(ts: seq<Tick>, t: Tick)
    ensures SessionTicks(ts + [t]) == if InSession(t) then SessionTicks(ts) + [t] else SessionTicks(ts)
  {
    assert (ts + [t])[..|ts|] == ts;
  }

  lemma DayUpdate(m: Machine, g: seq<Tick>, t: Tick)
    requires m.tradeDate == Some(DateOf(t)) && t.price.Some? && DayStats(g, m.dayOpen, m.dayHigh, m.dayLow)
    ensures var m' := UpdateDay(m, t);
            DayStats(if InSession(t) then g + [t] else g, m'.dayOpen, m'.dayHigh, m'.dayLow)
  {
    if InSession(t) {
      DayStatsMore(g, m.dayOpen, m.dayHigh, m.dayLow, t);
    }
  }

  /** The accepted ticks up to the end of a minute. */
  ghost function UpTo(ts: seq<Tick>, minute: int): seq<Tick> {
    if ts == [] || MinuteStart(ts[|ts| - 1]) <= minute then ts else UpTo(ts[..|ts| - 1], minute)
  }

  ghost predicate BarDayCorrect(ts: seq<Tick>, b: Bar) {
    DayStats(SessionTicks(DayRun(UpTo(ts, b.minute))), b.dayOpen, b.dayHigh, b.dayLow)
  }

  lemma UpToSnoc(ts: seq<Tick>, t: Tick, minute: int)
    requires MinuteStart(t) > minute
    ensures UpTo(ts + [t], minute) == UpTo(ts, minute)
  {
    assert (ts + [t])[..|ts|] == ts;
  }

  ghost predicate BarsDayCorrect(ts: seq<Tick>, bars: seq<Bar>) {
    forall b | b in bars :: BarDayCorrect(ts, b)
  }

  /** The open bar has the machine's day fields, and archived bars are of earlier minutes. */
  ghost predicate OpenBarIsToday(r: Outcome) {
    r.machine.current.Some? ==>
      var m, b := r.machine, r.machine.current.value;
      && b.dayOpen == m.dayOpen && b.dayHigh == m.dayHigh && b.dayLow == m.dayLow
      && forall a | a in r.archived :: a.minute < b.minute
  }

  ghost predicate DayInvariant(r: Outcome, ts: seq<Tick>) {
    DayCorrect(r.machine, ts) && Current(r, ts) && OpenBarIsToday(r) && BarsDayCorrect(ts, r.archived)
  }

  lemma ArchivedDaysStay(bars: seq<Bar>, ts: seq<Tick>, t: Tick)
    requires BarsDayCorrect(ts, bars) && forall b | b in bars :: b.minute < MinuteStart(t)
    ensures BarsDayCorrect(ts + [t], bars)
  {
    forall b | b in bars
      ensures BarDayCorrect(ts + [t], b)
    {
      assert BarDayCorrect(ts, b);
      UpToSnoc(ts, t, b.minute);
    }
  }

  lemma OpenBarDay(r: Outcome, ts: seq<Tick>)
    requires DayInvariant(r, ts) && r.machine.current.Some?
    ensures BarDayCorrect(ts, r.machine.current.value)
  {
  }

  lemma StepKeepsDays(r: Outcome, ts: seq<Tick>, t: Tick)
    requires DayInvariant(r, ts) && Priced(ts) && !Drops(r.machine, t)
    ensures DayInvariant(Then(r, t), ts + [t])
  {
    DayStep(r.machine, ts, t);
    var r' := Then(r, t);
    if r.machine.current.Some? {
      OpenBarDay(r, ts);
    }
    assert BarsDayCorrect(ts, r'.archived);
    ArchivedDaysStay(r'.archived, ts, t);
  }

  lemma {:induction false} RunKeepsDays(ticks: seq<Tick>)
    ensures DayInvariant(Run(ticks), AcceptedTicks(ticks))
  {
    if ticks != [] {
      var n := |ticks| - 1;
      RunKeepsDays(ticks[..n]);
      BarsEqualGroups(ticks[..n]);
      DropsExactlyNext(ticks);
      if Accepted(ticks, n) {
        StepKeepsDays(Run(ticks[..n]), AcceptedTicks(ticks[..n]), ticks[n]);
      }
    }
  }

  /**
    Every bar's day open, high and low are those of the in-session prices accepted up to the
    bar's last tick since the trade date last changed.
   */
  lemma DayFieldsOfEveryBar(ticks: seq<Tick>)
    ensures var r, acc := Run(ticks), AcceptedTicks(ticks);
            && DayCorrect(r.machine, acc)
            && forall i | 0 <= i < |Bars(r)| :: BarDayCorrect(acc, Bars(r)[i])
  {
    RunKeepsDays(ticks);
    if Run(ticks).machine.current.Some? {
      OpenBarDay(Run(ticks), AcceptedTicks(ticks));
    }
  }

  // ----- when the run is the whole trade date

  ghost function OnDate(ts: seq<Tick>, d: int): seq<Tick> {
    if ts == [] then []
    else
      var n := |ts| - 1;
      if DateOf(ts[n]) == d then OnDate(ts[..n], d) + [ts[n]] else OnDate(ts[..n], d)
  }

  lemma DateOfMinute(a: Tick, b: Tick)
    requires a.offset == b.offset && MinuteStart(a) <= MinuteStart(b)
    ensures DateOf(a) <= DateOf(b)
  {
    var wa, wb := a.at + a.offset, b.at + b.offset;
    assert MinuteFloor(MinuteFloor(wa)) == MinuteFloor(wa) && MinuteFloor(MinuteFloor(wb)) == MinuteFloor(wb);
    TradeDateConstantInMinute(wa, MinuteFloor(wa));
    TradeDateConstantInMinute(wb, MinuteFloor(wb));
    TradeDateMonotone(MinuteFloor(wa), MinuteFloor(wb));
  }

  /** Where the day run begins. */
  ghost function RunStart(ts: seq<Tick>): (a: nat)
    ensures a <= |ts| && (ts != [] ==> a < |ts|)
  {
    if ts == [] then 0
    else
      var n := |ts| - 1;
      if n > 0 && DateOf(ts[n - 1]) == DateOf(ts[n]) then RunStart(ts[..n]) else n
  }

  lemma SuffixSnoc(init: seq<Tick>, t: Tick, a: nat)
    requires a < |init| && DateOf(init[|init| - 1]) == DateOf(t)
    requires forall i | a <= i < |init| :: DateOf(init[i]) == DateOf(init[|init| - 1])
    ensures (init + [t])[a..] == init[a..] + [t] && (a > 0 ==> (init + [t])[a - 1] == init[a - 1])
    ensures forall i | a <= i < |init + [t]| :: DateOf((init + [t])[i]) == DateOf(t)
  {
  }

  lemma {:induction false} RunIsSuffix(ts: seq<Tick>)
    ensures DayRun(ts) == ts[RunStart(ts)..]
    ensures forall i | RunStart(ts) <= i < |ts| :: DateOf(ts[i]) == DateOf(ts[|ts| - 1])
    ensures RunStart(ts) > 0 ==> DateOf(ts[RunStart(ts) - 1]) != DateOf(ts[|ts| - 1])
  {
    if |ts| > 1 && DateOf(ts[|ts| - 2]) == DateOf(ts[|ts| - 1]) {
      var init, t, a := ts[..|ts| - 1], ts[|ts| - 1], RunStart(ts);
      RunIsSuffix(init);
      assert ts == init + [t];
      SuffixSnoc(init, t, a);
    }
  }

  /** The in-session ticks of date d, in order. */
  ghost function SessionOf(ts: seq<Tick>, d: int): seq<Tick> {
    SessionTicks(OnDate(ts, d))
  }

  /** A tick counts for the prices of date d. */
  ghost predicate Counts(t: Tick, d: int) {
    DateOf(t) == d && InSession(t)
  }

  lemma SessionSnoc(ts: seq<Tick>, t: Tick, d: int)
    ensures SessionOf(ts + [t], d) == SessionOf(ts, d) + (if Counts(t, d) then [t] else [])
  {
    assert (ts + [t])[..|ts|] == ts;
    var o := OnDate(ts, d);
    assert (o + [t])[..|o|] == o;
  }

  lemma Regroup<T>(a: seq<T>, b: seq<T>, c: seq<T>)
    ensures (a + b) + c == a + (b + c)
  {
  }

  lemma {:induction false} SessionConcat(a: seq<Tick>, b: seq<Tick>, d: int)
    ensures SessionOf(a + b, d) == SessionOf(a, d) + SessionOf(b, d)
  {
    if b == [] {
      assert a + b == a;
    } else {
      var init, t := b[..|b| - 1], b[|b| - 1];
      assert a + b == (a + init) + [t] && b == init + [t];
      SessionConcat(a, init, d);
      SessionSnoc(a + init, t, d);
      SessionSnoc(init, t, d);
      Regroup(SessionOf(a, d), SessionOf(init, d), if Counts(t, d) then [t] else []);
    }
  }

  lemma {:induction false} AllOnDate(ts: seq<Tick>, d: int)
    requires forall i | 0 <= i < |ts| :: DateOf(ts[i]) == d
    ensures OnDate(ts, d) == ts
  {
    if ts != [] {
      AllOnDate(ts[..|ts| - 1], d);
    }
  }

  lemma {:induction false} SessionEmpty(ts: seq<Tick>, d: int)
    ensures SessionOf(ts, d) == [] <==> forall i | 0 <= i < |ts| :: !Counts(ts[i], d)
  {
    if ts != [] {
      var n := |ts| - 1;
      assert ts == ts[..n] + [ts[n]];
      SessionSnoc(ts[..n], ts[n], d);
      SessionEmpty(ts[..n], d);
      assert forall i | 0 <= i < n :: ts[..n][i] == ts[i];
    }
  }

  /** An in-session tick of the date is followed by a tick of another date: its price is forgotten. */
  ghost predicate Forgets(ts: seq<Tick>, d: int) {
    exists i, j | 0 <= i < j < |ts| :: Counts(ts[i], d) && DateOf(ts[j]) != d
  }

  /** When a run of date d starts at a, what was forgotten is what counts before a. */
  lemma ForgottenBefore(ts: seq<Tick>, a: nat, d: int)
    requires a <= |ts| && forall i | a <= i < |ts| :: DateOf(ts[i]) == d
    requires a > 0 ==> DateOf(ts[a - 1]) != d
    ensures Forgets(ts, d) <==> SessionOf(ts[..a], d) != []
  {
    SessionEmpty(ts[..a], d);
    if Forgets(ts, d) {
      var i, j :| 0 <= i < j < |ts| && Counts(ts[i], d) && DateOf(ts[j]) != d;
      assert i < a && Counts(ts[..a][i], d);
    }
    if SessionOf(ts[..a], d) != [] {
      var i :| 0 <= i < a && Counts(ts[..a][i], d);
      assert Counts(ts[i], d) && i < a - 1;
    }
  }

  lemma RunSplits(ts: seq<Tick>, a: nat, d: int)
    requires a <= |ts| && forall i | a <= i < |ts| :: DateOf(ts[i]) == d
    ensures SessionOf(ts, d) == SessionOf(ts[..a], d) + SessionTicks(ts[a..])
  {
    assert ts == ts[..a] + ts[a..];
    SessionConcat(ts[..a], ts[a..], d);
    AllOnDate(ts[a..], d);
  }

  /** The in-session ticks of the run's date are those before the run and those of the run. */
  lemma RunParts(ts: seq<Tick>, d: int) returns (early: seq<Tick>)
    requires ts != [] && d == DateOf(ts[|ts| - 1])
    ensures SessionOf(ts, d) == early + SessionTicks(DayRun(ts))
    ensures early == [] <==> !Forgets(ts, d)
  {
    var a := RunStart(ts);
    RunIsSuffix(ts);
    early := SessionOf(ts[..a], d);
    ForgottenBefore(ts, a, d);
    RunSplits(ts, a, d);
  }

  lemma SamePrefix<T>(a: seq<T>, b: seq<T>)
    ensures b == a + b <==> a == []
  {
    if a == [] {
      assert a + b == b;
    } else {
      assert |a + b| == |a| + |b|;
    }
  }

  /** The day run has all in-session prices of its trade date exactly when none was forgotten. */
  lemma RunCoversExactly(ts: seq<Tick>)
    requires ts != []
    ensures var d := DateOf(ts[|ts| - 1]);
            SessionTicks(DayRun(ts)) == SessionOf(ts, d) <==> !Forgets(ts, d)
  {
    var early := RunParts(ts, DateOf(ts[|ts| - 1]));
    SamePrefix(early, SessionTicks(DayRun(ts)));
  }

  lemma {:induction false} AcceptedOffsets(ticks: seq<Tick>, offset: int)
    requires forall i | 0 <= i < |ticks| :: ticks[i].offset == offset
    ensures forall t | t in AcceptedTicks(ticks) :: t.offset == offset
  {
    if ticks != [] {
      AcceptedOffsets(ticks[..|ticks| - 1], offset);
    }
  }

  lemma UpToIsPrefix(ts: seq<Tick>, minute: int)
    ensures UpTo(ts, minute) <= ts
  {
  }

  /** The accepted ticks up to the end of a bar. */
  ghost function TicksOf(ticks: seq<Tick>, i: nat): seq<Tick>
    requires i < |Bars(Run(ticks))|
  {
    UpTo(AcceptedTicks(ticks), Bars(Run(ticks))[i].minute)
  }

  /** A bar's ticks are not empty. */
  lemma BarHasTicks(ticks: seq<Tick>, i: nat)
    requires i < |Bars(Run(ticks))|
    ensures TicksOf(ticks, i) != []
  {
    BarsEqualGroups(ticks);
    var acc, b := AcceptedTicks(ticks), Bars(Run(ticks))[i];
    assert BarAt(acc, b);
    GroupMember(acc, b.minute);
  }

  lemma {:induction false} GroupMember(ts: seq<Tick>, minute: int)
    requires Group(ts, minute) != []
    ensures UpTo(ts, minute) != []
  {
    if MinuteStart(ts[|ts| - 1]) > minute {
      GroupMember(ts[..|ts| - 1], minute);
    }
  }

  lemma BarHasDayFields(ticks: seq<Tick>, i: nat)
    requires i < |Bars(Run(ticks))|
    ensures var b := Bars(Run(ticks))[i];
            DayStats(SessionTicks(DayRun(TicksOf(ticks, i))), b.dayOpen, b.dayHigh, b.dayLow)
  {
    DayFieldsOfEveryBar(ticks);
    assert BarDayCorrect(AcceptedTicks(ticks), Bars(Run(ticks))[i]);
  }

  /**
    A bar's day open, high and low are always those of its day run.  The day run has all in-session prices
    of its trade date up to the bar's last tick if and only if no such price was followed by an accepted
    tick of another date.
   */
  lemma DayFieldsExactly(ticks: seq<Tick>, i: nat)
    requires i < |Bars(Run(ticks))|
    ensures var b, ts := Bars(Run(ticks))[i], TicksOf(ticks, i);
            && ts != []
            && DayStats(SessionTicks(DayRun(ts)), b.dayOpen, b.dayHigh, b.dayLow)
            && (SessionTicks(DayRun(ts)) == SessionOf(ts, DateOf(ts[|ts| - 1])) <==> !Forgets(ts, DateOf(ts[|ts| - 1])))
  {
    BarHasTicks(ticks, i);
    RunCoversExactly(TicksOf(ticks, i));
    BarHasDayFields(ticks, i);
  }

  /**
    When all ticks are written with one UTC offset, no price is ever forgotten: each bar's day fields are
    those of its trade date up to the bar's last tick.
   */
  lemma DayFieldsCoverTradeDate(ticks: seq<Tick>, offset: int, i: nat)
    requires forall k | 0 <= k < |ticks| :: ticks[k].offset == offset
    requires i < |Bars(Run(ticks))|
    ensures var b, ts := Bars(Run(ticks))[i], TicksOf(ticks, i);
            && ts != [] && !Forgets(ts, DateOf(ts[|ts| - 1]))
            && DayStats(SessionOf(ts, DateOf(ts[|ts| - 1])), b.dayOpen, b.dayHigh, b.dayLow)
  {
    var ts := TicksOf(ticks, i);
    OneOffsetAscends(ticks, offset, i);
    BarHasTicks(ticks, i);
    OneOffsetForgetsNothing(ts, offset);
    RunCoversExactly(ts);
    assert SessionTicks(DayRun(ts)) == SessionOf(ts, DateOf(ts[|ts| - 1]));
    BarHasDayFields(ticks, i);
  }

  lemma OneOffsetAscends(ticks: seq<Tick>, offset: int, i: nat)
    requires forall k | 0 <= k < |ticks| :: ticks[k].offset == offset
    requires i < |Bars(Run(ticks))|
    ensures var ts := TicksOf(ticks, i);
            MinutesAscend(ts) && forall k | 0 <= k < |ts| :: ts[k].offset == offset
  {
    BarsEqualGroups(ticks);
    AcceptedOffsets(ticks, offset);
    var acc, ts := AcceptedTicks(ticks), TicksOf(ticks, i);
    UpToIsPrefix(acc, Bars(Run(ticks))[i].minute);
    assert forall k | 0 <= k < |ts| :: ts[k] == acc[k] && acc[k] in acc;
  }

  lemma OneOffsetForgetsNothing(ts: seq<Tick>, offset: int)
    requires ts != [] && MinutesAscend(ts) && forall k | 0 <= k < |ts| :: ts[k].offset == offset
    ensures !Forgets(ts, DateOf(ts[|ts| - 1]))
  {
    var d := DateOf(ts[|ts| - 1]);
    forall k, j | 0 <= k < j < |ts|
      ensures Counts(ts[k], d) ==> DateOf(ts[j]) == d
    {
      DateOfMinute(ts[k], ts[j]);
      DateOfMinute(ts[j], ts[|ts| - 1]);
    }
  }

  lemma RunSnoc(ticks: seq<Tick>, t: Tick)
    ensures Run(ticks + [t]).machine == Apply(Run(ticks).machine, t).0
    ensures AcceptedTicks(ticks + [t]) ==
            if Accepted(ticks + [t], |ticks|) then AcceptedTicks(ticks) + [t] else AcceptedTicks(ticks)
  {
    assert (ticks + [t])[..|ticks|] == ticks;
  }

  /** A Taipei tick on the first day, later a Taipei tick, and one a minute later written in UTC. */
  ghost function Mixed(p: real): (Tick, Tick, Tick) {
    var taipei := 8 * MICROS_PER_HOUR;
    (Tick(9 * MICROS_PER_HOUR - taipei, taipei, Some(p), None),
     Tick(16 * MICROS_PER_HOUR - taipei, taipei, Some(p), None),
     Tick(16 * MICROS_PER_HOUR + MICROS_PER_MINUTE - taipei, 0, Some(p), None))
  }

  lemma MixedFacts(p: real)
    ensures var (a, b, c) := Mixed(p);
            && DateOf(a) == -1 && DateOf(b) == 0 && DateOf(c) == -1
            && InSession(a) && !InSession(b) && !InSession(c)
            && MinuteStart(a) < MinuteStart(b) < MinuteStart(c)
  {
  }

  /**
    Mixed offsets can forget a price.  Ticks at 09:00 and at 16:00 Taipei time, then one a minute later
    written in UTC, fall on trade dates -1, 0 and -1; the third resets the day fields, and
    the price of 09:00 is forgotten although it belongs to the third tick's trade date.
   */
  lemma MixedOffsetsForget(p: real)
    ensures var (a, b, c) := Mixed(p);
            && AcceptedTicks([a, b, c]) == [a, b, c] && DateOf(a) == DateOf(c) && InSession(a)
            && Run([a, b, c]).machine.current.Some? && Run([a, b, c]).machine.current.value.dayHigh == None
  {
    var (a, b, c) := Mixed(p);
    MixedFacts(p);
    MixedAccepted(p);
    RunSnoc([], a);
    RunSnoc([a], b);
    RunSnoc([a, b], c);
    var m1 := Apply(Initial, a).0;
    var m2 := Apply(m1, b).0;
    OpensBar(Initial, a);
    OpensBar(m1, b);
    OpensBar(m2, c);
  }

  lemma MixedAccepted(p: real)
    ensures var (a, b, c) := Mixed(p);
            && [] + [a] == [a] && [a] + [b] == [a, b] && [a, b] + [c] == [a, b, c]
            && AcceptedTicks([a]) == [a] && AcceptedTicks([a, b]) == [a, b] && AcceptedTicks([a, b, c]) == [a, b, c]
  {
    var (a, b, c) := Mixed(p);
    MixedFacts(p);
    RunSnoc([], a);
    RunSnoc([a], b);
    RunSnoc([a, b], c);
  }

  /** A priced tick of a later minute opens a bar with the day fields it leaves. */
  lemma OpensBar(m: Machine, t: Tick)
    requires t.price.Some? && (m.current.Some? ==> m.current.value.minute < MinuteStart(t))
    ensures var m', d := Apply(m, t).0, UpdateDay(m, t);
            && m'.current.Some? && m'.current.value.minute == MinuteStart(t) && m'.current.value.dayHigh == d.dayHigh
            && m'.tradeDate == Some(DateOf(t))
            && (m.tradeDate != Some(DateOf(t)) && !InSession(t) ==> d.dayHigh == None)
  {
  }
}
