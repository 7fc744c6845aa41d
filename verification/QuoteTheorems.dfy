/** What the quote features of every run are, told from the quotes alone. */
module QuoteTheorems {
  import opened Wrappers
  import opened TaipeiTime
  import opened QuoteFeatures
  import BidAskDayStats

  /** The machine after the first n quotes. */
  ghost function Run(qs: seq<Quote>, n: nat): Machine
    requires n <= |qs|
  {
    if n == 0 then Initial else Next(Run(qs, n - 1), qs[n - 1])
  }

  /** The snapshot made for the i-th quote. */
  ghost function SnapshotAt(qs: seq<Quote>, i: nat): Snapshot
    requires i < |qs|
  {
    SnapshotOf(Run(qs, i), qs[i])
  }

  // ----- the quotes of a trade date

  /** Where the quotes of the trade date that is current after n quotes begin. */
  ghost function DayStart(qs: seq<Quote>, n: nat): (a: nat)
    requires n <= |qs|
    ensures a <= n && (n > 0 ==> a < n)
  {
    if n == 0 then 0
    else if n > 1 && DateOf(qs[n - 2]) == DateOf(qs[n - 1]) then DayStart(qs, n - 1)
    else n - 1
  }

  /** Volume of one side from the a-th quote up to the b-th. */
  ghost function Volume(qs: seq<Quote>, a: nat, b: nat, outside: bool): real
    requires a <= b <= |qs|
    decreases b
  {
    if a == b then 0.0
    else Volume(qs, a, b - 1, outside) + (if qs[b - 1].outside == outside then qs[b - 1].volume else 0.0)
  }

  ghost function TotalVolume(qs: seq<Quote>, a: nat, b: nat): real
    requires a <= b <= |qs|
    decreases b
  {
    if a == b then 0.0 else TotalVolume(qs, a, b - 1) + qs[b - 1].volume
  }

  /** The signed volume: outside adds, inside subtracts. */
  ghost function Force(qs: seq<Quote>, a: nat, b: nat): real
    requires a <= b <= |qs|
    decreases b
  {
    if a == b then 0.0
    else Force(qs, a, b - 1) + (if qs[b - 1].outside then qs[b - 1].volume else -qs[b - 1].volume)
  }

  lemma {:induction false} SidesMakeForce(qs: seq<Quote>, a: nat, b: nat)
    requires a <= b <= |qs|
    ensures Volume(qs, a, b, true) - Volume(qs, a, b, false) == Force(qs, a, b)
    ensures Volume(qs, a, b, true) + Volume(qs, a, b, false) == TotalVolume(qs, a, b)
    decreases b
  {
    if a < b {
      SidesMakeForce(qs, a, b - 1);
    }
  }

  /** r runs from the least chip value of the quotes to the greatest. */
  ghost predicate IsChipRange(qs: seq<Quote>, a: nat, b: nat, r: Range)
    requires a <= b <= |qs|
  {
    && (forall i | a <= i < b :: r.low <= Chip(qs[i]) <= r.high)
    && (exists i | a <= i < b :: Chip(qs[i]) == r.low)
    && (exists i | a <= i < b :: Chip(qs[i]) == r.high)
  }

  /** r runs from the least signed prefix sum to the greatest. */
  ghost predicate IsForceRange(qs: seq<Quote>, a: nat, b: nat, r: Range)
    requires a <= b <= |qs|
  {
    && (forall k | a < k <= b :: r.low <= Force(qs, a, k) <= r.high)
    && (exists k | a < k <= b :: Force(qs, a, k) == r.low)
    && (exists k | a < k <= b :: Force(qs, a, k) == r.high)
  }

  lemma ChipRangeStep(qs: seq<Quote>, a: nat, b: nat, r: Option<Range>)
    requires a <= b < |qs|
    requires if a == b then r == None else r.Some? && IsChipRange(qs, a, b, r.value)
    ensures IsChipRange(qs, a, b + 1, Widen(r, Chip(qs[b])))
  {
    var w := Widen(r, Chip(qs[b]));
    if a < b {
      var l :| a <= l < b && Chip(qs[l]) == r.value.low;
      var h :| a <= h < b && Chip(qs[h]) == r.value.high;
      assert Chip(qs[l]) == w.low || Chip(qs[b]) == w.low;
      assert Chip(qs[h]) == w.high || Chip(qs[b]) == w.high;
    }
  }

  lemma ForceRangeStep(qs: seq<Quote>, a: nat, b: nat, r: Option<Range>)
    requires a <= b < |qs|
    requires if a == b then r == None else r.Some? && IsForceRange(qs, a, b, r.value)
    ensures IsForceRange(qs, a, b + 1, Widen(r, Force(qs, a, b + 1)))
  {
    var w, f := Widen(r, Force(qs, a, b + 1)), Force(qs, a, b + 1);
    if a < b {
      var l :| a < l <= b && Force(qs, a, l) == r.value.low;
      var h :| a < h <= b && Force(qs, a, h) == r.value.high;
      assert Force(qs, a, l) == w.low || f == w.low;
      assert Force(qs, a, h) == w.high || f == w.high;
    }
  }

  /** The machine holds the sums and ranges of the quotes from the a-th up to the b-th. */
  ghost predicate TracksDay(m: Machine, qs: seq<Quote>, a: nat, b: nat)
    requires a <= b <= |qs|
  {
    && m.outside == Volume(qs, a, b, true) && m.inside == Volume(qs, a, b, false)
    && if a == b then m.chipDay == None && m.forceDay == None
       else (
         && m.chipDay.Some? && m.forceDay.Some?
         && IsChipRange(qs, a, b, m.chipDay.value) && IsForceRange(qs, a, b, m.forceDay.value))
  }

  lemma TracksDayStep(m: Machine, qs: seq<Quote>, a: nat, b: nat)
    requires a <= b < |qs| && TracksDay(m, qs, a, b) && m.tradeDate == Some(DateOf(qs[b]))
    ensures TracksDay(Next(m, qs[b]), qs, a, b + 1)
    ensures SnapshotOf(m, qs[b]).force == Force(qs, a, b + 1)
  {
    SidesMakeForce(qs, a, b);
    SidesMakeForce(qs, a, b + 1);
    ChipRangeStep(qs, a, b, m.chipDay);
    ForceRangeStep(qs, a, b, m.forceDay);
  }

  /** A quote of another date starts the sums and ranges over. */
  lemma TracksDayFresh(m: Machine, qs: seq<Quote>, b: nat)
    requires b < |qs| && m.tradeDate != Some(DateOf(qs[b]))
    ensures TracksDay(Next(m, qs[b]), qs, b, b + 1)
    ensures SnapshotOf(m, qs[b]).force == Force(qs, b, b + 1)
  {
    TracksDayStep(Reset(qs[b]), qs, b, b);
  }

  lemma DateOfRun(qs: seq<Quote>, n: nat)
    requires n <= |qs|
    ensures Run(qs, n).tradeDate == if n == 0 then None else Some(DateOf(qs[n - 1]))
  {
  }

  /** One more quote, on the current date or on another. */
  lemma TracksNext(m: Machine, qs: seq<Quote>, a: nat, b: nat) returns (a': nat)
    requires a <= b < |qs| && TracksDay(m, qs, a, b)
    requires m.tradeDate == if b == 0 then None else Some(DateOf(qs[b - 1]))
    ensures a' == if b > 0 && DateOf(qs[b - 1]) == DateOf(qs[b]) then a else b
    ensures TracksDay(Next(m, qs[b]), qs, a', b + 1) && SnapshotOf(m, qs[b]).force == Force(qs, a', b + 1)
  {
    if b > 0 && DateOf(qs[b - 1]) == DateOf(qs[b]) {
      a' := a;
      TracksDayStep(m, qs, a, b);
    } else {
      a' := b;
      TracksDayFresh(m, qs, b);
    }
  }

  /** After any quotes, in any order of time, the machine tracks the quotes since the last change of date. */
  lemma {:induction false} TracksToday(qs: seq<Quote>, n: nat)
    requires n <= |qs|
    ensures TracksDay(Run(qs, n), qs, DayStart(qs, n), n)
    ensures n > 0 ==> SnapshotAt(qs, n - 1).force == Force(qs, DayStart(qs, n), n)
  {
    if n > 0 {
      TracksToday(qs, n - 1);
      DateOfRun(qs, n - 1);
      var a := TracksNext(Run(qs, n - 1), qs, DayStart(qs, n - 1), n - 1);
      assert a == DayStart(qs, n);
    }
  }

  lemma StrengthPlaces(x: real, r: Range)
    requires r.low <= x <= r.high
    ensures BidAskDayStats.Places(Strength(x, r), x, r.low, r.high)
  {
    BidAskDayStats.StrengthInUnit(x, r.low, r.high);
  }

  /**
    Each snapshot's force is the signed volume since the trade date last changed, outside less inside,
    which together make up the whole; the day ranges are exactly those of the prefix sums and of the chip
    values since then.  No order of time is assumed.
   */
  lemma FeaturesOfEveryRun(qs: seq<Quote>, i: nat)
    requires i < |qs|
    ensures var s, m, a := SnapshotAt(qs, i), Run(qs, i + 1), DayStart(qs, i + 1);
            && s.force == Force(qs, a, i + 1) == m.outside - m.inside
            && m.outside + m.inside == TotalVolume(qs, a, i + 1)
            && IsForceRange(qs, a, i + 1, s.forceDay) && IsChipRange(qs, a, i + 1, s.chipDay)
  {
    TracksToday(qs, i + 1);
    SidesMakeForce(qs, DayStart(qs, i + 1), i + 1);
    assert Run(qs, i + 1) == Next(Run(qs, i), qs[i]);
  }

  /** The strengths are where chip and force lie in their day ranges, from 0 at the low to 1 at the high. */
  lemma StrengthsOfEveryRun(qs: seq<Quote>, i: nat)
    requires i < |qs|
    ensures var s := SnapshotAt(qs, i);
            && s.at == qs[i].at && s.offset == qs[i].offset && s.chip == qs[i].asks - qs[i].bids
            && BidAskDayStats.Places(s.forceStrength, s.force, s.forceDay.low, s.forceDay.high)
            && BidAskDayStats.Places(s.chipStrength, s.chip, s.chipDay.low, s.chipDay.high)
  {
    var s := SnapshotAt(qs, i);
    StrengthPlaces(s.force, s.forceDay);
    StrengthPlaces(s.chip, s.chipDay);
  }

  // ----- the whole trade date

  lemma {:induction false} DayStartIs(qs: seq<Quote>, n: nat)
    requires 0 < n <= |qs|
    ensures forall i | DayStart(qs, n) <= i < n :: DateOf(qs[i]) == DateOf(qs[n - 1])
    ensures DayStart(qs, n) > 0 ==> DateOf(qs[DayStart(qs, n) - 1]) != DateOf(qs[n - 1])
  {
    if n > 1 && DateOf(qs[n - 2]) == DateOf(qs[n - 1]) {
      DayStartIs(qs, n - 1);
    }
  }

  /** Among the first n quotes, none of another date lies after one of the current date. */
  ghost predicate Unbroken(qs: seq<Quote>, n: nat)
    requires 0 < n <= |qs|
  {
    forall i, j | 0 <= i < j < n && DateOf(qs[i]) == DateOf(qs[n - 1]) :: DateOf(qs[j]) == DateOf(qs[n - 1])
  }

  /** The quotes since the trade date last changed are all those of the trade date. */
  ghost predicate HoldsWholeDate(qs: seq<Quote>, n: nat)
    requires 0 < n <= |qs|
  {
    forall i | 0 <= i < DayStart(qs, n) :: DateOf(qs[i]) != DateOf(qs[n - 1])
  }

  /** They are all of them if and only if the date was not interrupted. */
  lemma WholeDateExactly(qs: seq<Quote>, n: nat)
    requires 0 < n <= |qs|
    ensures HoldsWholeDate(qs, n) <==> Unbroken(qs, n)
  {
    DayStartIs(qs, n);
  }

  /** While the wall clocks of the time stamps do not go back, no date is interrupted. */
  lemma OrderIsUnbroken(qs: seq<Quote>, n: nat)
    requires 0 < n <= |qs|
    requires forall i, j | 0 <= i <= j < n :: qs[i].at + qs[i].offset <= qs[j].at + qs[j].offset
    ensures Unbroken(qs, n)
  {
    forall i, j | 0 <= i <= j < n
      ensures DateOf(qs[i]) <= DateOf(qs[j])
    {
      TradeDateMonotone(qs[i].at + qs[i].offset, qs[j].at + qs[j].offset);
    }
  }

  /** Volume of one side over the quotes of date d among the first n. */
  ghost function DateVolume(qs: seq<Quote>, n: nat, d: int, outside: bool): real
    requires n <= |qs|
  {
    if n == 0 then 0.0
    else
      var q := qs[n - 1];
      DateVolume(qs, n - 1, d, outside) + (if DateOf(q) == d && q.outside == outside then q.volume else 0.0)
  }

  /** The signed volume of the quotes of date d among the first n. */
  ghost function DateForce(qs: seq<Quote>, n: nat, d: int): real
    requires n <= |qs|
  {
    DateVolume(qs, n, d, true) - DateVolume(qs, n, d, false)
  }

  lemma {:induction false} VolumeOfDate(qs: seq<Quote>, a: nat, b: nat, d: int, outside: bool)
    requires a <= b <= |qs| && forall i | a <= i < b :: DateOf(qs[i]) == d
    ensures DateVolume(qs, b, d, outside) == DateVolume(qs, a, d, outside) + Volume(qs, a, b, outside)
    decreases b
  {
    if a < b {
      VolumeOfDate(qs, a, b - 1, d, outside);
    }
  }

  lemma {:induction false} NoVolume(qs: seq<Quote>, n: nat, d: int, outside: bool)
    requires n <= |qs| && forall i | 0 <= i < n :: DateOf(qs[i]) != d
    ensures DateVolume(qs, n, d, outside) == 0.0
  {
    if n > 0 {
      NoVolume(qs, n - 1, d, outside);
    }
  }

  /**
    Whatever the order, a snapshot's force lacks exactly what its date had before the date last changed;
    so it is the force of the whole date so far if and only if that was nothing.
   */
  lemma ForceLacksEarlier(qs: seq<Quote>, i: nat)
    requires i < |qs|
    ensures var d := DateOf(qs[i]);
            && SnapshotAt(qs, i).force == DateForce(qs, i + 1, d) - DateForce(qs, DayStart(qs, i + 1), d)
            && (SnapshotAt(qs, i).force == DateForce(qs, i + 1, d) <==> DateForce(qs, DayStart(qs, i + 1), d) == 0.0)
  {
    var a, d := DayStart(qs, i + 1), DateOf(qs[i]);
    DayStartIs(qs, i + 1);
    FeaturesOfEveryRun(qs, i);
    VolumeOfDate(qs, a, i + 1, d, true);
    VolumeOfDate(qs, a, i + 1, d, false);
    SidesMakeForce(qs, a, i + 1);
  }

  /** r runs from the least chip value of date d among the first n quotes to the greatest. */
  ghost predicate IsDateChipRange(qs: seq<Quote>, n: nat, d: int, r: Range)
    requires n <= |qs|
  {
    && (forall k | 0 <= k < n && DateOf(qs[k]) == d :: r.low <= Chip(qs[k]) <= r.high)
    && (exists k | 0 <= k < n :: DateOf(qs[k]) == d && Chip(qs[k]) == r.low)
    && (exists k | 0 <= k < n :: DateOf(qs[k]) == d && Chip(qs[k]) == r.high)
  }

  /** The signed volume that date d had after the k-th quote. */
  ghost function ForceAfter(qs: seq<Quote>, k: nat, d: int): real
    requires k < |qs|
  {
    DateForce(qs, k + 1, d)
  }

  /** r runs from the least signed volume that date d had after one of its quotes to the greatest. */
  ghost predicate IsDateForceRange(qs: seq<Quote>, n: nat, d: int, r: Range)
    requires n <= |qs|
  {
    && (forall k | 0 <= k < n && DateOf(qs[k]) == d :: r.low <= ForceAfter(qs, k, d) <= r.high)
    && (exists k | 0 <= k < n :: DateOf(qs[k]) == d && ForceAfter(qs, k, d) == r.low)
    && (exists k | 0 <= k < n :: DateOf(qs[k]) == d && ForceAfter(qs, k, d) == r.high)
  }

  /** After each of its quotes, the force since the date began is the force of the whole date so far. */
  lemma ForceOfDate(qs: seq<Quote>, a: nat, b: nat, d: int)
    requires a <= b <= |qs| && (forall i | a <= i < b :: DateOf(qs[i]) == d) && forall i | 0 <= i < a :: DateOf(qs[i]) != d
    ensures DateForce(qs, b, d) == Force(qs, a, b)
  {
    VolumeOfDate(qs, a, b, d, true);
    VolumeOfDate(qs, a, b, d, false);
    NoVolume(qs, a, d, true);
    NoVolume(qs, a, d, false);
    SidesMakeForce(qs, a, b);
  }

  lemma ChipRangeOfDate(qs: seq<Quote>, a: nat, b: nat, d: int, r: Range)
    requires a <= b <= |qs|
    ensures (forall i | a <= i < b :: DateOf(qs[i]) == d) && (forall i | 0 <= i < a :: DateOf(qs[i]) != d)
            && IsChipRange(qs, a, b, r) ==>
              IsDateChipRange(qs, b, d, r)
  {
    if (forall i | a <= i < b :: DateOf(qs[i]) == d) && IsChipRange(qs, a, b, r) {
      var l :| a <= l < b && Chip(qs[l]) == r.low;
      var h :| a <= h < b && Chip(qs[h]) == r.high;
      assert DateOf(qs[l]) == d && DateOf(qs[h]) == d;
    }
  }

  lemma ForceRangeOfDate(qs: seq<Quote>, a: nat, b: nat, d: int, r: Range)
    requires a <= b <= |qs| && (forall i | a <= i < b :: DateOf(qs[i]) == d) && forall i | 0 <= i < a :: DateOf(qs[i]) != d
    requires IsForceRange(qs, a, b, r)
    ensures IsDateForceRange(qs, b, d, r)
  {
    forall k | 0 <= k < b && DateOf(qs[k]) == d
      ensures r.low <= ForceAfter(qs, k, d) <= r.high
    {
      ForceOfDate(qs, a, k + 1, d);
      assert r.low <= Force(qs, a, k + 1) <= r.high;
    }
    var l :| a < l <= b && Force(qs, a, l) == r.low;
    var h :| a < h <= b && Force(qs, a, h) == r.high;
    ForceOfDate(qs, a, l, d);
    ForceOfDate(qs, a, h, d);
    assert DateOf(qs[l - 1]) == d && ForceAfter(qs, l - 1, d) == r.low;
    assert DateOf(qs[h - 1]) == d && ForceAfter(qs, h - 1, d) == r.high;
  }

  /**
    While its date is not interrupted, a snapshot's force is the signed volume of its whole trade date so
    far, and its day ranges are those of that date's signed volumes and chip values.
   */
  lemma FeaturesOfTradeDate(qs: seq<Quote>, i: nat)
    requires i < |qs| && Unbroken(qs, i + 1)
    ensures var s, d := SnapshotAt(qs, i), DateOf(qs[i]);
            s.force == DateForce(qs, i + 1, d)
            && IsDateForceRange(qs, i + 1, d, s.forceDay) && IsDateChipRange(qs, i + 1, d, s.chipDay)
  {
    var a, d := DayStart(qs, i + 1), DateOf(qs[i]);
    DayStartIs(qs, i + 1);
    WholeDateExactly(qs, i + 1);
    FeaturesOfEveryRun(qs, i);
    ForceOfDate(qs, a, i + 1, d);
    ForceRangeOfDate(qs, a, i + 1, d, SnapshotAt(qs, i).forceDay);
    ChipRangeOfDate(qs, a, i + 1, d, SnapshotAt(qs, i).chipDay);
  }

  // ----- the archive

  /** What the first n quotes push into the archive. */
  ghost function Archive(qs: seq<Quote>, n: nat): seq<Snapshot>
    requires n <= |qs|
  {
    if n == 0 then []
    else
      var a := ArchivedBy(Run(qs, n - 1), qs[n - 1]);
      if a.Some? then Archive(qs, n - 1) + [a.value] else Archive(qs, n - 1)
  }

  /** The minutes of the time stamps never go back, whatever their offsets and order within a minute. */
  ghost predicate InOrder(qs: seq<Quote>) {
    forall i, j | 0 <= i <= j < |qs| :: MinuteStart(qs[i]) <= MinuteStart(qs[j])
  }

  /** The i-th quote is the last of its minute, and the next one is of the same trade date. */
  ghost predicate ClosesMinute(qs: seq<Quote>, i: nat)
    requires i + 1 < |qs|
  {
    DateOf(qs[i]) == DateOf(qs[i + 1]) && MinuteStart(qs[i]) < MinuteStart(qs[i + 1])
  }

  /** The quotes that close their minute, told by the first n quotes: where they are, in order. */
  ghost function Closing(qs: seq<Quote>, n: nat): seq<nat>
    requires n <= |qs|
  {
    if n < 2 then []
    else if ClosesMinute(qs, n - 2) then Closing(qs, n - 1) + [n - 2]
    else Closing(qs, n - 1)
  }

  lemma {:induction false} ClosingListsThem(qs: seq<Quote>, n: nat)
    requires n <= |qs|
    ensures forall k | 0 <= k < |Closing(qs, n)| :: Closing(qs, n)[k] + 1 < n && ClosesMinute(qs, Closing(qs, n)[k])
    ensures forall k, l | 0 <= k < l < |Closing(qs, n)| :: Closing(qs, n)[k] < Closing(qs, n)[l]
    ensures forall i | 0 <= i && i + 1 < n && ClosesMinute(qs, i) :: i in Closing(qs, n)
  {
    if n >= 2 {
      ClosingListsThem(qs, n - 1);
    }
  }

  lemma FloorMonotone(a: int, b: int)
    requires a <= b
    ensures MinuteFloor(a) <= MinuteFloor(b)
  {
    assert MinuteFloor(a) == a / MICROS_PER_MINUTE * MICROS_PER_MINUTE;
    assert MinuteFloor(b) == b / MICROS_PER_MINUTE * MICROS_PER_MINUTE;
    assert a / MICROS_PER_MINUTE <= b / MICROS_PER_MINUTE;
  }

  /** An offset of whole minutes does not move the minute of an instant. */
  lemma WholeOffset(at: int, offset: int)
    requires offset % MICROS_PER_MINUTE == 0
    ensures StampMinute(at, offset) == MinuteFloor(at)
  {
    var m := offset / MICROS_PER_MINUTE;
    assert at + offset == (at / MICROS_PER_MINUTE + m) * MICROS_PER_MINUTE + at % MICROS_PER_MINUTE;
    assert (at + offset) % MICROS_PER_MINUTE == at % MICROS_PER_MINUTE;
  }

  /** So it is for time stamps that never go back, if their offsets are whole minutes or all the same. */
  lemma OrderedStamps(qs: seq<Quote>)
    requires forall i, j | 0 <= i <= j < |qs| :: qs[i].at <= qs[j].at
    requires || (forall i | 0 <= i < |qs| :: qs[i].offset % MICROS_PER_MINUTE == 0)
             || (forall i, j | 0 <= i <= j < |qs| :: qs[i].offset == qs[j].offset)
    ensures InOrder(qs)
  {
    forall i, j | 0 <= i <= j < |qs|
      ensures MinuteStart(qs[i]) <= MinuteStart(qs[j])
    {
      if qs[i].offset == qs[j].offset {
        FloorMonotone(qs[i].at + qs[i].offset, qs[j].at + qs[j].offset);
      } else {
        WholeOffset(qs[i].at, qs[i].offset);
        WholeOffset(qs[j].at, qs[j].offset);
        FloorMonotone(qs[i].at, qs[j].at);
      }
    }
  }

  lemma NextMinute(m: Machine, q: Quote)
    requires m.minute.Some? ==> m.minute.value <= MinuteStart(q)
    ensures Next(m, q).minute == Some(MinuteStart(q))
  {
  }

  /** While minutes are in order, the current minute is that of the last quote, and the snapshot kept is its snapshot. */
  lemma {:induction false} LatestIsKept(qs: seq<Quote>, n: nat)
    requires InOrder(qs) && 0 < n <= |qs|
    ensures Run(qs, n).minute == Some(MinuteStart(qs[n - 1])) && Run(qs, n).last == Some(SnapshotAt(qs, n - 1))
  {
    if n > 1 {
      LatestIsKept(qs, n - 1);
    }
    NextMinute(Run(qs, n - 1), qs[n - 1]);
  }

  lemma ArchivedByNext(m: Machine, q: Quote, p: Quote, s: Snapshot)
    requires m.tradeDate == Some(DateOf(p)) && m.minute == Some(MinuteStart(p)) && m.last == Some(s)
    ensures ArchivedBy(m, q) ==
            if DateOf(p) == DateOf(q) && MinuteStart(p) < MinuteStart(q) then Some(s) else None
  {
  }

  /** Each archived snapshot is that of the quote at the same place of `at`. */
  ghost predicate Shelved(archive: seq<Snapshot>, at: seq<nat>, qs: seq<Quote>) {
    && |archive| == |at|
    && forall k | 0 <= k < |at| :: at[k] < |qs| && archive[k] == SnapshotAt(qs, at[k])
  }

  lemma ShelvedNext(archive: seq<Snapshot>, at: seq<nat>, qs: seq<Quote>, p: nat)
    requires Shelved(archive, at, qs) && p < |qs|
    ensures Shelved(archive + [SnapshotAt(qs, p)], at + [p], qs)
  {
  }

  /** While minutes are in order, a quote archives the snapshot of the one before it, if that one closed its minute. */
  lemma ArchivedOf(qs: seq<Quote>, n: nat)
    requires InOrder(qs) && n < |qs|
    ensures ArchivedBy(Run(qs, n), qs[n]) ==
            if n > 0 && ClosesMinute(qs, n - 1) then Some(SnapshotAt(qs, n - 1)) else None
  {
    if n > 0 {
      LatestIsKept(qs, n);
      DateOfRun(qs, n);
      ArchivedByNext(Run(qs, n), qs[n], qs[n - 1], SnapshotAt(qs, n - 1));
    }
  }

  /**
    While minutes are in order, the archive is exactly the snapshots of the quotes that close their minute within a
    trade date, oldest first; so the last minute of a trade date is never archived.
   */
  lemma {:induction false} ArchiveIsClosing(qs: seq<Quote>, n: nat)
    requires InOrder(qs) && n <= |qs|
    ensures Shelved(Archive(qs, n), Closing(qs, n), qs)
  {
    if n > 0 {
      ArchiveIsClosing(qs, n - 1);
      ArchiveNext(qs, n);
      if n > 1 && ClosesMinute(qs, n - 2) {
        ShelvedNext(Archive(qs, n - 1), Closing(qs, n - 1), qs, n - 2);
      }
    }
  }

  lemma ArchiveNext(qs: seq<Quote>, n: nat)
    requires InOrder(qs) && 0 < n <= |qs|
    ensures Archive(qs, n) == Archive(qs, n - 1) + (if n > 1 && ClosesMinute(qs, n - 2) then [SnapshotAt(qs, n - 2)] else [])
  {
    ArchivedOf(qs, n - 1);
  }

  /** The minute is the latest of the quotes from the a-th up to the n-th. */
  ghost predicate IsLatestMinute(qs: seq<Quote>, a: nat, n: nat, minute: int)
    requires a <= n <= |qs|
  {
    && (forall i | a <= i < n :: MinuteStart(qs[i]) <= minute)
    && exists i | a <= i < n :: MinuteStart(qs[i]) == minute
  }

  lemma LatestMinuteNext(qs: seq<Quote>, a: nat, n: nat, minute: int)
    requires a < n < |qs| && IsLatestMinute(qs, a, n, minute)
    ensures IsLatestMinute(qs, a, n + 1, if MinuteStart(qs[n]) > minute then MinuteStart(qs[n]) else minute)
  {
    var i :| a <= i < n && MinuteStart(qs[i]) == minute;
  }

  /** Whatever the order, the current minute is the latest since the date last changed, and the last snapshot is kept. */
  lemma {:induction false} MinuteIsLatest(qs: seq<Quote>, n: nat)
    requires 0 < n <= |qs|
    ensures var m := Run(qs, n);
            && m.minute.Some? && IsLatestMinute(qs, DayStart(qs, n), n, m.minute.value)
            && m.last == Some(SnapshotAt(qs, n - 1))
  {
    var a := DayStart(qs, n);
    DateOfRun(qs, n - 1);
    if n > 1 && DateOf(qs[n - 2]) == DateOf(qs[n - 1]) {
      MinuteIsLatest(qs, n - 1);
      LatestMinuteNext(qs, a, n - 1, Run(qs, n - 1).minute.value);
    } else {
      assert MinuteStart(qs[n - 1]) == Run(qs, n).minute.value;
    }
  }

  /**
    In any order, a quote archives the snapshot of the one before it exactly when that one is of its date and
    its minute is later than every minute since the date last changed.
   */
  lemma ArchivedExactly(qs: seq<Quote>, n: nat)
    requires n < |qs|
    ensures var later := n > 0 && DateOf(qs[n - 1]) == DateOf(qs[n])
                         && forall i | DayStart(qs, n) <= i < n :: MinuteStart(qs[i]) < MinuteStart(qs[n]);
            ArchivedBy(Run(qs, n), qs[n]) == if later then Some(SnapshotAt(qs, n - 1)) else None
  {
    DateOfRun(qs, n);
    if n > 0 {
      MinuteIsLatest(qs, n);
    }
  }

  function MinuteOfSnapshot(s: Snapshot): int {
    StampMinute(s.at, s.offset)
  }

  lemma SnapshotMinute(qs: seq<Quote>, i: nat)
    requires i < |qs|
    ensures MinuteOfSnapshot(SnapshotAt(qs, i)) == MinuteStart(qs[i])
  {
  }

  ghost predicate MinutesAscend(archive: seq<Snapshot>) {
    forall k, l | 0 <= k < l < |archive| :: MinuteOfSnapshot(archive[k]) < MinuteOfSnapshot(archive[l])
  }

  lemma ShelvedMinutes(qs: seq<Quote>, archive: seq<Snapshot>, at: seq<nat>)
    requires InOrder(qs) && Shelved(archive, at, qs)
    requires forall k | 0 <= k < |at| :: at[k] + 1 < |qs| && ClosesMinute(qs, at[k])
    requires forall k, l | 0 <= k < l < |at| :: at[k] < at[l]
    ensures MinutesAscend(archive)
  {
    forall k, l | 0 <= k < l < |archive|
      ensures MinuteOfSnapshot(archive[k]) < MinuteOfSnapshot(archive[l])
    {
      SnapshotMinute(qs, at[k]);
      SnapshotMinute(qs, at[l]);
    }
  }

  /** Archived minutes strictly increase. */
  lemma ArchivedMinutesIncrease(qs: seq<Quote>)
    requires InOrder(qs)
    ensures MinutesAscend(Archive(qs, |qs|))
  {
    ArchiveIsClosing(qs, |qs|);
    ClosingListsThem(qs, |qs|);
    ShelvedMinutes(qs, Archive(qs, |qs|), Closing(qs, |qs|));
  }

  ghost predicate LastOfMinute(qs: seq<Quote>, i: nat)
    requires i < |qs|
  {
    forall j | i < j < |qs| :: MinuteStart(qs[i]) < MinuteStart(qs[j])
  }

  lemma ClosingIsLast(qs: seq<Quote>, i: nat)
    requires InOrder(qs) && i + 1 < |qs| && ClosesMinute(qs, i)
    ensures LastOfMinute(qs, i)
  {
    forall j | i < j < |qs|
      ensures MinuteStart(qs[i]) < MinuteStart(qs[j])
    {
      assert MinuteStart(qs[i + 1]) <= MinuteStart(qs[j]);
    }
  }

  /** The snapshot is that of some quote that is the last of its minute. */
  ghost predicate IsOfLast(qs: seq<Quote>, s: Snapshot) {
    exists i | 0 <= i < |qs| :: s == SnapshotAt(qs, i) && LastOfMinute(qs, i)
  }

  /** Every archived snapshot is that of the last quote of its minute. */
  lemma ArchivedIsLastOfMinute(qs: seq<Quote>)
    requires InOrder(qs)
    ensures forall k | 0 <= k < |Archive(qs, |qs|)| :: IsOfLast(qs, Archive(qs, |qs|)[k])
  {
    ArchiveIsClosing(qs, |qs|);
    ClosingListsThem(qs, |qs|);
    var archive, at := Archive(qs, |qs|), Closing(qs, |qs|);
    forall k | 0 <= k < |archive|
      ensures IsOfLast(qs, archive[k])
    {
      ClosingIsLast(qs, at[k]);
    }
  }

  /** The branch of `apply` for a machine without a current minute is never taken. */
  lemma MinuteIsAlwaysKnown(qs: seq<Quote>, n: nat)
    requires n < |qs|
    ensures Started(Run(qs, n), qs[n]).minute.Some?
  {
    DateOfRun(qs, n);
    if n > 0 {
      MinuteIsAlwaysKnown(qs, n - 1);
    }
  }
}
