/** Sector totals are exact, and the engine converges to one state for every arrival order. */
module ContributionTheorems {
  import opened Wrappers
  import opened RealArithmetic
  import opened IndexContribution

  type Symbols = map<string, SymbolState>

  // ----- sums over the symbols of a state

  ghost function Pick(m: Symbols): (k: string)
    requires m != map[]
    ensures k in m
  {
    assert exists k :: k in m by {
      if forall k :: k !in m {
        assert false;
      }
    }
    var k :| k in m;
    k
  }

  ghost function SumBy(m: Symbols, f: SymbolState -> real): real
    decreases |m|
  {
    if m == map[] then 0.0
    else
      var k := Pick(m);
      Smaller(m, k);
      f(m[k]) + SumBy(m - {k}, f)
  }

  lemma Smaller(m: Symbols, k: string)
    requires k in m
    ensures |m - {k}| < |m|
  {
    assert (m - {k}).Keys == m.Keys - {k};
    assert |(m - {k}).Keys| < |m.Keys|;
  }

  /** The order in which a sum is taken does not matter. */
  lemma {:induction false} SumRemove(m: Symbols, k: string, f: SymbolState -> real)
    requires k in m
    ensures SumBy(m, f) == f(m[k]) + SumBy(m - {k}, f)
    decreases |m|
  {
    var p := Pick(m);
    if p != k {
      Smaller(m, p);
      Smaller(m, k);
      SumRemove(m - {p}, k, f);
      SumRemove(m - {k}, p, f);
      assert m - {p} - {k} == m - {k} - {p};
    }
  }

  lemma {:induction false} SumZero(m: Symbols, f: SymbolState -> real)
    requires forall k | k in m :: f(m[k]) == 0.0
    ensures SumBy(m, f) == 0.0
    decreases |m|
  {
    if m != map[] {
      var k := Pick(m);
      Smaller(m, k);
      SumZero(m - {k}, f);
    }
  }

  function PointsOf(sector: string): SymbolState -> real {
    (s: SymbolState) => if s.sector == sector then s.points else 0.0
  }

  function CountOf(sector: string): SymbolState -> real {
    (s: SymbolState) => if s.sector == sector then 1.0 else 0.0
  }

  /** The contribution before rounding: the weighted share of the index in the symbol's move, told by its own state. */
  function Unrounded(indexPrevClose: real, s: SymbolState): real {
    if s.prevClose == 0.0 then 0.0 else indexPrevClose * s.weight * (s.lastPrice - s.prevClose) / s.prevClose
  }

  lemma GainIsUnrounded(p: real, s: SymbolState)
    requires s.prevClose > 0.0
    ensures Gain(p, s.lastPrice, s.prevClose, s.weight) == Unrounded(p, s)
  {
    var c, x, d := p * s.weight, s.lastPrice / s.prevClose, s.prevClose;
    assert x * d == s.lastPrice;
    MoveScaled(c, x, d);
    QuotientIs(c * (s.lastPrice - d), d, c * (x - 1.0));
  }

  lemma MoveScaled(c: real, x: real, d: real)
    ensures c * (x - 1.0) * d == c * (x * d - d)
  {
  }

  lemma QuotientIs(n: real, d: real, q: real)
    requires d > 0.0 && q * d == n
    ensures n / d == q
  {
    var r := n / d;
    assert r * d == q * d;
    assert (r - q) * d == 0.0;
    if r - q > 0.0 {
      ProductPositive(r - q, d);
    } else if r - q < 0.0 {
      ProductPositive(q - r, d);
    }
  }

  function UnroundedOf(indexPrevClose: real, sector: string): SymbolState -> real {
    (s: SymbolState) => if s.sector == sector then Unrounded(indexPrevClose, s) else 0.0
  }

  // ----- which updates are valid

  ghost predicate Blank(s: string) {
    forall i | 0 <= i < |s| :: s[i] in {' ', '\t', '\n', '\r'}
  }

  /** s is t with blanks around it, and t neither begins nor ends with one. */
  ghost predicate Trims(s: string, t: string) {
    && (exists a, b :: Blank(a) && Blank(b) && s == a + t + b)
    && (t != "" ==> !Blank(t[..1]) && !Blank(t[|t| - 1..]))
  }

  lemma {:induction false} StripLeftTrims(s: string) returns (a: string)
    ensures Blank(a) && s == a + StripLeft(s) && (StripLeft(s) != "" ==> !Blank(StripLeft(s)[..1]))
  {
    if s != "" && IsSpace(s[0]) {
      a := StripLeftTrims(s[1..]);
      a := [s[0]] + a;
      assert s == [s[0]] + s[1..];
    } else {
      a := "";
    }
  }

  lemma {:induction false} StripRightTrims(s: string) returns (b: string)
    ensures Blank(b) && s == StripRight(s) + b && (StripRight(s) != "" ==> !Blank(StripRight(s)[|StripRight(s)| - 1..]))
  {
    if s != "" && IsSpace(s[|s| - 1]) {
      var n := |s| - 1;
      b := StripRightTrims(s[..n]);
      b := b + [s[n]];
      assert s == s[..n] + [s[n]];
    } else {
      b := "";
    }
  }

  lemma StripTrims(s: string)
    ensures Trims(s, Strip(s)) && (Strip(s) == "" <==> Blank(s))
  {
    var a := StripLeftTrims(s);
    var m := StripLeft(s);
    var b := StripRightTrims(m);
    var t := Strip(s);
    assert s == a + t + b;
    if t != "" {
      assert t[..1] == m[..1];
      assert s[|a|] == t[0] && t[..1] == [t[0]];
    }
  }

  /** The sector of an update: the mapping's text if it has any, otherwise the table's, without blanks around. */
  ghost predicate IsSector(u: Update, sector: string) {
    if u.mappingSector.Some? && !Blank(u.mappingSector.value) then Trims(u.mappingSector.value, sector)
    else u.tableSector.Some? && !Blank(u.tableSector.value) && Trims(u.tableSector.value, sector)
  }

  /** Index close and previous close above 0, a weight from 0 to 1, and a sector. */
  ghost predicate Valid(p: real, u: Update) {
    && p > 0.0 && u.prevClose > 0.0 && 0.0 <= u.weight <= 1.0
    && ((u.mappingSector.Some? && !Blank(u.mappingSector.value)) || (u.tableSector.Some? && !Blank(u.tableSector.value)))
  }

  /** An update leads to a state exactly when it is valid, and the state has its numbers. */
  lemma StateOfValid(p: real, u: Update)
    ensures StateOf(p, u).Some? <==> Valid(p, u)
    ensures Valid(p, u) ==>
              var st := StateOf(p, u).value;
              && st.symbol == u.symbol && st.name == u.name && IsSector(u, st.sector)
              && st.lastPrice == u.lastPrice && st.prevClose == u.prevClose && st.weight == u.weight
              && st.updatedAt == u.updatedAt && st.lastEventId == u.eventId
  {
    if u.mappingSector.Some? {
      StripTrims(u.mappingSector.value);
    }
    if u.tableSector.Some? {
      StripTrims(u.tableSector.value);
    }
  }

  /** An update is dropped exactly when its id was processed, its symbol is as recent already, or it is not valid. */
  lemma DroppedExactly(e: Engine, u: Update)
    ensures Dropped(e, u) <==>
            var known := u.eventId.Some? && u.eventId.value != "" && u.eventId.value in e.processed;
            known || (u.symbol in e.symbols && e.symbols[u.symbol].updatedAt >= u.updatedAt) || !Valid(e.indexPrevClose, u)
    ensures var e' := Apply(e, u);
            if Dropped(e, u) then e' == e
            else && u.symbol in e'.symbols && Some(e'.symbols[u.symbol]) == StateOf(e.indexPrevClose, u)
                 && e'.symbols.Keys == e.symbols.Keys + {u.symbol}
                 && (forall s | s in e.symbols && s != u.symbol :: e'.symbols[s] == e.symbols[s])
                 && e'.indexPrevClose == e.indexPrevClose
                 && e'.processed == e.processed + (if u.eventId.Some? && u.eventId.value != "" then {u.eventId.value} else {})
  {
    StateOfValid(e.indexPrevClose, u);
  }

  // ----- sector totals are the recomputed sums

  ghost predicate SectorExact(e: Engine, sector: string) {
    && Total(e.sectors, sector) == SumBy(e.symbols, PointsOf(sector))
    && OnGrid(Total(e.sectors, sector))
    && (sector in e.sectors ==> exists s :: s in e.symbols && e.symbols[s].sector == sector)
  }

  ghost predicate PointsRounded(e: Engine, s: string)
    requires s in e.symbols
  {
    var st := e.symbols[s];
    st.symbol == s && Sound(e.indexPrevClose, st)
  }

  /** The inputs are valid, and points and change are the rounded ones. */
  ghost predicate Sound(p: real, st: SymbolState) {
    && p > 0.0 && st.prevClose > 0.0 && 0.0 <= st.weight <= 1.0
    && st.points == Round6(Unrounded(p, st)) && st.pctChange == Round6(st.lastPrice / st.prevClose - 1.0)
  }

  /** The invariant: totals agree with recomputation, and no total names an empty sector. */
  ghost predicate Exact(e: Engine) {
    && (forall sector {:trigger SectorExact(e, sector)} :: SectorExact(e, sector))
    && (forall s {:trigger PointsRounded(e, s)} | s in e.symbols :: PointsRounded(e, s))
  }

  lemma EmptyIsExact(p: real)
    ensures Exact(Engine(p, map[], map[], {}))
  {
    var e := Engine(p, map[], map[], {});
    forall sector
      ensures SectorExact(e, sector)
    {
      SumZero(e.symbols, PointsOf(sector));
    }
  }

  lemma WithdrawTotal(sectors: map<string, real>, from_: string, points: real, sector: string)
    requires OnGrid(points) && OnGrid(Total(sectors, from_)) && OnGrid(Total(sectors, sector))
    ensures var r := Withdraw(sectors, from_, points);
            && Total(r, sector) == Total(sectors, sector) - (if sector == from_ then points else 0.0)
            && OnGrid(Total(r, sector))
            && (from_ in r ==> Total(r, from_) != 0.0)
  {
    GridClosed(Total(sectors, from_), points);
    GridClosed(Total(sectors, from_) - points, points);
  }

  lemma DepositTotal(sectors: map<string, real>, into: string, points: real, sector: string)
    requires OnGrid(points) && OnGrid(Total(sectors, into)) && OnGrid(Total(sectors, sector))
    ensures var r := Deposit(sectors, into, points);
            && Total(r, sector) == Total(sectors, sector) + (if sector == into then points else 0.0)
            && OnGrid(Total(r, sector))
  {
    GridClosed(Total(sectors, into), points);
  }

  lemma StateIsRounded(p: real, u: Update)
    ensures var st := StateOf(p, u);
            st.Some? ==> && st.value.symbol == u.symbol && st.value.updatedAt == u.updatedAt
                         && OnGrid(st.value.points) && Sound(p, st.value)
  {
    var st := StateOf(p, u);
    if st.Some? {
      GainIsUnrounded(p, st.value);
      RoundToGrid(Unrounded(p, st.value));
    }
  }

  /** After the old contribution is withdrawn: what each sector holds, and which keys remain. */
  lemma AfterWithdraw(e: Engine, k: string, sector: string)
    requires Exact(e) && k in e.symbols
    ensures var r, rest := Withdraw(e.sectors, e.symbols[k].sector, e.symbols[k].points), e.symbols - {k};
            && Total(r, sector) == SumBy(rest, PointsOf(sector)) && OnGrid(Total(r, sector))
            && (sector in r ==> exists s :: s in rest && rest[s].sector == sector)
  {
    var old_, rest := e.symbols[k], e.symbols - {k};
    assert PointsRounded(e, k) && SectorExact(e, sector) && SectorExact(e, old_.sector);
    RoundToGrid(Unrounded(e.indexPrevClose, old_));
    WithdrawTotal(e.sectors, old_.sector, old_.points, sector);
    SumRemove(e.symbols, k, PointsOf(sector));
    var r := Withdraw(e.sectors, old_.sector, old_.points);
    if sector in r {
      if sector == old_.sector {
        if forall s | s in rest :: rest[s].sector != sector {
          SumZero(rest, PointsOf(sector));
          assert false;
        }
      } else {
        var s :| s in e.symbols && e.symbols[s].sector == sector;
        assert s in rest;
      }
    }
  }

  lemma ApplySector(e: Engine, u: Update, sector: string)
    requires Exact(e) && !Dropped(e, u)
    ensures SectorExact(Apply(e, u), sector)
  {
    var st, rest := StateOf(e.indexPrevClose, u).value, e.symbols - {u.symbol};
    StateIsRounded(e.indexPrevClose, u);
    assert SectorExact(e, sector) && SectorExact(e, st.sector);
    var sectors := e.sectors;
    if u.symbol in e.symbols {
      AfterWithdraw(e, u.symbol, sector);
      AfterWithdraw(e, u.symbol, st.sector);
      sectors := Withdraw(e.sectors, e.symbols[u.symbol].sector, e.symbols[u.symbol].points);
    } else {
      assert rest == e.symbols;
    }
    DepositTotal(sectors, st.sector, st.points, sector);
    var e' := Apply(e, u);
    SumRemove(e'.symbols, u.symbol, PointsOf(sector));
    assert e'.symbols - {u.symbol} == rest;
    if sector in e'.sectors {
      if sector == st.sector {
        assert e'.symbols[u.symbol].sector == sector;
      } else {
        assert sector in sectors;
        var s :| s in rest && rest[s].sector == sector;
        assert s in e'.symbols && e'.symbols[s].sector == sector;
      }
    }
  }

  lemma ApplyKeepsExact(e: Engine, u: Update)
    requires Exact(e)
    ensures Exact(Apply(e, u))
  {
    if !Dropped(e, u) {
      var e' := Apply(e, u);
      forall sector
        ensures SectorExact(e', sector)
      {
        ApplySector(e, u, sector);
      }
      forall s | s in e'.symbols
        ensures PointsRounded(e', s)
      {
        StateIsRounded(e.indexPrevClose, u);
        assert s in e.symbols ==> PointsRounded(e, s);
      }
    }
  }

  // ----- what points are worth

  lemma RoundKeepsSign(x: real)
    ensures x >= 0.0 ==> Round6(x) >= 0.0
    ensures x <= 0.0 ==> Round6(x) <= 0.0
  {
    RoundToGrid(x);
  }

  lemma WorthInPrices(p: real, st: SymbolState)
    requires p > 0.0 && st.prevClose > 0.0 && 0.0 <= st.weight
    ensures IsWorth(Unrounded(p, st), p, st)
    ensures st.lastPrice >= st.prevClose ==> Unrounded(p, st) >= 0.0
    ensures st.lastPrice <= st.prevClose ==> Unrounded(p, st) <= 0.0
  {
    var c, d, u := p * st.weight, st.lastPrice - st.prevClose, Unrounded(p, st);
    assert u * st.prevClose == c * d;
    ProductNonNegative(p, st.weight);
    if d >= 0.0 {
      ProductNonNegative(c, d);
    }
    if d <= 0.0 {
      ProductNonNegative(c, -d);
      assert c * -d == -(c * d);
    }
    if u > 0.0 {
      ProductPositive(u, st.prevClose);
    } else if u < 0.0 {
      ProductPositive(-u, st.prevClose);
      assert -u * st.prevClose == -(u * st.prevClose);
    }
  }

  /** What the symbol's weighted move is worth in index points. */
  ghost predicate IsWorth(x: real, p: real, st: SymbolState) {
    x * st.prevClose == p * st.weight * (st.lastPrice - st.prevClose)
  }

  /** The move as a part of the previous close. */
  ghost predicate IsMove(y: real, st: SymbolState) {
    y * st.prevClose == st.lastPrice - st.prevClose
  }

  /** x and a rounding of it. */
  ghost predicate Nearly(rounded: real, x: real) {
    Abs(rounded - x) <= 0.0000005
  }

  /**
    What the state of every symbol says: its points are the index points that its weighted move from the
    previous close is worth, to within half a millionth, so a riser never has negative points and a faller
    never positive ones; its change is the move as a part of the previous close.
   */
  ghost predicate Worth(p: real, st: SymbolState) {
    && st.prevClose > 0.0 && 0.0 <= st.weight <= 1.0
    && (exists x :: IsWorth(x, p, st) && Nearly(st.points, x))
    && (exists y :: IsMove(y, st) && Nearly(st.pctChange, y))
    && (st.lastPrice >= st.prevClose ==> st.points >= 0.0)
    && (st.lastPrice <= st.prevClose ==> st.points <= 0.0)
  }

  lemma PointsAreWorth(e: Engine, s: string)
    requires Exact(e) && s in e.symbols
    ensures Worth(e.indexPrevClose, e.symbols[s])
  {
    assert PointsRounded(e, s);
    SoundIsWorth(e.indexPrevClose, e.symbols[s]);
  }

  lemma SoundIsWorth(p: real, st: SymbolState)
    requires Sound(p, st)
    ensures Worth(p, st)
  {
    WorthInPrices(p, st);
    RoundToGrid(Unrounded(p, st));
    RoundKeepsSign(Unrounded(p, st));
    assert Nearly(st.points, Unrounded(p, st));
    var y := ChangeOf(st.lastPrice, st.prevClose);
    assert IsMove(y, st);
  }

  lemma ChangeOf(last: real, prev: real) returns (y: real)
    requires prev > 0.0
    ensures y == last / prev - 1.0 && y * prev == last - prev && Nearly(Round6(y), y)
  {
    var q := last / prev;
    y := q - 1.0;
    assert q * prev == last;
    MoveScaled(1.0, q, prev);
    RoundToGrid(y);
  }

  // ----- no drift

  lemma DriftStep(a: real, b: real, n: real, x: real, y: real)
    requires Abs(a - b) <= 0.0000005 * n && Abs(x - y) <= 0.0000005
    ensures Abs((x + a) - (y + b)) <= 0.0000005 * (1.0 + n)
  {
  }

  lemma {:induction false} SumDrift(m: Symbols, p: real, sector: string)
    requires forall s | s in m :: Abs(m[s].points - Unrounded(p, m[s])) <= 0.0000005
    ensures Abs(SumBy(m, PointsOf(sector)) - SumBy(m, UnroundedOf(p, sector))) <= 0.0000005 * SumBy(m, CountOf(sector))
    decreases |m|
  {
    if m != map[] {
      var k := Pick(m);
      Smaller(m, k);
      SumDrift(m - {k}, p, sector);
      var rest := m - {k};
      DriftStep(SumBy(rest, PointsOf(sector)), SumBy(rest, UnroundedOf(p, sector)), SumBy(rest, CountOf(sector)),
                m[k].points, Unrounded(p, m[k]));
    }
  }

  /** A total is off the unrounded sum by at most half a millionth per symbol, however many updates there were. */
  lemma TotalsDoNotDrift(e: Engine, sector: string)
    requires Exact(e)
    ensures Abs(Total(e.sectors, sector) - SumBy(e.symbols, UnroundedOf(e.indexPrevClose, sector)))
            <= 0.0000005 * SumBy(e.symbols, CountOf(sector))
  {
    assert SectorExact(e, sector);
    forall s | s in e.symbols
      ensures Abs(e.symbols[s].points - Unrounded(e.indexPrevClose, e.symbols[s])) <= 0.0000005
    {
      assert PointsRounded(e, s);
      RoundToGrid(Unrounded(e.indexPrevClose, e.symbols[s]));
    }
    SumDrift(e.symbols, e.indexPrevClose, sector);
  }

  // ----- convergence

  ghost function RunAll(e: Engine, us: seq<Update>): Engine {
    if us == [] then e else Apply(RunAll(e, us[..|us| - 1]), us[|us| - 1])
  }

  ghost function Fresh(p: real): Engine {
    Engine(p, map[], map[], {})
  }

  lemma {:induction false} RunKeepsExact(p: real, us: seq<Update>)
    ensures Exact(RunAll(Fresh(p), us)) && RunAll(Fresh(p), us).indexPrevClose == p
  {
    if us == [] {
      EmptyIsExact(p);
    } else {
      RunKeepsExact(p, us[..|us| - 1]);
      ApplyKeepsExact(RunAll(Fresh(p), us[..|us| - 1]), us[|us| - 1]);
    }
  }

  /** An event id names one event. */
  ghost predicate IdsDistinct(us: seq<Update>) {
    forall a, b | a in us && b in us && HasId(a) && a.eventId == b.eventId :: a == b
  }

  /** w is a valid event for its symbol with the greatest time stamp. */
  ghost predicate Latest(p: real, us: seq<Update>, w: Update) {
    && w in us && StateOf(p, w).Some?
    && forall u | u in us && StateOf(p, u).Some? && u.symbol == w.symbol :: u.updatedAt <= w.updatedAt
  }

  /** The valid events at a symbol's greatest time stamp all lead to one state. */
  ghost predicate OneLatestState(p: real, us: seq<Update>) {
    forall a, b | Latest(p, us, a) && Latest(p, us, b) && a.symbol == b.symbol :: StateOf(p, a) == StateOf(p, b)
  }

  ghost predicate SymbolSettled(p: real, us: seq<Update>, e: Engine, s: string) {
    && (s in e.symbols <==> exists u :: u in us && StateOf(p, u).Some? && u.symbol == s)
    && (s in e.symbols ==> exists w :: Latest(p, us, w) && w.symbol == s && StateOf(p, w) == Some(e.symbols[s]))
  }

  ghost predicate IdSettled(p: real, us: seq<Update>, e: Engine, id: string) {
    id in e.processed ==>
      exists u :: u in us && HasId(u) && u.eventId.value == id && StateOf(p, u).Some? &&
                  u.symbol in e.symbols && u.updatedAt <= e.symbols[u.symbol].updatedAt
  }

  ghost predicate Settled(p: real, us: seq<Update>, e: Engine) {
    && e.indexPrevClose == p
    && (forall s {:trigger SymbolSettled(p, us, e, s)} :: SymbolSettled(p, us, e, s))
    && (forall id {:trigger IdSettled(p, us, e, id)} :: IdSettled(p, us, e, id))
  }

  lemma AppendMembers(us: seq<Update>, u: Update)
    ensures forall x :: x in us + [u] <==> x in us || x == u
  {
  }

  /** One more event changes only its own symbol, and keeps that one at its latest valid event. */
  lemma SettleSymbol(p: real, us: seq<Update>, e: Engine, u: Update, s: string)
    requires Settled(p, us, e) && IdsDistinct(us + [u])
    ensures SymbolSettled(p, us + [u], Apply(e, u), s)
  {
    AppendMembers(us, u);
    var us', e' := us + [u], Apply(e, u);
    assert SymbolSettled(p, us, e, s);
    StateIsRounded(p, u);
    if u.symbol != s || StateOf(p, u).None? {
      if s in e.symbols {
        var w :| Latest(p, us, w) && w.symbol == s && StateOf(p, w) == Some(e.symbols[s]);
        assert Latest(p, us', w);
      }
    } else if !Dropped(e, u) {
      if s in e.symbols {
        var w :| Latest(p, us, w) && w.symbol == s && StateOf(p, w) == Some(e.symbols[s]);
        StateIsRounded(p, w);
      }
      assert Latest(p, us', u);
    } else {
      if HasId(u) && u.eventId.value in e.processed {
        assert IdSettled(p, us, e, u.eventId.value);
        assert u in us && u.symbol in e.symbols && u.updatedAt <= e.symbols[u.symbol].updatedAt;
      }
      var w :| Latest(p, us, w) && w.symbol == s && StateOf(p, w) == Some(e.symbols[s]);
      StateIsRounded(p, w);
      assert Latest(p, us', w);
    }
  }

  lemma SettleId(p: real, us: seq<Update>, e: Engine, u: Update, id: string)
    requires Settled(p, us, e) && IdsDistinct(us + [u])
    ensures IdSettled(p, us + [u], Apply(e, u), id)
  {
    AppendMembers(us, u);
    var e' := Apply(e, u);
    StateIsRounded(p, u);
    if id in e'.processed {
      if id in e.processed {
        assert IdSettled(p, us, e, id);
        var v :| v in us && HasId(v) && v.eventId.value == id && StateOf(p, v).Some? &&
                 v.symbol in e.symbols && v.updatedAt <= e.symbols[v.symbol].updatedAt;
        assert v in us + [u] && v.symbol in e'.symbols && v.updatedAt <= e'.symbols[v.symbol].updatedAt;
      } else {
        assert u in us + [u];
      }
    }
  }

  lemma {:induction false} RunSettles(p: real, us: seq<Update>)
    requires IdsDistinct(us)
    ensures Settled(p, us, RunAll(Fresh(p), us))
  {
    if us != [] {
      var init, u := us[..|us| - 1], us[|us| - 1];
      assert us == init + [u];
      AppendMembers(init, u);
      RunSettles(p, init);
      var e := RunAll(Fresh(p), init);
      forall s
        ensures SymbolSettled(p, us, Apply(e, u), s)
      {
        SettleSymbol(p, init, e, u, s);
      }
      forall id
        ensures IdSettled(p, us, Apply(e, u), id)
      {
        SettleId(p, init, e, u, id);
      }
    }
  }

  /** Two deliveries of the same events, in any order and with any duplication. */
  ghost predicate SameEvents(us: seq<Update>, vs: seq<Update>) {
    forall u :: u in us <==> u in vs
  }

  lemma SameSymbol(p: real, us: seq<Update>, vs: seq<Update>, a: Engine, b: Engine, s: string)
    requires SameEvents(us, vs) && OneLatestState(p, us) && Settled(p, us, a) && Settled(p, vs, b)
    ensures (s in a.symbols <==> s in b.symbols) && (s in a.symbols ==> a.symbols[s] == b.symbols[s])
  {
    assert SymbolSettled(p, us, a, s) && SymbolSettled(p, vs, b, s);
    if s in a.symbols {
      var v :| Latest(p, us, v) && v.symbol == s && StateOf(p, v) == Some(a.symbols[s]);
      var w :| Latest(p, vs, w) && w.symbol == s && StateOf(p, w) == Some(b.symbols[s]);
      assert Latest(p, us, w);
      StateIsRounded(p, v);
      StateIsRounded(p, w);
    }
  }

  /**
    Convergence: when the ids are distinct and the events at each symbol's greatest time stamp
    agree, the final symbol states and every sector total depend only on which events were
    delivered, not on their order or on how often each was repeated; and each symbol ends at its
    valid event with the greatest time stamp.
   */
  lemma Convergence(p: real, us: seq<Update>, vs: seq<Update>)
    requires SameEvents(us, vs) && IdsDistinct(us) && OneLatestState(p, us)
    ensures var a, b := RunAll(Fresh(p), us), RunAll(Fresh(p), vs);
            && a.symbols == b.symbols
            && (forall sector :: Total(a.sectors, sector) == Total(b.sectors, sector))
            && (forall s | s in a.symbols ::
                  exists w :: Latest(p, us, w) && w.symbol == s && StateOf(p, w) == Some(a.symbols[s]))
  {
    RunSettles(p, us);
    RunSettles(p, vs);
    RunKeepsExact(p, us);
    RunKeepsExact(p, vs);
    var a, b := RunAll(Fresh(p), us), RunAll(Fresh(p), vs);
    forall s
      ensures (s in a.symbols <==> s in b.symbols) && (s in a.symbols ==> a.symbols[s] == b.symbols[s])
    {
      SameSymbol(p, us, vs, a, b, s);
    }
    assert a.symbols == b.symbols;
    forall sector
      ensures Total(a.sectors, sector) == Total(b.sectors, sector)
    {
      assert SectorExact(a, sector) && SectorExact(b, sector);
    }
    forall s | s in a.symbols
      ensures exists w :: Latest(p, us, w) && w.symbol == s && StateOf(p, w) == Some(a.symbols[s])
    {
      assert SymbolSettled(p, us, a, s);
    }
  }

  // ----- when the order matters

  /** A symbol at its greatest time stamp stays as it is. */
  lemma {:induction false} StaysAtTop(p: real, e: Engine, us: seq<Update>, s: string)
    requires e.indexPrevClose == p && s in e.symbols
    requires forall u | u in us && StateOf(p, u).Some? && u.symbol == s :: u.updatedAt <= e.symbols[s].updatedAt
    ensures var r := RunAll(e, us);
            r.indexPrevClose == p && s in r.symbols && r.symbols[s] == e.symbols[s]
  {
    if us != [] {
      var init, u := us[..|us| - 1], us[|us| - 1];
      StaysAtTop(p, e, init, s);
      assert u in us;
    }
  }

  lemma {:induction false} RunAppend(e: Engine, us: seq<Update>, vs: seq<Update>)
    ensures RunAll(e, us + vs) == RunAll(RunAll(e, us), vs)
  {
    if vs == [] {
      assert us + [] == us;
    } else {
      var init := vs[..|vs| - 1];
      RunAppend(e, us, init);
      assert (us + vs)[..|us + vs| - 1] == us + init;
    }
  }

  /** Delivering one of the latest events first makes its state the final one. */
  lemma FirstLatestWins(p: real, us: seq<Update>, u: Update)
    requires Latest(p, us, u)
    ensures SameEvents(us, [u] + us)
    ensures var e := RunAll(Fresh(p), [u] + us);
            u.symbol in e.symbols && StateOf(p, u) == Some(e.symbols[u.symbol])
  {
    StateIsRounded(p, u);
    assert [u][..0] == [];
    assert RunAll(Fresh(p), [u]) == Apply(Fresh(p), u);
    RunAppend(Fresh(p), [u], us);
    StaysAtTop(p, Apply(Fresh(p), u), us, u.symbol);
  }

  /** Every order of the events, with any duplication, ends with the symbol states of `us`. */
  ghost predicate OrderIrrelevant(p: real, us: seq<Update>) {
    forall vs | SameEvents(us, vs) :: RunAll(Fresh(p), vs).symbols == RunAll(Fresh(p), us).symbols
  }

  lemma TopTieMatters(p: real, us: seq<Update>, a: Update, b: Update)
    requires Latest(p, us, a) && Latest(p, us, b) && a.symbol == b.symbol && StateOf(p, a) != StateOf(p, b)
    ensures !OrderIrrelevant(p, us)
  {
    FirstLatestWins(p, us, a);
    FirstLatestWins(p, us, b);
    var e, f := RunAll(Fresh(p), [a] + us).symbols, RunAll(Fresh(p), [b] + us).symbols;
    assert e[a.symbol] != f[a.symbol];
  }

  /**
    With distinct ids, order and duplication are irrelevant if and only if, for each symbol, the valid
    events at its greatest time stamp all lead to one state.  A tie below that stamp does no harm.
   */
  lemma ConvergesExactly(p: real, us: seq<Update>)
    requires IdsDistinct(us)
    ensures OrderIrrelevant(p, us) <==> OneLatestState(p, us)
  {
    if OneLatestState(p, us) {
      forall vs | SameEvents(us, vs)
        ensures RunAll(Fresh(p), vs).symbols == RunAll(Fresh(p), us).symbols
      {
        Convergence(p, us, vs);
      }
    } else {
      var a, b :| Latest(p, us, a) && Latest(p, us, b) && a.symbol == b.symbol && StateOf(p, a) != StateOf(p, b);
      TopTieMatters(p, us, a, b);
    }
  }

  /** Of two valid events at one instant that differ, ids or not, the first to arrive wins. */
  lemma TiesDependOnOrder(p: real, u: Update, v: Update)
    requires u.symbol == v.symbol && u.updatedAt == v.updatedAt && (HasId(u) ==> u.eventId != v.eventId)
    requires StateOf(p, u).Some? && StateOf(p, v).Some? && StateOf(p, u) != StateOf(p, v)
    ensures var a, b := RunAll(Fresh(p), [u, v]), RunAll(Fresh(p), [v, u]);
            && u.symbol in a.symbols && Some(a.symbols[u.symbol]) == StateOf(p, u)
            && u.symbol in b.symbols && Some(b.symbols[u.symbol]) == StateOf(p, v)
  {
    StateIsRounded(p, u);
    StateIsRounded(p, v);
    assert [u, v] == [u] + [v] && [v, u] == [v] + [u] && [u][..0] == [] && [v][..0] == [];
    RunAppend(Fresh(p), [u], [v]);
    RunAppend(Fresh(p), [v], [u]);
    assert RunAll(Fresh(p), [u]) == Apply(Fresh(p), u) && RunAll(Fresh(p), [v]) == Apply(Fresh(p), v);
    StaysAtTop(p, Apply(Fresh(p), u), [v], u.symbol);
    StaysAtTop(p, Apply(Fresh(p), v), [u], u.symbol);
  }
}
