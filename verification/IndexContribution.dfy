/**
  The attribution engine of the index-contribution worker: contribution points per
  symbol, an incrementally maintained total per sector, and two rankings.  Prices and
  points are reals; the six-decimal rounding is explicit.
 */
module IndexContribution {
  import opened Wrappers

  // ----- rounding to six decimals

  /** Round half away from zero. */
  function HalfUp(y: real): int {
    if y >= 0.0 then (y + 0.5).Floor else -((-y + 0.5).Floor)
  }

  function Round6(x: real): real {
    HalfUp(x * 1000000.0) as real / 1000000.0
  }

  /** x is a whole number of millionths. */
  predicate OnGrid(x: real) {
    (x * 1000000.0).Floor as real == x * 1000000.0
  }

  function Abs(x: real): real {
    if x < 0.0 then -x else x
  }

  lemma FloorBounds(z: real)
    ensures z.Floor as real <= z < z.Floor as real + 1.0
  {
  }

  lemma HalfUpClose(y: real)
    ensures Abs(HalfUp(y) as real - y) <= 0.5
  {
    if y >= 0.0 {
      FloorBounds(y + 0.5);
    } else {
      FloorBounds(-y + 0.5);
    }
  }

  lemma HalfUpFixesIntegers(n: int)
    ensures HalfUp(n as real) == n
  {
    var f := if n >= 0 then (n as real + 0.5).Floor else (-(n as real) + 0.5).Floor;
    FloorBounds(if n >= 0 then n as real + 0.5 else -(n as real) + 0.5);
    var m := if n >= 0 then n else -n;
    assert f as real <= m as real + 0.5 < f as real + 1.0;
  }

  /** Rounding moves a value by at most half a millionth, lands on the grid, and fixes grid values. */
  lemma RoundToGrid(x: real)
    ensures OnGrid(Round6(x))
    ensures Abs(Round6(x) - x) <= 0.0000005
    ensures OnGrid(x) ==> Round6(x) == x
  {
    var y := x * 1000000.0;
    HalfUpClose(y);
    if OnGrid(x) {
      HalfUpFixesIntegers(y.Floor);
    }
    assert Round6(x) * 1000000.0 == HalfUp(y) as real;
    assert (Round6(x) - x) * 1000000.0 == HalfUp(y) as real - y;
  }

  /** A value halfway between two millionths is rounded away from zero, whichever its sign. */
  lemma HalfAwayFromZero(x: real, n: nat)
    requires x * 1000000.0 == n as real + 0.5
    ensures Round6(x) * 1000000.0 == n as real + 1.0 && Round6(-x) == -Round6(x)
  {
    FloorOfWhole(n + 1);
    assert -x * 1000000.0 == -(x * 1000000.0);
  }

  lemma FloorOfWhole(n: int)
    ensures (n as real).Floor == n
  {
  }

  lemma WholeIsOnGrid(x: real, n: int)
    requires x * 1000000.0 == n as real
    ensures OnGrid(x) && Round6(x) == x
  {
    FloorOfWhole(n);
    HalfUpFixesIntegers(n);
  }

  lemma TinyIsZero(x: real)
    requires OnGrid(x) && Abs(x) < 0.000000000001
    ensures x == 0.0
  {
    var n := (x * 1000000.0).Floor;
    assert -1.0 < n as real < 1.0;
    assert n == 0;
  }

  /** Sums and differences of grid values need no rounding, and a tiny one is zero. */
  lemma GridClosed(x: real, y: real)
    requires OnGrid(x) && OnGrid(y)
    ensures OnGrid(x + y) && OnGrid(x - y)
    ensures Round6(x + y) == x + y && Round6(x - y) == x - y
    ensures Abs(x) < 0.000000000001 ==> x == 0.0
  {
    var i, j := (x * 1000000.0).Floor, (y * 1000000.0).Floor;
    WholeIsOnGrid(x + y, i + j);
    WholeIsOnGrid(x - y, i - j);
    if Abs(x) < 0.000000000001 {
      TinyIsZero(x);
    }
  }

  // ----- the engine

  datatype Update = Update(
    symbol: string, name: string, mappingSector: Option<string>, tableSector: Option<string>,
    lastPrice: real, prevClose: real, weight: real, updatedAt: int, eventId: Option<string>)

  datatype SymbolState = SymbolState(
    symbol: string, name: string, sector: string, lastPrice: real, prevClose: real, weight: real,
    pctChange: real, points: real, updatedAt: int, lastEventId: Option<string>)

  datatype Engine = Engine(
    indexPrevClose: real,
    symbols: map<string, SymbolState>,
    sectors: map<string, real>,
    processed: set<string>)

  /** Index points that a symbol's move is worth, before rounding. */
  function Gain(indexPrevClose: real, lastPrice: real, prevClose: real, weight: real): real {
    if prevClose == 0.0 then 0.0 else indexPrevClose * weight * (lastPrice / prevClose - 1.0)
  }

  function Contribution(indexPrevClose: real, lastPrice: real, prevClose: real, weight: real): Option<real> {
    if indexPrevClose <= 0.0 || prevClose <= 0.0 || weight < 0.0 || weight > 1.0 then None
    else Some(Round6(Gain(indexPrevClose, lastPrice, prevClose, weight)))
  }

  predicate IsSpace(c: char) {
    c == ' ' || c == '\t' || c == '\n' || c == '\r'
  }

  function StripLeft(s: string): string {
    if s != "" && IsSpace(s[0]) then StripLeft(s[1..]) else s
  }

  function StripRight(s: string): string {
    if s != "" && IsSpace(s[|s| - 1]) then StripRight(s[..|s| - 1]) else s
  }

  function Strip(s: string): string {
    StripRight(StripLeft(s))
  }

  function ResolveSector(mappingSector: Option<string>, tableSector: Option<string>): Option<string> {
    if mappingSector.Some? && Strip(mappingSector.value) != "" then Some(Strip(mappingSector.value))
    else if tableSector.Some? && Strip(tableSector.value) != "" then Some(Strip(tableSector.value))
    else None
  }

  /** The state an update leads to when nothing drops it; None when its inputs are invalid. */
  function StateOf(indexPrevClose: real, u: Update): Option<SymbolState> {
    var sector := ResolveSector(u.mappingSector, u.tableSector);
    var points := Contribution(indexPrevClose, u.lastPrice, u.prevClose, u.weight);
    if sector.None? || points.None? then None
    else Some(SymbolState(u.symbol, u.name, sector.value, u.lastPrice, u.prevClose, u.weight,
                          Round6(u.lastPrice / u.prevClose - 1.0), points.value, u.updatedAt, u.eventId))
  }

  function Total(sectors: map<string, real>, sector: string): real {
    if sector in sectors then sectors[sector] else 0.0
  }

  function Withdraw(sectors: map<string, real>, sector: string, points: real): map<string, real> {
    var rest := Round6(Total(sectors, sector) - points);
    if Abs(rest) < 0.000000000001 then sectors - {sector} else sectors[sector := rest]
  }

  function Deposit(sectors: map<string, real>, sector: string, points: real): map<string, real> {
    sectors[sector := Round6(Total(sectors, sector) + points)]
  }

  predicate HasId(u: Update) {
    u.eventId.Some? && u.eventId.value != ""
  }

  predicate Dropped(e: Engine, u: Update) {
    || (HasId(u) && u.eventId.value in e.processed)
    || (u.symbol in e.symbols && u.updatedAt <= e.symbols[u.symbol].updatedAt)
    || StateOf(e.indexPrevClose, u).None?
  }

  function Apply(e: Engine, u: Update): Engine {
    if Dropped(e, u) then e
    else
      var new_ := StateOf(e.indexPrevClose, u).value;
      var sectors := if u.symbol in e.symbols
        then Withdraw(e.sectors, e.symbols[u.symbol].sector, e.symbols[u.symbol].points)
        else e.sectors;
      Engine(e.indexPrevClose, e.symbols[u.symbol := new_],
             Deposit(sectors, new_.sector, new_.points),
             if HasId(u) then e.processed + {u.eventId.value} else e.processed)
  }

  class IndexContributionEngine {
    var indexPrevClose: real
    var symbolState: map<string, SymbolState>
    var sectorAggregate: map<string, real>
    var processedEventIds: set<string>

    ghost function State(): Engine
      reads this
    {
      Engine(indexPrevClose, symbolState, sectorAggregate, processedEventIds)
    }

    constructor (indexPrevClose: real)
      ensures State() == Engine(indexPrevClose, map[], map[], {})
    {
      this.indexPrevClose := indexPrevClose;
      symbolState, sectorAggregate, processedEventIds := map[], map[], {};
    }

    method ApplyUpdate(u: Update) returns (accepted: bool)
      modifies this
      ensures State() == Apply(old(State()), u)
      ensures accepted == !Dropped(old(State()), u)
    {
      if HasId(u) && u.eventId.value in processedEventIds {
        return false;
      }
      var current := if u.symbol in symbolState then Some(symbolState[u.symbol]) else None;
      if current.Some? && u.updatedAt <= current.value.updatedAt {
        return false;
      }
      var sector := ResolveSector(u.mappingSector, u.tableSector);
      if sector.None? {
        return false;
      }
      var points := Contribution(indexPrevClose, u.lastPrice, u.prevClose, u.weight);
      if points.None? {
        return false;
      }
      var pctChange := Round6(u.lastPrice / u.prevClose - 1.0);
      if current.Some? {
        WithdrawFrom(current.value.sector, current.value.points);
      }
      sectorAggregate := sectorAggregate[sector.value := Round6(Total(sectorAggregate, sector.value) + points.value)];
      symbolState := symbolState[u.symbol := SymbolState(
        u.symbol, u.name, sector.value, u.lastPrice, u.prevClose, u.weight, pctChange, points.value,
        u.updatedAt, u.eventId)];
      if HasId(u) {
        processedEventIds := processedEventIds + {u.eventId.value};
      }
      return true;
    }

    method WithdrawFrom(oldSector: string, oldPoints: real)
      modifies this`sectorAggregate
      ensures sectorAggregate == Withdraw(old(sectorAggregate), oldSector, oldPoints)
    {
      sectorAggregate := sectorAggregate[oldSector := Round6(Total(sectorAggregate, oldSector) - oldPoints)];
      if Abs(sectorAggregate[oldSector]) < 0.000000000001 {
        sectorAggregate := sectorAggregate - {oldSector};
      }
    }

    method Clear()
      modifies this
      ensures State() == Engine(old(indexPrevClose), map[], map[], {})
    {
      symbolState, sectorAggregate, processedEventIds := map[], map[], {};
    }
  }
}
