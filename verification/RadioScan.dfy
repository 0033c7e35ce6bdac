/** Where a scan goes, and when it ends.

    Positions are counted from the end of the band where the scan wraps to, so that scanning
    forward and backward is the same walk. */
module RadioScan {
  import opened RadioTuner
  import opened Radio

  // ---------------------------------------------------------------- the walk

  /** Position after i moves; a move that would get behind the end goes back to 0. */
  function Walk(size: int, step: nat, x: nat, i: nat): nat {
    if i == 0 then x
    else
      var p := Walk(size, step, x, i - 1);
      if p + step > size then 0 else p + step
  }

  lemma {:induction false} WalkAdds(size: int, step: nat, x: nat, i: nat, j: nat)
    ensures Walk(size, step, x, i + j) == Walk(size, step, Walk(size, step, x, i), j)
  {
    if j > 0 { WalkAdds(size, step, x, i, j - 1); }
  }

  lemma {:induction false} WalkDirect(size: int, step: nat, x: nat, i: nat)
    requires i == 0 || x + i * step <= size
    ensures Walk(size, step, x, i) == x + i * step
  {
    if i > 0 {
      assert i * step == (i - 1) * step + step;
      WalkDirect(size, step, x, i - 1);
    }
  }

  /** How many whole steps there are from position x to the end. */
  function StepsTo(size: int, step: nat, x: nat): nat
    requires step > 0
  {
    if x > size then 0 else (size - x) / step
  }

  /** Number of moves until the scan has wrapped. */
  function Wrap(size: int, step: nat, x: nat): nat
    requires step > 0
  {
    StepsTo(size, step, x) + 1
  }

  lemma WrapBounds(size: int, step: nat, x: nat)
    requires step > 0
    ensures var n := StepsTo(size, step, x); (n == 0 || x + n * step <= size) && size < x + n * step + step
  {
    if x <= size {
      var n, r := (size - x) / step, (size - x) % step;
      assert size - x == n * step + r;
    }
  }

  lemma WalkWraps(size: int, step: nat, x: nat)
    requires step > 0
    ensures Walk(size, step, x, Wrap(size, step, x)) == 0
  {
    WrapBounds(size, step, x);
    WalkDirect(size, step, x, StepsTo(size, step, x));
  }

  /** A grid point is reached soon after the wrap. */
  lemma GridReached(size: int, step: nat, x: nat, k: nat)
    requires step > 0 && (k == 0 || k * step <= size)
    ensures Walk(size, step, x, Wrap(size, step, x) + k) == k * step
  {
    WalkWraps(size, step, x);
    WalkAdds(size, step, x, Wrap(size, step, x), k);
    WalkDirect(size, step, 0, k);
  }

  lemma UpToEnd(size: int, step: nat, x: nat, i: nat)
    requires step > 0 && i <= StepsTo(size, step, x)
    ensures i == 0 || x + i * step <= size
  {
    WrapBounds(size, step, x);
    FactorOrder(i, StepsTo(size, step, x), step);
  }

  /** After the first wrap the scan visits 0, step, 2 * step, and so on up to the last grid point of
      the band, over and over. */
  lemma {:induction false} OrbitRepeats(size: int, step: nat, x: nat, i: nat)
    requires step > 0
    ensures Walk(size, step, x, Wrap(size, step, x) + i) == i % Wrap(size, step, 0) * step
    decreases i
  {
    var period := Wrap(size, step, 0);
    if i < period {
      UpToEnd(size, step, 0, i);
      GridReached(size, step, x, i);
      DivisionUnique(i, period, 0, i);
    } else {
      OrbitRepeats(size, step, 0, i - period);
      OrbitPeriod(size, step, x, i - period);
      ShiftByStep(i - period, period);
    }
  }

  lemma OrbitPeriod(size: int, step: nat, x: nat, i: nat)
    requires step > 0
    ensures Walk(size, step, x, Wrap(size, step, x) + Wrap(size, step, 0) + i) ==
            Walk(size, step, 0, Wrap(size, step, 0) + i)
  {
    WalkWraps(size, step, x);
    WalkAdds(size, step, x, Wrap(size, step, x), Wrap(size, step, 0) + i);
  }

  /** What a scan visits: the grid of the band, and before that the grid of where it started. */
  lemma Visited(size: int, step: nat, x: nat, i: nat) returns (k: nat)
    requires step > 0
    ensures if i < Wrap(size, step, x) then
              Walk(size, step, x, i) == x + i * step && (i == 0 || x + i * step <= size)
            else
              Walk(size, step, x, i) == k * step && (k == 0 || k * step <= size)
  {
    k := 0;
    if i < Wrap(size, step, x) {
      UpToEnd(size, step, x, i);
      WalkDirect(size, step, x, i);
    } else {
      var j := i - Wrap(size, step, x);
      k := j % Wrap(size, step, 0);
      OrbitRepeats(size, step, x, j);
      UpToEnd(size, step, 0, k);
    }
  }

  // ---------------------------------------------------------------- the band

  /** What the end of the band where the scan wraps to is rounded to. */
  function Edge(b: Band, forward: bool): nat
    requires b.step > 0
  {
    Rounded(b, if forward then b.low else b.high)
  }

  /** From there to the other end; negative if rounding goes past it. */
  function Size(b: Band, forward: bool): int
    requires b.step > 0
  {
    if forward then b.high - Edge(b, true) else Edge(b, false) - b.low
  }

  function Position(b: Band, forward: bool): (r: int)
    requires b.step > 0
    ensures Within(b) ==> r >= 0
  {
    if forward then b.frequency - Edge(b, true) else Edge(b, false) - b.frequency
  }

  /** The frequency at a position. */
  function At(b: Band, forward: bool, x: nat): int
    requires b.step > 0
  {
    if forward then Edge(b, true) + x else Edge(b, false) - x
  }

  /** Where a scan gets to with its first move. */
  function Second(b: Band, forward: bool): nat
    requires Proper(b) && Within(b)
  {
    NextCovered(b, forward);
    StoreWithin(b, Next(b, forward));
    Position(Store(b, Next(b, forward)), forward)
  }

  /** The frequency i moves after position x, as long as there is no station. */
  function Path(b: Band, forward: bool, x: nat, i: nat): int
    requires b.step > 0
  {
    At(b, forward, Walk(Size(b, forward), b.step, x, i))
  }

  lemma Quotient(a: nat, step: nat) returns (p: nat)
    requires step > 0 && a % step == 0
    ensures a == p * step
  {
    p := a / step;
  }

  lemma SumsOfMultiples(a: nat, b: nat, step: nat)
    requires step > 0 && a % step == 0 && b % step == 0
    ensures (a + b) % step == 0 && (a >= b ==> (a - b) % step == 0)
  {
    var p := Quotient(a, step);
    var q := Quotient(b, step);
    SumMultiple(p, q, step);
    if a >= b { Difference(a, b, p, q, step); }
  }

  lemma Difference(a: nat, b: nat, p: nat, q: nat, step: nat)
    requires step > 0 && a == p * step && b == q * step && a >= b
    ensures (a - b) % step == 0
  {
    if p < q {
      FactorOrder(p, q, step);
      assert a == b;
    } else {
      SumMultiple(p - q, q, step);
      MultipleHasNoRest(p - q, step);
    }
  }

  lemma SumMultiple(p: nat, q: nat, step: nat)
    requires step > 0
    ensures p * step + q * step == (p + q) * step && (p * step + q * step) % step == 0
  {
    MultipleHasNoRest(p + q, step);
  }

  /** One step from a stored frequency needs no rounding. */
  lemma StepRounds(b: Band)
    requires Proper(b) && Within(b)
    ensures Rounded(b, b.frequency + b.step) == b.frequency + b.step
    ensures b.frequency >= b.step ==> Rounded(b, b.frequency - b.step) == b.frequency - b.step
  {
    if b.normalises { SumsOfMultiples(b.frequency, b.step, b.step); }
  }

  /** One move of a scan, in positions. */
  lemma NextMoves(b: Band, forward: bool)
    requires Proper(b) && Within(b) && !Signal(b)
    ensures Second(b, forward) == Walk(Size(b, forward), b.step, Position(b, forward), 1)
  {
    StepRounds(b);
    assert Walk(Size(b, forward), b.step, Position(b, forward), 0) == Position(b, forward);
  }

  lemma RoundsPast(b: Band, step: nat)
    requires Proper(b) && Within(b) && step >= b.step
    ensures Rounded(b, b.frequency + step) >= b.frequency + b.step
    ensures b.frequency >= step ==> Rounded(b, b.frequency - step) <= b.frequency - b.step
  {
    StepRounds(b);
    if b.normalises {
      NormaliseMonotone(b.frequency + b.step, b.frequency + step, b.step);
      if b.frequency >= step { NormaliseMonotone(b.frequency - step, b.frequency - b.step, b.step); }
    }
  }

  /** The first move wraps, or goes at least one step on. */
  lemma MovesOn(b: Band, forward: bool)
    requires Proper(b) && Within(b)
    ensures var x, y := Position(b, forward), Second(b, forward);
            y == 0 || (x + b.step <= y && x + b.step <= Size(b, forward))
  {
    RoundsPast(b, if Signal(b) then b.offStep else b.step);
  }

  /** How far it is to the end of the band that a scan moves to. */
  function Left(b: Band, forward: bool): int {
    if forward then b.high - b.frequency else b.frequency - b.low
  }

  lemma RoundsNear(b: Band, value: nat)
    requires b.step > 0
    ensures value - Slack(b) <= Rounded(b, value) <= value + Slack(b)
  {
    NormaliseLands(value, b.step);
  }

  lemma LeavesStation(b: Band, forward: bool)
    requires Proper(b) && Within(b) && Signal(b)
    ensures var x, y, left := Position(b, forward), Second(b, forward), Left(b, forward);
            && (y == 0 <==> left < b.offStep)
            && (left >= b.offStep ==> x + b.offStep - Slack(b) <= y <= x + b.offStep + Slack(b))
  {
    RoundsPast(b, b.offStep);
    RoundsNear(b, b.frequency + b.offStep);
    if b.frequency >= b.offStep { RoundsNear(b, b.frequency - b.offStep); }
  }

  /** The first move goes back to where scans wrap to, if fewer than `offStep` Hz are left on a
      station, or fewer than `step` Hz off a station, and only then.  Otherwise it goes on by
      `offStep`, within the rounding, from a station, and by exactly `step` from anywhere else. */
  lemma FirstMove(b: Band, forward: bool)
    requires Proper(b) && Within(b)
    ensures var x, y, left := Position(b, forward), Second(b, forward), Left(b, forward);
            && (Signal(b) ==> (y == 0 <==> left < b.offStep))
            && (Signal(b) && left >= b.offStep ==> x + b.offStep - Slack(b) <= y <= x + b.offStep + Slack(b))
            && (!Signal(b) ==> (y == 0 <==> left < b.step))
            && (!Signal(b) && left >= b.step ==> y == x + b.step)
  {
    if Signal(b) {
      LeavesStation(b, forward);
    } else {
      NextMoves(b, forward);
      assert Walk(Size(b, forward), b.step, Position(b, forward), 0) == Position(b, forward);
    }
  }

  // ---------------------------------------------------------------- timer ticks

  function Ticks(m: Manager, n: nat): (r: Manager)
    requires Inv(m)
    ensures Inv(r)
  {
    if n == 0 then m
    else
      ApplyInv(Ticks(m, n - 1), Timeout);
      Apply(Ticks(m, n - 1), Timeout)
  }

  /** A scan for one station is going on in this direction, on a band like b. */
  ghost predicate Scanning(m: Manager, forward: bool, b: Band) {
    && Inv(m) && HasBand(m) && m.timer && m.forward == forward && !m.all
    && Proper(b) && Current(m) == b.(frequency := Current(m).frequency)
  }

  /** And it is at position x. */
  ghost predicate ScanningAt(m: Manager, forward: bool, b: Band, x: nat) {
    Scanning(m, forward, b) && Position(Current(m), forward) == x
  }

  lemma CurrentSound(m: Manager)
    requires Inv(m) && HasBand(m)
    ensures Proper(Current(m)) && Within(Current(m))
  {
  }

  lemma AtPosition(m: Manager, forward: bool, b: Band, x: nat)
    requires ScanningAt(m, forward, b, x)
    ensures Current(m).frequency == At(b, forward, x)
    ensures Signal(Current(m)) <==> At(b, forward, x) in b.stations
  {
  }

  lemma TickMoves(m: Manager, forward: bool, b: Band, x: nat)
    requires ScanningAt(m, forward, b, x) && !Signal(Current(m))
    ensures ScanningAt(Apply(m, Timeout), forward, b, Walk(Size(b, forward), b.step, x, 1))
  {
    ApplyInv(m, Timeout);
    CurrentSound(m);
    NextMoves(Current(m), forward);
  }

  lemma TickFollows(m: Manager, forward: bool, b: Band, x: nat, n: nat)
    requires Inv(m) && Proper(b) && ScanningAt(Ticks(m, n), forward, b, Walk(Size(b, forward), b.step, x, n))
    requires Path(b, forward, x, n) !in b.stations
    ensures ScanningAt(Ticks(m, n + 1), forward, b, Walk(Size(b, forward), b.step, x, n + 1))
  {
    var y := Walk(Size(b, forward), b.step, x, n);
    AtPosition(Ticks(m, n), forward, b, y);
    TickMoves(Ticks(m, n), forward, b, y);
    WalkAdds(Size(b, forward), b.step, x, n, 1);
  }

  /** As long as there is no station the scan follows the walk. */
  lemma {:induction false} TicksFollow(m: Manager, forward: bool, b: Band, x: nat, n: nat)
    requires ScanningAt(m, forward, b, x)
    requires forall i :: 0 <= i < n ==> Path(b, forward, x, i) !in b.stations
    ensures ScanningAt(Ticks(m, n), forward, b, Walk(Size(b, forward), b.step, x, n))
  {
    if n > 0 {
      TicksFollow(m, forward, b, x, n - 1);
      TickFollows(m, forward, b, x, n - 1);
    }
  }

  /** The scan stops on the first station of the walk, one tick after it got there, and announces it. */
  lemma StopsAtFirst(m: Manager, forward: bool, b: Band, x: nat, n: nat)
    requires ScanningAt(m, forward, b, x) && Path(b, forward, x, n) in b.stations
    requires forall i :: 0 <= i < n ==> Path(b, forward, x, i) !in b.stations
    ensures var r := Ticks(m, n + 1);
            && !r.scanning && !r.timer && HasBand(r) && r.current == Ticks(m, n).current
            && Current(r).frequency == Path(b, forward, x, n) && Signal(Current(r))
            && r.events == Ticks(m, n).events + [Found(Current(r).frequency, r.current), Stopped]
  {
    TicksFollow(m, forward, b, x, n);
    var s := Ticks(m, n);
    AtPosition(s, forward, b, Walk(Size(b, forward), b.step, x, n));
    var found := Found(Current(s).frequency, s.current);
    assert s.events + [found] + [Stopped] == s.events + [found, Stopped];
  }

  lemma FirstStation(b: Band, forward: bool, x: nat, n: nat) returns (first: nat)
    requires Proper(b) && Path(b, forward, x, n) in b.stations
    ensures first <= n && Path(b, forward, x, first) in b.stations
    ensures forall i :: 0 <= i < first ==> Path(b, forward, x, i) !in b.stations
  {
    first := 0;
    while Path(b, forward, x, first) !in b.stations
      invariant first <= n
      invariant forall i :: 0 <= i < first ==> Path(b, forward, x, i) !in b.stations
      decreases n - first
    {
      first := first + 1;
    }
  }

  // ---------------------------------------------------------------- main results

  /** scanForward and scanBackward. */
  function Scan(m: Manager, forward: bool): (r: Manager)
    requires Inv(m)
    ensures Inv(r) && (HasBand(m) ==> HasBand(r))
  {
    StartScanInv(m, forward, false);
    StartScan(m, forward, false)
  }

  /** What scanForward and scanBackward do first: they make one move. */
  lemma StartMoves(m: Manager, forward: bool)
    requires Inv(m) && HasBand(m)
    ensures var b := Current(m); Proper(b) && Within(b) && ScanningAt(Scan(m, forward), forward, b, Second(b, forward))
  {
    StopScanInv(m);
    CurrentSound(m);
    NextCovered(Current(m), forward);
    StoreWithin(Current(m), Next(Current(m), forward));
  }

  /** If there is a station on the grid of the band, k steps from where the scan wraps to, the scan
      stops on a station, after no more ticks than the steps to the end of the band, plus k + 1. */
  lemma ScanStops(m: Manager, forward: bool, k: nat) returns (t: nat)
    requires Inv(m) && HasBand(m) && GridStation(Current(m), forward, k)
    ensures t <= StepsLeft(Current(m), forward) + k + 1
    ensures var r := Ticks(Scan(m, forward), t); !r.scanning && HasBand(r) && Signal(Current(r))
  {
    var b := Current(m);
    StartMoves(m, forward);
    var n := ReachedBy(b, forward, k);
    t := FoundBy(Scan(m, forward), forward, b, Second(b, forward), n);
  }

  /** How many whole steps fit between the current position and the end of the band. */
  function StepsLeft(b: Band, forward: bool): nat
    requires b.step > 0
  {
    if Position(b, forward) < 0 then 0 else StepsTo(Size(b, forward), b.step, Position(b, forward))
  }

  lemma FoundBy(r: Manager, forward: bool, b: Band, x: nat, n: nat) returns (t: nat)
    requires ScanningAt(r, forward, b, x) && Path(b, forward, x, n) in b.stations
    ensures t <= n + 1
    ensures var s := Ticks(r, t); !s.scanning && HasBand(s) && Signal(Current(s))
  {
    var first := FirstStation(b, forward, x, n);
    StopsAtFirst(r, forward, b, x, first);
    t := first + 1;
  }

  lemma ReachedBy(b: Band, forward: bool, k: nat) returns (n: nat)
    requires Proper(b) && Within(b) && GridStation(b, forward, k)
    ensures n <= StepsLeft(b, forward) + k
    ensures Path(b, forward, Second(b, forward), n) in b.stations
  {
    var size, y := Size(b, forward), Second(b, forward);
    MoveBound(b, forward);
    if y == 0 {
      n := k;
      WalkDirect(size, b.step, 0, k);
    } else {
      n := Wrap(size, b.step, y) + k;
      GridReached(size, b.step, y, k);
    }
  }

  /** The first move takes at least one step off what is left of the band. */
  lemma MoveBound(b: Band, forward: bool)
    requires Proper(b) && Within(b)
    ensures var y := Second(b, forward); y == 0 || Wrap(Size(b, forward), b.step, y) <= StepsLeft(b, forward)
  {
    var size, x, y := Size(b, forward), Position(b, forward), Second(b, forward);
    MovesOn(b, forward);
    if y != 0 { StepsOrder(size, b.step, x, y); }
  }

  lemma StepsOrder(size: int, step: nat, x: nat, y: nat)
    requires step > 0 && x + step <= y && x + step <= size
    ensures StepsTo(size, step, y) + 1 <= StepsTo(size, step, x)
  {
    var rest := if y > size then 0 else size - y;
    DivisionUnique(0, step, 0, 0);
    ShiftByStep(rest, step);
    QuotientOrder(rest + step, size - x, step);
  }

  /** A station k steps from where the scan wraps to. */
  ghost predicate GridStation(b: Band, forward: bool, k: nat)
    requires b.step > 0
  {
    (k == 0 || k * b.step <= Size(b, forward)) && At(b, forward, k * b.step) in b.stations
  }

  /** A station i steps in front of position y. */
  ghost predicate StationAhead(b: Band, forward: bool, y: nat, i: nat)
    requires b.step > 0
  {
    (i == 0 || y + i * b.step <= Size(b, forward)) && At(b, forward, y + i * b.step) in b.stations
  }

  /** The stations that a scan from position y can find. */
  ghost predicate Reachable(b: Band, forward: bool, y: nat)
    requires b.step > 0
  {
    (exists k: nat :: GridStation(b, forward, k)) || exists i: nat :: StationAhead(b, forward, y, i)
  }

  /** A scan ends by itself if and only if a station is on the grid of the band, or on the grid of
      the scan's second position and in front of it.  Otherwise it goes round for ever. */
  lemma ScanEndsIff(m: Manager, forward: bool)
    requires Inv(m) && HasBand(m)
    ensures var b := Current(m);
            && Proper(b) && Within(b)
            && (Reachable(b, forward, Second(b, forward)) <==> exists t: nat :: !Ticks(Scan(m, forward), t).scanning)
  {
    StartMoves(m, forward);
    EndsIff(Scan(m, forward), forward, Current(m), Second(Current(m), forward));
  }

  lemma EndsIff(r: Manager, forward: bool, b: Band, y: nat)
    requires ScanningAt(r, forward, b, y)
    ensures Reachable(b, forward, y) <==> exists t: nat :: !Ticks(r, t).scanning
  {
    if Reachable(b, forward, y) {
      var n := ReachableWalk(b, forward, y);
      var t := FoundBy(r, forward, b, y, n);
    } else {
      forall t: nat ensures Ticks(r, t).scanning {
        NothingReachable(b, forward, y, t);
        TicksFollow(r, forward, b, y, t);
      }
    }
  }

  lemma ReachableWalk(b: Band, forward: bool, y: nat) returns (n: nat)
    requires Proper(b) && Reachable(b, forward, y)
    ensures Path(b, forward, y, n) in b.stations
  {
    if k: nat :| GridStation(b, forward, k) {
      n := Wrap(Size(b, forward), b.step, y) + k;
      GridReached(Size(b, forward), b.step, y, k);
    } else {
      var i: nat :| StationAhead(b, forward, y, i);
      n := i;
      WalkDirect(Size(b, forward), b.step, y, i);
    }
  }

  lemma NothingReachable(b: Band, forward: bool, y: nat, t: nat)
    requires Proper(b) && !Reachable(b, forward, y)
    ensures forall i :: 0 <= i < t ==> Path(b, forward, y, i) !in b.stations
  {
    forall i | 0 <= i < t ensures Path(b, forward, y, i) !in b.stations {
      var k := Visited(Size(b, forward), b.step, y, i);
      assert !GridStation(b, forward, k) && !StationAhead(b, forward, y, i);
    }
  }

  // ---------------------------------------------------------------- away from a station

  /** The band that is tuned is b, whatever it is tuned to, and if a scan goes on it is for one station
      in this direction. */
  ghost predicate Tuned(m: Manager, forward: bool, b: Band) {
    && Inv(m) && HasBand(m) && Proper(b)
    && Current(m) == b.(frequency := Current(m).frequency)
    && (m.timer ==> m.forward == forward && !m.all)
  }

  /** How far g is from f in the direction of the scan. */
  function Ahead(forward: bool, f: nat, g: nat): int {
    if forward then g - f else f - g
  }

  ghost predicate AtEdge(m: Manager, forward: bool, b: Band)
    requires b.step > 0
  {
    HasBand(m) && Current(m).frequency == Edge(b, forward)
  }

  /** Within n ticks the scan has been where scans wrap to. */
  ghost predicate HasWrapped(m: Manager, forward: bool, b: Band, n: nat)
    requires Inv(m) && b.step > 0
  {
    exists i: nat :: i <= n && AtEdge(Ticks(m, i), forward, b)
  }

  /** A tick stays where it is, wraps, or goes one step on. */
  lemma TickGoesAhead(m: Manager, forward: bool, b: Band)
    requires Tuned(m, forward, b)
    ensures var r := Apply(m, Timeout);
            && Tuned(r, forward, b)
            && (AtEdge(r, forward, b) || Ahead(forward, Current(m).frequency, Current(r).frequency) in {0, b.step})
  {
    ApplyInv(m, Timeout);
    CurrentSound(m);
    if m.timer && !Signal(Current(m)) {
      var x := Position(Current(m), forward);
      TickMoves(m, forward, b, x);
      AtPosition(Apply(m, Timeout), forward, b, Walk(Size(b, forward), b.step, x, 1));
      assert Walk(Size(b, forward), b.step, x, 0) == x;
    }
  }

  lemma {:induction false} TicksGoAhead(m: Manager, forward: bool, b: Band, n: nat)
    requires Tuned(m, forward, b)
    ensures var r := Ticks(m, n);
            && Tuned(r, forward, b)
            && (HasWrapped(m, forward, b, n) || Ahead(forward, Current(m).frequency, Current(r).frequency) >= 0)
  {
    if n > 0 {
      TicksGoAhead(m, forward, b, n - 1);
      TickGoesAhead(Ticks(m, n - 1), forward, b);
      assert AtEdge(Ticks(m, n), forward, b) ==> HasWrapped(m, forward, b, n);
      assert HasWrapped(m, forward, b, n - 1) ==> HasWrapped(m, forward, b, n);
    }
  }

  /** A scan that starts on a station is, until it wraps for the first time, at least `offStep` Hz past
      it, within the rounding, and so stops on nothing nearer than that.  It wraps with its first move
      exactly if there are fewer than `offStep` Hz left. */
  lemma SkipsNearStations(m: Manager, forward: bool, n: nat)
    requires Inv(m) && HasBand(m) && Signal(Current(m))
    ensures var b, r := Current(m), Ticks(Scan(m, forward), n);
            && Proper(b) && HasBand(r)
            && (HasWrapped(Scan(m, forward), forward, b, n) ||
                Ahead(forward, b.frequency, Current(r).frequency) >= b.offStep - Slack(b))
            && (AtEdge(Scan(m, forward), forward, b) <==> Left(b, forward) < b.offStep)
  {
    var b, s := Current(m), Scan(m, forward);
    StartMoves(m, forward);
    FirstMove(b, forward);
    AtPosition(s, forward, b, Second(b, forward));
    assert AtEdge(s, forward, b) <==> Second(b, forward) == 0;
    TicksGoAhead(s, forward, b, n);
    if AtEdge(s, forward, b) {
      assert AtEdge(Ticks(s, 0), forward, b);
    }
  }

  // ---------------------------------------------------------------- scanning for all stations

  function Search(m: Manager): (r: Manager)
    requires Inv(m)
    ensures Inv(r)
  {
    ScanAllInv(m);
    ScanAll(m)
  }

  lemma TickGoesOn(m: Manager)
    requires Inv(m) && m.scanning && m.all
    ensures Apply(m, Timeout).scanning && Apply(m, Timeout).all
  {
  }

  /** A scan for all stations never ends by itself, whatever it finds. */
  lemma {:induction false} ScanAllGoesOn(m: Manager, n: nat)
    requires Inv(m) && HasBand(m)
    ensures Ticks(Search(m), n).scanning && Ticks(Search(m), n).all
  {
    if n > 0 {
      ScanAllGoesOn(m, n - 1);
      TickGoesOn(Ticks(Search(m), n - 1));
    }
  }

  /** After some other signals a move hands the band a frequency that lies in it, and reports it. */
  ghost predicate Moves(m: Manager, r: Manager, signals: seq<Event>)
    requires HasBand(m) && Current(m).step > 0
  {
    exists g :: MovesTo(m, r, signals, g)
  }

  ghost predicate MovesTo(m: Manager, r: Manager, signals: seq<Event>, g: nat)
    requires HasBand(m) && Current(m).step > 0
  {
    && Covers(Current(m), g)
    && r.handed == m.handed + [Handed(g, m.current)]
    && r.events == m.events + signals + [Progress(g, m.current)]
    && r.bands == m.bands[m.current := Current(m).(frequency := Rounded(Current(m), g))]
    && r.current == m.current
  }

  lemma NextReports(m: Manager)
    requires Inv(m) && HasBand(m)
    ensures Proper(Current(m)) && Moves(m, NextScan(m), [])
  {
    CurrentSound(m);
    var g := Next(Current(m), m.forward);
    NextCovered(Current(m), m.forward);
    assert m.events + [] == m.events;
    assert MovesTo(m, NextScan(m), [], g);
  }

  /** What one tick announces: without a signal, the move; on a station that it has been found, and
      then the move or the end of the scan. */
  lemma TickReports(m: Manager)
    requires Inv(m) && m.timer
    ensures Proper(Current(m))
    ensures var r, found := Apply(m, Timeout), Found(Current(m).frequency, m.current);
            && (!Signal(Current(m)) ==> Moves(m, r, []))
            && (Signal(Current(m)) && m.all ==> Moves(m, r, [found]))
            && (Signal(Current(m)) && !m.all ==>
                  r == m.(scanning := false, timer := false, events := m.events + [found, Stopped]))
  {
    var found := Found(Current(m).frequency, m.current);
    CurrentSound(m);
    if !Signal(Current(m)) {
      NextReports(m);
    } else {
      PendingMore(m.events, found);
      var f := m.(events := m.events + [found]);
      EventsInv(m, f);
      NextReports(f);
      var g :| MovesTo(f, NextScan(f), [], g);
      assert MovesTo(m, NextScan(f), [found], g);
      assert m.events + [found] + [Stopped] == m.events + [found, Stopped];
    }
  }

  /** What starting a scan announces: the end of an earlier one, the start, and the first move. */
  lemma StartReports(m: Manager, forward: bool, all: bool)
    requires Inv(m) && HasBand(m)
    ensures Proper(Current(m))
    ensures var r := StartScan(m, forward, all);
            && Moves(m, r, if m.scanning then [Stopped, Started] else [Started])
            && r.forward == forward && r.all == all && r.scanning && r.timer
  {
    CurrentSound(m);
    NextCovered(Current(m), forward);
    var g := Next(Current(m), forward);
    assert m.events + [Stopped] + [Started] == m.events + [Stopped, Started];
    assert MovesTo(m, StartScan(m, forward, all), if m.scanning then [Stopped, Started] else [Started], g);
  }

  function StationsFound(events: seq<Event>): seq<Event> {
    if events == [] then []
    else
      var e := events[|events| - 1];
      StationsFound(events[..|events| - 1]) + if e.Found? then [e] else []
  }

  lemma FoundMore(events: seq<Event>, e: Event)
    ensures StationsFound(events + [e]) == StationsFound(events) + if e.Found? then [e] else []
  {
    assert (events + [e])[..|events|] == events;
  }

  /** The station that the manager is tuned to, if there is one. */
  function OnStation(m: Manager): seq<Event> {
    if HasBand(m) && Signal(Current(m)) then [Found(Current(m).frequency, m.current)] else []
  }

  /** The stations at which the scan has been after n ticks, in order. */
  function Heard(m: Manager, n: nat): seq<Event>
    requires Inv(m)
  {
    if n == 0 then [] else Heard(m, n - 1) + OnStation(Ticks(m, n - 1))
  }

  /** A scan for all is going on. */
  ghost predicate Endless(m: Manager) {
    match m
    case Manager(_, _, scanning, _, all, _, _, _) => scanning && all && Inv(m)
  }

  lemma TickFinds(m: Manager)
    requires Endless(m)
    ensures Endless(Apply(m, Timeout))
    ensures StationsFound(Apply(m, Timeout).events) == StationsFound(m.events) + OnStation(m)
  {
    ApplyInv(m, Timeout);
    TickReports(m);
    TickGoesOn(m);
    var found := Found(Current(m).frequency, m.current);
    var g :| MovesTo(m, Apply(m, Timeout), OnStation(m), g);
    FoundMore(m.events, found);
    FoundMore(m.events + OnStation(m), Progress(g, m.current));
    assert m.events + [] == m.events;
  }

  lemma TickFindsNext(m: Manager, n: nat)
    requires Inv(m) && Endless(Ticks(m, n))
    ensures Endless(Ticks(m, n + 1))
    ensures StationsFound(Ticks(m, n + 1).events) == StationsFound(Ticks(m, n).events) + OnStation(Ticks(m, n))
  {
    TickFinds(Ticks(m, n));
  }

  lemma {:induction false} Gather(found: nat -> seq<Event>, heard: nat -> seq<Event>, on: nat -> seq<Event>, n: nat)
    requires forall i: nat :: found(i + 1) == found(i) + on(i) && heard(i + 1) == heard(i) + on(i)
    requires heard(0) == []
    ensures found(n) == found(0) + heard(n)
  {
    if n > 0 {
      Gather(found, heard, on, n - 1);
      assert found((n - 1) + 1) == found(n - 1) + on(n - 1);
    }
  }

  lemma {:induction false} TicksEndless(m: Manager, n: nat)
    requires Inv(m) && Endless(m)
    ensures Endless(Ticks(m, n))
  {
    if n > 0 {
      TicksEndless(m, n - 1);
      TickFindsNext(m, n - 1);
    }
  }

  lemma TicksFind(m: Manager, n: nat)
    requires Inv(m) && Endless(m)
    ensures StationsFound(Ticks(m, n).events) == StationsFound(m.events) + Heard(m, n)
  {
    var found := (i: nat) => StationsFound(Ticks(m, i).events);
    var heard := (i: nat) => Heard(m, i);
    var on := (i: nat) => OnStation(Ticks(m, i));
    forall i: nat ensures found(i + 1) == found(i) + on(i) && heard(i + 1) == heard(i) + on(i) {
      TicksEndless(m, i);
      TickFindsNext(m, i);
    }
    Gather(found, heard, on, n);
  }

  lemma StartFinds(m: Manager)
    requires Inv(m) && HasBand(m) && !m.scanning
    ensures StationsFound(StartScan(m, true, true).events) == StationsFound(m.events)
    ensures StartScan(m, true, true).forward
  {
    StartReports(m, true, true);
    var g :| MovesTo(m, StartScan(m, true, true), [Started], g);
    FoundMore(m.events, Started);
    FoundMore(m.events + [Started], Progress(g, m.current));
  }

  lemma TwoFound(events: seq<Event>, p: Event, f: Event)
    requires p.Progress? && f.Found?
    ensures StationsFound(events + [p, f]) == StationsFound(events) + [f]
    ensures Pending(events + [p, f]) == Pending(events)
  {
    FoundMore(events, p);
    FoundMore(events + [p], f);
    PendingMore(events, p);
    PendingMore(events + [p], f);
    assert events + [p] + [f] == events + [p, f];
  }

  /** A scan for all reports the station that it starts on, if there is one. */
  lemma SearchFinds(m: Manager)
    requires Inv(m) && HasBand(m)
    ensures StationsFound(Search(m).events) == StationsFound(m.events) + OnStation(m)
    ensures Search(m).forward
  {
    StopScanInv(m);
    FoundMore(m.events, Stopped);
    var s := StopScan(m);
    assert StationsFound(s.events) == StationsFound(m.events);
    if Signal(Current(m)) {
      var p, f := Progress(Current(m).frequency, m.current), Found(Current(m).frequency, m.current);
      TwoFound(s.events, p, f);
      EventsInv(s, s.(events := s.events + [p, f]));
      StartFinds(s.(events := s.events + [p, f]));
    } else {
      StartFinds(s);
    }
  }

  /** A scan for all goes forward and announces each station it comes to, in order, and no other: the
      one it starts on, if there is one, and then those that it hears, tick by tick. */
  lemma AllStationsFound(m: Manager, n: nat)
    requires Inv(m) && HasBand(m)
    ensures Search(m).forward
    ensures StationsFound(Ticks(Search(m), n).events) ==
              StationsFound(m.events) + OnStation(m) + Heard(Search(m), n)
  {
    ScanAllGoesOn(m, 0);
    SearchFinds(m);
    TicksFind(Search(m), n);
  }

  // ---------------------------------------------------------------- without any signal

  /** The n-th frequency of the grid, counted round and round. */
  ghost predicate OnOrbit(r: Manager, forward: bool, b: Band, n: nat)
    requires b.step > 0
  {
    && r.scanning && HasBand(r)
    && Current(r).frequency == At(b, forward, n % Wrap(Size(b, forward), b.step, 0) * b.step)
  }

  /** While there is no signal the frequencies visited after the first wrap repeat exactly. */
  lemma NoSignalOrbit(m: Manager, forward: bool) returns (wrap: nat)
    requires Inv(m) && HasBand(m) && Current(m).stations == {}
    ensures wrap <= StepsLeft(Current(m), forward) + 1
    ensures forall t :: t >= wrap ==> OnOrbit(Ticks(Scan(m, forward), t), forward, Current(m), t - wrap)
  {
    var b := Current(m);
    StartMoves(m, forward);
    MoveBound(b, forward);
    var y := Second(b, forward);
    wrap := if y == 0 then 0 else Wrap(Size(b, forward), b.step, y);
    forall t | t >= wrap ensures OnOrbit(Ticks(Scan(m, forward), t), forward, b, t - wrap) {
      OrbitFrom(Scan(m, forward), forward, b, y, wrap, t);
    }
  }

  lemma OrbitFrom(r: Manager, forward: bool, b: Band, y: nat, wrap: nat, t: nat)
    requires ScanningAt(r, forward, b, y) && b.stations == {} && t >= wrap
    requires wrap == if y == 0 then 0 else Wrap(Size(b, forward), b.step, y)
    ensures OnOrbit(Ticks(r, t), forward, b, t - wrap)
  {
    TicksFollow(r, forward, b, y, t);
    AtPosition(Ticks(r, t), forward, b, Walk(Size(b, forward), b.step, y, t));
    if y == 0 {
      OrbitFromEdge(Size(b, forward), b.step, t);
    } else {
      OrbitRepeats(Size(b, forward), b.step, y, t - wrap);
    }
  }

  lemma OrbitFromEdge(size: int, step: nat, i: nat)
    requires step > 0
    ensures Walk(size, step, 0, i) == i % Wrap(size, step, 0) * step
  {
    var period := Wrap(size, step, 0);
    OrbitRepeats(size, step, 0, i);
    WalkWraps(size, step, 0);
    WalkAdds(size, step, 0, period, i);
  }
}
