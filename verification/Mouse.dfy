/** The touchscreen event reader: what a stream of device bytes means.

    A record has 16 bytes.  Records carry one coordinate each; once there are five of both, the
    two closest samples of each axis are averaged into a position. */
module Mouse {
  import opened Options

  newtype byte = x: int | 0 <= x < 0x100

  const RECORD_SIZE := 16
  const TS_SAMPLES := 5
  const CAPACITY := TS_SAMPLES + 3
  const INT_MAX := 0x7FFF_FFFF
  const MOUSE_SAMPLE_MIN := 0
  const MOUSE_SAMPLE_MAX := 2000

  datatype Point = Point(x: int, y: int)
  /** The map from device to screen coordinates that calibration has set up. */
  datatype Calibration = Calibration(toScreen: Point -> Point)
  datatype Event = MouseChanged(at: Point, pressed: bool)

  /** `value` is unsigned, as the device sends it. */
  type Word = x: int | 0 <= x < 0x1_0000_0000

  datatype Record = Record(code: nat, value: Word)

  /** Samples of the current batch, the last position, and the events emitted so far. */
  datatype State = State(xs: seq<int>, ys: seq<int>, oldmouse: Point, events: seq<Event>)

  const START := State([], [], Point(0, 0), [])

  // ---------------------------------------------------------------- records

  /** Code and value, least significant byte first. */
  function ToRecord(b: seq<byte>): Record
    requires |b| == RECORD_SIZE
  {
    Record(b[10] as int + 0x100 * (b[11] as int),
           b[12] as int + 0x100 * (b[13] as int) + 0x1_0000 * (b[14] as int) + 0x100_0000 * (b[15] as int))
  }

  function Records(bytes: seq<byte>): seq<Record> {
    if |bytes| < RECORD_SIZE then [] else [ToRecord(bytes[..RECORD_SIZE])] + Records(bytes[RECORD_SIZE..])
  }

  /** The bytes behind the last whole record. */
  function Leftover(bytes: seq<byte>): (r: seq<byte>)
    ensures |r| < RECORD_SIZE && |r| <= |bytes| && r == bytes[|bytes| - |r|..]
  {
    if |bytes| < RECORD_SIZE then bytes else Leftover(bytes[RECORD_SIZE..])
  }

  lemma RecordsUnfold(bytes: seq<byte>, rest: seq<byte>)
    requires |bytes| >= RECORD_SIZE && rest == bytes[RECORD_SIZE..]
    ensures Records(bytes) == [ToRecord(bytes[..RECORD_SIZE])] + Records(rest) && Leftover(bytes) == Leftover(rest)
  {
  }

  lemma {:induction false} LeftoverAppend(a: seq<byte>, b: seq<byte>)
    ensures Leftover(a + b) == Leftover(Leftover(a) + b)
  {
    if |a| >= RECORD_SIZE {
      assert (a + b)[RECORD_SIZE..] == a[RECORD_SIZE..] + b;
      LeftoverAppend(a[RECORD_SIZE..], b);
    }
  }

  lemma RecordsCons(a: seq<byte>, b: seq<byte>, rest: seq<byte>)
    requires |a| >= RECORD_SIZE && rest == a[RECORD_SIZE..]
    ensures Records(a + b) == [ToRecord(a[..RECORD_SIZE])] + Records(rest + b)
  {
    assert (a + b)[RECORD_SIZE..] == rest + b;
    assert (a + b)[..RECORD_SIZE] == a[..RECORD_SIZE];
  }

  lemma Joined<T>(all: seq<T>, part: seq<T>, head: seq<T>, tail: seq<T>, more: seq<T>)
    requires all == head + (tail + more) && part == head + tail
    ensures all == part + more
  {
  }

  /** Reframing does not depend on where the stream is cut. */
  lemma {:induction false} RecordsAppend(a: seq<byte>, b: seq<byte>)
    ensures Records(a + b) == Records(a) + Records(Leftover(a) + b)
  {
    if |a| < RECORD_SIZE {
      assert Records(a) == [];
    } else {
      var rest := a[RECORD_SIZE..];
      RecordsAppend(rest, b);
      RecordsCons(a, b, rest);
      RecordsUnfold(a, rest);
      Joined(Records(a + b), Records(a), [ToRecord(a[..RECORD_SIZE])], Records(rest), Records(Leftover(rest) + b));
    }
  }

  // ---------------------------------------------------------------- the closest pair

  predicate IsInt(v: int) { -INT_MAX - 1 <= v <= INT_MAX }

  /** What a 32-bit integer holds instead of a sum or difference of two of them. */
  function Wrap(v: int): (r: int)
    ensures IsInt(v) ==> r == v
    ensures -0x1_0000_0000 <= v < 0x1_0000_0000 ==> IsInt(r)
  {
    if v > INT_MAX then v - 0x1_0000_0000 else if v < -INT_MAX - 1 then v + 0x1_0000_0000 else v
  }

  function Dist(s: seq<int>, i: nat, j: nat): nat
    requires i < |s| && j < |s|
  {
    if s[i] < s[j] then s[j] - s[i] else s[i] - s[j]
  }

  function Away(a: int, b: int): int {
    var d := Wrap(a - b);
    if d < 0 then Wrap(-d) else d
  }

  /** The distance as it is computed. */
  function Gap(s: seq<int>, i: nat, j: nat): int
    requires i < |s| && j < |s|
  {
    Away(s[i], s[j])
  }

  /** Beyond INT_MAX the distance goes round: it gets smaller again, and once even negative. */
  lemma GapValue(s: seq<int>, i: nat, j: nat)
    requires i < |s| && j < |s| && IsInt(s[i]) && IsInt(s[j])
    ensures Gap(s, i, j) ==
            if Dist(s, i, j) <= INT_MAX then Dist(s, i, j)
            else if Dist(s, i, j) == INT_MAX + 1 then -INT_MAX - 1
            else 0x1_0000_0000 - Dist(s, i, j)
  {
  }

  /** The best pair so far. */
  datatype Best = Best(min: int, first: nat, second: nat)

  ghost predicate Fits(s: seq<int>, b: Best) {
    b.min < INT_MAX ==> b.first < b.second < |s| && b.min == Gap(s, b.first, b.second)
  }

  function Better(s: seq<int>, b: Best, i: nat, j: nat): Best
    requires i < j < |s|
  {
    if b.min > Gap(s, i, j) then Best(Gap(s, i, j), i, j) else b
  }

  /** The search from pair (i, j) on: j runs faster. */
  function Search(s: seq<int>, i: nat, j: nat, b: Best): Best
    requires i < j <= |s|
    decreases |s| - i, |s| - j
  {
    if j < |s| then Search(s, i, j + 1, Better(s, b, i, j))
    else if i + 2 < |s| then Search(s, i + 1, i + 2, b)
    else b
  }

  function Closest(s: seq<int>): Best {
    if |s| < 2 then Best(INT_MAX, 0, 0) else Search(s, 0, 1, Best(INT_MAX, 0, 0))
  }

  predicate Before(a: nat, b: nat, i: nat, j: nat) {
    a < i || (a == i && b < j)
  }

  /** The pair found among all pairs before (i, j): the first of the closest. */
  ghost predicate FirstBefore(s: seq<int>, i: nat, j: nat, r: Best) {
    && Fits(s, r)
    && r.min <= INT_MAX
    && (r.min < INT_MAX ==> Before(r.first, r.second, i, j))
    && forall a, b :: 0 <= a < b < |s| && Before(a, b, i, j) ==>
         r.min <= Gap(s, a, b) && (r.min < INT_MAX && Before(a, b, r.first, r.second) ==> r.min < Gap(s, a, b))
  }

  /** The first pair with the least computed distance. */
  ghost predicate FirstLeast(s: seq<int>, i: nat, j: nat) {
    && i < j < |s|
    && forall a, b :: 0 <= a < b < |s| ==>
         Gap(s, i, j) <= Gap(s, a, b) && (Before(a, b, i, j) ==> Gap(s, i, j) < Gap(s, a, b))
  }

  /** The first closest pair. */
  ghost predicate FirstClosest(s: seq<int>, i: nat, j: nat) {
    && i < j < |s|
    && forall a, b :: 0 <= a < b < |s| ==>
         Dist(s, i, j) <= Dist(s, a, b) && (Before(a, b, i, j) ==> Dist(s, i, j) < Dist(s, a, b))
  }

  lemma {:induction false} SearchIsFirst(s: seq<int>, i: nat, j: nat, b: Best)
    requires i < j <= |s| && i + 1 < |s| && FirstBefore(s, i, j, b)
    ensures FirstBefore(s, |s|, |s|, Search(s, i, j, b))
    decreases |s| - i, |s| - j
  {
    if j < |s| {
      var c := Better(s, b, i, j);
      forall x, y | 0 <= x < y < |s| && Before(x, y, i, j + 1)
        ensures c.min <= Gap(s, x, y) && (c.min < INT_MAX && Before(x, y, c.first, c.second) ==> c.min < Gap(s, x, y))
      {
        assert Before(x, y, i, j) || (x == i && y == j);
      }
      SearchIsFirst(s, i, j + 1, c);
    } else if i + 2 < |s| {
      forall x, y | 0 <= x < y < |s| && Before(x, y, i + 1, i + 2) ensures Before(x, y, i, j) {}
      SearchIsFirst(s, i + 1, i + 2, b);
    } else {
      forall x, y | 0 <= x < y < |s| && Before(x, y, |s|, |s|) ensures Before(x, y, i, j) {}
    }
  }

  /** Among five 32-bit values two are less than INT_MAX apart, so the search always finds a pair and
      no index of an earlier batch is ever used. */
  lemma ClosestFound(s: seq<int>)
    requires |s| >= TS_SAMPLES && forall v :: v in s ==> IsInt(v)
    ensures var r := Closest(s); r.min < INT_MAX && FirstLeast(s, r.first, r.second)
  {
    SearchIsFirst(s, 0, 1, Best(INT_MAX, 0, 0));
    var r := Closest(s);
    var i, j := SomePairNear(s);
    GapValue(s, i, j);
    forall a, b | 0 <= a < b < |s| ensures r.min <= Gap(s, a, b) { assert Before(a, b, |s|, |s|); }
    forall a, b | 0 <= a < b < |s| && Before(a, b, r.first, r.second) ensures r.min < Gap(s, a, b) {
      assert Before(a, b, |s|, |s|);
    }
  }

  lemma SomePairNear(s: seq<int>) returns (i: nat, j: nat)
    requires |s| >= TS_SAMPLES && forall v :: v in s ==> IsInt(v)
    ensures i < j < |s| && IsInt(s[i]) && IsInt(s[j]) && Dist(s, i, j) < INT_MAX
  {
    // of five values three have the same sign, and of these two are close
    var k;
    i, j, k := SameSign(s);
    assert IsInt(s[i]) && IsInt(s[j]) && IsInt(s[k]);
    if Dist(s, i, j) >= INT_MAX {
      if Dist(s, j, k) < INT_MAX { i, j := j, k; } else { j := k; }
    }
  }

  /** There is only one first pair with the least computed distance. */
  lemma FirstLeastUnique(s: seq<int>, i: nat, j: nat, k: nat, l: nat)
    requires FirstLeast(s, i, j) && FirstLeast(s, k, l)
    ensures i == k && j == l
  {
    assert Before(i, j, k, l) || Before(k, l, i, j) || (i == k && j == l);
  }

  /** Every pair more than INT_MAX apart is computed as less close than (i, j), or as close but later. */
  ghost predicate NoneWrapsCloser(s: seq<int>, i: nat, j: nat)
    requires i < |s| && j < |s|
  {
    forall a, b :: 0 <= a < b < |s| && Dist(s, a, b) > INT_MAX ==>
      && Dist(s, a, b) != INT_MAX + 1
      && Dist(s, i, j) <= 0x1_0000_0000 - Dist(s, a, b)
      && (Dist(s, i, j) == 0x1_0000_0000 - Dist(s, a, b) ==> Before(i, j, a, b))
  }

  /** The search finds the first closest pair if and only if no pair wraps closer. */
  lemma ClosestIff(s: seq<int>, i: nat, j: nat)
    requires |s| >= TS_SAMPLES && (forall v :: v in s ==> IsInt(v)) && FirstClosest(s, i, j)
    ensures Closest(s).first == i && Closest(s).second == j <==> NoneWrapsCloser(s, i, j)
  {
    ClosestFound(s);
    var x, y := SomePairNear(s);
    assert Dist(s, i, j) <= Dist(s, x, y);
    if NoneWrapsCloser(s, i, j) {
      LeastOfNone(s, i, j);
      FirstLeastUnique(s, i, j, Closest(s).first, Closest(s).second);
    } else if Closest(s).first == i && Closest(s).second == j {
      NoneOfLeast(s, i, j);
    }
  }

  lemma LeastOfNone(s: seq<int>, i: nat, j: nat)
    requires (forall v :: v in s ==> IsInt(v)) && FirstClosest(s, i, j) && Dist(s, i, j) < INT_MAX &&
             NoneWrapsCloser(s, i, j)
    ensures FirstLeast(s, i, j)
  {
    GapValue(s, i, j);
    forall a, b | 0 <= a < b < |s|
      ensures Gap(s, i, j) <= Gap(s, a, b) && (Before(a, b, i, j) ==> Gap(s, i, j) < Gap(s, a, b))
    {
      GapValue(s, a, b);
    }
  }

  lemma NoneOfLeast(s: seq<int>, i: nat, j: nat)
    requires (forall v :: v in s ==> IsInt(v)) && FirstClosest(s, i, j) && Dist(s, i, j) < INT_MAX &&
             FirstLeast(s, i, j)
    ensures NoneWrapsCloser(s, i, j)
  {
    GapValue(s, i, j);
    forall a, b | 0 <= a < b < |s| && Dist(s, a, b) > INT_MAX
      ensures Dist(s, a, b) != INT_MAX + 1 && Dist(s, i, j) <= 0x1_0000_0000 - Dist(s, a, b)
      ensures Dist(s, i, j) == 0x1_0000_0000 - Dist(s, a, b) ==> Before(i, j, a, b)
    {
      GapValue(s, a, b);
      assert Gap(s, i, j) <= Gap(s, a, b);
      assert Before(a, b, i, j) ==> Gap(s, i, j) < Gap(s, a, b);
    }
  }

  /** No two samples are more than INT_MAX apart. */
  ghost predicate Spread(s: seq<int>) {
    forall a, b :: 0 <= a < b < |s| ==> Dist(s, a, b) <= INT_MAX
  }

  /** In particular the search finds the first closest pair of samples that lie within INT_MAX. */
  lemma SpreadClosest(s: seq<int>)
    requires |s| >= TS_SAMPLES && (forall v :: v in s ==> IsInt(v)) && Spread(s)
    ensures FirstClosest(s, Closest(s).first, Closest(s).second)
  {
    ClosestFound(s);
    var i, j := Closest(s).first, Closest(s).second;
    GapValue(s, i, j);
    forall a, b | 0 <= a < b < |s|
      ensures Dist(s, i, j) <= Dist(s, a, b) && (Before(a, b, i, j) ==> Dist(s, i, j) < Dist(s, a, b))
    {
      GapValue(s, a, b);
      assert Dist(s, a, b) <= INT_MAX && Dist(s, i, j) <= INT_MAX;
    }
  }

  /** Every batch has a first closest pair. */
  lemma FirstClosestExists(s: seq<int>) returns (i: nat, j: nat)
    requires |s| >= 2
    ensures FirstClosest(s, i, j)
  {
    i, j := 0, 1;
    var a, b := 0, 2;
    while a < |s| - 1
      invariant 0 <= a < |s| && a < b <= |s| && i < j < |s| && (a == |s| - 1 || i <= a)
      invariant a < |s| - 1 || b == |s|
      invariant forall x, y :: 0 <= x < y < |s| && Before(x, y, a, b) ==>
        Dist(s, i, j) <= Dist(s, x, y) && (Before(x, y, i, j) ==> Dist(s, i, j) < Dist(s, x, y))
      invariant Before(i, j, a, b)
      decreases |s| - a, |s| - b
    {
      if b < |s| {
        ghost var k, l := i, j;
        if Dist(s, a, b) < Dist(s, i, j) { i, j := a, b; }
        forall x, y | 0 <= x < y < |s| && Before(x, y, a, b + 1)
          ensures Dist(s, i, j) <= Dist(s, x, y) && (Before(x, y, i, j) ==> Dist(s, i, j) < Dist(s, x, y))
        {
          assert Before(x, y, a, b) || (x == a && y == b);
        }
        b := b + 1;
      } else {
        forall x, y | 0 <= x < y < |s| && Before(x, y, a + 1, a + 2) ensures Before(x, y, a, b) {}
        a, b := a + 1, if a + 2 < |s| then a + 2 else |s|;
      }
    }
    forall x, y | 0 <= x < y < |s| ensures Before(x, y, a, b) {}
  }

  /** A batch on which the search takes a pair that is all but the farthest apart. */
  lemma FarthestChosen()
    ensures var s := [INT_MAX, -1, 0, 10, 20];
            && FirstClosest(s, 1, 2) && Closest(s) == Best(-INT_MAX - 1, 0, 1)
            && Dist(s, 0, 1) == INT_MAX + 1 && Average(s) == 1073741823
  {
    var s := [INT_MAX, -1, 0, 10, 20];
    ClosestFound(s);
    SearchIsFirst(s, 0, 1, Best(INT_MAX, 0, 0));
    assert s[0] - s[1] == INT_MAX + 1;
    GapValue(s, 0, 1);
    assert FirstLeast(s, 0, 1);
    FirstLeastUnique(s, 0, 1, Closest(s).first, Closest(s).second);
    assert s[0] + s[1] == INT_MAX - 1;
  }

  lemma SameSign(s: seq<int>) returns (i: nat, j: nat, k: nat)
    requires |s| >= TS_SAMPLES
    ensures i < j < k < |s| && (s[i] < 0 <==> s[j] < 0) && (s[j] < 0 <==> s[k] < 0)
  {
    if (s[0] < 0) == (s[1] < 0) {
      i, j := 0, 1;
      k := if (s[2] < 0) == (s[0] < 0) then 2 else if (s[3] < 0) == (s[0] < 0) then 3 else 4;
      if (s[k] < 0) != (s[0] < 0) { i, j, k := 2, 3, 4; }
    } else {
      // two of the last three agree, and with one of the first two
      i := if (s[2] < 0) == (s[3] < 0) || (s[2] < 0) == (s[4] < 0) then 2 else 3;
      k := if i == 2 && (s[2] < 0) == (s[3] < 0) then 3 else 4;
      j := i;
      i := if (s[0] < 0) == (s[j] < 0) then 0 else 1;
    }
  }

  // ---------------------------------------------------------------- one record

  function ToInt(value: Word): int {
    if value > INT_MAX then value - 0x1_0000_0000 else value
  }

  /** Halving as the hardware does it, towards zero. */
  function Half(v: int): int {
    if v < 0 then -(-v / 2) else v / 2
  }

  function Average(s: seq<int>): int {
    var r := Closest(s);
    if r.first < |s| && r.second < |s| then Half(Wrap(s[r.first] + s[r.second])) else 0
  }

  function Min(a: nat, b: nat): nat { if a < b then a else b }

  predicate BatchFull(s: State) {
    |s.xs| >= TS_SAMPLES && |s.ys| >= TS_SAMPLES
  }

  /** A coordinate goes to the end of its samples; there is no room for a ninth. */
  function Sample(s: State, r: Record): Option<State> {
    if r.code == 0 then (if |s.xs| < CAPACITY then Some(s.(xs := s.xs + [ToInt(r.value)])) else None)
    else if r.code == 1 then (if |s.ys| < CAPACITY then Some(s.(ys := s.ys + [ToInt(r.value)])) else None)
    else Some(s)
  }

  predicate InRange(p: Point) {
    MOUSE_SAMPLE_MIN <= p.x <= MOUSE_SAMPLE_MAX && MOUSE_SAMPLE_MIN <= p.y <= MOUSE_SAMPLE_MAX
  }

  function Position(s: State): Point {
    var n := Min(|s.xs|, |s.ys|);
    Point(Average(s.xs[..n]), Average(s.ys[..n]))
  }

  function EndBatch(cal: Calibration, s: State): State {
    var p := cal.toScreen(Position(s));
    if InRange(p) then State([], [], p, s.events + [MouseChanged(p, true)])
    else State([], [], Point(0, 0), s.events)
  }

  function PenUp(s: State, r: Record): State {
    if r.code == 24 && r.value == 0 then State([], [], s.oldmouse, s.events + [MouseChanged(s.oldmouse, false)]) else s
  }

  function Finish(cal: Calibration, s: State, r: Record): State {
    PenUp(if BatchFull(s) then EndBatch(cal, s) else s, r)
  }

  /** One record; None when it would be stored outside the sample arrays. */
  function Step(cal: Calibration, s: State, r: Record): Option<State> {
    match Sample(s, r)
    case None => None
    case Some(t) => Some(Finish(cal, t, r))
  }

  /** A list taken in by repeated steps. */
  function Fold<S, R>(step: (S, R) -> S, s: S, rs: seq<R>): S {
    if rs == [] then s else step(Fold(step, s, rs[..|rs| - 1]), rs[|rs| - 1])
  }

  lemma {:induction false} FoldAppend<S, R>(step: (S, R) -> S, s: S, a: seq<R>, b: seq<R>)
    ensures Fold(step, s, a + b) == Fold(step, Fold(step, s, a), b)
  {
    if b == [] {
      assert a + b == a;
    } else {
      FoldAppend(step, s, a, b[..|b| - 1]);
      assert (a + b)[..|a + b| - 1] == a + b[..|b| - 1];
    }
  }

  /** Nothing follows an access outside the arrays. */
  function Then(cal: Calibration, s: Option<State>, r: Record): Option<State> {
    match s
    case None => None
    case Some(t) => Step(cal, t, r)
  }

  function Steps(cal: Calibration): (Option<State>, Record) -> Option<State> {
    (s, r) => Then(cal, s, r)
  }

  function Resume(cal: Calibration, s: Option<State>, rs: seq<Record>): Option<State> {
    Fold(Steps(cal), s, rs)
  }

  function Run(cal: Calibration, rs: seq<Record>): Option<State> {
    Resume(cal, Some(START), rs)
  }

  // ---------------------------------------------------------------- the meaning of a stream

  /** State and buffered bytes after a stream, however it was read. */
  datatype Reader = Reader(state: Option<State>, buffer: seq<byte>)

  function Whole(cal: Calibration, bytes: seq<byte>): Reader {
    Reader(Run(cal, Records(bytes)), Leftover(bytes))
  }

  /** One call of read: the new bytes are put behind the buffered ones. */
  function Pass(cal: Calibration, r: Reader, chunk: seq<byte>): Reader {
    Reader(Resume(cal, r.state, Records(r.buffer + chunk)), Leftover(r.buffer + chunk))
  }

  function PassAll(cal: Calibration, chunks: seq<seq<byte>>): Reader {
    if chunks == [] then Reader(Some(START), [])
    else Pass(cal, PassAll(cal, chunks[..|chunks| - 1]), chunks[|chunks| - 1])
  }

  function Concat(chunks: seq<seq<byte>>): seq<byte> {
    if chunks == [] then [] else Concat(chunks[..|chunks| - 1]) + chunks[|chunks| - 1]
  }

  lemma PassWhole(cal: Calibration, bytes: seq<byte>, chunk: seq<byte>)
    ensures Pass(cal, Whole(cal, bytes), chunk) == Whole(cal, bytes + chunk)
  {
    RecordsAppend(bytes, chunk);
    LeftoverAppend(bytes, chunk);
    FoldAppend(Steps(cal), Some(START), Records(bytes), Records(Leftover(bytes) + chunk));
  }

  /** The samples, the positions and the events depend on the bytes, not on how read cut them. */
  lemma {:induction false} CutsDoNotMatter(cal: Calibration, chunks: seq<seq<byte>>)
    ensures PassAll(cal, chunks) == Whole(cal, Concat(chunks))
  {
    if chunks != [] {
      CutsDoNotMatter(cal, chunks[..|chunks| - 1]);
      PassWhole(cal, Concat(chunks[..|chunks| - 1]), chunks[|chunks| - 1]);
    }
  }

  // ---------------------------------------------------------------- staying inside the arrays

  /** Number of x and y records in the current batch. */
  datatype Tally = Tally(x: nat, y: nat)

  function Count(t: Tally, r: Record): Tally {
    var u := if r.code == 0 then t.(x := t.x + 1) else if r.code == 1 then t.(y := t.y + 1) else t;
    if (u.x >= TS_SAMPLES && u.y >= TS_SAMPLES) || (r.code == 24 && r.value == 0) then Tally(0, 0) else u
  }

  function Counts(rs: seq<Record>): Tally {
    if rs == [] then Tally(0, 0) else Count(Counts(rs[..|rs| - 1]), rs[|rs| - 1])
  }

  predicate AtMostEight(t: Tally) {
    t.x <= CAPACITY && t.y <= CAPACITY
  }

  /** At no time has a batch more than eight records of a kind. */
  predicate NeverNine(rs: seq<Record>) {
    AtMostEight(Counts(rs)) && (rs != [] ==> NeverNine(rs[..|rs| - 1]))
  }

  /** Exactly when every access stays inside the sample arrays: no batch has nine of a kind. */
  lemma {:induction false} InBoundsIff(cal: Calibration, rs: seq<Record>)
    ensures Run(cal, rs).Some? <==> NeverNine(rs)
    ensures Run(cal, rs).Some? ==>
              |Run(cal, rs).value.xs| == Counts(rs).x && |Run(cal, rs).value.ys| == Counts(rs).y
  {
    if rs != [] {
      InBoundsIff(cal, rs[..|rs| - 1]);
    }
  }

  /** A finger that moves along the x axis only. */
  function OnlyX(n: nat): seq<Record> {
    if n == 0 then [] else OnlyX(n - 1) + [Record(0, 100)]
  }

  lemma {:induction false} OnlyXCounts(n: nat)
    ensures Counts(OnlyX(n)) == Tally(n, 0) && (NeverNine(OnlyX(n)) <==> n <= CAPACITY)
  {
    if n > 0 {
      OnlyXCounts(n - 1);
      assert OnlyX(n)[..|OnlyX(n)| - 1] == OnlyX(n - 1);
    }
  }

  /** Eight x records without a y record are stored; the ninth would be behind the end of sx. */
  lemma NinthIsOutside(cal: Calibration)
    ensures Run(cal, OnlyX(CAPACITY)).Some? && Run(cal, OnlyX(CAPACITY + 1)).None?
  {
    OnlyXCounts(CAPACITY);
    OnlyXCounts(CAPACITY + 1);
    InBoundsIff(cal, OnlyX(CAPACITY));
    InBoundsIff(cal, OnlyX(CAPACITY + 1));
  }

  /** The numbers of x and y records in a batch never get more than four apart. */
  predicate Balanced(rs: seq<Record>) {
    -4 <= Counts(rs).x - Counts(rs).y <= 4 && (rs != [] ==> Balanced(rs[..|rs| - 1]))
  }

  /** A balanced device is safe. */
  lemma {:induction false} BalancedIsSafe(cal: Calibration, rs: seq<Record>)
    requires Balanced(rs)
    ensures Run(cal, rs).Some?
  {
    BalancedNeverNine(rs);
    InBoundsIff(cal, rs);
  }

  lemma BalancedNeverNine(rs: seq<Record>)
    requires Balanced(rs)
    ensures NeverNine(rs)
  {
    OneBelowFive(rs);
    if rs != [] { BalancedNeverNine(rs[..|rs| - 1]); }
  }

  lemma OneBelowFive(rs: seq<Record>)
    ensures Counts(rs).x < TS_SAMPLES || Counts(rs).y < TS_SAMPLES
  {
    if rs != [] { OneBelowFive(rs[..|rs| - 1]); }
  }

  // ---------------------------------------------------------------- positions

  ghost predicate Ints(s: State) {
    (forall v :: v in s.xs ==> IsInt(v)) && forall v :: v in s.ys ==> IsInt(v)
  }

  lemma RunInts(cal: Calibration, rs: seq<Record>)
    ensures Run(cal, rs).Some? ==> Ints(Run(cal, rs).value)
  {
    if rs != [] { RunInts(cal, rs[..|rs| - 1]); }
  }

  /** Each coordinate of a position is half the 32-bit sum of the first pair with the least computed
      distance. */
  lemma PositionIsLeast(s: State) returns (i: nat, j: nat, k: nat, l: nat)
    requires BatchFull(s) && Ints(s)
    ensures var n := Min(|s.xs|, |s.ys|);
            && FirstLeast(s.xs[..n], i, j) && FirstLeast(s.ys[..n], k, l)
            && Position(s) == Point(Half(Wrap(s.xs[i] + s.xs[j])), Half(Wrap(s.ys[k] + s.ys[l])))
  {
    var n := Min(|s.xs|, |s.ys|);
    ClosestFound(s.xs[..n]);
    ClosestFound(s.ys[..n]);
    i, j := Closest(s.xs[..n]).first, Closest(s.xs[..n]).second;
    k, l := Closest(s.ys[..n]).first, Closest(s.ys[..n]).second;
  }

  /** The sum of two samples is computed right if and only if it is a 32-bit integer. */
  lemma SumIff(a: int, b: int)
    requires IsInt(a) && IsInt(b)
    ensures Half(Wrap(a + b)) == Half(a + b) <==> IsInt(a + b)
  {
  }

  /** Each coordinate of a position is half the sum of the first closest pair of the batch, if the
      samples of each axis are at most INT_MAX apart and the sums do not overflow. */
  lemma PositionIsClosest(s: State) returns (i: nat, j: nat, k: nat, l: nat)
    requires BatchFull(s) && Ints(s)
    requires var n := Min(|s.xs|, |s.ys|); Spread(s.xs[..n]) && Spread(s.ys[..n])
    ensures var n := Min(|s.xs|, |s.ys|);
            && FirstClosest(s.xs[..n], i, j) && FirstClosest(s.ys[..n], k, l)
            && (Position(s) == Point(Half(s.xs[i] + s.xs[j]), Half(s.ys[k] + s.ys[l])) <==>
                IsInt(s.xs[i] + s.xs[j]) && IsInt(s.ys[k] + s.ys[l]))
  {
    var n := Min(|s.xs|, |s.ys|);
    i, j, k, l := PositionIsLeast(s);
    SpreadClosest(s.xs[..n]);
    SpreadClosest(s.ys[..n]);
    ClosestFound(s.xs[..n]);
    ClosestFound(s.ys[..n]);
    FirstLeastUnique(s.xs[..n], i, j, Closest(s.xs[..n]).first, Closest(s.xs[..n]).second);
    FirstLeastUnique(s.ys[..n], k, l, Closest(s.ys[..n]).first, Closest(s.ys[..n]).second);
    SumIff(s.xs[i], s.xs[j]);
    SumIff(s.ys[k], s.ys[l]);
  }

  /** There is only one first closest pair. */
  lemma FirstClosestUnique(s: seq<int>, i: nat, j: nat, k: nat, l: nat)
    requires FirstClosest(s, i, j) && FirstClosest(s, k, l)
    ensures i == k && j == l
  {
    assert Before(i, j, k, l) || Before(k, l, i, j) || (i == k && j == l);
  }
}
