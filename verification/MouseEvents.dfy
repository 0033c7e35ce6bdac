/** What a stream of touchscreen records announces, said without the steps of the reader: presses at
    the positions of its complete batches, and releases where the pen is lifted. */
module MouseEvents {
  import opened Options
  import opened Mouse

  // ---------------------------------------------------------------- the bytes of a record

  /** The lowest n bytes of a number, the lowest first. */
  function Little(v: nat, n: nat): (r: seq<byte>)
    ensures |r| == n
  {
    if n == 0 then [] else [(v % 0x100) as byte] + Little(v / 0x100, n - 1)
  }

  /** Eight bytes of time and two of type, which are not looked at; code and value. */
  function Encode(time: seq<byte>, kind: seq<byte>, r: Record): (bytes: seq<byte>)
    requires |time| == 8 && |kind| == 2
    ensures |bytes| == RECORD_SIZE
  {
    time + kind + Little(r.code, 2) + Little(r.value, 4)
  }

  lemma LittleTwo(v: nat)
    requires v < 0x1_0000
    ensures Little(v, 2)[0] as int + 0x100 * (Little(v, 2)[1] as int) == v
  {
    assert Little(v / 0x100, 1) == [(v / 0x100 % 0x100) as byte] + Little(v / 0x100 / 0x100, 0);
  }

  lemma LittleFour(v: nat)
    requires v < 0x1_0000_0000
    ensures var b := Little(v, 4);
            b[0] as int + 0x100 * (b[1] as int) + 0x1_0000 * (b[2] as int) + 0x100_0000 * (b[3] as int) == v
  {
    var low, high := v % 0x1_0000, v / 0x1_0000;
    var b, rest := Little(v, 4), Little(v / 0x100, 3);
    assert b[1..] == rest && rest[1..] == Little(v / 0x100 / 0x100, 2);
    assert b[1] == rest[0] && b[2] == rest[1] == rest[1..][0] && b[3] == rest[2] == rest[1..][1];
    assert v / 0x100 / 0x100 == high;
    LittleTwo(high);
  }

  /** Whatever time and type say, code and value come back. */
  lemma RecordRoundTrip(time: seq<byte>, kind: seq<byte>, r: Record)
    requires |time| == 8 && |kind| == 2 && r.code < 0x1_0000
    ensures ToRecord(Encode(time, kind, r)) == r
  {
    var b, c, v := Encode(time, kind, r), Little(r.code, 2), Little(r.value, 4);
    LittleTwo(r.code);
    LittleFour(r.value);
    assert b[10] == c[0] && b[11] == c[1] && b[12] == v[0] && b[13] == v[1] && b[14] == v[2] && b[15] == v[3];
  }

  /** A stream of such records, and what is behind it. */
  lemma StreamRoundTrip(time: seq<byte>, kind: seq<byte>, r: Record, bytes: seq<byte>)
    requires |time| == 8 && |kind| == 2 && r.code < 0x1_0000
    ensures Records(Encode(time, kind, r) + bytes) == [r] + Records(bytes)
    ensures Leftover(Encode(time, kind, r) + bytes) == Leftover(bytes)
  {
    var all := Encode(time, kind, r) + bytes;
    RecordRoundTrip(time, kind, r);
    assert all[..RECORD_SIZE] == Encode(time, kind, r) && all[RECORD_SIZE..] == bytes;
  }

  /** A value is read as a signed number. */
  lemma Signed(v: Word)
    ensures IsInt(ToInt(v)) && (ToInt(v) == v || ToInt(v) == v - 0x1_0000_0000)
  {
  }

  /** Halving goes towards zero. */
  lemma HalfTruncates(v: int)
    ensures v >= 0 ==> 0 <= v - 2 * Half(v) <= 1
    ensures v <= 0 ==> -1 <= v - 2 * Half(v) <= 0
  {
  }

  // ---------------------------------------------------------------- samples and positions

  /** The values of all records with this code. */
  function Values(rs: seq<Record>, code: nat): seq<int> {
    if rs == [] then []
    else
      var r := rs[|rs| - 1];
      Values(rs[..|rs| - 1], code) + if r.code == code then [ToInt(r.value)] else []
  }

  function Last(s: seq<int>, n: nat): seq<int> {
    if n <= |s| then s[|s| - n..] else s
  }

  /** What a record adds to the samples of one axis. */
  function New(r: Record, code: nat): seq<int> {
    if r.code == code then [ToInt(r.value)] else []
  }

  predicate Lifts(r: Record) {
    r.code == 24 && r.value == 0
  }

  /** The position of a batch on the screen: of each axis half the sum of the pair chosen out of as many
      samples as there are of both. */
  function Target(cal: Calibration, xs: seq<int>, ys: seq<int>): Point {
    var n := Min(|xs|, |ys|);
    cal.toScreen(Point(Average(xs[..n]), Average(ys[..n])))
  }

  predicate OnScreen(p: Point) {
    0 <= p.x <= 2000 && 0 <= p.y <= 2000
  }

  predicate Five(x: nat, y: nat) {
    x >= 5 && y >= 5
  }

  lemma SampleMeans(s: State, r: Record)
    requires Sample(s, r).Some?
    ensures Sample(s, r).value == s.(xs := s.xs + New(r, 0), ys := s.ys + New(r, 1))
  {
    assert s.xs + [] == s.xs && s.ys + [] == s.ys;
  }

  lemma FinishMeans(cal: Calibration, s: State, r: Record)
    ensures var t, full, p := Finish(cal, s, r), Five(|s.xs|, |s.ys|), Target(cal, s.xs, s.ys);
            && (if full || Lifts(r) then t.xs == t.ys == [] else t.xs == s.xs && t.ys == s.ys)
            && t.oldmouse == (if full then if OnScreen(p) then p else Point(0, 0) else s.oldmouse)
            && t.events == s.events + (if full && OnScreen(p) then [MouseChanged(p, true)] else [])
                                    + (if Lifts(r) then [MouseChanged(t.oldmouse, false)] else [])
  {
    assert s.events + [] == s.events;
  }

  /** One record. */
  lemma StepMeans(cal: Calibration, s: State, r: Record)
    requires Step(cal, s, r).Some?
    ensures var t, xs, ys := Step(cal, s, r).value, s.xs + New(r, 0), s.ys + New(r, 1);
            var full, p := Five(|xs|, |ys|), Target(cal, xs, ys);
            && (if full || Lifts(r) then t.xs == t.ys == [] else t.xs == xs && t.ys == ys)
            && t.oldmouse == (if full then if OnScreen(p) then p else Point(0, 0) else s.oldmouse)
            && t.events == s.events + (if full && OnScreen(p) then [MouseChanged(p, true)] else [])
                                    + (if Lifts(r) then [MouseChanged(t.oldmouse, false)] else [])
  {
    SampleMeans(s, r);
    FinishMeans(cal, Sample(s, r).value, r);
  }

  lemma RunLast(cal: Calibration, rs: seq<Record>)
    requires rs != [] && Run(cal, rs).Some?
    ensures Run(cal, rs[..|rs| - 1]).Some?
    ensures Step(cal, Run(cal, rs[..|rs| - 1]).value, rs[|rs| - 1]) == Run(cal, rs)
  {
  }

  /** The last record completes a batch: it is the fifth or a later one of its kind, and there are five
      of the other. */
  predicate Completes(rs: seq<Record>) {
    rs != [] && Five(Counted(rs, 0), Counted(rs, 1))
  }

  /** Records of one kind in the current batch, the last record included. */
  function Counted(rs: seq<Record>, code: nat): nat
    requires rs != []
  {
    var t := Counts(rs[..|rs| - 1]);
    (if code == 0 then t.x else t.y) + |New(rs[|rs| - 1], code)|
  }

  /** Their values. */
  function Batch(rs: seq<Record>, code: nat): seq<int>
    requires rs != []
  {
    Last(Values(rs, code), Counted(rs, code))
  }

  /** The samples of the current batch are the last of the stream, as many as have been counted. */
  ghost predicate Sampled(s: State, rs: seq<Record>) {
    && Counts(rs).x <= |Values(rs, 0)| && Counts(rs).y <= |Values(rs, 1)|
    && s.xs == Last(Values(rs, 0), Counts(rs).x)
    && s.ys == Last(Values(rs, 1), Counts(rs).y)
  }

  lemma BatchIs(s: State, rs: seq<Record>)
    requires rs != [] && Sampled(s, rs[..|rs| - 1])
    ensures Batch(rs, 0) == s.xs + New(rs[|rs| - 1], 0) && Counted(rs, 0) <= |Values(rs, 0)|
    ensures Batch(rs, 1) == s.ys + New(rs[|rs| - 1], 1) && Counted(rs, 1) <= |Values(rs, 1)|
  {
    var t := Counts(rs[..|rs| - 1]);
    BatchOf(rs, 0, t.x, s.xs);
    BatchOf(rs, 1, t.y, s.ys);
  }

  lemma BatchOf(rs: seq<Record>, code: nat, n: nat, samples: seq<int>)
    requires rs != [] && n <= |Values(rs[..|rs| - 1], code)| && samples == Last(Values(rs[..|rs| - 1], code), n)
    requires Counted(rs, code) == n + |New(rs[|rs| - 1], code)|
    ensures Batch(rs, code) == samples + New(rs[|rs| - 1], code) && Counted(rs, code) <= |Values(rs, code)|
  {
    BatchMore(rs, code, n);
  }

  lemma BatchMore(rs: seq<Record>, code: nat, n: nat)
    requires rs != [] && n <= |Values(rs[..|rs| - 1], code)|
    ensures var more := New(rs[|rs| - 1], code);
            n + |more| <= |Values(rs, code)|
            && Last(Values(rs, code), n + |more|) == Last(Values(rs[..|rs| - 1], code), n) + more
  {
    LastMore(Values(rs[..|rs| - 1], code), New(rs[|rs| - 1], code), n);
  }

  lemma LastMore(s: seq<int>, more: seq<int>, n: nat)
    requires n <= |s|
    ensures Last(s + more, n + |more|) == Last(s, n) + more
  {
  }

  lemma CountsAre(rs: seq<Record>)
    requires rs != []
    ensures Counts(rs) ==
            if Completes(rs) || Lifts(rs[|rs| - 1]) then Tally(0, 0) else Tally(Counted(rs, 0), Counted(rs, 1))
  {
  }

  lemma {:induction false} SamplesAre(cal: Calibration, rs: seq<Record>)
    requires Run(cal, rs).Some?
    ensures Sampled(Run(cal, rs).value, rs)
  {
    if rs == [] {
      assert Fold(Steps(cal), Some(START), []) == Some(START);
    } else {
      var prev, r := rs[..|rs| - 1], rs[|rs| - 1];
      RunLast(cal, rs);
      SamplesAre(cal, prev);
      var s := Run(cal, prev).value;
      BatchIs(s, rs);
      StepMeans(cal, s, r);
      CountsAre(rs);
    }
  }

  // ---------------------------------------------------------------- what is announced

  /** The position the reader is at: that of the last complete batch, if that is on the screen. */
  function At(cal: Calibration, rs: seq<Record>): Point {
    if rs == [] then Point(0, 0)
    else if Completes(rs) then
      var p := Target(cal, Batch(rs, 0), Batch(rs, 1));
      if OnScreen(p) then p else Point(0, 0)
    else At(cal, rs[..|rs| - 1])
  }

  /** The last record completes a batch with a position on the screen. */
  predicate Presses(cal: Calibration, rs: seq<Record>) {
    Completes(rs) && OnScreen(Target(cal, Batch(rs, 0), Batch(rs, 1)))
  }

  predicate Releases(rs: seq<Record>) {
    rs != [] && Lifts(rs[|rs| - 1])
  }

  function Announced(cal: Calibration, rs: seq<Record>): seq<Event> {
    if rs == [] then []
    else Announced(cal, rs[..|rs| - 1]) + (if Presses(cal, rs) then [MouseChanged(At(cal, rs), true)] else [])
                                        + (if Releases(rs) then [MouseChanged(At(cal, rs), false)] else [])
  }

  /** Over every stream: what is announced are the positions on the screen of its complete batches, as
      presses, and a release where the pen is lifted, at the position the reader is at; in this order,
      and nothing else. */
  lemma {:induction false} EventsAre(cal: Calibration, rs: seq<Record>)
    requires Run(cal, rs).Some?
    ensures Run(cal, rs).value.events == Announced(cal, rs) && Run(cal, rs).value.oldmouse == At(cal, rs)
  {
    if rs == [] {
      assert Fold(Steps(cal), Some(START), []) == Some(START);
    } else {
      var prev := rs[..|rs| - 1];
      RunLast(cal, rs);
      EventsAre(cal, prev);
      SamplesAre(cal, prev);
      EventsMore(cal, rs, Run(cal, prev).value);
    }
  }

  lemma EventsMore(cal: Calibration, rs: seq<Record>, s: State)
    requires rs != [] && Sampled(s, rs[..|rs| - 1]) && Step(cal, s, rs[|rs| - 1]).Some?
    requires s.events == Announced(cal, rs[..|rs| - 1]) && s.oldmouse == At(cal, rs[..|rs| - 1])
    ensures var t := Step(cal, s, rs[|rs| - 1]).value;
            t.events == Announced(cal, rs) && t.oldmouse == At(cal, rs)
  {
    BatchIs(s, rs);
    StepMeans(cal, s, rs[|rs| - 1]);
  }

  /** The positions of the events of one kind. */
  function Places(events: seq<Event>, pressed: bool): seq<Point> {
    if events == [] then []
    else
      var e := events[|events| - 1];
      Places(events[..|events| - 1], pressed) + if e.pressed == pressed then [e.at] else []
  }

  lemma PlacesAppend(a: seq<Event>, b: seq<Event>, pressed: bool)
    ensures Places(a + b, pressed) == Places(a, pressed) + Places(b, pressed)
  {
    if b == [] {
      assert a + b == a;
    } else {
      assert (a + b)[..|a + b| - 1] == a + b[..|b| - 1];
      PlacesAppend(a, b[..|b| - 1], pressed);
    }
  }

  /** Where the pen was lifted. */
  function Lifted(cal: Calibration, rs: seq<Record>): seq<Point> {
    if rs == [] then []
    else Lifted(cal, rs[..|rs| - 1]) + if Lifts(rs[|rs| - 1]) then [At(cal, rs)] else []
  }

  /** The positions of the complete batches that lie on the screen. */
  function Touched(cal: Calibration, rs: seq<Record>): seq<Point> {
    if rs == [] then []
    else
      Touched(cal, rs[..|rs| - 1]) + if Presses(cal, rs) then [Target(cal, Batch(rs, 0), Batch(rs, 1))] else []
  }

  lemma One(e: Event, pressed: bool)
    ensures Places([e], pressed) == if e.pressed == pressed then [e.at] else []
  {
    assert [e][..0] == [];
  }

  lemma TwoPlaces(events: seq<Event>, p: Point, press: bool, release: bool, pressed: bool)
    ensures Places(events + (if press then [MouseChanged(p, true)] else [])
                          + (if release then [MouseChanged(p, false)] else []), pressed) ==
            Places(events, pressed) + if if pressed then press else release then [p] else []
  {
    var first := if press then [MouseChanged(p, true)] else [];
    var second := if release then [MouseChanged(p, false)] else [];
    One(MouseChanged(p, true), pressed);
    One(MouseChanged(p, false), pressed);
    PlacesAppend(events + first, second, pressed);
    PlacesAppend(events, first, pressed);
  }

  /** Releases are one to one with the records that lift the pen, and presses with the complete batches
      on the screen, each in order. */
  lemma {:induction false} OneToOne(cal: Calibration, rs: seq<Record>)
    ensures Places(Announced(cal, rs), false) == Lifted(cal, rs)
    ensures Places(Announced(cal, rs), true) == Touched(cal, rs)
  {
    if rs != [] {
      var prev := rs[..|rs| - 1];
      OneToOne(cal, prev);
      TwoPlaces(Announced(cal, prev), At(cal, rs), Presses(cal, rs), Releases(rs), true);
      TwoPlaces(Announced(cal, prev), At(cal, rs), Presses(cal, rs), Releases(rs), false);
    }
  }

  /** The reader is at the last position announced as pressed, or at (0, 0). */
  lemma AtIs(cal: Calibration, rs: seq<Record>)
    ensures At(cal, rs) == Point(0, 0)
            || (Touched(cal, rs) != [] && At(cal, rs) == Touched(cal, rs)[|Touched(cal, rs)| - 1])
  {
    if rs != [] { AtIs(cal, rs[..|rs| - 1]); }
  }

  /** Nothing outside the screen is ever announced. */
  lemma {:induction false} OnlyOnScreen(cal: Calibration, rs: seq<Record>)
    ensures OnScreen(At(cal, rs)) && forall e :: e in Announced(cal, rs) ==> OnScreen(e.at)
  {
    if rs != [] { OnlyOnScreen(cal, rs[..|rs| - 1]); }
  }
}
