/** The radio manager and its bands, as a transformer of values, and what every run keeps: exactly
    the current band is active, and every frequency handed to a band lies inside it. */
module Radio {
  import opened RadioTuner

  /** `stations` are the frequencies at which the band reports a signal.  A band over tuner hardware
      rounds what it is given to its step, a dummy band does not. */
  datatype Band = Band(low: nat, high: nat, step: nat, offStep: nat, normalises: bool, stations: set<nat>,
                       frequency: nat, active: bool)

  predicate Proper(b: Band) {
    b.low <= b.high && 0 < b.step <= b.offStep
  }

  predicate Signal(b: Band) {
    b.frequency in b.stations
  }

  predicate Covers(b: Band, frequency: nat) {
    b.low <= frequency <= b.high
  }

  /** What the band makes of a frequency it is given. */
  function Rounded(b: Band, value: nat): nat
    requires b.step > 0
  {
    if b.normalises then Normalise(value, b.step) else value
  }

  function Store(b: Band, value: nat): Band
    requires b.step > 0
  {
    b.(frequency := Rounded(b, value))
  }

  /** The stored frequency lies between what the ends of the band are rounded to. */
  predicate Within(b: Band) {
    && b.step > 0
    && Rounded(b, b.low) <= b.frequency <= Rounded(b, b.high)
    && (b.normalises ==> b.frequency % b.step == 0)
  }

  lemma StoreWithin(b: Band, value: nat)
    requires Proper(b) && Covers(b, value)
    ensures Within(Store(b, value))
  {
    if b.normalises {
      NormaliseLands(value, b.step);
      NormaliseMonotone(b.low, value, b.step);
      NormaliseMonotone(value, b.high, b.step);
    }
  }

  /** How far the stored frequency may be outside of the band. */
  function Slack(b: Band): nat {
    if b.normalises then (b.step + 1) / 2 else 0
  }

  lemma WithinSlack(b: Band)
    requires Proper(b) && Within(b)
    ensures b.low - Slack(b) <= b.frequency <= b.high + Slack(b)
    ensures Slack(b) <= b.step
  {
    NormaliseLands(b.low, b.step);
    NormaliseLands(b.high, b.step);
  }

  /** The next position of a scan. */
  function Next(b: Band, forward: bool): nat {
    var step := if Signal(b) then b.offStep else b.step;
    if forward then
      if b.frequency + step > b.high then b.low else b.frequency + step
    else if b.frequency - step < b.low then b.high else b.frequency - step
  }

  lemma NextCovered(b: Band, forward: bool)
    requires Proper(b) && Within(b)
    ensures Covers(b, Next(b, forward))
  {
    WithinSlack(b);
  }

  /** The target of a step by hand, which starts from the multiple of the step just below. */
  function Target(b: Band, forward: bool): nat
    requires b.step > 0
  {
    var base := b.frequency - b.frequency % b.step;
    if forward then
      if base + b.step > b.high then b.low else base + b.step
    else if base - b.step < b.low then b.high else base - b.step
  }

  lemma TargetCovered(b: Band, forward: bool)
    requires Proper(b) && Within(b)
    ensures Covers(b, Target(b, forward))
  {
    WithinSlack(b);
  }

  predicate OnGrid(x: nat, step: nat)
    requires step > 0
  {
    x % step == 0
  }

  /** A grid point to which a step by hand can go: above the frequency, or at least one step below it. */
  predicate InReach(b: Band, forward: bool, x: nat)
    requires b.step > 0
  {
    OnGrid(x, b.step) && if forward then b.frequency < x else x + b.step <= b.frequency
  }

  /** A step by hand goes to the nearest such grid point; if that is not in the band, to the end that
      steps wrap to. */
  lemma TargetNearest(b: Band, forward: bool)
    requires b.step > 0
    ensures var t := Target(b, forward);
            || (InReach(b, forward, t) && (if forward then t <= b.high else b.low <= t)
                && forall x: nat :: InReach(b, forward, x) ==> if forward then t <= x else x <= t)
            || (t == (if forward then b.low else b.high)
                && forall x: nat :: InReach(b, forward, x) ==> if forward then b.high < x else x < b.low)
  {
    var p, r := b.frequency / b.step, b.frequency % b.step;
    assert b.frequency == p * b.step + r;
    var near := if forward then p + 1 else p - 1;
    assert near * b.step == if forward then p * b.step + b.step else p * b.step - b.step;
    if near >= 0 { MultipleHasNoRest(near, b.step); }
    forall x: nat | InReach(b, forward, x)
      ensures if forward then near * b.step <= x else near >= 0 && x <= near * b.step
    {
      InReachBound(b, forward, x, p, r);
    }
  }

  lemma InReachBound(b: Band, forward: bool, x: nat, p: nat, r: nat)
    requires b.step > 0 && InReach(b, forward, x) && b.frequency == p * b.step + r && r < b.step
    ensures if forward then p * b.step + b.step <= x else x <= p * b.step - b.step
  {
    var q := x / b.step;
    assert x == q * b.step;
    assert (p + 1) * b.step == p * b.step + b.step && (q + 2) * b.step == x + b.step + b.step;
    if forward {
      if q <= p { FactorOrder(q, p, b.step); } else { FactorOrder(p + 1, q, b.step); }
    } else {
      assert (q + 1) * b.step == x + b.step;
      if q + 1 <= p { FactorOrder(q + 1, p, b.step); } else { FactorOrder(p + 1, q + 1, b.step); }
    }
  }

  // ---------------------------------------------------------------- the manager

  datatype Event = Started | Stopped | Progress(frequency: nat, band: int) | Found(frequency: nat, band: int)

  /** The event log holds the signals emitted; `handed` the frequencies that bands were given. */
  datatype Handed = Handed(frequency: nat, band: int)

  datatype Manager = Manager(bands: seq<Band>, current: int, scanning: bool, forward: bool, all: bool, timer: bool,
                             events: seq<Event>, handed: seq<Handed>)

  predicate HasBand(m: Manager) {
    0 <= m.current < |m.bands|
  }

  ghost predicate Usable(m: Manager) {
    forall i :: 0 <= i < |m.bands| ==> m.bands[i].step > 0
  }

  function Current(m: Manager): Band
    requires HasBand(m)
  {
    m.bands[m.current]
  }

  function Activate(bands: seq<Band>, i: nat, value: bool): seq<Band>
    requires i < |bands|
  {
    bands[i := bands[i].(active := value)]
  }

  /** A manager over bands none of which is active yet. */
  function Create(bands: seq<Band>): Manager {
    if bands == [] then Manager(bands, -1, false, false, false, false, [], [])
    else Manager(Activate(bands, 0, true), 0, false, false, false, false, [], [])
  }

  function SetBand(m: Manager, value: int): Manager
    requires m.bands == [] || HasBand(m)
  {
    if value < 0 || value >= |m.bands| || m.current == value then m
    else m.(bands := Activate(Activate(m.bands, m.current, false), value, true), current := value)
  }

  function Tune(m: Manager, i: nat, value: nat): Manager
    requires i < |m.bands| && m.bands[i].step > 0
  {
    m.(bands := m.bands[i := Store(m.bands[i], value)], handed := m.handed + [Handed(value, i)])
  }

  function NextScan(m: Manager): Manager
    requires HasBand(m) && Usable(m)
  {
    var frequency := Next(Current(m), m.forward);
    Tune(m, m.current, frequency).(events := m.events + [Progress(frequency, m.current)])
  }

  function StopScan(m: Manager): Manager {
    if m.scanning then m.(scanning := false, timer := false, events := m.events + [Stopped]) else m
  }

  function StartScan(m: Manager, forward: bool, all: bool): Manager
    requires Usable(m)
  {
    if !HasBand(m) then m
    else
      var s := StopScan(m);
      NextScan(s.(forward := forward, all := all, scanning := true, events := s.events + [Started])).(timer := true)
  }

  function ScanAll(m: Manager): Manager
    requires Usable(m)
  {
    var s := StopScan(m);
    var t := if HasBand(s) && Signal(Current(s)) then
               s.(events := s.events + [Progress(Current(s).frequency, s.current),
                                        Found(Current(s).frequency, s.current)])
             else s;
    StartScan(t, true, true)
  }

  function ScanTimeout(m: Manager): Manager
    requires HasBand(m) && Usable(m)
  {
    if Signal(Current(m)) then
      var f := m.(events := m.events + [Found(Current(m).frequency, m.current)]);
      if m.all then NextScan(f)
      else f.(scanning := false, timer := false, events := f.events + [Stopped])
    else NextScan(m)
  }

  function BandFrom(bands: seq<Band>, frequency: nat): (r: int)
    ensures -1 <= r < |bands|
    ensures r >= 0 ==> Covers(bands[r], frequency)
    ensures forall i :: 0 <= i < (if r < 0 then |bands| else r) ==> !Covers(bands[i], frequency)
  {
    if bands == [] then -1
    else
      var r := BandFrom(bands[..|bands| - 1], frequency);
      if r >= 0 then r else if Covers(bands[|bands| - 1], frequency) then |bands| - 1 else -1
  }

  /** As the code does it: on a change of band the old band stays active, and the frequency is
      stored as the number of the band. */
  function SetFrequency(m: Manager, value: nat): Manager
    requires Usable(m)
  {
    var band := BandFrom(m.bands, value);
    if band < 0 then m
    else if band != m.current then Tune(m.(bands := Activate(m.bands, band, true), current := value), band, value)
    else Tune(m, band, value)
  }

  function Step(m: Manager, forward: bool): Manager
    requires Usable(m)
  {
    if HasBand(m) then SetFrequency(m, Target(Current(m), forward)) else m
  }

  // ---------------------------------------------------------------- runs

  datatype Op = SetBandOp(value: int) | StepOp(forward: bool) | ScanOp(forward: bool) | ScanAllOp | StopOp | Timeout

  function Apply(m: Manager, op: Op): Manager
    requires Inv(m)
  {
    match op
    case SetBandOp(value) => SetBand(m, value)
    case StepOp(forward) => Step(m, forward)
    case ScanOp(forward) => StartScan(m, forward, false)
    case ScanAllOp => ScanAll(m)
    case StopOp => StopScan(m)
    case Timeout => if m.timer then ScanTimeout(m) else m
  }

  function Run(bands: seq<Band>, ops: seq<Op>): (m: Manager)
    requires Fresh(bands)
    ensures Inv(m) && SameBands(bands, m.bands)
  {
    if ops == [] then
      CreateInv(bands);
      Create(bands)
    else
      var prev := Run(bands, ops[..|ops| - 1]);
      ApplyInv(prev, ops[|ops| - 1]);
      Apply(prev, ops[|ops| - 1])
  }

  // ---------------------------------------------------------------- what every run keeps

  /** No frequency is on two bands. */
  ghost predicate Disjoint(bands: seq<Band>) {
    forall i, j :: 0 <= i < j < |bands| ==> bands[i].high < bands[j].low || bands[j].high < bands[i].low
  }

  ghost predicate OneActive(m: Manager) {
    && (m.bands == [] ==> m.current == -1)
    && (m.bands != [] ==> HasBand(m))
    && forall i :: 0 <= i < |m.bands| ==> (m.bands[i].active <==> i == m.current)
  }

  ghost predicate Sound(bands: seq<Band>) {
    forall i :: 0 <= i < |bands| ==> Proper(bands[i]) && Within(bands[i])
  }

  /** Whatever a band was given lies in the band. */
  ghost predicate HandedInside(m: Manager) {
    forall k :: 0 <= k < |m.handed| ==>
      0 <= m.handed[k].band < |m.bands| && Covers(m.bands[m.handed[k].band], m.handed[k].frequency)
  }

  /** Each scan that was announced is over, except perhaps the last one. */
  function Pending(events: seq<Event>): int {
    if events == [] then 0
    else Pending(events[..|events| - 1]) + (match events[|events| - 1] case Started => 1 case Stopped => -1 case _ => 0)
  }

  ghost predicate Announced(m: Manager) {
    && m.scanning == m.timer
    && (m.scanning ==> HasBand(m))
    && Pending(m.events) == if m.scanning then 1 else 0
  }

  ghost predicate Inv(m: Manager) {
    Disjoint(m.bands) && Sound(m.bands) && OneActive(m) && HandedInside(m) && Announced(m)
  }

  ghost predicate Fresh(bands: seq<Band>) {
    Disjoint(bands) && Sound(bands) && forall i :: 0 <= i < |bands| ==> !bands[i].active
  }

  ghost predicate SameBand(a: Band, b: Band) {
    b == a.(frequency := b.frequency, active := b.active)
  }

  ghost predicate SameBands(a: seq<Band>, b: seq<Band>) {
    |a| == |b| && forall i :: 0 <= i < |a| ==> SameBand(a[i], b[i])
  }

  lemma CreateInv(bands: seq<Band>)
    requires Fresh(bands)
    ensures Inv(Create(bands)) && SameBands(bands, Create(bands).bands)
  {
  }

  lemma PendingMore(events: seq<Event>, e: Event)
    ensures Pending(events + [e]) == Pending(events) + (match e case Started => 1 case Stopped => -1 case _ => 0)
  {
    assert (events + [e])[..|events|] == events;
  }

  lemma BandIsCurrent(m: Manager, frequency: nat)
    requires Disjoint(m.bands) && HasBand(m) && Covers(Current(m), frequency)
    ensures BandFrom(m.bands, frequency) == m.current
  {
  }

  lemma TuneInv(m: Manager, value: nat)
    requires Inv(m) && HasBand(m) && Covers(Current(m), value)
    ensures Inv(Tune(m, m.current, value)) && SameBands(m.bands, Tune(m, m.current, value).bands)
  {
    StoreWithin(Current(m), value);
  }

  lemma SetBandInv(m: Manager, value: int)
    requires Inv(m)
    ensures Inv(SetBand(m, value)) && SameBands(m.bands, SetBand(m, value).bands)
  {
    var r := SetBand(m, value);
    assert OneActive(r);
    ActivationInv(m, r);
  }

  lemma ActivationInv(m: Manager, r: Manager)
    requires Inv(m) && OneActive(r) && |r.bands| == |m.bands| && r == m.(bands := r.bands, current := r.current)
    requires forall i :: 0 <= i < |m.bands| ==> r.bands[i] == m.bands[i].(active := r.bands[i].active)
    ensures Inv(r) && SameBands(m.bands, r.bands)
  {
    assert HandedInside(r) by {
      forall k | 0 <= k < |r.handed|
        ensures 0 <= r.handed[k].band < |r.bands| && Covers(r.bands[r.handed[k].band], r.handed[k].frequency)
      {
        assert Covers(m.bands[m.handed[k].band], m.handed[k].frequency);
      }
    }
    assert Sound(r.bands) by {
      forall i | 0 <= i < |r.bands| ensures Proper(r.bands[i]) && Within(r.bands[i]) {
        assert Proper(m.bands[i]) && Within(m.bands[i]);
      }
    }
    assert Disjoint(r.bands);
    assert Announced(r);
  }

  /** A step stays on the current band. */
  lemma StepInv(m: Manager, forward: bool)
    requires Inv(m)
    ensures Inv(Step(m, forward)) && SameBands(m.bands, Step(m, forward).bands) && Step(m, forward).current == m.current
  {
    if HasBand(m) {
      assert Proper(Current(m)) && Within(Current(m));
      TargetCovered(Current(m), forward);
      BandIsCurrent(m, Target(Current(m), forward));
      TuneInv(m, Target(Current(m), forward));
    }
  }

  lemma EventsInv(m: Manager, r: Manager)
    requires Inv(m) && Announced(r)
    requires r == m.(scanning := r.scanning, forward := r.forward, all := r.all, timer := r.timer, events := r.events)
    ensures Inv(r) && SameBands(m.bands, r.bands)
  {
  }

  lemma NextScanInv(m: Manager)
    requires Inv(m) && HasBand(m)
    ensures Inv(NextScan(m)) && SameBands(m.bands, NextScan(m).bands)
    ensures NextScan(m).timer == m.timer && NextScan(m).scanning == m.scanning && NextScan(m).current == m.current
  {
    assert Proper(Current(m)) && Within(Current(m));
    NextCovered(Current(m), m.forward);
    var f := Next(Current(m), m.forward);
    TuneInv(m, f);
    var t := Tune(m, m.current, f);
    PendingMore(m.events, Progress(f, m.current));
    EventsInv(t, NextScan(m));
  }

  lemma StopScanInv(m: Manager)
    requires Inv(m)
    ensures Inv(StopScan(m)) && StopScan(m).bands == m.bands && !StopScan(m).scanning
  {
    PendingMore(m.events, Stopped);
    EventsInv(m, StopScan(m));
  }

  lemma StartScanInv(m: Manager, forward: bool, all: bool)
    requires Inv(m)
    ensures Inv(StartScan(m, forward, all)) && SameBands(m.bands, StartScan(m, forward, all).bands)
  {
    if HasBand(m) {
      StopScanInv(m);
      var s := StopScan(m);
      PendingMore(s.events, Started);
      var t := s.(forward := forward, all := all, scanning := true, events := s.events + [Started]);
      EventsInv(s, t.(timer := true));
      NextScanInv(t.(timer := true));
      assert NextScan(t.(timer := true)) == NextScan(t).(timer := true);
    }
  }

  lemma ScanAllInv(m: Manager)
    requires Inv(m)
    ensures Inv(ScanAll(m)) && SameBands(m.bands, ScanAll(m).bands)
  {
    StopScanInv(m);
    var s := StopScan(m);
    if HasBand(s) && Signal(Current(s)) {
      var p, f := Progress(Current(s).frequency, s.current), Found(Current(s).frequency, s.current);
      PendingMore(s.events, p);
      PendingMore(s.events + [p], f);
      assert s.events + [p] + [f] == s.events + [p, f];
      var t := s.(events := s.events + [p, f]);
      EventsInv(s, t);
      StartScanInv(t, true, true);
    } else {
      StartScanInv(s, true, true);
    }
  }

  lemma ScanTimeoutInv(m: Manager)
    requires Inv(m) && m.timer
    ensures Inv(ScanTimeout(m)) && SameBands(m.bands, ScanTimeout(m).bands)
  {
    if Signal(Current(m)) {
      var e := Found(Current(m).frequency, m.current);
      PendingMore(m.events, e);
      var f := m.(events := m.events + [e]);
      EventsInv(m, f);
      if m.all {
        NextScanInv(f);
      } else {
        StopScanInv(f);
        assert ScanTimeout(m) == StopScan(f);
      }
    } else {
      NextScanInv(m);
    }
  }

  /** Every operation keeps exactly the current band active, each stored frequency within the slack
      of its band, and each frequency handed to a band inside the band. */
  lemma ApplyInv(m: Manager, op: Op)
    requires Inv(m)
    ensures Inv(Apply(m, op)) && SameBands(m.bands, Apply(m, op).bands)
  {
    match op
    case SetBandOp(value) => SetBandInv(m, value);
    case StepOp(forward) => StepInv(m, forward);
    case ScanOp(forward) => StartScanInv(m, forward, false);
    case ScanAllOp => ScanAllInv(m);
    case StopOp => StopScanInv(m);
    case Timeout => if m.timer { ScanTimeoutInv(m); }
  }

  /** Over every run: the current band, and no other, is active; it only changes through SetBand. */
  lemma {:induction false} RunKeepsBand(bands: seq<Band>, ops: seq<Op>)
    requires Fresh(bands) && bands != []
    ensures HasBand(Run(bands, ops))
    ensures Run(bands, ops).current == LastBand(|bands|, ops)
  {
    if ops != [] {
      RunKeepsBand(bands, ops[..|ops| - 1]);
      ApplyBand(Run(bands, ops[..|ops| - 1]), ops[|ops| - 1]);
    }
  }

  lemma ApplyBand(m: Manager, op: Op)
    requires Inv(m) && HasBand(m)
    ensures HasBand(Apply(m, op))
    ensures Apply(m, op).current == if op.SetBandOp? && 0 <= op.value < |m.bands| then op.value else m.current
  {
    ApplyInv(m, op);
    if op.StepOp? { StepInv(m, op.forward); }
  }

  function LastBand(n: nat, ops: seq<Op>): int {
    if ops == [] then 0
    else
      match ops[|ops| - 1]
      case SetBandOp(value) => if 0 <= value < n then value else LastBand(n, ops[..|ops| - 1])
      case _ => LastBand(n, ops[..|ops| - 1])
  }

  // ---------------------------------------------------------------- where it fails

  /** Setting a frequency by hand keeps exactly one band active if and only if the frequency is on
      the current band, or on none.  If it is on another one both are active afterwards, and the
      frequency is taken for the number of the current band. */
  lemma SetFrequencyIff(m: Manager, value: nat)
    requires Inv(m) && HasBand(m)
    ensures var r, band := SetFrequency(m, value), BandFrom(m.bands, value);
            && (OneActive(r) <==> band in {-1, m.current})
            && (band !in {-1, m.current} ==> r.bands[band].active && r.bands[m.current].active && r.current == value)
  {
    var band := BandFrom(m.bands, value);
    if band >= 0 && band != m.current {
      var r := SetFrequency(m, value);
      assert r.bands[band].active && r.bands[m.current].active;
    }
  }

  /** A frequency that is on no band changes nothing, and one on the current band is stored there,
      rounded, and nowhere else. */
  lemma SetFrequencyStores(m: Manager, value: nat)
    requires Inv(m) && HasBand(m)
    ensures var b := Current(m);
            && Proper(b)
            && ((forall i :: 0 <= i < |m.bands| ==> !Covers(m.bands[i], value)) ==> SetFrequency(m, value) == m)
            && (Covers(b, value) ==>
                  SetFrequency(m, value) ==
                    m.(handed := m.handed + [Handed(value, m.current)],
                       bands := m.bands[m.current := b.(frequency := Rounded(b, value))]))
  {
    assert Proper(Current(m));
    if Covers(Current(m), value) { BandIsCurrent(m, value); }
  }

  /** From AM to a station on FM. */
  lemma TwoBandsActive()
    ensures var am := Band(520_000, 1_710_000, 1000, 5000, false, {}, 520_000, false);
            var fm := Band(87_500_000, 108_000_000, 50_000, 500_000, false, {}, 87_500_000, false);
            var m := Create([am, fm]);
            var r := (CreateInv([am, fm]); SetFrequency(m, 98_000_000));
            Inv(m) && r.bands[0].active && r.bands[1].active && r.current == 98_000_000 && !HasBand(r)
  {
    var am := Band(520_000, 1_710_000, 1000, 5000, false, {}, 520_000, false);
    var fm := Band(87_500_000, 108_000_000, 50_000, 500_000, false, {}, 87_500_000, false);
    CreateInv([am, fm]);
    SetFrequencyIff(Create([am, fm]), 98_000_000);
  }

  /** Bands may overlap, and then a step stays on the current band if and only if no band before it
      in the list has the target frequency, too. */
  lemma StepStaysIff(m: Manager, forward: bool)
    requires Sound(m.bands) && OneActive(m) && HasBand(m)
    ensures OneActive(Step(m, forward)) <==>
            forall i :: 0 <= i < m.current ==> !Covers(m.bands[i], Target(Current(m), forward))
  {
    assert Proper(Current(m)) && Within(Current(m));
    TargetCovered(Current(m), forward);
    var value := Target(Current(m), forward);
    var band := BandFrom(m.bands, value);
    if band != m.current {
      var r := SetFrequency(m, value);
      assert r.bands[band].active && r.bands[m.current].active;
    }
  }

  /** Two bands that overlap: a step on the second one leaves it. */
  lemma OverlapLeaves()
    ensures var first := Band(0, 100, 10, 50, false, {}, 0, false);
            var second := Band(50, 200, 10, 50, false, {}, 60, true);
            var m := Manager([first, second], 1, false, false, false, false, [], []);
            Sound(m.bands) && OneActive(m) && !OneActive(Step(m, true))
  {
    var first := Band(0, 100, 10, 50, false, {}, 0, false);
    var second := Band(50, 200, 10, 50, false, {}, 60, true);
    var m := Manager([first, second], 1, false, false, false, false, [], []);
    StepStaysIff(m, true);
    assert Target(second, true) == 70 && Covers(m.bands[0], 70);
  }
}
