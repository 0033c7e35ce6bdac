/** The arithmetic of tuning: rounding to the scan step, the units of the tuner hardware, and the
    scan steps of a band.  Frequencies are in Hz. */
module RadioTuner {
  import opened Options

  // ---------------------------------------------------------------- rounding to a step

  function Normalise(value: nat, step: nat): (r: nat)
    requires step > 0
  {
    if value % step == 0 then value
    else if value % step < step / 2 then value - value % step
    else value + (step - value % step)
  }

  /** The number of steps that a frequency is rounded to. */
  lemma NormaliseSteps(value: nat, step: nat) returns (q: nat, r: nat, n: nat)
    requires step > 0
    ensures value == q * step + r && r < step && q == value / step && r == value % step
    ensures n == if r == 0 || r < step / 2 then q else q + 1
    ensures Normalise(value, step) == n * step
  {
    q, r := value / step, value % step;
    n := if r == 0 || r < step / 2 then q else q + 1;
    assert (q + 1) * step == q * step + step;
  }

  lemma MultipleHasNoRest(q: nat, step: nat)
    requires step > 0
    ensures (q * step) % step == 0 && (q * step) / step == q
  {
    if q > 0 {
      MultipleHasNoRest(q - 1, step);
      assert q * step == (q - 1) * step + step;
      ShiftByStep((q - 1) * step, step);
    }
  }

  lemma ShiftByStep(v: nat, step: nat)
    requires step > 0
    ensures (v + step) % step == v % step && (v + step) / step == v / step + 1
  {
    DivisionUnique(v + step, step, v / step + 1, v % step);
  }

  lemma DivisionUnique(v: nat, step: nat, q: nat, r: nat)
    requires step > 0 && v == q * step + r && r < step
    ensures v / step == q && v % step == r
  {
    var p := v / step;
    assert (p + 1) * step == p * step + step && (q + 1) * step == q * step + step;
    if p < q { FactorOrder(p + 1, q, step); }
    if q < p { FactorOrder(q + 1, p, step); }
  }

  lemma FactorOrder(a: nat, b: nat, step: nat)
    requires a <= b
    ensures a * step <= b * step
  {
  }

  /** Rounding lands on a multiple of the step, no more than half a step (rounded up) away, and
      rounding again changes nothing. */
  lemma NormaliseLands(value: nat, step: nat)
    requires step > 0
    ensures Normalise(value, step) % step == 0
    ensures value - step / 2 <= Normalise(value, step) <= value + (step + 1) / 2
    ensures Normalise(Normalise(value, step), step) == Normalise(value, step)
  {
    var q, r, n := NormaliseSteps(value, step);
    MultipleHasNoRest(n, step);
    assert (q + 1) * step == q * step + step;
  }

  /** Rounding keeps the order of frequencies. */
  lemma NormaliseMonotone(a: nat, b: nat, step: nat)
    requires step > 0 && a <= b
    ensures Normalise(a, step) <= Normalise(b, step)
  {
    QuotientOrder(a, b, step);
    var qa, ra, na := NormaliseSteps(a, step);
    var qb, rb, nb := NormaliseSteps(b, step);
    FactorOrder(na, nb, step);
  }

  lemma QuotientOrder(a: nat, b: nat, step: nat)
    requires step > 0 && a <= b
    ensures a / step < b / step || (a / step == b / step && a % step <= b % step)
  {
    var p, q := a / step, b / step;
    assert (q + 1) * step == q * step + step;
    if q < p { FactorOrder(q + 1, p, step); }
  }

  ghost predicate NoNearerMultiple(value: nat, step: nat, n: nat) {
    forall k: nat :: Distance(n, value) <= Distance(k * step, value)
  }

  function Distance(a: int, b: int): nat {
    if a < b then b - a else a - b
  }

  /** Rounding finds the nearest multiple, except for the position just below the middle of an odd
      step, which goes up although down is nearer. */
  lemma NormaliseNearestIff(value: nat, step: nat)
    requires step > 0
    ensures NoNearerMultiple(value, step, Normalise(value, step)) <==> 2 * (value % step) != step - 1 || step == 1
  {
    var q, r, n := NormaliseSteps(value, step);
    assert (q + 1) * step == q * step + step;
    if 2 * r == step - 1 && step > 1 {
      assert Distance(q * step, value) < Distance(n * step, value);
    } else {
      forall k: nat ensures Distance(n * step, value) <= Distance(k * step, value) {
        if k <= q { FactorOrder(k, q, step); } else { FactorOrder(q + 1, k, step); }
      }
    }
  }

  lemma LongerWay()
    ensures Normalise(1, 3) == 3 && !NoNearerMultiple(1, 3, 3)
  {
    NormaliseNearestIff(1, 3);
  }

  /** A frequency on the grid survives any disturbance of less than half a step. */
  lemma NormaliseRestores(value: nat, read: nat, step: nat)
    requires step > 0 && value % step == 0 && 2 * Distance(read, value) < step - 1
    ensures Normalise(read, step) == value
  {
    var q, d := value / step, Distance(read, value);
    assert value == q * step;
    if read >= value {
      DivisionUnique(read, step, q, d);
    } else {
      assert (q - 1) * step == value - step;
      DivisionUnique(read, step, q - 1, step - d);
    }
  }

  // ---------------------------------------------------------------- the units of the tuner

  /** In the driver's units: sixteenths of a kHz, or sixteenths of a MHz. */
  function ToUnits(value: nat, tunerLow: bool): nat {
    if tunerLow then (value * 16 + 500) / 1000 else (value * 16 + 500000) / 1000000
  }

  function FromUnits(units: nat, tunerLow: bool): nat {
    if tunerLow then units * 1000 / 16 else units * 1000000 / 16
  }

  function ReadBack(value: nat, tunerLow: bool): nat {
    FromUnits(ToUnits(value, tunerLow), tunerLow)
  }

  /** In units of a kHz a frequency is kept to 31 Hz, and exactly for two residues of 125 Hz. */
  lemma ReadBackKHz(value: nat)
    ensures Distance(ReadBack(value, true), value) <= 31
    ensures ReadBack(value, true) == value <==> value % 125 == 0 || value % 125 == 62
  {
    var q, r := value / 125, value % 125;
    var j := (16 * r + 500) / 1000;
    assert value * 16 + 500 == 2 * q * 1000 + (16 * r + 500);
    assert ToUnits(value, true) == 2 * q + j;
    assert (2 * q + j) * 1000 / 16 == 125 * q + j * 1000 / 16;
  }

  /** In units of a MHz it is kept to 31250 Hz, and exactly for multiples of 62500 Hz. */
  lemma ReadBackMHz(value: nat)
    ensures Distance(ReadBack(value, false), value) <= 31250
    ensures ReadBack(value, false) == value <==> value % 62500 == 0
    ensures ReadBack(value, false) == 62500 * (value / 62500 + if value % 62500 >= 31250 then 1 else 0)
  {
    var q, r := value / 62500, value % 62500;
    var j := if r >= 31250 then 1 else 0;
    assert value * 16 + 500000 == q * 1000000 + (16 * r + 500000);
    assert (16 * r + 500000) / 1000000 == j;
    assert ToUnits(value, false) == q + j;
  }

  /** In units of a kHz every frequency on a grid of 65 Hz or more is found again after a restart. */
  lemma RestartKHz(value: nat, step: nat)
    requires step >= 65 && value % step == 0
    ensures Normalise(ReadBack(value, true), step) == value
  {
    ReadBackKHz(value);
    NormaliseRestores(value, ReadBack(value, true), step);
  }

  /** In units of a MHz one in five positions of the FM grid is not: the radio comes back one step
      higher. */
  lemma RestartFmIff(value: nat)
    requires value % 50000 == 0
    ensures ReadBack(value, false) == value <==> value % 250000 == 0
    ensures Normalise(ReadBack(value, false), 50000) == value <==> value % 250000 != 100000
    ensures value % 250000 == 100000 ==> Normalise(ReadBack(value, false), 50000) == value + 50000
  {
    var q, r := value / 250000, value % 250000;
    assert value == 250000 * q + r && r % 50000 == 0;
    FmReadBack(q, r);
    FmNormalised(q, FmResidue(r));
  }

  /** What reading back makes of the five positions of the FM grid in 250 kHz. */
  function FmResidue(r: nat): nat {
    if r == 0 then 0 else if r == 50000 then 62500 else if r == 200000 then 187500 else 125000
  }

  lemma FmReadBack(q: nat, r: nat)
    requires r in {0, 50000, 100000, 150000, 200000}
    ensures ReadBack(250000 * q + r, false) == 250000 * q + FmResidue(r)
  {
    ReadBackMHz(250000 * q + r);
    DivisionUnique(250000 * q + r, 62500, 4 * q + r / 62500, r % 62500);
  }

  /** What the FM grid makes of the four multiples of 62500 Hz in 250 kHz. */
  function FmGrid(r: nat): nat {
    if r == 0 then 0 else if r == 62500 then 50000 else if r == 125000 then 150000 else 200000
  }

  lemma FmNormalised(q: nat, r: nat)
    requires r in {0, 62500, 125000, 187500}
    ensures Normalise(250000 * q + r, 50000) == 250000 * q + FmGrid(r)
  {
    DivisionUnique(250000 * q + r, 50000, 5 * q + r / 50000, r % 50000);
  }

  // ---------------------------------------------------------------- the properties of a band

  datatype StandardBand = Unknown | AM | FM | ShortWave | LongWave

  /** The division of the source, which truncates. */
  function Div(a: int, b: nat): int
    requires b > 0
  {
    if a < 0 then -(-a / b) else a / b
  }

  function BandOf(low: int, high: int): StandardBand {
    var freq := Div(low + high, 2);
    if 50000000 <= freq <= 120000000 then FM
    else if 500000 <= freq <= 1800000 then AM
    else if 2000000 <= freq <= 30000000 then ShortWave
    else if 100000 <= freq <= 300000 then LongWave
    else Unknown
  }

  datatype Steps = Steps(scan: int, offStation: int, wait: nat)

  function StepsOf(low: int, high: int): Steps {
    match BandOf(low, high)
    case AM => Steps(1000, 5000, 50)
    case FM => Steps(50000, 500000, 200)
    case _ => Steps(Div(high - low, 200), Div(high - low, 200) * 5, 200)
  }

  /** Which band a range is, by the sum of its ends: the middle is rounded towards zero, so that it may
      lie half a Hz above the limits. */
  lemma BandLimits(low: int, high: int)
    ensures BandOf(low, high) == FM <==> 100_000_000 <= low + high <= 240_000_001
    ensures BandOf(low, high) == AM <==> 1_000_000 <= low + high <= 3_600_001
    ensures BandOf(low, high) == ShortWave <==> 4_000_000 <= low + high <= 60_000_001
    ensures BandOf(low, high) == LongWave <==> 200_000 <= low + high <= 600_001
  {
    var sum := low + high;
    if sum < 0 { assert BandOf(low, high) == Unknown; }
  }

  /** How such a range is scanned: AM by 1 kHz, FM by 50 kHz, and anything else by a 200th of its width,
      rounded towards zero, and five times that from a station. */
  lemma StepsOfRange(low: int, high: int)
    ensures 1_000_000 <= low + high <= 3_600_001 ==> StepsOf(low, high) == Steps(1_000, 5_000, 50)
    ensures 100_000_000 <= low + high <= 240_000_001 ==> StepsOf(low, high) == Steps(50_000, 500_000, 200)
    ensures BandOf(low, high) !in {AM, FM} ==>
              var s := StepsOf(low, high);
              && s.wait == 200 && s.offStation == 5 * s.scan
              && (low <= high ==> 200 * s.scan <= high - low < 200 * s.scan + 200)
              && (high < low ==> 200 * s.scan - 200 < high - low <= 200 * s.scan)
  {
    BandLimits(low, high);
  }

  /** When a band can be scanned at all: a band of less than 200 Hz that is neither AM nor FM gets
      no step. */
  lemma StepsUsableIff(low: int, high: int)
    ensures 0 < StepsOf(low, high).scan <==> BandOf(low, high) in {AM, FM} || high - low >= 200
    ensures 0 < StepsOf(low, high).scan ==> StepsOf(low, high).scan <= StepsOf(low, high).offStation
                                             && StepsOf(low, high).offStation % StepsOf(low, high).scan == 0
  {
    var s := Div(high - low, 200);
    if s > 0 {
      assert s * 5 == 5 * s;
      MultipleHasNoRest(5, s);
    }
  }

  // ---------------------------------------------------------------- the frequency of a new band

  /** What a band starts with: what the device says, if that makes sense, else what was saved, in
      kHz, when the radio was closed. */
  function InitialFrequency(low: nat, high: nat, device: Option<nat>, saved: int): (r: nat)
    ensures low <= high ==> low <= r <= high
  {
    var read := if device.Some? && low <= device.value <= high then device.value else low;
    if read == low && saved != 0 && low <= saved * 1000 <= high then saved * 1000 else read
  }

  /** A frequency that the band can have stored. */
  predicate Stored(low: nat, high: nat, step: nat, value: nat)
    requires step > 0
  {
    value % step == 0 && Normalise(low, step) <= value <= Normalise(high, step)
  }

  /** What a band starts with that is opened again: the device kept its setting, and what was stored
      was saved, too. */
  function Reopened(low: nat, high: nat, step: nat, tunerLow: bool, value: nat): nat
    requires step > 0
  {
    Normalise(InitialFrequency(low, high, Some(ReadBack(value, tunerLow)), value / 1000), step)
  }

  lemma NormaliseUpIff(value: nat, d: nat, step: nat)
    requires step > 1 && value % step == 0 && d <= value
    ensures Normalise(value - d, step) == value <==> d <= step - step / 2
  {
    var q := value / step;
    assert value == q * step;
    if 0 < d < step {
      assert (q - 1) * step == value - step;
      DivisionUnique(value - d, step, q - 1, step - d);
    } else if d >= step {
      assert (q - 1) * step == value - step;
      MultipleHasNoRest(q - 1, step);
      NormaliseMonotone(value - d, value - step, step);
    }
  }

  /** What is stored below the band is what the lower end is rounded to. */
  lemma StoredBelow(low: nat, high: nat, step: nat, value: nat)
    requires step > 0 && Stored(low, high, step, value) && value < low
    ensures value == Normalise(low, step)
  {
    var q, r, n := NormaliseSteps(low, step);
    NormaliseLands(low, step);
    DivisionUnique(value, step, n, value - n * step);
  }

  /** And what is stored above it, what the upper end is rounded to. */
  lemma StoredAbove(low: nat, high: nat, step: nat, value: nat)
    requires step > 1 && Stored(low, high, step, value) && value > high
    ensures value == Normalise(high, step)
  {
    var top, k := Normalise(high, step), value / step;
    NormaliseLands(high, step);
    assert value == k * step;
    DivisionUnique(top, step, k, top - value);
  }

  lemma ReadBackMonotone(a: nat, b: nat)
    requires a <= b
    ensures ReadBack(a, true) <= ReadBack(b, true)
  {
    assert ToUnits(a, true) <= ToUnits(b, true);
  }

  /** In units of a kHz, and on a grid of 65 Hz or more, a radio that is opened again comes back on
      its frequency if and only if the tuner keeps it inside the band, or what was saved (or the
      lower end) is near enough. */
  lemma ReopenKHzIff(low: nat, high: nat, step: nat, value: nat)
    requires step >= 65 && low <= high && ReadBack(low, true) == low && ReadBack(high, true) == high
    requires Stored(low, high, step, value)
    ensures Reopened(low, high, step, true, value) == value <==>
            ReadBack(value, true) <= high || value - InitialFrequency(low, high, None, value / 1000) <= step - step / 2
  {
    var read, saved := ReadBack(value, true), InitialFrequency(low, high, None, value / 1000);
    ReadBackKHz(value);
    RestartKHz(value, step);
    if read > high {
      if value <= high { ReadBackMonotone(value, high); }
      NormaliseUpIff(value, value - saved, step);
    } else if read < low {
      if low <= value { ReadBackMonotone(low, value); }
      StoredBelow(low, high, step, value);
    } else if read == low && saved != low {
      assert saved == value / 1000 * 1000 <= value;
      NormaliseUpIff(value, value - saved, step);
    }
  }

  /** A band that ends on half a kHz: backward, a scan wraps to a frequency above the band, and the
      radio comes back at the lower end. */
  lemma LostAboveBand()
    ensures StepsOf(520_000, 1_710_500).scan == 1000
    ensures Stored(520_000, 1_710_500, 1000, Normalise(1_710_500, 1000))
    ensures Reopened(520_000, 1_710_500, 1000, true, Normalise(1_710_500, 1000)) == 520_000
  {
  }

  lemma QuarterUnits(f: nat) returns (q: nat, r: nat)
    requires f % 62500 == 0
    ensures f == 250000 * q + r && r in {0, 62500, 125000, 187500}
  {
    var k := f / 62500;
    q, r := k / 4, 62500 * (k % 4);
  }

  lemma UnitsOnGrid(f: nat) returns (q: nat, r: nat)
    requires ReadBack(f, false) == f
    ensures f == 250000 * q + r && r in {0, 62500, 125000, 187500}
    ensures Normalise(f, 50000) == 250000 * q + FmGrid(r) && ReadBack(Normalise(f, 50000), false) == f
  {
    ReadBackMHz(f);
    q, r := QuarterUnits(f);
    FmNormalised(q, r);
    FmReadBack(q, FmGrid(r));
  }

  lemma NotInBetween(q: nat, r: nat)
    requires r in {0, 50000, 150000, 200000}
    ensures (250000 * q + r) % 250000 != 100000
  {
    DivisionUnique(250000 * q + r, 250000, q, r);
  }

  /** A band that ends on whole units reads back as its end what is stored beyond it. */
  lemma FmBeyond(low: nat, high: nat, value: nat)
    requires low <= high && ReadBack(low, false) == low && ReadBack(high, false) == high
    requires Stored(low, high, 50000, value)
    ensures value < low ==> ReadBack(value, false) == low && Normalise(low, 50000) == value
    ensures value > high ==> ReadBack(value, false) == high && value % 250000 != 100000
  {
    if value < low {
      StoredBelow(low, high, 50000, value);
      var _, _ := UnitsOnGrid(low);
    } else if value > high {
      StoredAbove(low, high, 50000, value);
      var q, r := UnitsOnGrid(high);
      NotInBetween(q, FmGrid(r));
    }
  }

  /** In units of a MHz an FM radio comes back on its frequency if and only if that is not 100 kHz
      above a multiple of 250 kHz, or too near to the upper end to be read back as inside the band.
      Otherwise it comes back one step higher. */
  lemma ReopenFmIff(low: nat, high: nat, value: nat)
    requires low <= high && ReadBack(low, false) == low && ReadBack(high, false) == high
    requires Stored(low, high, 50000, value)
    ensures Reopened(low, high, 50000, false, value) == value <==> value % 250000 != 100000 || value + 25000 > high
    ensures value % 250000 == 100000 && value + 25000 <= high ==>
            Reopened(low, high, 50000, false, value) == value + 50000
  {
    var read, saved := ReadBack(value, false), InitialFrequency(low, high, None, value / 1000);
    RestartFmIff(value);
    FmBeyond(low, high, value);
    assert low <= value <= high ==> saved == value by { WholeKHz(value); }
    assert value % 250000 == 100000 ==> read == value + 25000 by {
      if value % 250000 == 100000 { FmReadBack(value / 250000, 100000); }
    }
  }

  lemma WholeKHz(value: nat)
    requires value % 50000 == 0
    ensures value / 1000 * 1000 == value
  {
    var k := value / 50000;
    DivisionUnique(value, 1000, 50 * k, 0);
  }

  /** A radio that forgets its frequency gets it back when opened again, exactly if it was a whole
      number of kHz: anything less than a kHz is cut off, and then only the lower end is left. */
  lemma SavedFrequencyIff(low: nat, high: nat, f: nat)
    requires low <= f <= high
    ensures InitialFrequency(low, high, None, f / 1000) == f <==> f % 1000 == 0 || f == low
  {
    assert f == f / 1000 * 1000 + f % 1000;
  }
}
