/** The radio manager at work on band objects that are updated in place.  Every method is proved
    against module Radio. */
module RadioManager {
  import opened RadioTuner
  import opened Radio

  class RadioBand {
    const low: nat
    const high: nat
    const step: nat
    const offStep: nat
    const normalises: bool
    const stations: set<nat>
    var frequency: nat
    var active: bool

    function Value(): Band
      reads this
    {
      Band(low, high, step, offStep, normalises, stations, frequency, active)
    }

    constructor (low: nat, high: nat, step: nat, offStep: nat, normalises: bool, stations: set<nat>, frequency: nat)
      ensures Value() == Band(low, high, step, offStep, normalises, stations, frequency, false)
    {
      this.low, this.high, this.step, this.offStep := low, high, step, offStep;
      this.normalises, this.stations := normalises, stations;
      this.frequency, active := frequency, false;
    }

    predicate HasSignal()
      reads this`frequency
    {
      frequency in stations
    }

    method SetActive(value: bool)
      modifies this`active
      ensures active == value
    {
      active := value;
    }

    method SetFrequency(value: nat)
      requires step > 0
      modifies this`frequency
      ensures Value() == Store(old(Value()), value)
    {
      var v: int := value;
      if normalises && v % step != 0 {
        if v % step < step / 2 { v := v - v % step; } else { v := v + (step - v % step); }
      }
      frequency := v;
    }
  }

  class RadioBandManager {
    const bands: seq<RadioBand>
    var currentBand: int
    var scanning: bool
    var scanForward: bool
    var scanAll: bool
    var timer: bool
    /** Recorded when a scan starts, and never looked at. */
    var startBand: int
    var startFrequency: int
    /** The signals emitted so far. */
    var events: seq<Event>

    /** What the fields and the bands represent. */
    ghost var view: Manager

    ghost predicate Distinct() {
      forall i, j :: 0 <= i < j < |bands| ==> bands[i] != bands[j]
    }

    ghost predicate BandsShow(values: seq<Band>)
      reads bands
    {
      |values| == |bands| && forall i :: 0 <= i < |bands| ==> bands[i].Value() == values[i]
    }

    ghost predicate Valid()
      reads this, bands
    {
      && Distinct() && BandsShow(view.bands) && view.current == currentBand
      && view.scanning == scanning && view.forward == scanForward && view.all == scanAll && view.timer == timer
      && view.events == events
    }

    constructor (bands: seq<RadioBand>)
      requires forall i, j :: 0 <= i < j < |bands| ==> bands[i] != bands[j]
      requires forall b :: b in bands ==> !b.active
      modifies bands
      ensures this.bands == bands && Valid()
      ensures view == Create(seq(|bands|, i requires 0 <= i < |bands| => old(bands[i].Value())))
    {
      this.bands := bands;
      startBand, startFrequency := -1, -1;
      currentBand := if |bands| == 0 then -1 else 0;
      scanning, scanForward, scanAll, timer, events := false, false, false, false, [];
      view := Create(seq(|bands|, i requires 0 <= i < |bands| => old(bands[i].Value())));
      new;
      if currentBand >= 0 { this.bands[currentBand].SetActive(true); }
    }

    /** The index of the first band that has the frequency, or -1. */
    method BandFromFrequency(frequency: nat) returns (index: int)
      requires Valid()
      ensures index == BandFrom(view.bands, frequency)
    {
      index := 0;
      while index < |bands|
        invariant 0 <= index <= |bands|
        invariant forall i :: 0 <= i < index ==> !Covers(view.bands[i], frequency)
      {
        assert bands[index].Value() == view.bands[index];
        if bands[index].low <= frequency <= bands[index].high { return; }
        index := index + 1;
      }
      index := -1;
    }

    method SetBand(value: int)
      requires Valid() && (bands == [] || HasBand(view))
      modifies this`currentBand, this`view, bands
      ensures Valid() && view == Radio.SetBand(old(view), value)
    {
      if value < 0 || value >= |bands| { return; }
      if currentBand != value {
        view := Radio.SetBand(view, value);
        bands[currentBand].SetActive(false);
        currentBand := value;
        bands[currentBand].SetActive(true);
      }
    }

    method TuneBand(i: nat, value: nat)
      requires Valid() && i < |bands| && bands[i].step > 0
      modifies this`view, bands
      ensures Valid() && old(view.bands[i]).step > 0 && view == Tune(old(view), i, value)
    {
      assert bands[i].Value() == view.bands[i];
      view := Tune(view, i, value);
      bands[i].SetFrequency(value);
    }

    method SetFrequency(value: nat) returns (found: bool)
      requires Valid() && Usable(view)
      modifies this`currentBand, this`view, bands
      ensures Valid() && Usable(old(view)) && view == Radio.SetFrequency(old(view), value)
      ensures found == (BandFrom(old(view).bands, value) >= 0)
    {
      var band := BandFromFrequency(value);
      if band < 0 { return false; }
      assert bands[band].Value() == view.bands[band];
      if band != currentBand { SwitchBand(band, value); }
      TuneBand(band, value);
      return true;
    }

    /** The change of band in SetFrequency. */
    method SwitchBand(band: nat, value: nat)
      requires Valid() && band < |bands|
      modifies this`currentBand, this`view, bands
      ensures Valid() && view == old(view).(bands := Activate(old(view).bands, band, true), current := value)
    {
      view := view.(bands := Activate(view.bands, band, true), current := value);
      bands[band].SetActive(false);
      currentBand := value;
      bands[band].SetActive(true);
    }

    method TargetForward(band: RadioBand) returns (freq: nat)
      requires band.step > 0
      ensures freq == Target(band.Value(), true)
    {
      freq := band.frequency;
      if freq % band.step != 0 { freq := freq - freq % band.step; }
      freq := freq + band.step;
      if freq > band.high { freq := band.low; }
    }

    method TargetBackward(band: RadioBand) returns (freq: int)
      requires band.step > 0
      ensures freq == Target(band.Value(), false)
    {
      freq := band.frequency;
      if freq % band.step != 0 { freq := freq - freq % band.step; }
      freq := freq - band.step;
      if freq < band.low { freq := band.high; }
    }

    method StepForward()
      requires Valid() && Usable(view)
      modifies this`currentBand, this`view, bands
      ensures Valid() && Usable(old(view)) && view == Step(old(view), true)
    {
      if currentBand < 0 || currentBand >= |bands| { return; }
      assert bands[currentBand].Value() == Current(view);
      var freq := TargetForward(bands[currentBand]);
      var _ := SetFrequency(freq);
    }

    method StepBackward()
      requires Valid() && Usable(view)
      modifies this`currentBand, this`view, bands
      ensures Valid() && Usable(old(view)) && view == Step(old(view), false)
    {
      if currentBand < 0 || currentBand >= |bands| { return; }
      assert bands[currentBand].Value() == Current(view);
      var freq := TargetBackward(bands[currentBand]);
      var _ := SetFrequency(freq);
    }

    /** Emit a signal. */
    method Emit(e: Event)
      requires Valid()
      modifies this`events, this`view
      ensures Valid() && view == old(view).(events := old(view).events + [e])
    {
      events := events + [e];
      view := view.(events := events);
    }

    method NextScan()
      requires Valid() && HasBand(view) && Usable(view)
      modifies this`events, this`view, bands
      ensures Valid() && HasBand(old(view)) && Usable(old(view)) && view == Radio.NextScan(old(view))
    {
      var band := bands[currentBand];
      assert band.Value() == Current(view);
      var frequency: int := band.frequency;
      var step := if band.HasSignal() then band.offStep else band.step;
      if scanForward {
        frequency := frequency + step;
        if frequency > band.high { frequency := band.low; }
      } else {
        frequency := frequency - step;
        if frequency < band.low { frequency := band.high; }
      }
      assert frequency == Next(Current(view), view.forward);
      TuneBand(currentBand, frequency);
      Emit(Progress(frequency, currentBand));
    }

    method StopScan()
      requires Valid()
      modifies this`scanning, this`timer, this`events, this`view
      ensures Valid() && view == Radio.StopScan(old(view))
    {
      if scanning {
        view := view.(scanning := false, timer := false);
        scanning := false;
        timer := false;
        Emit(Stopped);
      }
    }

    method Announce(forward: bool, all: bool)
      requires Valid()
      modifies this`scanForward, this`scanAll, this`scanning, this`events, this`view
      ensures Valid()
      ensures view == old(view).(forward := forward, all := all, scanning := true,
                                 events := old(view).events + [Started])
    {
      scanForward, scanAll, scanning := forward, all, true;
      view := view.(forward := forward, all := all, scanning := true);
      Emit(Started);
    }

    method StartScan(forward: bool, all: bool)
      requires Valid() && Usable(view)
      modifies this, bands
      ensures Valid() && Usable(old(view)) && view == Radio.StartScan(old(view), forward, all)
    {
      if currentBand < 0 || currentBand >= |bands| { return; }
      var band := bands[currentBand];
      StopScan();
      startBand := currentBand;
      startFrequency := band.frequency;
      Announce(forward, all);
      NextScan();
      timer := true;
      view := view.(timer := true);
    }

    method ScanAll()
      requires Valid() && Usable(view)
      modifies this, bands
      ensures Valid() && Usable(old(view)) && view == Radio.ScanAll(old(view))
    {
      StopScan();
      if 0 <= currentBand < |bands| {
        var band := bands[currentBand];
        assert band.Value() == Current(view);
        if band.HasSignal() {
          ghost var start := view;
          Emit(Progress(band.frequency, currentBand));
          Emit(Found(band.frequency, currentBand));
          assert view.events == start.events
                                + [Progress(band.frequency, currentBand), Found(band.frequency, currentBand)];
        }
      }
      StartScan(true, true);
    }

    method ScanTimeout()
      requires Valid() && HasBand(view) && Usable(view)
      modifies this, bands
      ensures Valid() && HasBand(old(view)) && Usable(old(view)) && view == Radio.ScanTimeout(old(view))
    {
      var band := bands[currentBand];
      assert band.Value() == Current(view);
      if band.HasSignal() {
        Emit(Found(band.frequency, currentBand));
        if !scanAll {
          view := view.(scanning := false, timer := false);
          scanning := false;
          timer := false;
          Emit(Stopped);
          return;
        }
      }
      NextScan();
    }
  }
}
