/** The debounced auto-save timer.  Times are in milliseconds. */
module AutoSaver {
  import opened Options

  const AUTOSAVE_IN := 1000 * 3
  const MAXWAIT := 1000 * 15

  /** A change, an event of the timer, or a request to save at once. */
  datatype Kind = Changed | TimerEvent | SaveNow

  datatype Event = Event(kind: Kind, at: nat)

  datatype Entry = Change(at: nat) | Save(at: nat)

  /** When the timer goes off, if it is active; the first change, if any; and what happened. */
  datatype State = State(timer: Option<nat>, first: Option<nat>, history: seq<Entry>)

  const START := State(None, None, [])

  function Saving(s: State, at: nat): State {
    if s.timer.None? then s else State(None, None, s.history + [Save(at)])
  }

  function Changing(s: State, at: nat): State {
    var first := if s.first.None? then at else s.first.value;
    var c := s.(first := Some(first), history := s.history + [Change(at)]);
    if at - first > MAXWAIT then Saving(c, at) else c.(timer := Some(at + AUTOSAVE_IN))
  }

  function Step(s: State, e: Event): State {
    if e.kind == Changed then Changing(s, e.at) else Saving(s, e.at)
  }

  function Run(events: seq<Event>): State {
    if events == [] then START else Step(Run(events[..|events| - 1]), events[|events| - 1])
  }

  /** Times go up, and while the timer is active nothing happens later than `late` after it should
      have gone off. */
  ghost predicate Timely(events: seq<Event>, late: nat) {
    events != [] ==>
      var prev, e := events[..|events| - 1], events[|events| - 1];
      && Timely(prev, late)
      && (prev != [] ==> prev[|prev| - 1].at <= e.at)
      && (Run(prev).timer.Some? ==> e.at <= Run(prev).timer.value + late)
  }

  /** The changes since the latest save. */
  function Unsaved(history: seq<Entry>): seq<nat> {
    if history == [] || history[|history| - 1].Save? then []
    else Unsaved(history[..|history| - 1]) + [history[|history| - 1].at]
  }

  lemma UnsavedMore(history: seq<Entry>, e: Entry)
    ensures Unsaved(history + [e]) == if e.Save? then [] else Unsaved(history) + [e.at]
  {
    assert (history + [e])[..|history|] == history;
  }

  /** Each save comes after a change, and soon enough after the first that was not saved. */
  ghost predicate Prompt(history: seq<Entry>, late: nat) {
    forall k :: 0 <= k < |history| && history[k].Save? ==>
      && Unsaved(history[..k]) != []
      && history[k].at <= Unsaved(history[..k])[0] + MAXWAIT + AUTOSAVE_IN + late
  }

  /** The first change is recorded exactly while the timer is active, that is while there are
      changes to be saved. */
  ghost predicate Armed(s: State) {
    var unsaved := Unsaved(s.history);
    && (s.timer.Some? <==> s.first.Some?)
    && (s.timer.Some? <==> unsaved != [])
    && (s.timer.Some? ==> s.first.value == unsaved[0] && s.timer.value <= s.first.value + MAXWAIT + AUTOSAVE_IN)
  }

  lemma PromptMore(history: seq<Entry>, e: Entry, late: nat)
    requires Prompt(history, late)
    requires e.Save? ==> Unsaved(history) != [] && e.at <= Unsaved(history)[0] + MAXWAIT + AUTOSAVE_IN + late
    ensures Prompt(history + [e], late)
  {
    var all := history + [e];
    forall k | 0 <= k < |all| && all[k].Save?
      ensures Unsaved(all[..k]) != [] && all[k].at <= Unsaved(all[..k])[0] + MAXWAIT + AUTOSAVE_IN + late
    {
      assert all[..k] == history[..k];
      assert history[..|history|] == history;
    }
  }

  lemma SavingPrompt(s: State, at: nat, late: nat)
    requires Prompt(s.history, late) && Unsaved(s.history) != []
    requires s.timer.Some? ==> at <= Unsaved(s.history)[0] + MAXWAIT + AUTOSAVE_IN + late
    ensures Prompt(Saving(s, at).history, late) && (s.timer.Some? ==> Armed(Saving(s, at)))
  {
    if s.timer.Some? {
      PromptMore(s.history, Save(at), late);
      UnsavedMore(s.history, Save(at));
    }
  }

  /** Every change is saved within the longest wait plus one delay of the first unsaved change, plus
      what the timer is late; and nothing is saved without a change. */
  lemma {:induction false} ChangesAreSaved(events: seq<Event>, late: nat)
    requires Timely(events, late)
    ensures Armed(Run(events)) && Prompt(Run(events).history, late)
    ensures events != [] && Run(events).first.Some? ==> Run(events).first.value <= events[|events| - 1].at
  {
    if events != [] {
      var prev, e := events[..|events| - 1], events[|events| - 1];
      ChangesAreSaved(prev, late);
      var s := Run(prev);
      if e.kind == Changed {
        UnsavedMore(s.history, Change(e.at));
        PromptMore(s.history, Change(e.at), late);
        var first := if s.first.None? then e.at else s.first.value;
        if e.at - first > MAXWAIT {
          SavingPrompt(s.(first := Some(first), history := s.history + [Change(e.at)]), e.at, late);
        }
      } else if s.timer.Some? {
        SavingPrompt(s, e.at, late);
      }
    }
  }

  /** So whatever is unsaved cannot be older than that. */
  lemma UnsavedIsRecent(events: seq<Event>, late: nat)
    requires Timely(events, late) && events != [] && Unsaved(Run(events[..|events| - 1]).history) != []
    ensures events[|events| - 1].at <= Unsaved(Run(events[..|events| - 1]).history)[0] + MAXWAIT + AUTOSAVE_IN + late
  {
    ChangesAreSaved(events[..|events| - 1], late);
  }

  /** A change is saved at once if and only if the first unsaved one is more than fifteen seconds old.
      Otherwise the timer starts anew, and goes off three seconds after this change. */
  lemma SavedAtOnceIff(events: seq<Event>, at: nat, late: nat)
    requires Timely(events, late)
    ensures var s, r := Run(events), Run(events + [Event(Changed, at)]);
            var unsaved := Unsaved(s.history);
            if unsaved != [] && at - unsaved[0] > 15_000 then
              r.timer.None? && r.history == s.history + [Change(at), Save(at)]
            else
              r.timer == Some(at + 3_000) && r.history == s.history + [Change(at)]
  {
    ChangesAreSaved(events, late);
    assert (events + [Event(Changed, at)])[..|events|] == events;
  }

  // ---------------------------------------------------------------- the timer object

  class AutoSave {
    var timer: Option<nat>
    var firstChange: Option<nat>
    ghost var history: seq<Entry>

    ghost function View(): State
      reads this
    {
      State(timer, firstChange, history)
    }

    constructor ()
      ensures View() == START
    {
      timer, firstChange, history := None, None, [];
    }

    method Change(now: nat)
      modifies this
      ensures View() == Step(old(View()), Event(Changed, now))
    {
      history := history + [Entry.Change(now)];
      if firstChange.None? { firstChange := Some(now); }
      if now - firstChange.value > MAXWAIT {
        var saved := Save(now);
      } else {
        timer := Some(now + AUTOSAVE_IN);
      }
    }

    /** Tells whether the parent's save is invoked. */
    method Save(now: nat) returns (saved: bool)
      modifies this
      ensures saved == old(timer).Some?
      ensures View() == Saving(old(View()), now)
    {
      if timer.None? { return false; }
      timer := None;
      firstChange := None;
      history := history + [Entry.Save(now)];
      saved := true;
    }
  }
}
