/** The touchscreen event reader at work: a fixed buffer that is shifted in place, and two sample
    arrays.  Every method is proved against module Mouse. */
module MouseHandler {
  import opened Options
  import opened Mouse
  import MouseEvents

  const MOUSE_BUF_SIZE := 2048

  // ---------------------------------------------------------------- lemmas

  lemma ResumeCons(cal: Calibration, s: Option<State>, r: Record, rs: seq<Record>)
    ensures Resume(cal, s, [r] + rs) == Resume(cal, Then(cal, s, r), rs)
  {
    FoldAppend(Steps(cal), s, [r], rs);
    assert [r][..0] == [];
    assert Fold(Steps(cal), s, []) == s;
  }

  lemma ResumeNone(cal: Calibration, rs: seq<Record>)
    ensures Resume(cal, None, rs) == None
  {
    if rs != [] { ResumeNone(cal, rs[..|rs| - 1]); }
  }

  /** Indices left over from an earlier batch do not influence the search. */
  lemma StaleIndices(s: seq<int>, i: nat, j: nat, a: Best, b: Best)
    requires i < j <= |s|
    requires a == b || a.min == b.min == INT_MAX
    ensures var x, y := Search(s, i, j, a), Search(s, i, j, b); x == y || x.min == y.min == INT_MAX
    decreases |s| - i, |s| - j
  {
    if j < |s| {
      StaleIndices(s, i, j + 1, Better(s, a, i, j), Better(s, b, i, j));
    } else if i + 2 < |s| {
      StaleIndices(s, i + 1, i + 2, a, b);
    }
  }

  /** So the position is the same whatever indices the search starts with. */
  lemma SearchFromStale(s: seq<int>, b: Best, r: Best)
    requires |s| >= TS_SAMPLES && (forall v :: v in s ==> IsInt(v)) && b.min == INT_MAX && r == Search(s, 0, 1, b)
    ensures r.first < |s| && r.second < |s| && Average(s) == Half(Wrap(s[r.first] + s[r.second]))
  {
    ClosestFound(s);
    StaleIndices(s, 0, 1, Best(INT_MAX, 0, 0), b);
  }

  function RecordAt(bytes: seq<byte>, k: nat): Record
    requires RECORD_SIZE * (k + 1) <= |bytes|
  {
    ToRecord(bytes[RECORD_SIZE * k..RECORD_SIZE * (k + 1)])
  }

  /** The states before and after each whole record. */
  ghost predicate Trace(cal: Calibration, bytes: seq<byte>, states: seq<State>) {
    && RECORD_SIZE * (|states| - 1) <= |bytes| < RECORD_SIZE * |states|
    && forall k {:trigger RecordAt(bytes, k)} :: 0 <= k < |states| - 1 ==>
         Step(cal, states[k], RecordAt(bytes, k)) == Some(states[k + 1])
  }

  lemma RecordLater(bytes: seq<byte>, k: nat)
    requires RECORD_SIZE * (k + 2) <= |bytes|
    ensures RecordAt(bytes, k + 1) == RecordAt(bytes[RECORD_SIZE..], k)
  {
    assert bytes[RECORD_SIZE..][RECORD_SIZE * k..RECORD_SIZE * (k + 1)] ==
        bytes[RECORD_SIZE * (k + 1)..RECORD_SIZE * (k + 2)];
  }

  /** A safe stream has a trace. */
  lemma TraceOf(cal: Calibration, s: State, bytes: seq<byte>) returns (states: seq<State>)
    requires Resume(cal, Some(s), Records(bytes)).Some?
    ensures Trace(cal, bytes, states) && states[0] == s
    ensures Resume(cal, Some(s), Records(bytes)) == Some(states[|states| - 1])
    decreases |bytes|
  {
    if |bytes| < RECORD_SIZE {
      states := [s];
    } else {
      var rest, r := bytes[RECORD_SIZE..], RecordAt(bytes, 0);
      RecordsUnfold(bytes, rest);
      ResumeCons(cal, Some(s), r, Records(rest));
      if Step(cal, s, r).None? { ResumeNone(cal, Records(rest)); }
      states := TraceOf(cal, Step(cal, s, r).value, rest);
      TraceCons(cal, s, bytes, states);
      states := [s] + states;
    }
  }

  lemma TraceCons(cal: Calibration, s: State, bytes: seq<byte>, states: seq<State>)
    requires |bytes| >= RECORD_SIZE && Trace(cal, bytes[RECORD_SIZE..], states)
    requires Step(cal, s, RecordAt(bytes, 0)) == Some(states[0])
    ensures Trace(cal, bytes, [s] + states)
  {
    var all := [s] + states;
    forall k | 0 <= k < |all| - 1 ensures Step(cal, all[k], RecordAt(bytes, k)) == Some(all[k + 1]) {
      if k > 0 { RecordLater(bytes, k - 1); }
    }
  }

  lemma TraceRest(cal: Calibration, bytes: seq<byte>, states: seq<State>)
    requires Trace(cal, bytes, states) && |states| > 1
    ensures Trace(cal, bytes[RECORD_SIZE..], states[1..])
  {
    forall k | 0 <= k < |states| - 2
      ensures Step(cal, states[1..][k], RecordAt(bytes[RECORD_SIZE..], k)) == Some(states[1..][k + 1])
    {
      RecordLater(bytes, k);
    }
  }

  /** A trace ends where the records lead. */
  lemma {:induction false} TraceLeads(cal: Calibration, bytes: seq<byte>, states: seq<State>)
    requires Trace(cal, bytes, states)
    ensures Resume(cal, Some(states[0]), Records(bytes)) == Some(states[|states| - 1])
    decreases |bytes|
  {
    if |states| > 1 {
      var rest := bytes[RECORD_SIZE..];
      RecordsUnfold(bytes, rest);
      ResumeCons(cal, Some(states[0]), RecordAt(bytes, 0), Records(rest));
      TraceRest(cal, bytes, states);
      TraceLeads(cal, rest, states[1..]);
    }
  }

  lemma {:induction false} LeftoverAt(bytes: seq<byte>, n: nat)
    requires RECORD_SIZE * n <= |bytes| < RECORD_SIZE * (n + 1)
    ensures Leftover(bytes) == bytes[RECORD_SIZE * n..]
    decreases n
  {
    if n > 0 {
      LeftoverAt(bytes[RECORD_SIZE..], n - 1);
      assert bytes[RECORD_SIZE..][RECORD_SIZE * (n - 1)..] == bytes[RECORD_SIZE * n..];
    }
  }

  ghost predicate Ends(states: seq<State>, from: State, to: State) {
    states != [] && states[0] == from && states[|states| - 1] == to
  }

  /** After these bytes the reader is in this state with these bytes left over. */
  ghost predicate Meaning(cal: Calibration, bytes: seq<byte>, s: State, buffer: seq<byte>) {
    buffer == Leftover(bytes) && exists states :: Trace(cal, bytes, states) && Ends(states, START, s)
  }

  lemma MeaningIff(cal: Calibration, bytes: seq<byte>, s: State, buffer: seq<byte>)
    ensures Meaning(cal, bytes, s, buffer) <==> Whole(cal, bytes) == Reader(Some(s), buffer)
  {
    if Meaning(cal, bytes, s, buffer) {
      var states :| Trace(cal, bytes, states) && Ends(states, START, s);
      TraceLeads(cal, bytes, states);
    }
    if Whole(cal, bytes) == Reader(Some(s), buffer) {
      var states := TraceOf(cal, START, bytes);
      assert Ends(states, START, s);
    }
  }

  /** These bytes keep inside the sample arrays. */
  ghost predicate Safe(bytes: seq<byte>) {
    NeverNine(Records(bytes))
  }

  /** What was read before, and what has been taken of the pending bytes. */
  function SoFar(start: seq<byte>, pending: seq<byte>, taken: nat): seq<byte>
    requires taken <= |pending|
  {
    start + pending[..taken]
  }

  lemma {:induction false} NeverNinePrefix(a: seq<Record>, b: seq<Record>)
    requires NeverNine(a + b)
    ensures NeverNine(a)
  {
    if b == [] {
      assert a + b == a;
    } else {
      assert (a + b)[..|a + b| - 1] == a + b[..|b| - 1];
      NeverNinePrefix(a, b[..|b| - 1]);
    }
  }

  /** A stream that is safe as a whole is safe up to any point. */
  lemma SafePrefix(bytes: seq<byte>, more: seq<byte>)
    requires Safe(bytes + more)
    ensures Safe(bytes)
  {
    RecordsAppend(bytes, more);
    NeverNinePrefix(Records(bytes), Records(Leftover(bytes) + more));
  }

  lemma SafeSoFar(start: seq<byte>, pending: seq<byte>, taken: nat, n: nat)
    requires taken + n <= |pending| && Safe(start + pending)
    ensures SoFar(start, pending, taken) + pending[taken..taken + n] == SoFar(start, pending, taken + n)
    ensures Safe(SoFar(start, pending, taken + n))
  {
    var now, rest := SoFar(start, pending, taken + n), pending[taken + n..];
    assert start + pending == now + rest;
    SafePrefix(now, rest);
  }

  lemma WholeExtends(cal: Calibration, s: State, before: seq<byte>, buffer: seq<byte>, chunk: seq<byte>)
    returns (goal: State)
    requires Meaning(cal, before, s, buffer) && Safe(before + chunk)
    ensures Resume(cal, Some(s), Records(buffer + chunk)) == Some(goal)
    ensures Whole(cal, before + chunk) == Reader(Some(goal), Leftover(buffer + chunk))
  {
    MeaningIff(cal, before, s, buffer);
    PassWhole(cal, before, chunk);
    InBoundsIff(cal, Records(before + chunk));
    goal := Whole(cal, before + chunk).state.value;
  }

  /** More bytes lead from the state and the leftover of the bytes so far to those of all bytes. */
  lemma TraceExtends(cal: Calibration, s: State, before: seq<byte>, buffer: seq<byte>, chunk: seq<byte>)
    returns (states: seq<State>)
    requires Meaning(cal, before, s, buffer) && Safe(before + chunk)
    ensures Trace(cal, buffer + chunk, states) && states[0] == s
    ensures Meaning(cal, before + chunk, states[|states| - 1], Leftover(buffer + chunk))
  {
    var goal := WholeExtends(cal, s, before, buffer, chunk);
    states := TraceOf(cal, s, buffer + chunk);
    MeaningIff(cal, before + chunk, goal, Leftover(buffer + chunk));
  }

  // ---------------------------------------------------------------- how much is read

  /** How many bytes of a stream are behind its last whole record. */
  function Left(done: nat): (r: nat)
    ensures r < RECORD_SIZE
  {
    if done < RECORD_SIZE then done else Left(done - RECORD_SIZE)
  }

  lemma LeftoverLength(bytes: seq<byte>)
    ensures |Leftover(bytes)| == Left(|bytes|)
  {
    if |bytes| >= RECORD_SIZE { LeftoverLength(bytes[RECORD_SIZE..]); }
  }

  /** What one call of read delivers: no more than is asked for, than is pending, and than fits behind
      the bytes in the buffer. */
  function Room(buffered: nat, pending: nat, limit: nat): (n: nat)
    requires buffered <= MOUSE_BUF_SIZE
    ensures n <= pending && buffered + n <= MOUSE_BUF_SIZE
  {
    Min(limit, Min(MOUSE_BUF_SIZE - buffered, pending))
  }

  function Delivered(done: nat, pending: nat, limit: nat): nat {
    Room(Left(done), pending, limit)
  }

  /** What calls of read with these limits deliver, up to the first that delivers nothing. */
  function Reads(done: nat, pending: nat, sizes: seq<nat>): (r: nat)
    ensures r <= pending
    decreases |sizes|
  {
    if sizes == [] then 0
    else
      var n := Delivered(done, pending, sizes[0]);
      if n == 0 then 0 else n + Reads(done + n, pending - n, sizes[1..])
  }

  /** If every call asks for something, at least one byte comes with each call until all are read. */
  lemma {:induction false} ReadsAll(done: nat, pending: nat, sizes: seq<nat>)
    requires forall k :: 0 <= k < |sizes| ==> sizes[k] > 0
    ensures Reads(done, pending, sizes) >= Min(|sizes|, pending)
    ensures |sizes| >= pending ==> Reads(done, pending, sizes) == pending
    decreases |sizes|
  {
    if sizes != [] {
      var n := Delivered(done, pending, sizes[0]);
      if n > 0 { ReadsAll(done + n, pending - n, sizes[1..]); }
    }
  }

  /** Where the reading of pending bytes stands, after so many calls. */
  datatype Place = Place(taken: nat, calls: nat, more: bool)

  /** What the remaining calls deliver. */
  function StillRead(done: nat, pending: nat, sizes: seq<nat>, p: Place): nat
    requires p.taken <= pending && (p.more ==> p.calls <= |sizes|)
  {
    if p.more then Reads(done + p.taken, pending - p.taken, sizes[p.calls..]) else 0
  }

  ghost predicate OnTheWay(before: seq<byte>, pending: seq<byte>, sizes: seq<nat>, read: seq<byte>, p: Place) {
    && p.taken <= |pending| && read == SoFar(before, pending, p.taken)
    && (p.more ==> p.calls <= |sizes|)
    && Reads(|before|, |pending|, sizes) == p.taken + StillRead(|before|, |pending|, sizes, p)
  }

  lemma Begin(before: seq<byte>, pending: seq<byte>, sizes: seq<nat>)
    ensures OnTheWay(before, pending, sizes, before, Place(0, 0, true))
  {
    assert sizes[0..] == sizes && before == SoFar(before, pending, 0);
  }

  /** The limit of a call; behind the last nothing is asked for. */
  function Limit(sizes: seq<nat>, k: nat): nat {
    if k < |sizes| then sizes[k] else 0
  }

  lemma GoOn(before: seq<byte>, pending: seq<byte>, sizes: seq<nat>, read: seq<byte>, now: seq<byte>, p: Place, n: nat)
    requires OnTheWay(before, pending, sizes, read, p) && p.more
    requires n == Delivered(|before| + p.taken, |pending| - p.taken, Limit(sizes, p.calls))
    requires now == SoFar(before, pending, p.taken + n)
    ensures OnTheWay(before, pending, sizes, now, Place(p.taken + n, p.calls + 1, n > 0))
  {
    if p.calls < |sizes| { assert sizes[p.calls..][1..] == sizes[p.calls + 1..]; }
  }

  // ---------------------------------------------------------------- the handler

  class ExampleMouseHandler {
    const cal: Calibration
    const mouseBuf: array<byte>
    var mouseIdx: nat
    const sx: array<int>
    const sy: array<int>
    var nX: nat
    var nY: nat
    var index_x1: nat
    var index_x2: nat
    var index_y1: nat
    var index_y2: nat
    var min_x: int
    var min_y: int
    var oldmouse: Point
    /** The signals emitted so far. */
    var events: seq<Event>

    /** What the fields represent. */
    ghost var view: State
    ghost var buffer: seq<byte>

    ghost predicate Arrays()
      reads this
    {
      && sx.Length == sy.Length == CAPACITY && nX <= CAPACITY && nY <= CAPACITY
      && sx != sy && mouseBuf as object !in {sx as object, sy as object}
    }

    /** The samples; between records the minima are at their initial value. */
    ghost predicate Sampled()
      reads this, sx, sy
    {
      Arrays() && min_x == min_y == INT_MAX && view == State(sx[..nX], sy[..nY], oldmouse, events) && Ints(view)
    }

    ghost predicate Buffered()
      reads this, mouseBuf
    {
      mouseIdx <= mouseBuf.Length == MOUSE_BUF_SIZE && buffer == mouseBuf[..mouseIdx]
    }

    /** Samples, position and events are those of these bytes, and the buffer holds what is left. */
    ghost predicate HasRead(bytes: seq<byte>)
      reads this, sx, sy, mouseBuf
    {
      Sampled() && Buffered() && Meaning(cal, bytes, view, buffer)
    }

    constructor (cal: Calibration)
      ensures HasRead([]) && this.cal == cal
      ensures fresh(sx) && fresh(sy) && fresh(mouseBuf)
    {
      this.cal := cal;
      mouseBuf := new byte[MOUSE_BUF_SIZE];
      sx := new int[CAPACITY];
      sy := new int[CAPACITY];
      mouseIdx, nX, nY := 0, 0, 0;
      index_x1, index_x2, index_y1, index_y2 := 0, 0, 0, 0;
      min_x, min_y := INT_MAX, INT_MAX;
      oldmouse, events := Point(0, 0), [];
      view, buffer := START, [];
      new;
      assert Trace(cal, [], [START]) && Ends([START], START, START);
    }

    // -------------------------------------------------------------- one record

    /** The distance of two samples, in 32-bit arithmetic. */
    static method Difference(a: int, b: int) returns (d: int)
      ensures d == Away(a, b)
    {
      d := Wrap(a - b);
      if d < 0 { d := Wrap(-d); }
    }

    /** One pair of samples of each axis. */
    method Compare(ghost ss: nat, i: nat, j: nat)
      requires Arrays() && i < j < ss <= nX && ss <= nY
      modifies this`min_x, this`min_y, this`index_x1, this`index_x2, this`index_y1, this`index_y2
      ensures Best(min_x, index_x1, index_x2) == Better(sx[..ss], old(Best(min_x, index_x1, index_x2)), i, j)
      ensures Best(min_y, index_y1, index_y2) == Better(sy[..ss], old(Best(min_y, index_y1, index_y2)), i, j)
    {
      var dx := Difference(sx[i], sx[j]);
      var dy := Difference(sy[i], sy[j]);
      if min_x > dx {
        min_x := dx;
        index_x1 := i;
        index_x2 := j;
      }
      if min_y > dy {
        min_y := dy;
        index_y1 := i;
        index_y2 := j;
      }
    }

    /** The search for the closest pair of both axes at once. */
    method FindClosest(ss: nat)
      requires Arrays() && TS_SAMPLES <= ss <= nX && ss <= nY
      modifies this`min_x, this`min_y, this`index_x1, this`index_x2, this`index_y1, this`index_y2
      ensures Best(min_x, index_x1, index_x2) == Search(sx[..ss], 0, 1, old(Best(min_x, index_x1, index_x2)))
      ensures Best(min_y, index_y1, index_y2) == Search(sy[..ss], 0, 1, old(Best(min_y, index_y1, index_y2)))
    {
      ghost var xs, ys := sx[..ss], sy[..ss];
      ghost var x := Search(xs, 0, 1, Best(min_x, index_x1, index_x2));
      ghost var y := Search(ys, 0, 1, Best(min_y, index_y1, index_y2));
      var i := 0;
      while i < ss - 1
        invariant 0 <= i <= ss - 1
        invariant x == if i < ss - 1 then Search(xs, i, i + 1, Best(min_x, index_x1, index_x2))
                       else Best(min_x, index_x1, index_x2)
        invariant y == if i < ss - 1 then Search(ys, i, i + 1, Best(min_y, index_y1, index_y2))
                       else Best(min_y, index_y1, index_y2)
      {
        var j := i + 1;
        while j < ss
          invariant i < j <= ss
          invariant x == Search(xs, i, j, Best(min_x, index_x1, index_x2))
          invariant y == Search(ys, i, j, Best(min_y, index_y1, index_y2))
        {
          Compare(ss, i, j);
          j := j + 1;
        }
        i := i + 1;
      }
    }

    /** The position of a full batch. */
    method Locate() returns (pos: Point)
      requires Sampled() && BatchFull(view)
      modifies this`min_x, this`min_y, this`index_x1, this`index_x2, this`index_y1, this`index_y2
      ensures pos == Position(view)
    {
      var ss := if nX < nY then nX else nY;
      ghost var xs, ys := sx[..ss], sy[..ss];
      assert view.xs[..ss] == xs && view.ys[..ss] == ys;
      FindClosest(ss);
      SearchFromStale(xs, old(Best(min_x, index_x1, index_x2)), Best(min_x, index_x1, index_x2));
      SearchFromStale(ys, old(Best(min_y, index_y1, index_y2)), Best(min_y, index_y1, index_y2));
      pos := Point(Half(Wrap(sx[index_x1] + sx[index_x2])), Half(Wrap(sy[index_y1] + sy[index_y2])));
    }

    /** A position is announced if it lies on the screen. */
    method MoveTo(pos: Point)
      modifies this`oldmouse, this`events
      ensures oldmouse == if InRange(cal.toScreen(pos)) then cal.toScreen(pos) else Point(0, 0)
      ensures events == old(events) + if InRange(cal.toScreen(pos)) then [MouseChanged(oldmouse, true)] else []
    {
      oldmouse := cal.toScreen(pos);
      if oldmouse.x < MOUSE_SAMPLE_MIN || oldmouse.x > MOUSE_SAMPLE_MAX
         || oldmouse.y < MOUSE_SAMPLE_MIN || oldmouse.y > MOUSE_SAMPLE_MAX {
        oldmouse := Point(0, 0);
      } else {
        events := events + [MouseChanged(oldmouse, true)];
      }
    }

    method EndOfBatch()
      requires Sampled() && BatchFull(view)
      modifies this
      ensures Sampled() && view == EndBatch(cal, old(view))
      ensures mouseIdx == old(mouseIdx) && buffer == old(buffer)
    {
      var pos := Locate();
      nX, nY := 0, 0;
      min_x, min_y := INT_MAX, INT_MAX;
      MoveTo(pos);
      view := State([], [], oldmouse, events);
    }

    method StoreSample(r: Record)
      requires Sampled() && Sample(view, r).Some?
      modifies this`nX, this`nY, this`view, sx, sy
      ensures Sampled() && view == Sample(old(view), r).value
    {
      if r.code == 0 {
        sx[nX] := ToInt(r.value);
        nX := nX + 1;
      } else if r.code == 1 {
        sy[nY] := ToInt(r.value);
        nY := nY + 1;
      }
      view := Sample(view, r).value;
    }

    method HandleRecord(r: Record)
      requires Sampled() && Step(cal, view, r).Some?
      modifies this, sx, sy
      ensures Sampled() && view == Step(cal, old(view), r).value
      ensures mouseIdx == old(mouseIdx) && buffer == old(buffer)
    {
      StoreSample(r);
      if nX >= TS_SAMPLES && nY >= TS_SAMPLES { EndOfBatch(); }
      if r.code == 24 && r.value == 0 {
        events := events + [MouseChanged(oldmouse, false)];
        nX, nY := 0, 0;
        view := State([], [], oldmouse, events);
      }
    }

    // -------------------------------------------------------------- the buffer

    method FetchRecord(idx: nat, ghost k: nat) returns (r: Record)
      requires Buffered() && idx == RECORD_SIZE * k && RECORD_SIZE * (k + 1) <= |buffer|
      ensures r == RecordAt(buffer, k)
    {
      var code := mouseBuf[idx + 10] as int + 0x100 * (mouseBuf[idx + 11] as int);
      var value := mouseBuf[idx + 12] as int + 0x100 * (mouseBuf[idx + 13] as int)
                   + 0x1_0000 * (mouseBuf[idx + 14] as int) + 0x100_0000 * (mouseBuf[idx + 15] as int);
      r := Record(code, value);
    }

    /** The k-th record in the buffer. */
    method HandleOne(idx: nat, ghost k: nat, ghost states: seq<State>)
      requires Sampled() && Buffered() && Trace(cal, buffer, states)
      requires idx == RECORD_SIZE * k && k < |states| - 1 && view == states[k]
      modifies this, sx, sy
      ensures Sampled() && Buffered() && buffer == old(buffer) && view == states[k + 1]
    {
      var r := FetchRecord(idx, k);
      HandleRecord(r);
    }

    /** Handle the whole records in the buffer. */
    method HandleRecords(ghost states: seq<State>) returns (idx: nat)
      requires Sampled() && Buffered() && Trace(cal, buffer, states) && view == states[0]
      modifies this, sx, sy
      ensures Sampled() && Buffered() && buffer == old(buffer)
      ensures view == states[|states| - 1] && idx == RECORD_SIZE * (|states| - 1)
    {
      idx := 0;
      ghost var k := 0;
      while mouseIdx - idx >= RECORD_SIZE
        invariant Sampled() && Buffered() && buffer == old(buffer)
        invariant idx == RECORD_SIZE * k && k < |states| && view == states[k]
      {
        HandleOne(idx, k, states);
        idx, k := idx + RECORD_SIZE, k + 1;
      }
    }

    /** Move the surplus bytes to the front of the buffer. */
    method Shift(idx: nat)
      requires Sampled() && Buffered() && idx <= |buffer|
      modifies this`mouseIdx, this`buffer, mouseBuf
      ensures Sampled() && Buffered() && buffer == old(buffer)[idx..]
    {
      var surplus := mouseIdx - idx;
      for i := 0 to surplus
        invariant Sampled() && mouseIdx == old(mouseIdx) && buffer == old(buffer)
        invariant forall k :: 0 <= k < i ==> mouseBuf[k] == buffer[idx + k]
        invariant forall k :: i <= k < mouseIdx ==> mouseBuf[k] == buffer[k]
      {
        mouseBuf[i] := mouseBuf[idx + i];
      }
      mouseIdx := surplus;
      buffer := buffer[idx..];
    }

    method Append(chunk: seq<byte>)
      requires Sampled() && Buffered() && |buffer| + |chunk| <= MOUSE_BUF_SIZE
      modifies this`mouseIdx, this`buffer, mouseBuf
      ensures Sampled() && Buffered() && buffer == old(buffer) + chunk
    {
      for k := 0 to |chunk|
        invariant Sampled() && Buffered() && mouseIdx + |chunk| - k <= MOUSE_BUF_SIZE
        invariant buffer == old(buffer) + chunk[..k]
      {
        mouseBuf[mouseIdx] := chunk[k];
        mouseIdx := mouseIdx + 1;
        buffer := buffer + [chunk[k]];
      }
      assert chunk[..|chunk|] == chunk;
    }

    /** Handle what is in the buffer, after a chunk was put behind what was left over. */
    method HandleBuffer(ghost before: seq<byte>, ghost left: seq<byte>, ghost chunk: seq<byte>) returns (idx: nat)
      requires Sampled() && Buffered() && buffer == left + chunk
      requires Meaning(cal, before, view, left) && Safe(before + chunk)
      modifies this, sx, sy
      ensures Sampled() && Buffered() && buffer == old(buffer) && idx <= |buffer|
      ensures Meaning(cal, before + chunk, view, buffer[idx..])
    {
      ghost var states := TraceExtends(cal, view, before, left, chunk);
      LeftoverAt(buffer, |states| - 1);
      idx := HandleRecords(states);
    }

    /** One round of reading: what came in goes behind the buffered bytes, the whole records are
        handled, and the surplus goes back to the front. */
    method HandleChunk(ghost before: seq<byte>, chunk: seq<byte>)
      requires HasRead(before) && |buffer| + |chunk| <= MOUSE_BUF_SIZE && Safe(before + chunk)
      modifies this, sx, sy, mouseBuf
      ensures HasRead(before + chunk)
    {
      ghost var left := buffer;
      Append(chunk);
      var idx := HandleBuffer(before, left, chunk);
      Shift(idx);
    }

    // -------------------------------------------------------------- reading

    /** One call of read delivers as many bytes as fit, are pending, and are asked for. */
    method Receive(ghost read: seq<byte>, pending: nat, limit: nat) returns (n: nat)
      requires HasRead(read)
      ensures n == Delivered(|read|, pending, limit) && |buffer| + n <= MOUSE_BUF_SIZE
    {
      LeftoverLength(read);
      n := Room(mouseIdx, pending, limit);
    }

    method ReadOnce(ghost read: seq<byte>, ghost before: seq<byte>, pending: seq<byte>, taken: nat, limit: nat)
      returns (n: nat, ghost now: seq<byte>)
      requires HasRead(read) && taken <= |pending| && read == SoFar(before, pending, taken) && Safe(before + pending)
      modifies this, sx, sy, mouseBuf
      ensures HasRead(now)
      ensures n == Delivered(|before| + taken, |pending| - taken, limit) && now == SoFar(before, pending, taken + n)
    {
      n := Receive(read, |pending| - taken, limit);
      var chunk := pending[taken..taken + n];
      now := read + chunk;
      SafeSoFar(before, pending, taken, n);
      HandleChunk(read, chunk);
    }

    /** One call of read; sizes[k] limits the k-th. */
    method ReadNext(ghost read: seq<byte>, ghost before: seq<byte>, pending: seq<byte>, sizes: seq<nat>, p: Place)
      returns (q: Place, ghost now: seq<byte>)
      requires HasRead(read) && OnTheWay(before, pending, sizes, read, p) && p.more && Safe(before + pending)
      modifies this, sx, sy, mouseBuf
      ensures HasRead(now)
      ensures OnTheWay(before, pending, sizes, now, q) && q.calls == p.calls + 1
    {
      var n;
      n, now := ReadOnce(read, before, pending, p.taken, Limit(sizes, p.calls));
      GoOn(before, pending, sizes, read, now, p, n);
      q := Place(p.taken + n, p.calls + 1, n > 0);
    }

    /** What has been announced is what the records read so far call for. */
    lemma EventsRead(bytes: seq<byte>)
      requires HasRead(bytes)
      ensures events == MouseEvents.Announced(cal, Records(bytes)) && oldmouse == MouseEvents.At(cal, Records(bytes))
    {
      MeaningIff(cal, bytes, view, buffer);
      MouseEvents.EventsAre(cal, Records(bytes));
    }

    /** Read until a call delivers nothing.  However the calls cut the pending bytes, what was read
        before and now determines samples, position and events. */
    method ReadMouseData(ghost before: seq<byte>, pending: seq<byte>, sizes: seq<nat>)
      returns (taken: nat, ghost read: seq<byte>)
      requires HasRead(before) && Safe(before + pending)
      modifies this, sx, sy, mouseBuf
      ensures HasRead(read)
      ensures taken == Reads(|before|, |pending|, sizes) && read == SoFar(before, pending, taken)
      ensures events == MouseEvents.Announced(cal, Records(read)) && oldmouse == MouseEvents.At(cal, Records(read))
    {
      read := before;
      var p := Place(0, 0, true);
      Begin(before, pending, sizes);
      while p.more
        invariant HasRead(read)
        invariant OnTheWay(before, pending, sizes, read, p)
        decreases |sizes| + 1 - p.calls
      {
        p, read := ReadNext(read, before, pending, sizes, p);
      }
      taken := p.taken;
      EventsRead(read);
    }
  }
}
