/** The decoder as an object that overwrites its two character buffers in place. */
module RdsReceiver {
  import opened RdsInfo

  datatype Notification = Nothing | TimeNotification(time: Time)

  lemma WriteTwice(text: seq<bv8>, at: nat, first: seq<bv8>, second: seq<bv8>)
    requires at + |first| + |second| <= |text|
    ensures Write(Write(text, at, first), at + |first|, second) == Write(text, at, first + second)
  {
  }

  /** What was stored, and what is shown of it, make up the new information. */
  lemma TextAdded(i: Info, p: Packet, stored: Info, show: bool, text: seq<bv8>)
    requires Valid(i) && p.kind == Text
    requires stored == i.(lastABState := p.flag, radioTextBuf := NewText(i, p))
    requires show == Publishes(stored.radioTextBuf, p.End()) && (show ==> text == Message(stored.radioTextBuf))
    ensures AddText(i, p) == if show then stored.(radioText := text) else stored
  {
  }

  class RdsProgramInfo {
    var piCode: int
    var ptyCode: int
    var trafficProgram: bool
    var trafficAnnouncement: bool
    var isMusic: bool
    var lastABState: bool
    const programName: array<bv8>
    const radioTextBuf: array<bv8>
    var radioText: seq<bv8>

    ghost predicate Sound()
      reads this
    {
      programName.Length == NAME_SIZE && radioTextBuf.Length == TEXT_SIZE && programName != radioTextBuf
    }

    ghost function View(): (i: Info)
      reads this, programName, radioTextBuf
      requires Sound()
      ensures Valid(i)
    {
      Info(piCode, ptyCode, trafficProgram, trafficAnnouncement, isMusic, lastABState, programName[..],
           radioTextBuf[..], radioText)
    }

    constructor ()
      ensures Sound() && fresh(programName) && fresh(radioTextBuf) && View() == CLEARED
    {
      programName := new bv8[NAME_SIZE];
      radioTextBuf := new bv8[TEXT_SIZE];
      piCode, ptyCode, trafficProgram, trafficAnnouncement := 0, 0, false, false;
      isMusic, lastABState, radioText := false, false, [];
      new;
      Clear();
    }

    method Clear()
      requires Sound()
      modifies this, programName, radioTextBuf
      ensures Sound() && View() == CLEARED
      ensures piCode == ptyCode == -1 && !trafficProgram && !trafficAnnouncement && isMusic && radioText == []
      ensures forall k :: 0 <= k < 8 ==> programName[k] == 0
    {
      piCode, ptyCode := -1, -1;
      trafficProgram, trafficAnnouncement, isMusic, lastABState := false, false, true, false;
      Fill(programName);
      Fill(radioTextBuf);
      radioText := [];
    }

    static method Fill(a: array<bv8>)
      modifies a
      ensures a[..] == Zeros(a.Length)
    {
      for k := 0 to a.Length
        invariant forall j :: 0 <= j < k ==> a[j] == 0
      {
        a[k] := 0;
      }
    }

    /** Position of the first carriage return, or the size of the buffer. */
    method SearchCr() returns (at: nat)
      requires Sound()
      ensures at == FindCr(radioTextBuf[..])
    {
      at := 0;
      while at < TEXT_SIZE && radioTextBuf[at] != CR
        invariant 0 <= at <= TEXT_SIZE
        invariant forall k :: 0 <= k < at ==> radioTextBuf[k] != CR
      {
        at := at + 1;
      }
    }

    method AddTuningGroup(data: seq<bv8>)
      requires Sound() && KindOf(data) == Tuning
      modifies this`trafficAnnouncement, this`isMusic, programName
      ensures View() == AddTuning(old(View()), Parse(data))
    {
      trafficAnnouncement := Flag(data, 0x10);
      isMusic := Flag(data, 0x08);
      var posn := Segment(data, 0x03) * 2;
      PutPair(programName, posn, Msb(data, 3), Lsb(data, 3));
    }

    static method PutPair(a: array<bv8>, at: nat, c0: bv8, c1: bv8)
      requires at + 2 <= a.Length
      modifies a
      ensures a[..] == Write(old(a[..]), at, [c0, c1])
    {
      a[at] := c0;
      a[at + 1] := c1;
    }

    method StoreText(data: seq<bv8>) returns (index: nat)
      requires Sound() && KindOf(data) == Text
      modifies this`lastABState, radioTextBuf
      ensures index == Parse(data).End()
      ensures View() == old(View()).(lastABState := Parse(data).flag, radioTextBuf := NewText(old(View()), Parse(data)))
    {
      Restart(Flag(data, 0x10));
      index := PutText(data);
    }

    /** When the A/B flag has flipped the buffer is cleared. */
    method Restart(ab: bool)
      requires Sound()
      modifies this`lastABState, radioTextBuf
      ensures View() == old(View()).(
                          lastABState := ab,
                          radioTextBuf := if ab != old(lastABState) then Zeros(TEXT_SIZE) else old(radioTextBuf[..]))
    {
      if ab != lastABState {
        Fill(radioTextBuf);
        lastABState := ab;
      }
    }

    /** Store the characters and return the position behind them. */
    method PutText(data: seq<bv8>) returns (index: nat)
      requires Sound() && KindOf(data) == Text
      modifies radioTextBuf
      ensures index == Parse(data).End()
      ensures View() == old(View()).(radioTextBuf := Write(old(radioTextBuf[..]), Parse(data).start, Parse(data).chars))
    {
      ghost var base := radioTextBuf[..];
      index := Segment(data, 0x0F);
      if IsTypeA(data) {
        index := index * 4;
        PutPair(radioTextBuf, index, Msb(data, 2), Lsb(data, 2));
        PutPair(radioTextBuf, index + 2, Msb(data, 3), Lsb(data, 3));
        WriteTwice(base, index, [Msb(data, 2), Lsb(data, 2)], [Msb(data, 3), Lsb(data, 3)]);
        index := index + 4;
      } else {
        index := index * 2;
        PutPair(radioTextBuf, index, Msb(data, 3), Lsb(data, 3));
        index := index + 2;
      }
    }

    method AddTextGroup(data: seq<bv8>)
      requires Sound() && KindOf(data) == Text
      modifies this`lastABState, this`radioText, radioTextBuf
      ensures View() == AddText(old(View()), Parse(data))
    {
      ghost var i, p := View(), Parse(data);
      var index := StoreText(data);
      ghost var stored := View();
      var show, text := ShownText(index);
      TextAdded(i, p, stored, show, text);
      if show { ShowText(text); }
    }

    method ShowText(text: seq<bv8>)
      requires Sound()
      modifies this`radioText
      ensures View() == old(View()).(radioText := text)
    {
      radioText := text;
    }

    /** What is shown once the group that ends at `end` has been stored, if anything. */
    method ShownText(end: nat) returns (show: bool, text: seq<bv8>)
      requires Sound()
      ensures show == Publishes(radioTextBuf[..], end)
      ensures show ==> text == Message(radioTextBuf[..])
    {
      var cr := SearchCr();
      show, text := end >= TEXT_SIZE || cr < TEXT_SIZE, [];
      if show {
        var index := if cr < TEXT_SIZE then cr else TEXT_SIZE;
        text := Shown(radioTextBuf[..index]);
        assert radioTextBuf[..index] == radioTextBuf[..][..index];
      }
    }

    method AddGroup(data: seq<bv8>) returns (note: Notification)
      requires Sound()
      modifies this, programName, radioTextBuf
      ensures Sound() && View() == Apply(old(View()), data)
      ensures note == if Notifies(data) then TimeNotification(ClockOf(data)) else Nothing
    {
      note := Nothing;
      piCode := Word(data, 0) as int;
      ptyCode := PtyBits(data) as int;
      trafficProgram := Msb(data, 1) & 0x04 != 0;
      assert View() == AddCommon(old(View()), data);
      var kind := KindOf(data);
      match kind {
        case Tuning => AddTuningGroup(data);
        case Text => AddTextGroup(data);
        case Clock => if !IsTypeB(data) { note := TimeNotification(ClockOf(data)); }
        case Other =>
      }
    }
  }
}
