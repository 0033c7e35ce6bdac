/** Decoding complete groups of the Radio Data System into station name, RadioText and clock time.
    A group is the sequence of its data bytes; blocks arrive least significant byte first. */
module RdsInfo {
  const NAME_SIZE := 8
  const TEXT_SIZE := 64
  const CR: bv8 := 0x0D

  // ---------------------------------------------------------------- reading a group

  function Lsb(data: seq<bv8>, block: nat): bv8 {
    if block * 2 < |data| then data[block * 2] else 0
  }

  function Msb(data: seq<bv8>, block: nat): bv8 {
    if block * 2 + 1 < |data| then data[block * 2 + 1] else 0
  }

  function Word(data: seq<bv8>, block: nat): bv16 {
    if block * 2 + 1 < |data| then (data[block * 2] as bv16) | ((data[block * 2 + 1] as bv16) << 8) else 0
  }

  datatype Kind = Tuning | Text | Clock | Other

  /** What the decoder does with a group; an incomplete one has no type. */
  function KindOf(data: seq<bv8>): Kind {
    if |data| < 4 then Other
    else if data[3] >> 4 == 0 then Tuning
    else if data[3] >> 4 == 2 then Text
    else if data[3] >> 4 == 4 then Clock
    else Other
  }

  predicate IsTypeA(data: seq<bv8>) {
    |data| >= 4 && data[3] & 0x08 == 0
  }

  predicate IsTypeB(data: seq<bv8>) {
    |data| >= 4 && data[3] & 0x08 != 0
  }

  function Flags(data: seq<bv8>): bv8 {
    Lsb(data, 1) & 0x1F
  }

  function Flag(data: seq<bv8>, mask: bv8): bool {
    Flags(data) & mask != 0
  }

  /** The segment address in the low `bits` of the flags. */
  function Segment(data: seq<bv8>, mask: bv8): (r: nat)
    requires mask <= 0x0F
    ensures r <= mask as nat
  {
    (Flags(data) & mask) as nat
  }

  /** The part of a group that is specific to its type: the first flag (A/B for RadioText, traffic
      announcement for tuning), the second flag, and characters with their place. */
  datatype RawPacket = Packet(kind: Kind, flag: bool, music: bool, start: nat, chars: seq<bv8>) {
    ghost predicate WellFormed() {
      && (kind == Text ==>
            if |chars| == 4 then start % 4 == 0 && start <= 60 else |chars| == 2 && start % 2 == 0 && start <= 30)
      && (kind == Tuning ==> |chars| == 2 && start % 2 == 0 && start + 2 <= NAME_SIZE)
    }
    function End(): nat { start + |chars| }
  }

  type Packet = p: RawPacket | p.WellFormed() witness RawPacket.Packet(Other, false, false, 0, [])

  function Parse(data: seq<bv8>): Packet {
    var kind := KindOf(data);
    var last := [Msb(data, 3), Lsb(data, 3)];
    var chars := if kind == Text && IsTypeA(data) then [Msb(data, 2), Lsb(data, 2)] + last else last;
    var start :=
      if kind == Text then Segment(data, 0x0F) * |chars| else if kind == Tuning then Segment(data, 0x03) * 2 else 0;
    RawPacket.Packet(kind, Flag(data, 0x10), Flag(data, 0x08), start, chars)
  }

  // ---------------------------------------------------------------- text

  /** What the C library calls white space. */
  predicate IsSpace(c: bv8) {
    0x09 <= c <= 0x0D || c == 0x20
  }

  function TrimLeft(s: seq<bv8>): (r: seq<bv8>)
    ensures |r| <= |s| && r == s[|s| - |r|..]
    ensures r != [] ==> !IsSpace(r[0])
    ensures forall k :: 0 <= k < |s| - |r| ==> IsSpace(s[k])
  {
    if s != [] && IsSpace(s[0]) then TrimLeft(s[1..]) else s
  }

  function TrimRight(s: seq<bv8>): (r: seq<bv8>)
    ensures r <= s
    ensures r != [] ==> !IsSpace(r[|r| - 1])
    ensures forall k :: |r| <= k < |s| ==> IsSpace(s[k])
  {
    if s != [] && IsSpace(s[|s| - 1]) then TrimRight(s[..|s| - 1]) else s
  }

  function Trim(s: seq<bv8>): seq<bv8> {
    TrimRight(TrimLeft(s))
  }

  function UpToNul(s: seq<bv8>): (r: seq<bv8>)
    ensures r <= s
    ensures 0 !in r
    ensures |r| < |s| ==> s[|r|] == 0
  {
    if s == [] || s[0] == 0 then [] else
      var r := UpToNul(s[1..]);
      assert s == [s[0]] + s[1..];
      [s[0]] + r
  }

  /** The string shown to the user: trimmed, and read as a C string. */
  function Shown(s: seq<bv8>): seq<bv8> {
    UpToNul(Trim(s))
  }

  function FindCr(text: seq<bv8>): (r: nat)
    ensures r <= |text|
    ensures r < |text| ==> text[r] == CR
    ensures forall k :: 0 <= k < r ==> text[k] != CR
  {
    if text == [] || text[0] == CR then 0 else 1 + FindCr(text[1..])
  }

  function Zeros(n: nat): (r: seq<bv8>)
    ensures |r| == n && forall k :: 0 <= k < n ==> r[k] == 0
  {
    seq(n, _ => 0)
  }

  function Write(text: seq<bv8>, at: nat, chars: seq<bv8>): (r: seq<bv8>)
    requires at + |chars| <= |text|
    ensures |r| == |text|
    ensures forall p :: 0 <= p < |text| ==> r[p] == if at <= p < at + |chars| then chars[p - at] else text[p]
  {
    text[..at] + chars + text[at + |chars|..]
  }

  // ---------------------------------------------------------------- the decoder

  datatype Time = Time(julianDay: int, hour: int, minute: int, zone: int)

  datatype Info = Info(piCode: int, ptyCode: int, trafficProgram: bool, trafficAnnouncement: bool, isMusic: bool,
                       lastABState: bool, programName: seq<bv8>, radioTextBuf: seq<bv8>, radioText: seq<bv8>)

  predicate Valid(i: Info) {
    |i.programName| == NAME_SIZE && |i.radioTextBuf| == TEXT_SIZE
  }

  const CLEARED := Info(-1, -1, false, false, true, false, Zeros(NAME_SIZE), Zeros(TEXT_SIZE), [])

  function PtyBits(data: seq<bv8>): bv8 {
    ((Msb(data, 1) & 0x03) << 3) | ((Lsb(data, 1) & 0xE0) >> 5)
  }

  function AddCommon(i: Info, data: seq<bv8>): Info {
    i.(piCode := Word(data, 0) as int, ptyCode := PtyBits(data) as int, trafficProgram := Msb(data, 1) & 0x04 != 0)
  }

  function AddTuning(i: Info, p: Packet): Info
    requires Valid(i) && p.kind == Tuning
  {
    i.(trafficAnnouncement := p.flag, isMusic := p.music, programName := Write(i.programName, p.start, p.chars))
  }

  /** The buffer after a RadioText group: cleared first when the A/B flag has flipped. */
  function NewText(i: Info, p: Packet): seq<bv8>
    requires Valid(i) && p.kind == Text
  {
    Write(if p.flag != i.lastABState then Zeros(TEXT_SIZE) else i.radioTextBuf, p.start, p.chars)
  }

  predicate Publishes(text: seq<bv8>, end: nat) {
    end >= TEXT_SIZE || FindCr(text) < |text|
  }

  function Message(text: seq<bv8>): seq<bv8> {
    Shown(text[..FindCr(text)])
  }

  function AddText(i: Info, p: Packet): Info
    requires Valid(i) && p.kind == Text
  {
    var text := NewText(i, p);
    i.(lastABState := p.flag, radioTextBuf := text,
       radioText := if Publishes(text, p.End()) then Message(text) else i.radioText)
  }

  function AddPacket(i: Info, p: Packet): (r: Info)
    requires Valid(i)
    ensures Valid(r)
  {
    match p.kind
    case Tuning => AddTuning(i, p)
    case Text => AddText(i, p)
    case _ => i
  }

  function Apply(i: Info, data: seq<bv8>): (r: Info)
    requires Valid(i)
    ensures Valid(r)
  {
    AddPacket(AddCommon(i, data), Parse(data))
  }

  function ClockOf(data: seq<bv8>): Time {
    var zone := ((Lsb(data, 3) & 0x1F) as int) * 30;
    Time((((Word(data, 2) >> 1) as bv32) | (((Flags(data) & 0x03) as bv32) << 15)) as int,
         (((Lsb(data, 2) & 0x01) << 4) | ((Msb(data, 3) & 0xF0) >> 4)) as int,
         (((Msb(data, 3) & 0x0F) << 2) | ((Lsb(data, 3) & 0xC0) >> 6)) as int,
         if Lsb(data, 3) & 0x20 != 0 then -zone else zone)
  }

  predicate Notifies(data: seq<bv8>) {
    KindOf(data) == Clock && !IsTypeB(data)
  }

  /** The information after a series of groups since the last clear. */
  function Run(gs: seq<seq<bv8>>): (r: Info)
    ensures Valid(r)
  {
    if gs == [] then CLEARED else Apply(Run(gs[..|gs| - 1]), gs[|gs| - 1])
  }
}
