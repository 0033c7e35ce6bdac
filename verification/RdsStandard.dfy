/** The encoder of the United States RBDS Standard of April 9, 1998, and the proof that the decoder
    inverts it for every value of every field. */
module RdsStandard {
  import opened RdsInfo

  function Lo(w: bv16): bv8 { (w & 0xFF) as bv8 }

  function Hi(w: bv16): bv8 { (w >> 8) as bv8 }

  /** Blocks A to D, sent least significant byte first. */
  function Pack(a: bv16, b: bv16, c: bv16, d: bv16): seq<bv8> {
    [Lo(a), Hi(a), Lo(b), Hi(b), Lo(c), Hi(c), Lo(d), Hi(d)]
  }

  /** Block B: group type, version, traffic program, program type, and five bits of the group's own. */
  function BlockB(kind: bv8, versionB: bool, tp: bool, pty: bv8, own: bv8): bv16
    requires kind < 16 && pty < 32 && own < 32
  {
    ((kind as bv16) << 12) | (if versionB then 0x0800 else 0) | (if tp then 0x0400 else 0) | ((pty as bv16) << 5)
        | (own as bv16)
  }

  function TwoChars(first: bv8, second: bv8): bv16 {
    ((first as bv16) << 8) | (second as bv16)
  }

  lemma WordSplit(w: bv16)
    ensures (Lo(w) as bv16) | ((Hi(w) as bv16) << 8) == w
  {
  }

  lemma TwoCharsSplit(first: bv8, second: bv8)
    ensures Hi(TwoChars(first, second)) == first && Lo(TwoChars(first, second)) == second
  {
  }

  lemma BlockBFields(kind: bv8, versionB: bool, tp: bool, pty: bv8, own: bv8)
    requires kind < 16 && pty < 32 && own < 32
    ensures var b := BlockB(kind, versionB, tp, pty, own);
            && Hi(b) >> 4 == kind
            && (Hi(b) & 0x08 != 0 <==> versionB)
            && (Hi(b) & 0x04 != 0 <==> tp)
            && ((Hi(b) & 0x03) << 3) | ((Lo(b) & 0xE0) >> 5) == pty
            && Lo(b) & 0x1F == own
  {
  }

  // ---------------------------------------------------------------- every group

  function Group(pi: bv16, kind: bv8, versionB: bool, tp: bool, pty: bv8, own: bv8, c: bv16, d: bv16): seq<bv8>
    requires kind < 16 && pty < 32 && own < 32
  {
    Pack(pi, BlockB(kind, versionB, tp, pty, own), c, d)
  }

  lemma WordOf(g: seq<bv8>, block: nat, w: bv16)
    requires 2 * block + 1 < |g| && g[2 * block] == Lo(w) && g[2 * block + 1] == Hi(w)
    ensures Word(g, block) == w
  {
    WordSplit(w);
  }

  lemma KindOfBits(g: seq<bv8>, kind: bv8)
    requires |g| == 8 && g[3] >> 4 == kind
    ensures KindOf(g) == if kind == 0 then Tuning else if kind == 2 then Text else if kind == 4 then Clock else Other
  {
  }

  /** The type, the version, the program type and the group's own bits are recovered. */
  lemma BlockBDecoded(g: seq<bv8>, kind: bv8, versionB: bool, tp: bool, pty: bv8, own: bv8)
    requires kind < 16 && pty < 32 && own < 32 && |g| == 8
    requires g[2] == Lo(BlockB(kind, versionB, tp, pty, own)) && g[3] == Hi(BlockB(kind, versionB, tp, pty, own))
    ensures KindOf(g) == if kind == 0 then Tuning else if kind == 2 then Text else if kind == 4 then Clock else Other
    ensures IsTypeA(g) == !versionB && IsTypeB(g) == versionB
    ensures Flags(g) == own && PtyBits(g) == pty && (Msb(g, 1) & 0x04 != 0 <==> tp)
  {
    BlockBFields(kind, versionB, tp, pty, own);
    KindOfBits(g, kind);
  }

  /** What is common to every group is decoded whatever the group is. */
  lemma CommonRoundTrip(i: Info, pi: bv16, kind: bv8, versionB: bool, tp: bool, pty: bv8, own: bv8, c: bv16, d: bv16)
    requires Valid(i) && kind < 16 && pty < 32 && own < 32
    ensures var r := Apply(i, Group(pi, kind, versionB, tp, pty, own, c, d));
            r.piCode == pi as int && r.ptyCode == pty as int && r.trafficProgram == tp
  {
    var g := Group(pi, kind, versionB, tp, pty, own, c, d);
    WordOf(g, 0, pi);
    BlockBDecoded(g, kind, versionB, tp, pty, own);
    CommonKept(i, g);
  }

  /** The type of the group does not matter for what is common. */
  lemma CommonKept(i: Info, g: seq<bv8>)
    requires Valid(i)
    ensures var r := Apply(i, g);
            && r.piCode == Word(g, 0) as int && r.ptyCode == PtyBits(g) as int
            && r.trafficProgram == (Msb(g, 1) & 0x04 != 0)
  {
    PacketKeepsCommon(AddCommon(i, g), Parse(g));
  }

  lemma PacketKeepsCommon(i: Info, p: Packet)
    requires Valid(i)
    ensures var r := AddPacket(i, p);
            r.piCode == i.piCode && r.ptyCode == i.ptyCode && r.trafficProgram == i.trafficProgram
  {
  }

  /** Of a group that is neither of type 0 nor of type 2 nothing but that is kept. */
  lemma OtherRoundTrip(i: Info, pi: bv16, kind: bv8, versionB: bool, tp: bool, pty: bv8, own: bv8, c: bv16, d: bv16)
    requires Valid(i) && kind < 16 && kind != 0 && kind != 2 && pty < 32 && own < 32
    ensures Apply(i, Group(pi, kind, versionB, tp, pty, own, c, d)) ==
            i.(piCode := pi as int, ptyCode := pty as int, trafficProgram := tp)
  {
    var g := Group(pi, kind, versionB, tp, pty, own, c, d);
    CommonRoundTrip(i, pi, kind, versionB, tp, pty, own, c, d);
    BlockBDecoded(g, kind, versionB, tp, pty, own);
    OtherKeeps(i, g);
  }

  lemma OtherKeeps(i: Info, g: seq<bv8>)
    requires Valid(i) && KindOf(g) != Tuning && KindOf(g) != Text
    ensures Apply(i, g) == AddCommon(i, g)
  {
  }

  /** The time is only announced by groups of type 4A. */
  lemma NotifiedIff(pi: bv16, kind: bv8, versionB: bool, tp: bool, pty: bv8, own: bv8, c: bv16, d: bv16)
    requires kind < 16 && pty < 32 && own < 32
    ensures Notifies(Group(pi, kind, versionB, tp, pty, own, c, d)) <==> kind == 4 && !versionB
  {
    BlockBDecoded(Group(pi, kind, versionB, tp, pty, own, c, d), kind, versionB, tp, pty, own);
  }

  /** A group without its second block has no type, and what is missing counts as 0. */
  lemma ShortGroup(i: Info, g: seq<bv8>)
    requires Valid(i) && |g| in {0, 2}
    ensures Apply(i, g) == i.(piCode := Apply(i, g).piCode, ptyCode := 0, trafficProgram := false)
    ensures Apply(i, g).piCode == (if g == [] then 0 else ((g[0] as bv16) | ((g[1] as bv16) << 8)) as int)
    ensures !Notifies(g)
  {
  }

  /** The first two blocks decide what a group is, whether the others have come or not. */
  lemma TypeFromTwoBlocks(g: seq<bv8>)
    requires |g| >= 4
    ensures KindOf(g) == KindOf(g[..4]) && IsTypeB(g) == IsTypeB(g[..4]) && Notifies(g) == Notifies(g[..4])
  {
    assert g[..4][3] == g[3];
  }

  // ---------------------------------------------------------------- type 0, section 3.1.5.1

  function TuningBits(ta: bool, music: bool, di: bool, segment: bv8): (r: bv8)
    requires segment < 4
    ensures r < 32
  {
    (if ta then 0x10 else 0) | (if music then 0x08 else 0) | (if di then 0x04 else 0) | segment
  }

  lemma TuningFields(ta: bool, music: bool, di: bool, segment: bv8)
    requires segment < 4
    ensures var own := TuningBits(ta, music, di, segment);
            (own & 0x10 != 0 <==> ta) && (own & 0x08 != 0 <==> music) && own & 0x03 == segment
  {
  }

  /** Texts are left alone. */
  ghost predicate OnlyTuning(i: Info, r: Info) {
    r.lastABState == i.lastABState && r.radioTextBuf == i.radioTextBuf && r.radioText == i.radioText
  }

  /** A type 0 group, of either version, sets the flags and puts its two characters in place. */
  lemma TuningRoundTrip(i: Info, pi: bv16, versionB: bool, tp: bool, pty: bv8, ta: bool, music: bool, di: bool,
                        segment: bv8, c: bv16, first: bv8, second: bv8)
    requires Valid(i) && pty < 32 && segment < 4
    ensures var own := TuningBits(ta, music, di, segment);
            var r := Apply(i, Group(pi, 0, versionB, tp, pty, own, c, TwoChars(first, second)));
            && r.trafficAnnouncement == ta && r.isMusic == music
            && 2 * (segment as nat) + 1 < NAME_SIZE
            && r.programName[2 * (segment as nat)] == first && r.programName[2 * (segment as nat) + 1] == second
            && (forall p :: 0 <= p < NAME_SIZE && p / 2 != segment as nat ==> r.programName[p] == i.programName[p])
            && OnlyTuning(i, r)
  {
    var g := Group(pi, 0, versionB, tp, pty, TuningBits(ta, music, di, segment), c, TwoChars(first, second));
    BlockBDecoded(g, 0, versionB, tp, pty, TuningBits(ta, music, di, segment));
    TuningFields(ta, music, di, segment);
    TwoCharsSplit(first, second);
    TuningParsed(i, g, segment);
  }

  lemma TuningParsed(i: Info, g: seq<bv8>, segment: bv8)
    requires Valid(i) && segment < 4 && |g| == 8 && KindOf(g) == Tuning && Flags(g) & 0x03 == segment
    ensures var r, at := Apply(i, g), 2 * (segment as nat);
            && r.trafficAnnouncement == Flag(g, 0x10) && r.isMusic == Flag(g, 0x08)
            && at + 1 < NAME_SIZE && r.programName[at] == Msb(g, 3) && r.programName[at + 1] == Lsb(g, 3)
            && (forall p :: 0 <= p < NAME_SIZE && p / 2 != segment as nat ==> r.programName[p] == i.programName[p])
            && OnlyTuning(i, r)
  {
  }

  // ---------------------------------------------------------------- type 2, section 3.1.5.3

  function TextBits(ab: bool, segment: bv8): (r: bv8)
    requires segment < 16
    ensures r < 32
  {
    (if ab then 0x10 else 0) | segment
  }

  lemma TextFields(ab: bool, segment: bv8)
    requires segment < 16
    ensures (TextBits(ab, segment) & 0x10 != 0 <==> ab) && TextBits(ab, segment) & 0x0F == segment
  {
  }

  function TextGroup(pi: bv16, tp: bool, pty: bv8, ab: bool, segment: bv8, chars: seq<bv8>): seq<bv8>
    requires pty < 32 && segment < 16 && |chars| == 4
  {
    Group(pi, 2, false, tp, pty, TextBits(ab, segment), TwoChars(chars[0], chars[1]), TwoChars(chars[2], chars[3]))
  }

  /** A type 2A group is seen by the decoder as its four characters at four times the segment. */
  lemma TextARoundTrip(pi: bv16, tp: bool, pty: bv8, ab: bool, segment: bv8, chars: seq<bv8>)
    requires pty < 32 && segment < 16 && |chars| == 4
    ensures var g := TextGroup(pi, tp, pty, ab, segment, chars);
            && Parse(g).kind == Text && Parse(g).flag == ab
            && Parse(g).start == 4 * (segment as nat) && Parse(g).chars == chars
  {
    var g := TextGroup(pi, tp, pty, ab, segment, chars);
    BlockBDecoded(g, 2, false, tp, pty, TextBits(ab, segment));
    TextFields(ab, segment);
    TwoCharsSplit(chars[0], chars[1]);
    TwoCharsSplit(chars[2], chars[3]);
  }

  /** A type 2B group is seen as its two characters at twice the segment. */
  lemma TextBRoundTrip(pi: bv16, tp: bool, pty: bv8, ab: bool, segment: bv8, c: bv16, first: bv8, second: bv8)
    requires pty < 32 && segment < 16
    ensures var p := Parse(Group(pi, 2, true, tp, pty, TextBits(ab, segment), c, TwoChars(first, second)));
            p.kind == Text && p.flag == ab && p.start == 2 * (segment as nat) && p.chars == [first, second]
  {
    var g := Group(pi, 2, true, tp, pty, TextBits(ab, segment), c, TwoChars(first, second));
    BlockBDecoded(g, 2, true, tp, pty, TextBits(ab, segment));
    TextFields(ab, segment);
    TwoCharsSplit(first, second);
  }

  /** A type 2 group leaves the station name and the other flags alone. */
  lemma TextKeeps(i: Info, pi: bv16, versionB: bool, tp: bool, pty: bv8, own: bv8, c: bv16, d: bv16)
    requires Valid(i) && pty < 32 && own < 32
    ensures var r := Apply(i, Group(pi, 2, versionB, tp, pty, own, c, d));
            && r.programName == i.programName
            && r.trafficAnnouncement == i.trafficAnnouncement && r.isMusic == i.isMusic
  {
    var g := Group(pi, 2, versionB, tp, pty, own, c, d);
    BlockBDecoded(g, 2, versionB, tp, pty, own);
    TextOnly(AddCommon(i, g), Parse(g));
  }

  lemma TextOnly(i: Info, p: Packet)
    requires Valid(i) && p.kind == Text
    ensures var r := AddPacket(i, p);
            && r.programName == i.programName
            && r.trafficAnnouncement == i.trafficAnnouncement && r.isMusic == i.isMusic
  {
  }

  // ---------------------------------------------------------------- type 4A, section 3.1.5.6

  function ClockB(spare: bv8, day: bv32): (r: bv8)
    requires spare < 8 && day < 0x20000
    ensures r < 32
  {
    (spare << 2) | ((day >> 15) as bv8)
  }

  function ClockC(day: bv32, hour: bv8): bv16
    requires hour < 32
  {
    (((day & 0x7FFF) as bv16) << 1) | ((hour as bv16) >> 4)
  }

  function ClockD(hour: bv8, minute: bv8, negative: bool, halves: bv8): bv16
    requires hour < 32 && minute < 64 && halves < 32
  {
    (((hour & 0x0F) as bv16) << 12) | ((minute as bv16) << 6) | (if negative then 0x20 else 0) | (halves as bv16)
  }

  lemma DayBits(spare: bv8, day: bv32, hour: bv8)
    requires spare < 8 && day < 0x20000 && hour < 32
    ensures ((ClockC(day, hour) >> 1) as bv32) | (((ClockB(spare, day) & 0x03) as bv32) << 15) == day
  {
  }

  lemma HourBits(day: bv32, hour: bv8, minute: bv8, negative: bool, halves: bv8)
    requires hour < 32 && minute < 64 && halves < 32
    ensures ((Lo(ClockC(day, hour)) & 0x01) << 4) | ((Hi(ClockD(hour, minute, negative, halves)) & 0xF0) >> 4) == hour
  {
  }

  lemma MinuteBits(hour: bv8, minute: bv8, negative: bool, halves: bv8)
    requires hour < 32 && minute < 64 && halves < 32
    ensures var d := ClockD(hour, minute, negative, halves);
            && ((Hi(d) & 0x0F) << 2) | ((Lo(d) & 0xC0) >> 6) == minute
            && (Lo(d) & 0x20 != 0 <==> negative)
            && Lo(d) & 0x1F == halves
  {
  }

  /** Day number (17 bits), hour, minute and the signed offset in half hours. */
  lemma ClockRoundTrip(pi: bv16, tp: bool, pty: bv8, spare: bv8, day: bv32, hour: bv8, minute: bv8, negative: bool,
                       halves: bv8)
    requires pty < 32 && spare < 8 && day < 0x20000 && hour < 32 && minute < 64 && halves < 32
    ensures var d := ClockD(hour, minute, negative, halves);
            var g := Group(pi, 4, false, tp, pty, ClockB(spare, day), ClockC(day, hour), d);
            && Notifies(g)
            && ClockOf(g) == Time(day as int, hour as int, minute as int,
                                  (if negative then -30 else 30) * (halves as int))
  {
    var b, c, d := ClockB(spare, day), ClockC(day, hour), ClockD(hour, minute, negative, halves);
    var g := Group(pi, 4, false, tp, pty, b, c, d);
    BlockBDecoded(g, 4, false, tp, pty, b);
    WordOf(g, 2, c);
    DayBits(spare, day, hour);
    HourBits(day, hour, minute, negative, halves);
    MinuteBits(hour, minute, negative, halves);
    assert Lsb(g, 2) == Lo(c) && Msb(g, 3) == Hi(d) && Lsb(g, 3) == Lo(d);
    ClockAssembled(g, day, hour, minute, negative, halves);
  }

  lemma ClockAssembled(g: seq<bv8>, day: bv32, hour: bv8, minute: bv8, negative: bool, halves: bv8)
    requires ((Word(g, 2) >> 1) as bv32) | (((Flags(g) & 0x03) as bv32) << 15) == day
    requires ((Lsb(g, 2) & 0x01) << 4) | ((Msb(g, 3) & 0xF0) >> 4) == hour
    requires ((Msb(g, 3) & 0x0F) << 2) | ((Lsb(g, 3) & 0xC0) >> 6) == minute
    requires Lsb(g, 3) & 0x20 != 0 <==> negative
    requires Lsb(g, 3) & 0x1F == halves
    ensures ClockOf(g) == Time(day as int, hour as int, minute as int, (if negative then -30 else 30) * (halves as int))
  {
  }
}
