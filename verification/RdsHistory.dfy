/** What the decoder shows, in terms of the whole series of groups it was given. */
module RdsHistory {
  import opened RdsInfo

  /** The information after a series of packets since the last clear. */
  function RunPackets(ps: seq<Packet>): (r: Info)
    ensures Valid(r)
  {
    if ps == [] then CLEARED else AddPacket(RunPackets(ps[..|ps| - 1]), ps[|ps| - 1])
  }

  function ParseAll(gs: seq<seq<bv8>>): (r: seq<Packet>)
    ensures |r| == |gs| && forall k :: 0 <= k < |gs| ==> r[k] == Parse(gs[k])
  {
    seq(|gs|, k requires 0 <= k < |gs| => Parse(gs[k]))
  }

  /** What is common to all groups does not interfere with the rest: the properties below, which
      speak about packets, hold of the groups that carry them. */
  lemma {:induction false} RunParsed(gs: seq<seq<bv8>>)
    ensures SameBut(Run(gs), RunPackets(ParseAll(gs)))
  {
    if gs != [] {
      var prev, data := gs[..|gs| - 1], gs[|gs| - 1];
      RunParsed(prev);
      RunParsedMore(gs, prev, data);
    }
  }

  lemma RunParsedMore(gs: seq<seq<bv8>>, prev: seq<seq<bv8>>, data: seq<bv8>)
    requires gs != [] && prev == gs[..|gs| - 1] && data == gs[|gs| - 1]
    requires SameBut(Run(prev), RunPackets(ParseAll(prev)))
    ensures SameBut(Run(gs), RunPackets(ParseAll(gs)))
  {
    var i, p := Run(prev), RunPackets(ParseAll(prev));
    AddCommonSameBut(i, p, data);
    AddPacketSameBut(AddCommon(i, data), p, Parse(data));
    assert Run(gs) == AddPacket(AddCommon(i, data), Parse(data));
    assert ParseAll(gs)[..|gs| - 1] == ParseAll(prev);
    assert RunPackets(ParseAll(gs)) == AddPacket(p, Parse(data));
  }

  ghost predicate SameBut(r: Info, p: Info) {
    r == p.(piCode := r.piCode, ptyCode := r.ptyCode, trafficProgram := r.trafficProgram)
  }

  lemma AddCommonSameBut(r: Info, p: Info, data: seq<bv8>)
    requires SameBut(r, p)
    ensures SameBut(AddCommon(r, data), p)
  {
  }

  lemma AddPacketSameBut(r: Info, p: Info, g: Packet)
    requires Valid(r) && SameBut(r, p)
    ensures SameBut(AddPacket(r, g), AddPacket(p, g))
  {
  }

  // ---------------------------------------------------------------- who wrote what

  predicate IsText(g: Packet) {
    g.kind == Text
  }

  predicate Covers(g: Packet, p: nat) {
    IsText(g) && g.start <= p < g.End()
  }

  /** The character that the latest packet from number e on brought to position p, or 0. */
  function LastWrite(gs: seq<Packet>, e: nat, p: nat): bv8 {
    if |gs| <= e then 0
    else
      var g := gs[|gs| - 1];
      if Covers(g, p) then g.chars[p - g.start] else LastWrite(gs[..|gs| - 1], e, p)
  }

  /** The A/B flag of the latest RadioText group. */
  function FlagAfter(gs: seq<Packet>): bool {
    if gs == [] then false
    else if IsText(gs[|gs| - 1]) then gs[|gs| - 1].flag
    else FlagAfter(gs[..|gs| - 1])
  }

  /** Position e is where the current message starts: just after the last group of another one. */
  ghost predicate IsEpoch(gs: seq<Packet>, e: nat) {
    && e <= |gs|
    && (forall j :: e <= j < |gs| && IsText(gs[j]) ==> gs[j].flag == FlagAfter(gs))
    && (e > 0 ==> IsText(gs[e - 1]) && gs[e - 1].flag != FlagAfter(gs))
  }

  lemma NoTextNoWrite(gs: seq<Packet>, e: nat, p: nat)
    requires forall j :: e <= j < |gs| ==> !IsText(gs[j])
    ensures LastWrite(gs, e, p) == 0
  {
    if |gs| > e { NoTextNoWrite(gs[..|gs| - 1], e, p); }
  }

  /** The flag is the flag of some group after e, unless there is no RadioText group after e. */
  lemma FlagSource(gs: seq<Packet>, e: nat)
    requires e <= |gs|
    ensures (forall j :: e <= j < |gs| ==> !IsText(gs[j]))
            || exists j :: e <= j < |gs| && IsText(gs[j]) && gs[j].flag == FlagAfter(gs)
  {
    if e < |gs| && !IsText(gs[|gs| - 1]) {
      var prev := gs[..|gs| - 1];
      FlagSource(prev, e);
      assert forall j :: 0 <= j < |prev| ==> prev[j] == gs[j];
    }
  }

  lemma RunText(gs: seq<Packet>, g: Packet)
    ensures var r, i := RunPackets(gs + [g]), RunPackets(gs);
            if IsText(g) then
              && r.radioTextBuf == NewText(i, g) && r.lastABState == g.flag
              && r.radioText == if Publishes(r.radioTextBuf, g.End()) then Message(r.radioTextBuf) else i.radioText
            else
              r.radioTextBuf == i.radioTextBuf && r.lastABState == i.lastABState && r.radioText == i.radioText
  {
    assert (gs + [g])[..|gs|] == gs;
  }

  lemma FlagTracked(gs: seq<Packet>)
    ensures RunPackets(gs).lastABState == FlagAfter(gs)
  {
    if gs != [] {
      var prev, g := gs[..|gs| - 1], gs[|gs| - 1];
      assert gs == prev + [g];
      FlagTracked(prev);
      RunText(prev, g);
    }
  }

  lemma LastWriteExtends(gs: seq<Packet>, g: Packet, e: nat, p: nat)
    requires e <= |gs|
    ensures LastWrite(gs + [g], e, p) == if Covers(g, p) then g.chars[p - g.start] else LastWrite(gs, e, p)
  {
    assert (gs + [g])[..|gs|] == gs;
  }

  lemma EpochShrinks(gs: seq<Packet>, g: Packet, e: nat)
    requires IsEpoch(gs + [g], e)
    ensures e <= |gs|
    ensures IsText(g) && g.flag != FlagAfter(gs) ==> forall j :: e <= j < |gs| ==> !IsText(gs[j])
    ensures !(IsText(g) && g.flag != FlagAfter(gs)) ==> IsEpoch(gs, e)
  {
    var all := gs + [g];
    assert all[..|gs|] == gs;
    assert forall j :: 0 <= j < |gs| ==> all[j] == gs[j];
    assert e <= |gs| by { assert all[|gs|] == g; }
    FlagSource(gs, e);
  }

  /** RadioText never mixes messages: the buffer is exactly what the groups since the last flip of
      the A/B flag (or since the clear) wrote, each position as written last. */
  lemma {:induction false} TextSinceFlip(gs: seq<Packet>, e: nat, p: nat)
    requires IsEpoch(gs, e) && p < TEXT_SIZE
    ensures RunPackets(gs).radioTextBuf[p] == LastWrite(gs, e, p)
  {
    if gs != [] {
      var prev, g := gs[..|gs| - 1], gs[|gs| - 1];
      assert gs == prev + [g];
      RunText(prev, g);
      FlagTracked(prev);
      EpochShrinks(prev, g, e);
      LastWriteExtends(prev, g, e, p);
      if IsText(g) && g.flag != FlagAfter(prev) {
        NoTextNoWrite(prev, e, p);
      } else {
        TextSinceFlip(prev, e, p);
      }
    }
  }

  lemma EpochExists(gs: seq<Packet>) returns (e: nat)
    ensures IsEpoch(gs, e)
  {
    e := |gs|;
    while e > 0 && !(IsText(gs[e - 1]) && gs[e - 1].flag != FlagAfter(gs))
      invariant 0 <= e <= |gs|
      invariant forall j :: e <= j < |gs| && IsText(gs[j]) ==> gs[j].flag == FlagAfter(gs)
    {
      e := e - 1;
    }
  }

  lemma LastWriteSource(gs: seq<Packet>, e: nat, p: nat) returns (j: nat)
    requires LastWrite(gs, e, p) != 0
    ensures e <= j < |gs| && Covers(gs[j], p) && gs[j].chars[p - gs[j].start] == LastWrite(gs, e, p)
    ensures forall k :: j < k < |gs| ==> !Covers(gs[k], p)
  {
    var g := gs[|gs| - 1];
    if Covers(g, p) {
      j := |gs| - 1;
    } else {
      j := LastWriteSource(gs[..|gs| - 1], e, p);
      forall k | j < k < |gs| ensures !Covers(gs[k], p) {
        if k < |gs| - 1 { assert gs[k] == gs[..|gs| - 1][k]; }
      }
    }
  }

  /** Every byte in the buffer comes from a packet of the current message that no later packet has
      overwritten, and no packet of another message came in between. */
  lemma TextByteSource(gs: seq<Packet>, p: nat) returns (j: nat)
    requires p < TEXT_SIZE && RunPackets(gs).radioTextBuf[p] != 0
    ensures j < |gs| && Covers(gs[j], p) && gs[j].chars[p - gs[j].start] == RunPackets(gs).radioTextBuf[p]
    ensures forall k :: j <= k < |gs| && IsText(gs[k]) ==> gs[k].flag == RunPackets(gs).lastABState
    ensures forall k :: j < k < |gs| ==> !Covers(gs[k], p)
  {
    var e := EpochExists(gs);
    TextSinceFlip(gs, e, p);
    FlagTracked(gs);
    j := LastWriteSource(gs, e, p);
  }

  // ---------------------------------------------------------------- the station name

  predicate Names(g: Packet, p: nat) {
    g.kind == Tuning && g.start <= p < g.start + 2
  }

  function LastName(gs: seq<Packet>, p: nat): bv8 {
    if gs == [] then 0
    else
      var g := gs[|gs| - 1];
      if Names(g, p) then g.chars[p - g.start] else LastName(gs[..|gs| - 1], p)
  }

  /** The station name is the latest pair of characters of each segment since the clear. */
  lemma {:induction false} NameIsLatest(gs: seq<Packet>, p: nat)
    requires p < NAME_SIZE
    ensures RunPackets(gs).programName[p] == LastName(gs, p)
  {
    if gs != [] {
      var prev, g := gs[..|gs| - 1], gs[|gs| - 1];
      NameIsLatest(prev, p);
    }
  }

  // ---------------------------------------------------------------- delivery of a message

  /** Part of message m with flag ab: four characters of type 2A, or two of type 2B. */
  ghost predicate PartOf(g: Packet, m: seq<bv8>, ab: bool)
    requires |m| == TEXT_SIZE && IsText(g)
  {
    g.flag == ab && g.chars == m[g.start..g.End()]
  }

  /** All RadioText among the packets is part of message m with flag ab. */
  ghost predicate Broadcast(gs: seq<Packet>, m: seq<bv8>, ab: bool)
    requires |m| == TEXT_SIZE
  {
    forall j :: 0 <= j < |gs| && IsText(gs[j]) ==> PartOf(gs[j], m, ab)
  }

  /** Position p of the text is among the packets. */
  predicate Arrived(gs: seq<Packet>, p: nat) {
    gs != [] && (Covers(gs[|gs| - 1], p) || Arrived(gs[..|gs| - 1], p))
  }

  predicate SomeText(gs: seq<Packet>) {
    gs != [] && (IsText(gs[|gs| - 1]) || SomeText(gs[..|gs| - 1]))
  }

  lemma ArrivedIff(gs: seq<Packet>, p: nat)
    ensures Arrived(gs, p) <==> exists j :: 0 <= j < |gs| && Covers(gs[j], p)
  {
    if gs != [] {
      var prev := gs[..|gs| - 1];
      ArrivedIff(prev, p);
      assert forall j :: 0 <= j < |prev| ==> prev[j] == gs[j];
    }
  }

  /** The decoder holds nothing of a message with flag ab. */
  predicate Fresh(hist: seq<Packet>, ab: bool) {
    FlagAfter(hist) != ab || !SomeText(hist)
  }

  lemma SilentHistory(hist: seq<Packet>)
    requires !SomeText(hist)
    ensures RunPackets(hist).radioTextBuf == Zeros(TEXT_SIZE)
  {
    if hist != [] {
      assert hist == hist[..|hist| - 1] + [hist[|hist| - 1]];
      SilentHistory(hist[..|hist| - 1]);
      RunText(hist[..|hist| - 1], hist[|hist| - 1]);
    }
  }

  /** The buffer holds what has arrived of m, and zeros. */
  ghost predicate Holds(text: seq<bv8>, gs: seq<Packet>, m: seq<bv8>) {
    && |m| == |text| == TEXT_SIZE
    && forall p :: 0 <= p < TEXT_SIZE ==> text[p] == if Arrived(gs, p) then m[p] else 0
  }

  lemma ArrivedMore(gs: seq<Packet>, g: Packet, p: nat)
    ensures Arrived(gs + [g], p) <==> Covers(g, p) || Arrived(gs, p)
  {
    assert (gs + [g])[..|gs|] == gs;
  }

  /** One position of the buffer after a part of m. */
  lemma NewTextAt(i: Info, g: Packet, m: seq<bv8>, ab: bool, p: nat)
    requires Valid(i) && |m| == TEXT_SIZE && IsText(g) && PartOf(g, m, ab) && p < TEXT_SIZE
    ensures NewText(i, g)[p] ==
            if Covers(g, p) then m[p] else if ab != i.lastABState then 0 else i.radioTextBuf[p]
  {
  }

  lemma HoldsMore(i: Info, prev: seq<Packet>, g: Packet, m: seq<bv8>)
    requires Valid(i) && |m| == TEXT_SIZE && IsText(g) && PartOf(g, m, i.lastABState) && Holds(i.radioTextBuf, prev, m)
    ensures Holds(NewText(i, g), prev + [g], m)
  {
    forall p | 0 <= p < TEXT_SIZE ensures NewText(i, g)[p] == if Arrived(prev + [g], p) then m[p] else 0 {
      NewTextAt(i, g, m, i.lastABState, p);
      ArrivedMore(prev, g, p);
    }
  }

  lemma HoldsFirst(i: Info, prev: seq<Packet>, g: Packet, m: seq<bv8>, ab: bool)
    requires Valid(i) && |m| == TEXT_SIZE && IsText(g) && PartOf(g, m, ab) && !SomeText(prev)
    requires i.lastABState != ab || i.radioTextBuf == Zeros(TEXT_SIZE)
    ensures Holds(NewText(i, g), prev + [g], m)
  {
    forall p | 0 <= p < TEXT_SIZE ensures NewText(i, g)[p] == if Arrived(prev + [g], p) then m[p] else 0 {
      NewTextAt(i, g, m, ab, p);
      ArrivedMore(prev, g, p);
      NothingArrived(prev, p);
    }
  }

  lemma NothingArrived(gs: seq<Packet>, p: nat)
    requires !SomeText(gs)
    ensures !Arrived(gs, p)
  {
    if gs != [] { NothingArrived(gs[..|gs| - 1], p); }
  }

  /** While a message is being received the buffer holds what has arrived of it, and zeros. */
  lemma {:induction false} BufferDuring(hist: seq<Packet>, msg: seq<Packet>, m: seq<bv8>, ab: bool)
    requires |m| == TEXT_SIZE && Fresh(hist, ab) && Broadcast(msg, m, ab)
    ensures var r := RunPackets(hist + msg);
            if SomeText(msg) then r.lastABState == ab && Holds(r.radioTextBuf, msg, m)
            else r.lastABState == RunPackets(hist).lastABState && r.radioTextBuf == RunPackets(hist).radioTextBuf
  {
    if msg == [] {
      assert hist + msg == hist;
    } else {
      var prev, g := msg[..|msg| - 1], msg[|msg| - 1];
      assert msg == prev + [g] && hist + msg == hist + prev + [g];
      BufferDuring(hist, prev, m, ab);
      RunText(hist + prev, g);
      if IsText(g) {
        if SomeText(prev) {
          HoldsMore(RunPackets(hist + prev), prev, g, m);
        } else {
          FlagTracked(hist);
          if !SomeText(hist) { SilentHistory(hist); }
          HoldsFirst(RunPackets(hist + prev), prev, g, m, ab);
        }
      }
    }
  }

  /** The message proper ends before the first carriage return. */
  ghost predicate EndsAt(m: seq<bv8>, n: nat) {
    n < |m| && m[n] == CR && forall k :: 0 <= k < n ==> m[k] != CR
  }

  /** Everything in front of position n. */
  ghost predicate ArrivedTo(gs: seq<Packet>, n: nat) {
    forall p :: 0 <= p < n ==> Arrived(gs, p)
  }

  lemma FindCrAt(text: seq<bv8>, gs: seq<Packet>, m: seq<bv8>, n: nat)
    requires Holds(text, gs, m) && EndsAt(m, n) && ArrivedTo(gs, n + 1)
    ensures FindCr(text) == n && text[..n] == m[..n]
  {
    assert forall p :: 0 <= p <= n ==> text[p] == m[p];
  }

  lemma HeldAfter(hist: seq<Packet>, prev: seq<Packet>, g: Packet, m: seq<bv8>, ab: bool)
    requires |m| == TEXT_SIZE && Fresh(hist, ab) && Broadcast(prev + [g], m, ab) && IsText(g)
    ensures Holds(RunPackets(hist + (prev + [g])).radioTextBuf, prev + [g], m)
  {
    assert (prev + [g])[|prev|] == g;
    BufferDuring(hist, prev + [g], m, ab);
  }

  /** The packet that completes a message, or any later part of it, shows it. */
  lemma CrPublishes(hist: seq<Packet>, prev: seq<Packet>, g: Packet, m: seq<bv8>, ab: bool, n: nat)
    requires |m| == TEXT_SIZE && Fresh(hist, ab) && Broadcast(prev + [g], m, ab) && IsText(g)
    requires EndsAt(m, n) && ArrivedTo(prev + [g], n + 1)
    ensures RunPackets(hist + (prev + [g])).radioText == Shown(m[..n])
  {
    HeldAfter(hist, prev, g, m, ab);
    FindCrAt(RunPackets(hist + (prev + [g])).radioTextBuf, prev + [g], m, n);
    assert hist + prev + [g] == hist + (prev + [g]);
    CrShown(hist + prev, g, m, n);
  }

  lemma CrShown(hist: seq<Packet>, g: Packet, m: seq<bv8>, n: nat)
    requires IsText(g) && n < TEXT_SIZE <= |m|
    requires FindCr(RunPackets(hist + [g]).radioTextBuf) == n && RunPackets(hist + [g]).radioTextBuf[..n] == m[..n]
    ensures RunPackets(hist + [g]).radioText == Shown(m[..n])
  {
    RunText(hist, g);
  }

  /** A message ended by a carriage return is shown, trimmed, once everything up to the carriage
      return has arrived: by groups of type 2A, 2B or both, in any order, repeated at will, with
      groups of other types between them, after anything but a message with the same flag. */
  lemma {:induction false} MessageDelivered(hist: seq<Packet>, msg: seq<Packet>, m: seq<bv8>, ab: bool, n: nat)
    requires |m| == TEXT_SIZE && Fresh(hist, ab) && Broadcast(msg, m, ab) && EndsAt(m, n) && ArrivedTo(msg, n + 1)
    ensures RunPackets(hist + msg).radioText == Shown(m[..n])
  {
    assert Arrived(msg, 0);
    var prev, g := msg[..|msg| - 1], msg[|msg| - 1];
    assert msg == prev + [g];
    if IsText(g) {
      CrPublishes(hist, prev, g, m, ab, n);
    } else {
      OtherGroup(hist, prev, g, m, ab, n + 1);
      MessageDelivered(hist, prev, m, ab, n);
    }
  }

  /** A group of another type changes nothing. */
  lemma OtherGroup(hist: seq<Packet>, prev: seq<Packet>, g: Packet, m: seq<bv8>, ab: bool, n: nat)
    requires |m| == TEXT_SIZE && Broadcast(prev + [g], m, ab) && ArrivedTo(prev + [g], n) && !IsText(g)
    ensures Broadcast(prev, m, ab) && ArrivedTo(prev, n)
    ensures RunPackets(hist + (prev + [g])).radioText == RunPackets(hist + prev).radioText
  {
    var msg := prev + [g];
    assert hist + msg == hist + prev + [g];
    RunText(hist + prev, g);
    forall j | 0 <= j < |prev| && IsText(prev[j]) ensures PartOf(prev[j], m, ab) { assert msg[j] == prev[j]; }
    forall p | 0 <= p < n ensures Arrived(prev, p) { ArrivedMore(prev, g, p); }
  }

  // ---------------------------------------------------------------- a message without a carriage return

  lemma NoCrShown(text: seq<bv8>, gs: seq<Packet>, m: seq<bv8>)
    requires Holds(text, gs, m) && CR !in m
    ensures FindCr(text) == TEXT_SIZE && text[..TEXT_SIZE] == text
  {
    assert forall p :: 0 <= p < TEXT_SIZE ==> m[p] in m;
  }

  /** Segment 15 of type 2A, the only group that reaches the end of the buffer. */
  predicate Triggers(g: Packet) {
    IsText(g) && g.End() >= TEXT_SIZE
  }

  /** Packet t is the last one that carries it. */
  ghost predicate LastTrigger(msg: seq<Packet>, t: nat) {
    && t < |msg| && Triggers(msg[t])
    && forall j :: t < j < |msg| ==> !Triggers(msg[j])
  }

  /** One more packet, when the message has no carriage return. */
  lemma Publication(hist: seq<Packet>, prev: seq<Packet>, g: Packet, m: seq<bv8>, ab: bool)
    requires |m| == TEXT_SIZE && Fresh(hist, ab) && Broadcast(prev + [g], m, ab) && CR !in m
    ensures var r := RunPackets(hist + (prev + [g]));
            if Triggers(g) then Holds(r.radioTextBuf, prev + [g], m) && r.radioText == Shown(r.radioTextBuf)
            else r.radioText == RunPackets(hist + prev).radioText
  {
    var msg := prev + [g];
    RunText(hist + prev, g);
    assert hist + prev + [g] == hist + msg;
    if IsText(g) {
      HeldAfter(hist, prev, g, m, ab);
      NoCrShown(RunPackets(hist + msg).radioTextBuf, msg, m);
    }
  }

  lemma TriggerBefore(prev: seq<Packet>, g: Packet, m: seq<bv8>, ab: bool, t: nat)
    requires |m| == TEXT_SIZE && Broadcast(prev + [g], m, ab) && LastTrigger(prev + [g], t) && t < |prev|
    ensures Broadcast(prev, m, ab) && LastTrigger(prev, t) && !Triggers(g)
    ensures (prev + [g])[..t + 1] == prev[..t + 1]
  {
    var msg := prev + [g];
    assert msg[|prev|] == g && forall j :: 0 <= j < |prev| ==> msg[j] == prev[j];
  }

  /** Without a carriage return only the last segment publishes: what is shown is what had arrived
      when that segment came for the last time. */
  lemma {:induction false} LastSegmentPublishes(hist: seq<Packet>, msg: seq<Packet>, m: seq<bv8>, ab: bool, t: nat)
    returns (text: seq<bv8>)
    requires |m| == TEXT_SIZE && Fresh(hist, ab) && Broadcast(msg, m, ab) && CR !in m
    requires LastTrigger(msg, t)
    ensures Holds(text, msg[..t + 1], m) && RunPackets(hist + msg).radioText == Shown(text)
    decreases |msg|, 0
  {
    var prev, g := msg[..|msg| - 1], msg[|msg| - 1];
    assert msg == prev + [g];
    if t == |prev| {
      text := PublishedNow(hist, prev, g, m, ab);
      HoldsWhole(text, msg, m, t);
    } else {
      text := PublishedBefore(hist, prev, g, m, ab, t);
    }
  }

  lemma HoldsWhole(text: seq<bv8>, gs: seq<Packet>, m: seq<bv8>, t: nat)
    requires Holds(text, gs, m) && t + 1 == |gs|
    ensures Holds(text, gs[..t + 1], m)
  {
    assert gs[..t + 1] == gs;
  }

  lemma PublishedNow(hist: seq<Packet>, prev: seq<Packet>, g: Packet, m: seq<bv8>, ab: bool) returns (text: seq<bv8>)
    requires |m| == TEXT_SIZE && Fresh(hist, ab) && Broadcast(prev + [g], m, ab) && CR !in m && Triggers(g)
    ensures Holds(text, prev + [g], m) && RunPackets(hist + (prev + [g])).radioText == Shown(text)
  {
    Publication(hist, prev, g, m, ab);
    text := RunPackets(hist + (prev + [g])).radioTextBuf;
  }

  lemma PublishedBefore(hist: seq<Packet>, prev: seq<Packet>, g: Packet, m: seq<bv8>, ab: bool, t: nat)
    returns (text: seq<bv8>)
    requires |m| == TEXT_SIZE && Fresh(hist, ab) && Broadcast(prev + [g], m, ab) && CR !in m
    requires LastTrigger(prev + [g], t) && t < |prev|
    ensures Holds(text, (prev + [g])[..t + 1], m) && RunPackets(hist + (prev + [g])).radioText == Shown(text)
    decreases |prev|, 1
  {
    TriggerBefore(prev, g, m, ab, t);
    Publication(hist, prev, g, m, ab);
    text := LastSegmentPublishes(hist, prev, m, ab, t);
  }

  // ---------------------------------------------------------------- what is shown of a text with gaps

  /** Blank, tabulators, line and page ends. */
  lemma Spaces(c: bv8)
    ensures IsSpace(c) <==> c in {0x20, 0x09, 0x0A, 0x0B, 0x0C, 0x0D}
  {
  }

  lemma NothingCut(m: seq<bv8>)
    requires 0 !in m
    ensures Shown(m) == Trim(m)
  {
    assert forall c :: c in TrimLeft(m) ==> c in m;
    assert forall c :: c in Trim(m) ==> c in TrimLeft(m);
  }

  /** Where the visible part of a text begins. */
  function VisibleStart(s: seq<bv8>): nat {
    |s| - |TrimLeft(s)|
  }

  /** And where it ends; 0 if all is blank. */
  function VisibleEnd(s: seq<bv8>): (v: nat)
    ensures v <= |s|
  {
    |TrimRight(s)|
  }

  lemma TrimLeftAt(s: seq<bv8>, c: nat)
    requires c < |s| && !IsSpace(s[c]) && forall p :: 0 <= p < c ==> IsSpace(s[p])
    ensures TrimLeft(s) == s[c..]
  {
    if c > 0 { TrimLeftAt(s[1..], c - 1); }
  }

  lemma TrimRightSuffix(s: seq<bv8>, c: nat)
    requires c <= |TrimRight(s)|
    ensures TrimRight(s[c..]) == TrimRight(s)[c..]
  {
    var n := |s| - 1;
    if s != [] && IsSpace(s[n]) {
      TrimRightSuffix(s[..n], c);
      assert s[c..][..|s[c..]| - 1] == s[..n][c..];
    }
  }

  lemma TrimRightKeeps(s: seq<bv8>, k: nat)
    requires k < |s| && !IsSpace(s[k])
    ensures |TrimRight(s)| > k
  {
  }

  lemma Blank(s: seq<bv8>)
    requires forall p :: 0 <= p < |s| ==> IsSpace(s[p])
    ensures TrimLeft(s) == []
  {
    if s != [] { Blank(s[1..]); }
  }

  lemma FirstVisible(s: seq<bv8>)
    requires VisibleEnd(s) > 0
    ensures VisibleStart(s) < VisibleEnd(s) && !IsSpace(s[VisibleStart(s)])
  {
    var l, v := TrimLeft(s), VisibleEnd(s);
    assert !IsSpace(TrimRight(s)[v - 1]) && TrimRight(s)[v - 1] == s[v - 1];
    assert |s| - |l| <= v - 1;
    assert l[0] == s[|s| - |l|];
  }

  lemma TrimSlice(s: seq<bv8>)
    requires VisibleEnd(s) > 0
    ensures VisibleStart(s) < VisibleEnd(s) && Trim(s) == s[VisibleStart(s)..VisibleEnd(s)]
  {
    FirstVisible(s);
    TrimRightSuffix(s, VisibleStart(s));
  }

  lemma BlankTrims(s: seq<bv8>)
    requires VisibleEnd(s) == 0
    ensures Trim(s) == []
  {
    Blank(s);
  }

  lemma UpToNulFrom(s: seq<bv8>, c: nat, k: nat)
    requires c <= k < |s| && s[k] == 0 && forall p :: c <= p < k ==> s[p] != 0
    ensures UpToNul(s[c..]) == s[c..k]
    decreases k - c
  {
    if c < k {
      UpToNulFrom(s, c + 1, k);
      assert s[c..][1..] == s[c + 1..] && s[c..k] == [s[c]] + s[c + 1..k];
    }
  }

  /** A text that is cut at its left, and has a NUL. */
  lemma NulBehind(s: seq<bv8>, c: nat, k: nat)
    requires c <= k < |s| && s[k] == 0 && forall p :: c <= p < k ==> s[p] != 0
    ensures UpToNul(TrimRight(s[c..])) == s[c..k]
  {
    var r := TrimRight(s);
    TrimRightKeeps(s, k);
    TrimRightSuffix(s, c);
    UpToNulFrom(r, c, k);
  }

  /** A text whose first visible position is a gap. */
  lemma GapInFront(text: seq<bv8>, gap: nat)
    requires gap < |text| && text[gap] == 0 && forall p :: 0 <= p < gap ==> IsSpace(text[p])
    ensures Shown(text) == []
  {
    TrimLeftAt(text, gap);
    NulBehind(text, gap, gap);
  }

  /** A text that begins to be visible at c and has its first gap behind that. */
  lemma GapBehind(text: seq<bv8>, c: nat, gap: nat)
    requires c < gap < |text| && text[gap] == 0 && !IsSpace(text[c])
    requires forall p :: 0 <= p < c ==> IsSpace(text[p])
    requires forall p :: c <= p < gap ==> text[p] != 0
    ensures Shown(text) == text[c..gap]
  {
    TrimLeftAt(text, c);
    NulBehind(text, c, gap);
  }

  /** What is shown of a message with its first gap there. */
  lemma GapShows(text: seq<bv8>, m: seq<bv8>, gap: nat)
    requires |text| == |m| && 0 !in m && gap < |m| && text[gap] == 0 && text[..gap] == m[..gap] && VisibleEnd(m) > 0
    ensures Shown(text) == if gap <= VisibleStart(m) then [] else m[VisibleStart(m)..gap]
  {
    var c := VisibleStart(m);
    TrimSlice(m);
    assert TrimLeft(m)[0] == m[c];
    assert forall p :: 0 <= p < gap ==> text[p] == text[..gap][p] == m[..gap][p] == m[p];
    if gap <= c {
      GapInFront(text, gap);
    } else {
      assert forall p :: 0 <= p < gap ==> m[p] in m;
      GapBehind(text, c, gap);
    }
  }

  lemma BlankShows(text: seq<bv8>)
    requires forall p :: 0 <= p < |text| ==> text[p] == 0 || IsSpace(text[p])
    ensures Shown(text) == []
  {
    var l := TrimLeft(text);
    if l != [] { GapInFront(text, |text| - |l|); }
  }

  lemma FirstMissing(gs: seq<Packet>, n: nat) returns (gap: nat)
    requires !ArrivedTo(gs, n)
    ensures gap < n && ArrivedTo(gs, gap) && !Arrived(gs, gap)
  {
    gap := 0;
    while Arrived(gs, gap)
      invariant gap < n && ArrivedTo(gs, gap)
      decreases n - gap
    {
      gap := gap + 1;
    }
  }

  lemma HoldsAll(text: seq<bv8>, gs: seq<Packet>, m: seq<bv8>)
    requires Holds(text, gs, m) && ArrivedTo(gs, TEXT_SIZE)
    ensures text == m
  {
    assert forall p :: 0 <= p < TEXT_SIZE ==> text[p] == m[p];
  }

  lemma HoldsTo(text: seq<bv8>, gs: seq<Packet>, m: seq<bv8>, gap: nat)
    requires Holds(text, gs, m) && ArrivedTo(gs, gap) && !Arrived(gs, gap) && gap < TEXT_SIZE
    ensures text[gap] == 0 && text[..gap] == m[..gap]
  {
  }

  /** What has arrived of a message shows it: the message is blank, or nothing is missing, or the first
      thing missing is just behind its visible part. */
  ghost predicate Suffices(gs: seq<Packet>, m: seq<bv8>) {
    || VisibleEnd(m) == 0
    || ArrivedTo(gs, TEXT_SIZE)
    || (ArrivedTo(gs, VisibleEnd(m)) && !Arrived(gs, VisibleEnd(m)))
  }

  lemma SufficesIff(text: seq<bv8>, gs: seq<Packet>, m: seq<bv8>)
    requires Holds(text, gs, m) && 0 !in m
    ensures Shown(text) == Trim(m) <==> Suffices(gs, m)
  {
    if ArrivedTo(gs, TEXT_SIZE) {
      HoldsAll(text, gs, m);
      NothingCut(m);
    } else if VisibleEnd(m) == 0 {
      BlankTrims(m);
      BlankShows(text);
    } else {
      var gap := FirstMissing(gs, TEXT_SIZE);
      HoldsTo(text, gs, m, gap);
      GapShows(text, m, gap);
      TrimSlice(m);
      GapAt(gs, gap, VisibleEnd(m));
    }
  }

  lemma GapAt(gs: seq<Packet>, gap: nat, v: nat)
    requires ArrivedTo(gs, gap) && !Arrived(gs, gap)
    ensures ArrivedTo(gs, v) && !Arrived(gs, v) <==> gap == v
  {
  }

  /** Exactly when a message of 64 characters without a carriage return is shown as it is: by what had
      arrived when the last segment came for the last time. */
  lemma FullMessageIff(hist: seq<Packet>, msg: seq<Packet>, m: seq<bv8>, ab: bool, t: nat)
    requires |m| == TEXT_SIZE && Fresh(hist, ab) && Broadcast(msg, m, ab) && CR !in m && 0 !in m
    requires LastTrigger(msg, t)
    ensures RunPackets(hist + msg).radioText == Trim(m) <==> Suffices(msg[..t + 1], m)
  {
    var text := LastSegmentPublishes(hist, msg, m, ab, t);
    SufficesIff(text, msg[..t + 1], m);
  }

  function SegmentOf(m: seq<bv8>, ab: bool, k: nat): Packet
    requires |m| == TEXT_SIZE && k < 16
  {
    RawPacket.Packet(Text, ab, false, 4 * k, m[4 * k..4 * k + 4])
  }

  /** The last segment, and then the first n. */
  function LastFirst(m: seq<bv8>, ab: bool, n: nat): (r: seq<Packet>)
    requires |m| == TEXT_SIZE && n < 16
    ensures |r| == n + 1 && r[0] == SegmentOf(m, ab, 15)
  {
    if n == 0 then [SegmentOf(m, ab, 15)] else LastFirst(m, ab, n - 1) + [SegmentOf(m, ab, n - 1)]
  }

  lemma LastFirstParts(m: seq<bv8>, ab: bool, n: nat)
    requires |m| == TEXT_SIZE && n < 16
    ensures Broadcast(LastFirst(m, ab, n), m, ab) && LastTrigger(LastFirst(m, ab, n), 0)
    ensures forall p :: 0 <= p < TEXT_SIZE ==> (Arrived(LastFirst(m, ab, n), p) <==> p < 4 * n || p >= 60)
  {
    if n == 0 {
      assert LastFirst(m, ab, 0)[..0] == [];
    } else {
      var prev, g := LastFirst(m, ab, n - 1), SegmentOf(m, ab, n - 1);
      LastFirstParts(m, ab, n - 1);
      forall p | 0 <= p < TEXT_SIZE ensures Arrived(prev + [g], p) <==> p < 4 * n || p >= 60 {
        ArrivedMore(prev, g, p);
      }
    }
  }

  lemma OnlyFirst(msg: seq<Packet>, t: nat)
    requires LastTrigger(msg, t) && t == 0
    ensures !Arrived(msg[..t + 1], 0)
  {
    var g := msg[t];
    assert msg[..t + 1] == [] + [g];
    ArrivedMore([], g, 0);
  }

  /** A decoder that joins a message at its last segment does not show it, whatever it receives
      until that segment comes again. */
  lemma JoinedLate(hist: seq<Packet>, msg: seq<Packet>, m: seq<bv8>, ab: bool, t: nat)
    requires |m| == TEXT_SIZE && CR !in m && 0 !in m && VisibleEnd(m) > 0
    requires Fresh(hist, ab) && Broadcast(msg, m, ab) && LastTrigger(msg, t) && t == 0
    ensures RunPackets(hist + msg).radioText != Trim(m)
  {
    OnlyFirst(msg, t);
    FullMessageIff(hist, msg, m, ab, t);
  }

  /** So also after all of it. */
  lemma FullMessageMissed(m: seq<bv8>, ab: bool)
    requires |m| == TEXT_SIZE && CR !in m && 0 !in m && VisibleEnd(m) > 0
    ensures exists msg ::
              Broadcast(msg, m, ab) && ArrivedTo(msg, TEXT_SIZE) && RunPackets([] + msg).radioText != Trim(m)
  {
    var n := 15;
    var msg := LastFirst(m, ab, n);
    LastFirstParts(m, ab, n);
    JoinedLate([], msg, m, ab, 0);
  }

  /** Any full message, also one with a NUL, is shown if all of it came in time. */
  lemma FullMessageDelivered(hist: seq<Packet>, msg: seq<Packet>, m: seq<bv8>, ab: bool, t: nat)
    requires |m| == TEXT_SIZE && Fresh(hist, ab) && Broadcast(msg, m, ab) && CR !in m
    requires LastTrigger(msg, t) && ArrivedTo(msg[..t + 1], TEXT_SIZE)
    ensures RunPackets(hist + msg).radioText == Shown(m)
  {
    var text := LastSegmentPublishes(hist, msg, m, ab, t);
    HoldsAll(text, msg[..t + 1], m);
  }

  // ---------------------------------------------------------------- type 2B

  /** All RadioText is of type 2B, which has room for 32 characters. */
  ghost predicate OnlyTypeB(gs: seq<Packet>) {
    forall j :: 0 <= j < |gs| && IsText(gs[j]) ==> |gs[j].chars| == 2
  }

  const B_SIZE := 32

  lemma TypeBArrives(gs: seq<Packet>, p: nat)
    requires OnlyTypeB(gs) && Arrived(gs, p)
    ensures p < B_SIZE
  {
    ArrivedIff(gs, p);
  }

  lemma TypeBHolds(text: seq<bv8>, gs: seq<Packet>, m: seq<bv8>, g: Packet)
    requires Holds(text, gs, m) && OnlyTypeB(gs) && CR !in m[..B_SIZE] && IsText(g) && |g.chars| == 2
    ensures !Publishes(text, g.End())
  {
    forall p | 0 <= p < TEXT_SIZE ensures text[p] != CR {
      if Arrived(gs, p) {
        TypeBArrives(gs, p);
        assert m[p] == m[..B_SIZE][p];
      }
    }
  }

  /** Without a carriage return the text shown stays as it was. */
  lemma {:induction false} TypeBSilent(hist: seq<Packet>, msg: seq<Packet>, m: seq<bv8>, ab: bool)
    requires |m| == TEXT_SIZE && Fresh(hist, ab) && Broadcast(msg, m, ab) && OnlyTypeB(msg) && CR !in m[..B_SIZE]
    ensures RunPackets(hist + msg).radioText == RunPackets(hist).radioText
  {
    if msg == [] {
      assert hist + msg == hist;
    } else {
      var prev, g := msg[..|msg| - 1], msg[|msg| - 1];
      assert msg == prev + [g] && hist + msg == hist + prev + [g];
      TypeBSilent(hist, prev, m, ab);
      RunText(hist + prev, g);
      if IsText(g) {
        HeldAfter(hist, prev, g, m, ab);
        TypeBHolds(RunPackets(hist + msg).radioTextBuf, msg, m, g);
      }
    }
  }

  /** What there is of a message of type 2B to show: up to the carriage return, if there is one. */
  function TypeBEnd(m: seq<bv8>): (n: nat)
    requires |m| == TEXT_SIZE
    ensures n <= B_SIZE && (n < B_SIZE <==> CR in m[..B_SIZE]) && (n < B_SIZE ==> EndsAt(m, n))
  {
    var n := FindCr(m[..B_SIZE]);
    assert n < B_SIZE ==> m[..B_SIZE][n] == m[n];
    assert forall k :: 0 <= k < n ==> m[k] == m[..B_SIZE][k];
    n
  }

  /** Everything of it. */
  ghost predicate TypeBArrived(gs: seq<Packet>, m: seq<bv8>)
    requires |m| == TEXT_SIZE
  {
    ArrivedTo(gs, if TypeBEnd(m) < B_SIZE then TypeBEnd(m) + 1 else B_SIZE)
  }

  /** Once a message of type 2B has arrived, up to its carriage return or all of it, in any order: it
      is shown if and only if it contains a carriage return (unless the same was shown before). */
  lemma TypeBShownIff(hist: seq<Packet>, msg: seq<Packet>, m: seq<bv8>, ab: bool)
    requires |m| == TEXT_SIZE && Fresh(hist, ab) && Broadcast(msg, m, ab) && OnlyTypeB(msg) && TypeBArrived(msg, m)
    ensures var text, now := Shown(m[..TypeBEnd(m)]), RunPackets(hist + msg).radioText;
            && (now == if CR in m[..B_SIZE] then text else RunPackets(hist).radioText)
            && (RunPackets(hist).radioText != text ==> (now == text <==> CR in m[..B_SIZE]))
  {
    if CR in m[..B_SIZE] {
      MessageDelivered(hist, msg, m, ab, TypeBEnd(m));
    } else {
      TypeBSilent(hist, msg, m, ab);
    }
  }

  function PairOf(m: seq<bv8>, ab: bool, k: nat): Packet
    requires |m| == TEXT_SIZE && k < 16
  {
    RawPacket.Packet(Text, ab, false, 2 * k, m[2 * k..2 * k + 2])
  }

  function Pairs(m: seq<bv8>, ab: bool, n: nat): seq<Packet>
    requires |m| == TEXT_SIZE && n <= 16
  {
    if n == 0 then [] else Pairs(m, ab, n - 1) + [PairOf(m, ab, n - 1)]
  }

  lemma PairsParts(m: seq<bv8>, ab: bool, n: nat)
    requires |m| == TEXT_SIZE && n <= 16
    ensures Broadcast(Pairs(m, ab, n), m, ab) && OnlyTypeB(Pairs(m, ab, n)) && ArrivedTo(Pairs(m, ab, n), 2 * n)
  {
    if n > 0 {
      var prev, g := Pairs(m, ab, n - 1), PairOf(m, ab, n - 1);
      PairsParts(m, ab, n - 1);
      forall p | 0 <= p < 2 * n ensures Arrived(prev + [g], p) { ArrivedMore(prev, g, p); }
    }
  }

  /** 32 visible characters, all delivered, and nothing is shown. */
  lemma TypeBMissed(m: seq<bv8>, ab: bool)
    requires |m| == TEXT_SIZE && forall p :: 0 <= p < B_SIZE ==> m[p] != 0 && !IsSpace(m[p])
    ensures exists msg :: Broadcast(msg, m, ab) && OnlyTypeB(msg) && ArrivedTo(msg, B_SIZE) &&
              RunPackets([] + msg).radioText == [] != Shown(m[..B_SIZE])
  {
    var n := 16;
    var msg := Pairs(m, ab, n);
    PairsParts(m, ab, n);
    TypeBSilent([], msg, m, ab);
    assert m[..B_SIZE][0] == m[0];
    NothingCut(m[..B_SIZE]);
    TrimSlice(m[..B_SIZE]);
  }

  /** In particular, if no group ever brings a carriage return nothing is ever shown. */
  lemma {:induction false} TypeBNeedsCr(gs: seq<Packet>)
    requires forall g :: g in gs && IsText(g) ==> |g.chars| == 2 && CR !in g.chars
    ensures RunPackets(gs).radioText == [] && CR !in RunPackets(gs).radioTextBuf
  {
    if gs != [] {
      var prev, g := gs[..|gs| - 1], gs[|gs| - 1];
      assert gs == prev + [g];
      TypeBNeedsCr(prev);
      RunText(prev, g);
      if IsText(g) {
        NoCrWritten(RunPackets(prev), g);
        NotPublished(RunPackets(gs).radioTextBuf, g);
      }
    }
  }

  lemma NoCrWritten(i: Info, g: Packet)
    requires Valid(i) && IsText(g) && CR !in i.radioTextBuf && CR !in g.chars
    ensures CR !in NewText(i, g)
  {
    var text := NewText(i, g);
    forall p | 0 <= p < TEXT_SIZE ensures text[p] != CR {
      if g.start <= p < g.End() { assert text[p] in g.chars; }
    }
  }

  lemma NotPublished(text: seq<bv8>, g: Packet)
    requires IsText(g) && |g.chars| == 2 && CR !in text
    ensures !Publishes(text, g.End())
  {
  }
}
