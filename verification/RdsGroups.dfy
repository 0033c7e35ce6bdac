/** Assembling a group of the Radio Data System out of a stream of noisy blocks. */
module RdsGroups {
  datatype Status = Ok | Invalid | WaitingForMore

  /** Two bytes of data and the status byte that the tuner delivers with them. */
  datatype Block = Block(first: bv8, second: bv8, status: bv8)

  datatype State = State(data: seq<bv8>, status: Status, prevBlock: int)

  const EMPTY := State([], WaitingForMore, -1)

  /** The block number with C' counted as C, or -1 when the error bit is set. */
  function Label(b: Block): (n: int)
    ensures -1 <= n <= 7 && n != 4
  {
    if b.status & 0x80 != 0 then -1
    else if b.status & 0x07 == 4 then 2
    else if b.status & 0x07 == 0 then 0
    else if b.status & 0x07 == 1 then 1
    else if b.status & 0x07 == 2 then 2
    else if b.status & 0x07 == 3 then 3
    else if b.status & 0x07 == 5 then 5
    else if b.status & 0x07 == 6 then 6
    else 7
  }

  /** An error-free block with this number. */
  predicate Numbered(b: Block, n: bv8) {
    b.status & 0x80 == 0 && b.status & 0x07 == n
  }

  /** An error-free block A, B, C (or C') or D. */
  predicate Carries(b: Block, k: nat)
    requires k < 4
  {
    if k == 0 then Numbered(b, 0)
    else if k == 1 then Numbered(b, 1)
    else if k == 2 then Numbered(b, 2) || Numbered(b, 4)
    else Numbered(b, 3)
  }

  predicate IsE(b: Block) {
    Numbered(b, 5) || Numbered(b, 6)
  }

  /** What the status byte says: the error bit makes the block bad, whatever else is set; otherwise the
      low three bits are its number, 4 takes the place of C, 5 and 6 are E blocks, and 7 is bad. */
  lemma LabelMeans(b: Block)
    ensures forall k :: 0 <= k < 4 ==> (Label(b) == k <==> Carries(b, k))
    ensures Label(b) in {5, 6} <==> IsE(b)
    ensures Label(b) in {-1, 7} <==> b.status & 0x80 != 0 || b.status & 0x07 == 7
    ensures Label(b) == -1 <==> b.status & 0x80 != 0
  {
  }

  function Step(g: State, b: Block): State {
    var n := Label(b);
    if n == -1 || n == 7 then g.(status := Invalid)
    else if n == 5 || n == 6 || n == g.prevBlock then g
    else if g.data == [] && n != 0 then g
    else if n != |g.data| / 2 then g.(status := Invalid)
    else
      var data := g.data + [b.first, b.second];
      State(data, if |data| >= 8 then Ok else g.status, n)
  }

  /** The group after a stream of blocks since the last clear. */
  function Run(bs: seq<Block>): State {
    if bs == [] then EMPTY else Step(Run(bs[..|bs| - 1]), bs[|bs| - 1])
  }

  // ---------------------------------------------------------------- reference

  /** The labels of a stream. */
  function Labels(bs: seq<Block>): (r: seq<int>)
    ensures |r| == |bs|
  {
    if bs == [] then [] else Labels(bs[..|bs| - 1]) + [Label(bs[|bs| - 1])]
  }

  function Payload(bs: seq<Block>, picks: seq<nat>): (r: seq<bv8>)
    requires forall k :: 0 <= k < |picks| ==> picks[k] < |bs|
    ensures |r| == 2 * |picks|
  {
    if picks == [] then []
    else
      var b := bs[picks[|picks| - 1]];
      Payload(bs, picks[..|picks| - 1]) + [b.first, b.second]
  }

  /** Where the search for the k-th block starts. */
  function After(picks: seq<nat>, k: nat): nat
    requires k <= |picks|
  {
    if k == 0 then 0 else picks[k - 1] + 1
  }

  ghost predicate Lacks(labels: seq<int>, lo: nat, hi: nat, n: int)
    requires hi <= |labels|
  {
    forall j :: lo <= j < hi ==> labels[j] != n
  }

  /** Position `picks[k]` holds the first block k since the one before. */
  ghost predicate Earliest(labels: seq<int>, picks: seq<nat>, k: nat)
    requires k < |picks|
  {
    After(picks, k) <= picks[k] < |labels| && labels[picks[k]] == k && Lacks(labels, After(picks, k), picks[k], k)
  }

  /** The positions `picks` are the earliest error-free blocks numbered 0, 1, 2, 3 in this order,
      as far as the stream has them. */
  ghost predicate Assembly(labels: seq<int>, picks: seq<nat>) {
    && |picks| <= 4
    && (forall k :: 0 <= k < |picks| ==> Earliest(labels, picks, k))
    && (|picks| < 4 ==> Lacks(labels, After(picks, |picks|), |labels|, |picks|))
  }

  /** After a complete group only repeats of its last block and E blocks leave it alone. */
  ghost predicate QuietAfter(labels: seq<int>, end: nat) {
    forall j :: end < j < |labels| ==> labels[j] == 3 || labels[j] == 5 || labels[j] == 6
  }

  lemma PayloadExtends(bs: seq<Block>, b: Block, picks: seq<nat>)
    requires forall k :: 0 <= k < |picks| ==> picks[k] < |bs|
    ensures Payload(bs + [b], picks) == Payload(bs, picks)
  {
    if picks != [] { PayloadExtends(bs, b, picks[..|picks| - 1]); }
  }

  lemma AssemblyTakes(labels: seq<int>, picks: seq<nat>)
    requires Assembly(labels, picks) && |picks| < 4
    ensures Assembly(labels + [|picks|], picks + [|labels|])
  {
    var more := picks + [|labels|];
    forall k | 0 <= k < |more| ensures Earliest(labels + [|picks|], more, k) {
      assert After(more, k) == After(picks, k);
      if k < |picks| {
        assert Earliest(labels, picks, k);
      } else if k > 0 {
        assert Earliest(labels, picks, k - 1);
      }
    }
  }

  lemma AssemblySkips(labels: seq<int>, n: int, picks: seq<nat>)
    requires Assembly(labels, picks) && (|picks| == 4 || n != |picks|)
    ensures Assembly(labels + [n], picks)
  {
    forall k | 0 <= k < |picks| ensures Earliest(labels + [n], picks, k) {
      assert Earliest(labels, picks, k);
    }
  }

  lemma QuietExtends(labels: seq<int>, n: int, end: nat)
    requires end < |labels|
    ensures QuietAfter(labels + [n], end) <==> QuietAfter(labels, end) && (n == 3 || n == 5 || n == 6)
  {
    if QuietAfter(labels + [n], end) {
      forall j | end < j < |labels| ensures labels[j] == 3 || labels[j] == 5 || labels[j] == 6 {
        assert (labels + [n])[j] == labels[j];
      }
      assert (labels + [n])[|labels|] == n;
    }
  }

  lemma StepCases(g: State, b: Block)
    requires |g.data| == 2 * (g.prevBlock + 1) && -1 <= g.prevBlock <= 3 && (g.status == Ok ==> g.prevBlock == 3)
    ensures var n := Label(b);
            if n == g.prevBlock + 1 && n < 4
            then
              && Step(g, b).data == g.data + [b.first, b.second] && Step(g, b).prevBlock == n
              && (Step(g, b).status == Ok <==> n == 3)
            else Step(g, b) == g.(status := Step(g, b).status)
    ensures g.prevBlock == 3 ==>
            (Step(g, b).status == Ok <==> g.status == Ok && (Label(b) == 3 || Label(b) == 5 || Label(b) == 6))
    ensures g.prevBlock < 3 && Label(b) != g.prevBlock + 1 ==> Step(g, b).status != Ok
  {
  }

  /** Soundness of the assembly: the data are exactly the payload of the earliest in-order blocks,
      and the status is Ok exactly when the group is complete and nothing else followed. */
  lemma {:induction false} RunAssembles(bs: seq<Block>) returns (picks: seq<nat>)
    ensures Assembly(Labels(bs), picks)
    ensures forall k :: 0 <= k < |picks| ==> picks[k] < |bs|
    ensures Run(bs).data == Payload(bs, picks) && Run(bs).prevBlock == |picks| - 1
    ensures Run(bs).status == Ok <==> |picks| == 4 && QuietAfter(Labels(bs), picks[3])
  {
    if bs == [] {
      picks := [];
    } else {
      var prev := bs[..|bs| - 1];
      var b := bs[|bs| - 1];
      assert bs == prev + [b];
      var before := RunAssembles(prev);
      PayloadExtends(prev, b, before);
      StepCases(Run(prev), b);
      if |before| < 4 && Label(b) == |before| {
        AssemblyTakes(Labels(prev), before);
        picks := before + [|prev|];
        assert picks[..|picks| - 1] == before;
      } else {
        AssemblySkips(Labels(prev), Label(b), before);
        picks := before;
        if |picks| == 4 { QuietExtends(Labels(prev), Label(b), picks[3]); }
      }
    }
  }

  /** What every stream keeps. */
  lemma RunShape(bs: seq<Block>)
    ensures var g := Run(bs);
            && -1 <= g.prevBlock <= 3
            && |g.data| == 2 * (g.prevBlock + 1) <= 8
            && (g.status == Ok ==> |g.data| == 8)
  {
    var picks := RunAssembles(bs);
  }

  lemma AssemblyUnique(labels: seq<int>, p: seq<nat>, q: seq<nat>, k: nat)
    requires Assembly(labels, p) && Assembly(labels, q) && k < |p| && k < |q|
    ensures p[k] == q[k]
  {
    if k > 0 { AssemblyUnique(labels, p, q, k - 1); }
    assert Earliest(labels, p, k) && Earliest(labels, q, k);
  }

  ghost predicate InOrder(labels: seq<int>, at: seq<nat>) {
    && |at| == 4
    && at[0] < at[1] < at[2] < at[3] < |labels|
    && labels[at[0]] == 0 && labels[at[1]] == 1 && labels[at[2]] == 2 && labels[at[3]] == 3
  }

  /** Error-free blocks A, B, C and D at these positions. */
  ghost predicate SentInOrder(bs: seq<Block>, at: seq<nat>) {
    && |at| == 4
    && at[0] < at[1] < at[2] < at[3] < |bs|
    && forall k :: 0 <= k < 4 ==> Carries(bs[at[k]], k)
  }

  lemma LabelAt(bs: seq<Block>, j: nat)
    requires j < |bs|
    ensures Labels(bs)[j] == Label(bs[j])
  {
    if j < |bs| - 1 { LabelAt(bs[..|bs| - 1], j); }
  }

  lemma InOrderMeans(bs: seq<Block>, at: seq<nat>)
    ensures SentInOrder(bs, at) <==> InOrder(Labels(bs), at)
  {
    if |at| == 4 && at[0] < at[1] < at[2] < at[3] < |bs| {
      forall k | 0 <= k < 4 ensures Labels(bs)[at[k]] == k <==> Carries(bs[at[k]], k) {
        LabelAt(bs, at[k]);
        LabelMeans(bs[at[k]]);
      }
    }
  }

  lemma EarliestFirst(labels: seq<int>, picks: seq<nat>, at: seq<nat>, k: nat)
    requires Assembly(labels, picks) && InOrder(labels, at) && k < |picks|
    ensures picks[k] <= at[k]
  {
    if k > 0 { EarliestFirst(labels, picks, at, k - 1); }
    assert Earliest(labels, picks, k);
  }

  lemma CompleteAssembly(labels: seq<int>, picks: seq<nat>)
    requires Assembly(labels, picks)
    ensures |picks| == 4 <==> exists at :: InOrder(labels, at)
  {
    if |picks| == 4 {
      assert Earliest(labels, picks, 0) && Earliest(labels, picks, 1) && Earliest(labels, picks, 2) &&
          Earliest(labels, picks, 3);
      assert InOrder(labels, picks);
    }
    forall at | InOrder(labels, at) ensures |picks| == 4 {
      if |picks| < 4 && |picks| > 0 { EarliestFirst(labels, picks, at, |picks| - 1); }
    }
  }

  /** Completeness: the group is complete exactly when the stream has error-free blocks A, B, C (or C')
      and D in this order, whatever lies between them. */
  lemma CompleteIff(bs: seq<Block>)
    ensures |Run(bs).data| == 8 <==> exists at :: SentInOrder(bs, at)
  {
    var picks := RunAssembles(bs);
    CompleteAssembly(Labels(bs), picks);
    forall at ensures SentInOrder(bs, at) <==> InOrder(Labels(bs), at) { InOrderMeans(bs, at); }
  }

  /** From block lo + 1 up to hi there are only repeats of block k and E blocks. */
  ghost predicate OnlyRepeats(bs: seq<Block>, lo: nat, hi: nat, k: nat)
    requires hi <= |bs| && k < 4
  {
    forall j :: lo < j < hi ==> Carries(bs[j], k) || IsE(bs[j])
  }

  /** Each block is followed only by repeats of itself and E blocks, up to the next one. */
  ghost predicate CleanStream(bs: seq<Block>, at: seq<nat>) {
    && SentInOrder(bs, at)
    && (forall j :: 0 <= j < at[0] ==> !Carries(bs[j], 0))
    && OnlyRepeats(bs, at[0], at[1], 0) && OnlyRepeats(bs, at[1], at[2], 1) && OnlyRepeats(bs, at[2], at[3], 2)
    && OnlyRepeats(bs, at[3], |bs|, 3)
  }

  lemma RepeatsMean(bs: seq<Block>, lo: nat, hi: nat, k: nat)
    requires hi <= |bs| && k < 4 && OnlyRepeats(bs, lo, hi, k)
    ensures forall j :: lo < j < hi ==> Labels(bs)[j] in {k, 5, 6}
  {
    forall j | lo < j < hi ensures Labels(bs)[j] in {k, 5, 6} {
      LabelAt(bs, j);
      LabelMeans(bs[j]);
    }
  }

  lemma CleanMeans(bs: seq<Block>, at: seq<nat>)
    requires CleanStream(bs, at)
    ensures InOrder(Labels(bs), at) && (forall j :: 0 <= j < at[0] ==> Labels(bs)[j] != 0)
    ensures forall j :: at[0] < j < at[1] ==> Labels(bs)[j] in {0, 5, 6}
    ensures forall j :: at[1] < j < at[2] ==> Labels(bs)[j] in {1, 5, 6}
    ensures forall j :: at[2] < j < at[3] ==> Labels(bs)[j] in {2, 5, 6}
    ensures QuietAfter(Labels(bs), at[3])
  {
    InOrderMeans(bs, at);
    forall j | 0 <= j < at[0] ensures Labels(bs)[j] != 0 {
      LabelAt(bs, j);
      LabelMeans(bs[j]);
    }
    RepeatsMean(bs, at[0], at[1], 0);
    RepeatsMean(bs, at[1], at[2], 1);
    RepeatsMean(bs, at[2], at[3], 2);
    RepeatsMean(bs, at[3], |bs|, 3);
  }

  /** A stream of blocks A, B, C or C', D, each repeated at will, with E blocks anywhere and anything
      but an error-free A block before: the group ends Ok with the first payload of each. */
  lemma CleanGroup(bs: seq<Block>, at: seq<nat>)
    requires CleanStream(bs, at)
    ensures Run(bs).status == Ok && Run(bs).data == Payload(bs, at)
  {
    CleanMeans(bs, at);
    var labels := Labels(bs);
    var picks := RunAssembles(bs);
    assert Earliest(labels, at, 0) && Earliest(labels, at, 1) && Earliest(labels, at, 2) && Earliest(labels, at, 3);
    assert Assembly(labels, at);
    CompleteAssembly(labels, picks);
    forall k | 0 <= k < 4 ensures picks[k] == at[k] { AssemblyUnique(labels, picks, at, k); }
    assert picks == at;
  }

  /** The four blocks of a group as they are sent, C' in place of C in a group of version B, with any
      value of the bits in between. */
  lemma GroupAsSent(a: Block, b: Block, c: Block, d: Block)
    requires Numbered(a, 0) && Numbered(b, 1) && (Numbered(c, 2) || Numbered(c, 4)) && Numbered(d, 3)
    ensures var g := Run([a, b, c, d]);
            && g.status == Ok
            && g.data == [a.first, a.second, b.first, b.second, c.first, c.second, d.first, d.second]
  {
    var bs, at := [a, b, c, d], [0, 1, 2, 3];
    assert SentInOrder(bs, at);
    CleanGroup(bs, at);
    FourPayloads(bs, at);
  }

  lemma FourPayloads(bs: seq<Block>, at: seq<nat>)
    requires |at| == 4 && forall k :: 0 <= k < 4 ==> at[k] < |bs|
    ensures Payload(bs, at) == [bs[at[0]].first, bs[at[0]].second, bs[at[1]].first, bs[at[1]].second,
                                bs[at[2]].first, bs[at[2]].second, bs[at[3]].first, bs[at[3]].second]
  {
    var three, two, one := at[..3], at[..2], at[..1];
    assert three[..2] == two && two[..1] == one && one[..0] == [];
    assert Payload(bs, one[..0]) == [];
    assert Payload(bs, one) == [bs[at[0]].first, bs[at[0]].second];
    assert Payload(bs, two) == Payload(bs, one) + [bs[at[1]].first, bs[at[1]].second];
    assert Payload(bs, three) == Payload(bs, two) + [bs[at[2]].first, bs[at[2]].second];
  }

  /** What spoils a group of which k blocks have been taken: a bad block, and once it has begun any
      other number than the next one and the last one taken. */
  predicate Spoils(b: Block, k: nat)
    requires k <= 4
  {
    || b.status & 0x80 != 0 || b.status & 0x07 == 7
    || (k > 0 && !IsE(b) && !Carries(b, k - 1) && (k == 4 || !Carries(b, k)))
  }

  lemma SpoilsLabel(b: Block, k: nat)
    requires k <= 4
    ensures var n := Label(b); Spoils(b, k) <==> n in {-1, 7} || (k > 0 && n in {0, 1, 2, 3} && n != k - 1 && n != k)
  {
    LabelMeans(b);
  }

  /** Number of blocks taken. */
  function Taken(bs: seq<Block>): nat {
    |Run(bs).data| / 2
  }

  /** Some block of the stream has spoiled the group. */
  ghost predicate Spoiled(bs: seq<Block>) {
    bs != [] && (Spoiled(bs[..|bs| - 1]) || SpoiledLast(bs))
  }

  ghost predicate SpoiledLast(bs: seq<Block>)
    requires bs != []
  {
    RunShape(bs[..|bs| - 1]);
    Spoils(bs[|bs| - 1], Taken(bs[..|bs| - 1]))
  }

  /** An incomplete group waits for more if and only if nothing has spoiled it, and is invalid
      otherwise; a complete one is Ok or invalid. */
  lemma {:induction false} RunStatus(bs: seq<Block>)
    ensures Taken(bs) < 4 ==> Run(bs).status == if Spoiled(bs) then Invalid else WaitingForMore
    ensures Taken(bs) == 4 ==> Run(bs).status in {Ok, Invalid}
  {
    if bs != [] {
      var prev, b := bs[..|bs| - 1], bs[|bs| - 1];
      RunStatus(prev);
      RunShape(prev);
      SpoilsLabel(b, Taken(prev));
    }
  }

  /** An error is not the end: a group spoiled by a bad block is Ok again once it is completed. */
  lemma InvalidNotSticky(bs: seq<Block>, bad: Block, last: Block)
    requires |Run(bs).data| == 6 && bad.status & 0x80 != 0 && Numbered(last, 3)
    ensures Run(bs + [bad]).status == Invalid && Run(bs + [bad, last]).status == Ok
  {
    RunShape(bs);
    assert (bs + [bad])[..|bs|] == bs;
    assert (bs + [bad, last])[..|bs| + 1] == bs + [bad];
  }

  // ---------------------------------------------------------------- the group as an object

  class RdsGroup {
    var data: seq<bv8>
    var status: Status
    var prevBlock: int

    constructor ()
      ensures View() == EMPTY
    {
      data := [];
      status := WaitingForMore;
      prevBlock := -1;
    }

    ghost function View(): State
      reads this
    {
      State(data, status, prevBlock)
    }

    method AddBlock(b: Block)
      modifies this
      ensures View() == Step(old(View()), b)
    {
      if b.status & 0x80 != 0 {
        status := Invalid;
        return;
      }
      var number := b.status & 0x07;
      if number == 4 { number := 2; }
      if number == 5 || number == 6 { return; }
      if number == 7 {
        status := Invalid;
        return;
      }
      var block := number as int;
      if block == prevBlock { return; }
      if data == [] && block != 0 { return; }
      if block != |data| / 2 {
        status := Invalid;
        return;
      }
      data := data + [b.first];
      data := data + [b.second];
      prevBlock := block;
      if |data| >= 8 { status := Ok; }
    }

    method Clear()
      modifies this
      ensures View() == EMPTY
    {
      data := [];
      status := WaitingForMore;
      prevBlock := -1;
    }
  }
}
