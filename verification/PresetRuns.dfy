/** Any run of creating, copying, assigning, setting and destroying presets looks like the same run
    on independent records, and shares exactly what one step wrote. */
module PresetRuns {
  import opened PresetHandles

  type Handles = map<string, RadioPreset>
  type Records = map<string, Info>

  datatype Change =
    | Region(text: string) | Name(text: string) | Genre(text: string) | Band(text: string) | Frequency(hz: int)

  function Changed(i: Info, c: Change): Info {
    match c
    case Region(t) => i.(region := t)
    case Name(t) => i.(name := t)
    case Genre(t) => i.(genre := t)
    case Band(t) => i.(band := t)
    case Frequency(hz) => i.(frequency := hz)
  }

  /** One step of a program; presets are variables with names. */
  datatype Op =
    | Create(x: string) | CopyOf(x: string, y: string) | Assign(x: string, y: string)
    | Set(x: string, change: Change) | Destroy(x: string)

  /** A step that makes no sense (an unknown variable, a name taken) is left out. */
  function Step(m: Records, op: Op): Records {
    match op
    case Create(x) => if x in m then m else m[x := EMPTY]
    case CopyOf(x, y) => if x in m || y !in m then m else m[x := m[y]]
    case Assign(x, y) => if x in m && y in m then m[x := m[y]] else m
    case Set(x, c) => if x in m then m[x := Changed(m[x], c)] else m
    case Destroy(x) => m - {x}
  }

  function Run(ops: seq<Op>): Records {
    if ops == [] then map[] else Step(Run(ops[..|ops| - 1]), ops[|ops| - 1])
  }

  /** Which step wrote the contents of a variable; step k creates or changes, or hands on what an
      earlier one wrote. */
  function Write(w: map<string, nat>, op: Op, k: nat): map<string, nat> {
    match op
    case Create(x) => if x in w then w else w[x := k]
    case CopyOf(x, y) => if x in w || y !in w then w else w[x := w[y]]
    case Assign(x, y) => if x in w && y in w then w[x := w[y]] else w
    case Set(x, _) => if x in w then w[x := k] else w
    case Destroy(x) => w - {x}
  }

  function Written(ops: seq<Op>): (w: map<string, nat>)
    ensures forall x :: x in w ==> w[x] < |ops|
  {
    if ops == [] then map[] else Write(Written(ops[..|ops| - 1]), ops[|ops| - 1], |ops| - 1)
  }

  // ---------------------------------------------------------------- what holds between steps

  /** The live handles, all payloads ever allocated, and where each variable points. */
  datatype Books = Books(live: set<RadioPreset>, heap: set<Payload>, ds: map<string, Payload>)

  /** Different variables hold different live handles. */
  ghost predicate Table(m: Handles, live: set<RadioPreset>) {
    && (forall x :: x in m ==> m[x] in live)
    && (forall x, y :: x in m && y in m && x != y ==> m[x] != m[y])
  }

  /** The variables hold handles that show these records. */
  ghost predicate Shows(m: Handles, b: Books, records: Records)
    reads b.live, b.heap
  {
    && m.Keys == records.Keys && m.Keys == b.ds.Keys
    && forall x :: x in m ==>
         m[x] in b.live && m[x].d in b.heap && m[x].d == b.ds[x] && m[x].Value() == records[x]
  }

  ghost predicate Good(m: Handles, b: Books, records: Records)
    reads b.live, b.heap
  {
    Table(m, b.live) && Inv(b.live, b.heap) && Shows(m, b, records) && b.live == m.Values
  }

  /** No other variable points to p. */
  ghost predicate Alone(ds: map<string, Payload>, x: string, p: Payload) {
    forall z :: z in ds && z != x ==> ds[z] != p
  }

  ghost predicate OwnPayload(ds: map<string, Payload>, x: string, ds': map<string, Payload>) {
    x in ds' && ds' == ds[x := ds'[x]] && Alone(ds, x, ds'[x])
  }

  /** Where the variables point after a step. */
  ghost predicate Repointed(ds: map<string, Payload>, op: Op, ds': map<string, Payload>) {
    match op
    case Create(x) => if x in ds then ds' == ds else OwnPayload(ds, x, ds')
    case CopyOf(x, y) => ds' == if x in ds || y !in ds then ds else ds[x := ds[y]]
    case Assign(x, y) => ds' == if x in ds && y in ds then ds[x := ds[y]] else ds
    case Set(x, _) => if x in ds then OwnPayload(ds, x, ds') else ds' == ds
    case Destroy(x) => ds' == ds - {x}
  }

  /** The variables that share a payload are those that one step wrote. */
  ghost predicate Grouped(ds: map<string, Payload>, w: map<string, nat>) {
    ds.Keys == w.Keys && forall x, y :: x in ds && y in ds ==> (ds[x] == ds[y] <==> w[x] == w[y])
  }

  lemma GroupedStep(ds: map<string, Payload>, w: map<string, nat>, op: Op, ds': map<string, Payload>, k: nat)
    requires Grouped(ds, w) && Repointed(ds, op, ds') && forall z :: z in w ==> w[z] < k
    ensures Grouped(ds', Write(w, op, k))
  {
  }

  lemma ValuesAdd(m: Handles, x: string, h: RadioPreset)
    requires x !in m
    ensures m[x := h].Values == m.Values + {h}
  {
    var n := m[x := h];
    forall y | y in m ensures m[y] in n.Values { assert n[y] == m[y]; }
    assert n[x] == h;
  }

  lemma ValuesDrop(m: Handles, x: string, live: set<RadioPreset>)
    requires Table(m, live) && x in m
    ensures (m - {x}).Values == m.Values - {m[x]}
  {
    var n := m - {x};
    forall y | y in m && y != x ensures m[y] in n.Values { assert n[y] == m[y]; }
  }

  // ---------------------------------------------------------------- each step

  method DoCreate(m: Handles, x: string, ghost b: Books, ghost records: Records)
    returns (n: Handles, ghost b': Books)
    requires Good(m, b, records) && x !in m
    ensures Good(n, b', records[x := EMPTY]) && OwnPayload(b.ds, x, b'.ds)
    ensures fresh(b'.live - b.live) && b.heap <= b'.heap && fresh(b'.heap - b.heap)
    ensures forall q: Payload :: fresh(q) ==> q in b'.heap
  {
    var h := new RadioPreset(b.live, b.heap);
    n := m[x := h];
    b' := Books(b.live + {h}, b.heap + {h.d}, b.ds[x := h.d]);
    ValuesAdd(m, x, h);
  }

  method CopyVariable(m: Handles, x: string, y: string, ghost b: Books, ghost records: Records)
    returns (h: RadioPreset)
    requires Good(m, b, records) && x !in m && y in m
    modifies b.heap`ref, b.heap`owners
    ensures fresh(h) && Inv(b.live + {h}, b.heap)
    ensures forall q: Payload :: fresh(q) ==> q in b.heap
    ensures Shows(m[x := h], Books(b.live + {h}, b.heap, b.ds[x := b.ds[y]]), records[x := records[y]])
  {
    h := new RadioPreset.Copy(m[y], b.live, b.heap);
  }

  method DoCopy(m: Handles, x: string, y: string, ghost b: Books, ghost records: Records)
    returns (n: Handles, ghost b': Books)
    requires Good(m, b, records) && x !in m && y in m
    modifies b.heap`ref, b.heap`owners
    ensures Good(n, b', records[x := records[y]]) && b'.ds == b.ds[x := b.ds[y]]
    ensures fresh(b'.live - b.live) && b'.heap == b.heap
    ensures forall q: Payload :: fresh(q) ==> q in b.heap
  {
    var h := CopyVariable(m, x, y, b, records);
    n := m[x := h];
    b' := Books(b.live + {h}, b.heap, b.ds[x := b.ds[y]]);
    ValuesAdd(m, x, h);
  }

  method DoAssign(m: Handles, x: string, y: string, ghost b: Books, ghost records: Records) returns (ghost b': Books)
    requires Good(m, b, records) && x in m && y in m
    modifies b.live, b.heap`ref, b.heap`owners, b.heap`deleted
    ensures Good(m, b', records[x := records[y]]) && b' == b.(ds := b.ds[x := b.ds[y]])
    ensures forall q: Payload :: fresh(q) ==> q in b.heap
  {
    var h := m[x];
    h.Assign(m[y], b.live, b.heap);
    b' := b.(ds := b.ds[x := b.ds[y]]);
    forall z | z in m ensures m[z].d in b.heap && m[z].Value() == records[x := records[y]][z] {
      assert z != x ==> m[z] != h;
    }
  }

  method SetField(h: RadioPreset, c: Change, ghost live: set<RadioPreset>, ghost heap: set<Payload>)
    returns (ghost more: set<Payload>)
    requires Inv(live, heap) && h in live
    modifies h, h.d
    ensures Inv(live, more) && heap <= more && fresh(more - heap) && h.d in more
    ensures forall q: Payload :: fresh(q) ==> q in more
    ensures h.Value() == Changed(old(h.Value()), c)
    ensures forall g :: g in live && g != h ==> g.d == old(g.d) != h.d && g.Value() == old(g.Value())
  {
    match c {
      case Region(t) => more := h.SetRegion(t, live, heap);
      case Name(t) => more := h.SetName(t, live, heap);
      case Genre(t) => more := h.SetGenre(t, live, heap);
      case Band(t) => more := h.SetBand(t, live, heap);
      case Frequency(hz) => more := h.SetFrequency(hz, live, heap);
    }
  }

  method SetVariable(m: Handles, x: string, c: Change, ghost b: Books, ghost records: Records)
    returns (ghost more: set<Payload>)
    requires Good(m, b, records) && x in m
    modifies b.live, b.heap
    ensures Inv(b.live, more) && b.heap <= more && fresh(more - b.heap) && Alone(b.ds, x, m[x].d)
    ensures forall q: Payload :: fresh(q) ==> q in more
    ensures Shows(m, Books(b.live, more, b.ds[x := m[x].d]), records[x := Changed(records[x], c)])
  {
    more := SetField(m[x], c, b.live, b.heap);
    forall z | z in m && z != x ensures m[z].d == b.ds[z] != m[x].d && m[z].d in b.heap && m[z].Value() == records[z] {
      assert m[z] in b.live && m[z] != m[x];
    }
  }

  method DoSet(m: Handles, x: string, c: Change, ghost b: Books, ghost records: Records) returns (ghost b': Books)
    requires Good(m, b, records) && x in m
    modifies b.live, b.heap
    ensures Good(m, b', records[x := Changed(records[x], c)]) && OwnPayload(b.ds, x, b'.ds)
    ensures b'.live == b.live && b.heap <= b'.heap && fresh(b'.heap - b.heap)
    ensures forall q: Payload :: fresh(q) ==> q in b'.heap
  {
    ghost var more := SetVariable(m, x, c, b, records);
    b' := Books(b.live, more, b.ds[x := m[x].d]);
  }

  method DoDestroy(m: Handles, x: string, ghost b: Books, ghost records: Records)
    returns (n: Handles, ghost b': Books)
    requires Good(m, b, records) && x in m
    modifies b.heap`ref, b.heap`owners, b.heap`deleted
    ensures Good(n, b', records - {x}) && b'.ds == b.ds - {x} && b'.live <= b.live && b'.heap == b.heap
    ensures forall q: Payload :: fresh(q) ==> q in b.heap
  {
    m[x].Destroy(b.live, b.heap);
    n := m - {x};
    b' := Books(b.live - {m[x]}, b.heap, b.ds - {x});
    ValuesDrop(m, x, b.live);
  }

  /** A step that makes no sense is left out. */
  method Perform(m: Handles, op: Op, ghost b: Books, ghost records: Records) returns (n: Handles, ghost b': Books)
    requires Good(m, b, records)
    modifies b.live, b.heap
    ensures Good(n, b', Step(records, op)) && Repointed(b.ds, op, b'.ds)
    ensures fresh(b'.live - b.live) && b.heap <= b'.heap && fresh(b'.heap - b.heap)
    ensures forall q: Payload :: fresh(q) ==> q in b'.heap
  {
    n, b' := m, b;
    match op {
      case Create(x) => if x !in m { n, b' := DoCreate(m, x, b, records); }
      case CopyOf(x, y) => if x !in m && y in m { n, b' := DoCopy(m, x, y, b, records); }
      case Assign(x, y) => if x in m && y in m { b' := DoAssign(m, x, y, b, records); }
      case Set(x, c) => if x in m { b' := DoSet(m, x, c, b, records); }
      case Destroy(x) =>
        if x in m {
          n, b' := DoDestroy(m, x, b, records);
        } else {
          assert records - {x} == records && b.ds - {x} == b.ds;
        }
    }
  }

  method Snapshot(m: Handles, ghost b: Books, ghost records: Records) returns (shown: Records)
    requires Shows(m, b, records)
    ensures shown == records
    ensures forall q: Payload :: fresh(q) ==> q in b.heap
  {
    shown := map x | x in m :: m[x].Value();
  }

  /** Sharing cannot be observed: the presets after a run are those of the run on records.  Every
      payload knows and counts the presets that point to it, and is deleted exactly when there is
      none; two presets share one exactly when one step wrote them. */
  method Execute(ops: seq<Op>) returns (m: Handles, shown: Records, ghost b: Books)
    ensures shown == Run(ops)
    ensures fresh(b.live) && fresh(b.heap) && Good(m, b, Run(ops))
    ensures forall q: Payload :: fresh(q) ==> q in b.heap
    ensures m.Keys == Written(ops).Keys
    ensures forall x, y :: x in m && y in m ==> (m[x].d == m[y].d <==> Written(ops)[x] == Written(ops)[y])
  {
    m, b := map[], Books({}, {}, map[]);
    for k := 0 to |ops|
      invariant Good(m, b, Run(ops[..k])) && Grouped(b.ds, Written(ops[..k]))
      invariant fresh(b.live) && fresh(b.heap)
      invariant forall q: Payload :: fresh(q) ==> q in b.heap
    {
      assert ops[..k + 1][..k] == ops[..k];
      ghost var ds := b.ds;
      m, b := Perform(m, ops[k], b, Run(ops[..k]));
      GroupedStep(ds, Written(ops[..k]), ops[k], b.ds, k);
    }
    assert ops[..|ops|] == ops;
    shown := Snapshot(m, b, Run(ops));
  }
}
