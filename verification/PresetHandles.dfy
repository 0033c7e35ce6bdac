/** Station presets as copy-on-write handles over shared, reference-counted payloads. */
module PresetHandles {
  datatype Info = Info(region: string, name: string, genre: string, band: string, frequency: int)

  const EMPTY := Info("", "", "", "", 0)

  class Payload {
    var ref: int
    var region: string
    var name: string
    var genre: string
    var band: string
    var frequency: int

    /** The handles that point here, and whether the payload has been deleted. */
    ghost var owners: set<RadioPreset>
    ghost var deleted: bool

    constructor (ghost heap: set<Payload>)
      ensures ref == 1 && Contents() == EMPTY && owners == {} && !deleted
      ensures forall q: Payload :: fresh(q) ==> q in heap + {this}
    {
      ref, frequency := 1, 0;
      region, name, genre, band := "", "", "", "";
      owners, deleted := {}, false;
    }

    function Contents(): Info
      reads this`region, this`name, this`genre, this`band, this`frequency
    {
      Info(region, name, genre, band, frequency)
    }

    /** One owner more. */
    method Take(ghost owner: RadioPreset, ghost heap: set<Payload>)
      requires owner !in owners && ref == |owners| && (deleted <==> owners == {}) && !deleted
      modifies this`ref, this`owners
      ensures owners == old(owners) + {owner} && ref == |owners| && !deleted && owners != {}
      ensures forall q: Payload :: fresh(q) ==> q in heap
    {
      ref := ref + 1;
      owners := owners + {owner};
    }

    /** One owner less; the last one deletes the payload. */
    method Release(ghost owner: RadioPreset, ghost heap: set<Payload>)
      requires owner in owners && ref == |owners| && !deleted
      modifies this`ref, this`owners, this`deleted
      ensures owners == old(owners) - {owner} && ref == |owners| && (deleted <==> owners == {})
      ensures forall q: Payload :: fresh(q) ==> q in heap
    {
      ref := ref - 1;
      owners := owners - {owner};
      assert old(owners) == owners + {owner};
      if ref == 0 { deleted := true; }
    }

    /** A payload with the same contents, and no owner yet. */
    method Clone(ghost heap: set<Payload>) returns (newd: Payload)
      ensures fresh(newd) && newd.Contents() == Contents() && newd.ref == 1 && newd.owners == {} && !newd.deleted
      ensures forall q: Payload :: fresh(q) ==> q in heap + {newd}
    {
      newd := new Payload(heap);
      newd.region := region;
      newd.name := name;
      newd.genre := genre;
      newd.band := band;
      newd.frequency := frequency;
    }
  }

  /** The accounts of payload p are right: it knows its live handles, counts them, and has been
      deleted exactly when there is none. */
  ghost predicate Accounted(p: Payload, live: set<RadioPreset>)
    reads p`ref, p`owners, p`deleted, live`d
  {
    && (forall h :: h in p.owners ==> h in live && h.d == p)
    && (forall h :: h in live && h.d == p ==> h in p.owners)
    && p.ref == |p.owners|
    && (p.deleted <==> p.owners == {})
  }

  /** All payloads ever allocated are accounted for, and every live handle points to one of them. */
  ghost predicate Inv(live: set<RadioPreset>, heap: set<Payload>)
    reads live`d, heap`ref, heap`owners, heap`deleted
  {
    && (forall h :: h in live ==> h.d in heap)
    && (forall p {:trigger Accounted(p, live)} :: p in heap ==> Accounted(p, live))
  }

  lemma LiveNotDeleted(live: set<RadioPreset>, heap: set<Payload>, h: RadioPreset)
    requires Inv(live, heap) && h in live
    ensures !h.d.deleted && h.d.ref >= 1 && h in h.d.owners
  {
    assert Accounted(h.d, live);
    assert |h.d.owners| == |h.d.owners - {h}| + 1;
  }

  /** The count is one exactly for the only handle. */
  lemma OnlyOwner(live: set<RadioPreset>, heap: set<Payload>, h: RadioPreset)
    requires Inv(live, heap) && h in live
    ensures h.d.ref == 1 <==> h.d.owners == {h}
    ensures h.d.ref == 1 <==> forall g :: g in live && g.d == h.d ==> g == h
  {
    LiveNotDeleted(live, heap, h);
    assert Accounted(h.d, live);
    var rest := h.d.owners - {h};
    assert |h.d.owners| == |rest| + 1;
    if |rest| == 0 { assert rest == {}; }
  }

  class RadioPreset {
    var d: Payload

    function Value(): Info
      reads this`d, d`region, d`name, d`genre, d`band, d`frequency
    {
      d.Contents()
    }

    /** A new handle with a payload of its own. */
    constructor (ghost live: set<RadioPreset>, ghost heap: set<Payload>)
      requires Inv(live, heap)
      ensures fresh(d) && Value() == EMPTY && Inv(live + {this}, heap + {d})
      ensures forall q: Payload :: fresh(q) ==> q in heap + {d}
    {
      var p := new Payload(heap);
      d := p;
      new;
      p.owners := {this};
      forall q | q in heap ensures Accounted(q, live + {this}) {
        assert old(Accounted(q, live));
      }
    }

    /** A new handle that shares the payload of another. */
    constructor Copy(other: RadioPreset, ghost live: set<RadioPreset>, ghost heap: set<Payload>)
      requires Inv(live, heap) && other in live
      modifies other.d`ref, other.d`owners
      ensures d == other.d && Value() == old(other.Value()) && Inv(live + {this}, heap)
      ensures forall q: Payload :: fresh(q) ==> q in heap
    {
      d := other.d;
      new;
      LiveNotDeleted(live, heap, other);
      assert Accounted(d, live);
      d.Take(this, heap);
      forall p | p in heap ensures Accounted(p, live + {this}) {
        assert old(Accounted(p, live));
      }
    }

    /** The end of a handle. */
    method Destroy(ghost live: set<RadioPreset>, ghost heap: set<Payload>)
      requires Inv(live, heap) && this in live
      modifies d`ref, d`owners, d`deleted
      ensures Inv(live - {this}, heap)
      ensures forall q: Payload :: fresh(q) ==> q in heap
      ensures d.deleted <==> !exists g :: g in live && g != this && g.d == d
    {
      LiveNotDeleted(live, heap, this);
      assert Accounted(d, live);
      d.Release(this, heap);
      forall p | p in heap ensures Accounted(p, live - {this}) {
        assert old(Accounted(p, live));
      }
    }

    /** Assignment: share the payload of the other handle. */
    method Assign(other: RadioPreset, ghost live: set<RadioPreset>, ghost heap: set<Payload>)
      requires Inv(live, heap) && this in live && other in live
      modifies this, d`ref, d`owners, d`deleted, other.d`ref, other.d`owners
      ensures Inv(live, heap) && d == old(other.d) && Value() == old(other.Value())
      ensures forall q: Payload :: fresh(q) ==> q in heap
      ensures forall h :: h in live && h != this ==> h.d == old(h.d) && h.Value() == old(h.Value())
    {
      LiveNotDeleted(live, heap, other);
      if d != other.d { Repoint(other.d, live, heap); }
    }

    /** Leave one payload for another. */
    method Repoint(to: Payload, ghost live: set<RadioPreset>, ghost heap: set<Payload>)
      requires Inv(live, heap) && this in live && to in heap && !to.deleted && d != to
      modifies this, d`ref, d`owners, d`deleted, to`ref, to`owners
      ensures Inv(live, heap) && d == to
      ensures forall q: Payload :: fresh(q) ==> q in heap
    {
      LiveNotDeleted(live, heap, this);
      assert Accounted(d, live) && Accounted(to, live);
      ghost var from := d;
      to.Take(this, heap);
      d.Release(this, heap);
      d := to;
      assert Accounted(from, live);
      assert Accounted(to, live);
      forall p | p in heap && p != from && p != to ensures Accounted(p, live) {
        assert old(Accounted(p, live));
      }
    }

    /** Leave a shared payload for a copy. */
    method Detach(ghost live: set<RadioPreset>, ghost heap: set<Payload>) returns (ghost heap': set<Payload>)
      requires Inv(live, heap) && this in live && d.owners != {this}
      modifies this, d`ref, d`owners
      ensures Inv(live, heap') && heap' == heap + {d} && fresh(d)
      ensures forall q: Payload :: fresh(q) ==> q in heap'
      ensures d.owners == {this} && Value() == old(Value())
    {
      LiveNotDeleted(live, heap, this);
      assert Accounted(d, live);
      var newd := d.Clone(heap);
      d.ref := d.ref - 1;
      d.owners := d.owners - {this};
      newd.owners := {this};
      d := newd;
      heap' := heap + {newd};
      forall p | p in heap' ensures Accounted(p, live) {
        if p != newd { assert old(Accounted(p, live)); }
      }
    }

    /** Make sure that nobody else sees a change of the payload. */
    method CopyOnWrite(ghost live: set<RadioPreset>, ghost heap: set<Payload>) returns (ghost heap': set<Payload>)
      requires Inv(live, heap) && this in live
      modifies this, d`ref, d`owners
      ensures Inv(live, heap') && heap <= heap' && fresh(heap' - heap)
      ensures forall q: Payload :: fresh(q) ==> q in heap'
      ensures d.ref == 1 && Value() == old(Value()) && (d == old(d) || fresh(d))
      ensures forall h :: h in live && h != this ==> h.d == old(h.d) && h.d != d && h.Value() == old(h.Value())
    {
      heap' := heap;
      OnlyOwner(live, heap, this);
      if d.ref != 1 { heap' := Detach(live, heap); }
      OnlyOwner(live, heap', this);
    }

    method SetRegion(value: string, ghost live: set<RadioPreset>, ghost heap: set<Payload>)
      returns (ghost heap': set<Payload>)
      requires Inv(live, heap) && this in live
      modifies this, d
      ensures Inv(live, heap') && heap <= heap' && fresh(heap' - heap)
      ensures forall q: Payload :: fresh(q) ==> q in heap'
      ensures Value() == old(Value()).(region := value) && (d == old(d) || fresh(d))
      ensures forall h :: h in live && h != this ==> h.d == old(h.d) != d && h.Value() == old(h.Value())
    {
      heap' := CopyOnWrite(live, heap);
      d.region := value;
    }

    method SetName(value: string, ghost live: set<RadioPreset>, ghost heap: set<Payload>)
      returns (ghost heap': set<Payload>)
      requires Inv(live, heap) && this in live
      modifies this, d
      ensures Inv(live, heap') && heap <= heap' && fresh(heap' - heap)
      ensures forall q: Payload :: fresh(q) ==> q in heap'
      ensures Value() == old(Value()).(name := value) && (d == old(d) || fresh(d))
      ensures forall h :: h in live && h != this ==> h.d == old(h.d) != d && h.Value() == old(h.Value())
    {
      heap' := CopyOnWrite(live, heap);
      d.name := value;
    }

    method SetGenre(value: string, ghost live: set<RadioPreset>, ghost heap: set<Payload>)
      returns (ghost heap': set<Payload>)
      requires Inv(live, heap) && this in live
      modifies this, d
      ensures Inv(live, heap') && heap <= heap' && fresh(heap' - heap)
      ensures forall q: Payload :: fresh(q) ==> q in heap'
      ensures Value() == old(Value()).(genre := value) && (d == old(d) || fresh(d))
      ensures forall h :: h in live && h != this ==> h.d == old(h.d) != d && h.Value() == old(h.Value())
    {
      heap' := CopyOnWrite(live, heap);
      d.genre := value;
    }

    method SetBand(value: string, ghost live: set<RadioPreset>, ghost heap: set<Payload>)
      returns (ghost heap': set<Payload>)
      requires Inv(live, heap) && this in live
      modifies this, d
      ensures Inv(live, heap') && heap <= heap' && fresh(heap' - heap)
      ensures forall q: Payload :: fresh(q) ==> q in heap'
      ensures Value() == old(Value()).(band := value) && (d == old(d) || fresh(d))
      ensures forall h :: h in live && h != this ==> h.d == old(h.d) != d && h.Value() == old(h.Value())
    {
      heap' := CopyOnWrite(live, heap);
      d.band := value;
    }

    method SetFrequency(value: int, ghost live: set<RadioPreset>, ghost heap: set<Payload>)
      returns (ghost heap': set<Payload>)
      requires Inv(live, heap) && this in live
      modifies this, d
      ensures Inv(live, heap') && heap <= heap' && fresh(heap' - heap)
      ensures forall q: Payload :: fresh(q) ==> q in heap'
      ensures Value() == old(Value()).(frequency := value) && (d == old(d) || fresh(d))
      ensures forall h :: h in live && h != this ==> h.d == old(h.d) != d && h.Value() == old(h.Value())
    {
      heap' := CopyOnWrite(live, heap);
      d.frequency := value;
    }
  }
}
