/** When a request for a part of a dependency leaves work undone.

    A family of project graphs on which the condition for the loader to finish in one call is exact:
    the project asks for d, d may depend on e and f, loading e asks for f, and f exports an object
    for those who ask for it directly. */
module DependsPartial {
  import opened Depends
  import opened DependsInvariants
  import opened DependsClosure
  import opened DependsEnabled
  import opened DependsExamples

  // ---------------------------------------------------------------- what opening a dependency delivers

  /** The world as project x sees it. */
  function From(w: World, x: string): World {
    w.(self := x, projects := w.projects - {x})
  }

  /** A dependency has loaded its own lists by the time it has been opened. */
  ghost predicate LoadedItself(w: World, x: string)
    requires x in w.projects
  {
    exists vars :: LoadsInto(From(w, x), vars, w.projects[x].vars)
  }

  ghost predicate LoadsInto(w: World, vars: map<string, seq<string>>, final: map<string, seq<string>>) {
    var r := Load(w, Initial(vars, false)).state;
    !r.disabled && r.vars == final
  }

  /** What is listed in DEPENDS exists and exports an object. */
  ghost predicate ListsExport(w: World) {
    forall d, e ::
      && d in w.projects && !IsEmpty(Value(w.projects[d].vars, "DEPENDS"))
      && e in Names(Value(w.projects[d].vars, "DEPENDS")) ==>
      e in w.projects && w.projects[e].objects != []
  }

  /** What opening the dependencies comes to, when it succeeds: the project being loaded is not among
      them, there is no cycle, there was no warning, and each has loaded its own lists. */
  ghost predicate Delivered(w: World) {
    && w.self !in w.projects
    && Acyclic(w)
    && ListsExport(w)
    && forall d :: d in w.projects ==> LoadedItself(w, d)
  }

  // ---------------------------------------------------------------- the family

  ghost predicate ThreeNames(d: string, e: string, f: string) {
    && TwoNames(d, e) && TwoNames(d, f) && TwoNames(e, f)
    && Index(d) != Index(e) && Index(d) != Index(f) && Index(e) != Index(f)
  }

  /** The object of e, which asks for f, and that of f, which only applies to those who ask for f. */
  function Adder(e: string, f: string): Obj { Obj("o", e, false, false, [Addition("DEPENDS", [f])]) }

  function Instant(f: string): Obj { Obj("i", f, true, false, []) }

  function Top(d: string, e: string, f: string, persists: bool, asks: bool): Project {
    Exporter(if persists then ["x"] else [], if asks then [e, f] else [], Idle(d))
  }

  function Graph(self: string, d: string, e: string, f: string, persists: bool, asks: bool): World {
    World(self,
          map[d := Top(d, e, f, persists, asks), e := Exporter([], [], Adder(e, f)), f := Exporter([], [], Instant(f))],
          map[], map[], map[])
  }

  /** A request for no more than what d persists. */
  ghost predicate Partly(entry: string, d: string) {
    && Names([entry]) == [d]
    && Wants(Depends, [entry]) == {Want(Depends, Index(d), "auto_persist")}
    && entry != ""
  }

  lemma PartlyExample(d: string)
    requires d != "" && ':' !in d
    ensures Partly(d + "::" + "auto_persist", d)
  {
    Ruled(d, "auto_persist");
  }

  function Start(entry: string): State {
    Initial(map["DEPENDS" := [entry], "MODULES" := []], false)
  }

  // ---------------------------------------------------------------- the walk below d

  function Asked(e: string, f: string): set<Want> {
    {Want(Depends, Index(e), "all"), Want(Depends, Index(f), "all")}
  }

  /** What a walk into e and f leaves behind, when they have not been visited. */
  function AfterWalk(a: State, e: string, f: string): State {
    a.(wanted := a.wanted + Asked(e, f),
       vars := UniteVar(a.vars, "DEPENDS", [f]),
       ran := a.ran + [Mark(Depends, Index(e), Ran(e))],
       marks := a.marks + {Mark(Depends, Index(e), AutoPersist)} + {Mark(Depends, Index(e), Ran(e))}
                        + {Mark(Depends, Index(f), AutoPersist)})
  }

  ghost predicate Unvisited3(a: State, e: string, f: string) {
    && Mark(Depends, Index(e), AutoPersist) !in a.marks && Mark(Depends, Index(e), Ran(e)) !in a.marks
    && Mark(Depends, Index(f), AutoPersist) !in a.marks && Mark(Depends, Index(f), Ran(f)) !in a.marks
  }

  lemma RunAdder(s: State, m: Mark, e: string, f: string)
    requires !s.disabled
    ensures RunObject(s, m, Adder(e, f)) ==
            s.(marks := s.marks + {m}, ran := s.ran + [m], vars := UniteVar(s.vars, "DEPENDS", [f]))
  {
    var a := [Addition("DEPENDS", [f])];
    assert a[..0] == [] && a[0] == Addition("DEPENDS", [f]);
    assert Eval(s.vars, a[..0]) == s.vars;
  }

  ghost predicate HasLeaves(w: World, e: string, f: string) {
    && e in w.projects && w.projects[e] == Exporter([], [], Adder(e, f))
    && f in w.projects && w.projects[f] == Exporter([], [], Instant(f))
  }

  lemma VisitAdder(w: World, k: State, e: string, f: string, root: bool) returns (b: State)
    requires HasLeaves(w, e, f) && !k.disabled && Want(Depends, Index(e), "all") in k.wanted
    requires Mark(Depends, Index(e), AutoPersist) !in k.marks && Mark(Depends, Index(e), Ran(e)) !in k.marks
    ensures ImportDepend(w, k, e, root, false) == Result(b, 1)
    ensures b == k.(vars := UniteVar(k.vars, "DEPENDS", [f]), ran := k.ran + [Mark(Depends, Index(e), Ran(e))],
                    marks := k.marks + {Mark(Depends, Index(e), AutoPersist)} + {Mark(Depends, Index(e), Ran(e))})
  {
    LeafVisit(w, k, e, [], Adder(e, f), root);
    var a := k.(marks := k.marks + {Mark(Depends, Index(e), AutoPersist)});
    RunAdder(a, Mark(Depends, Index(e), Ran(e)), e, f);
    b := RunObject(a, Mark(Depends, Index(e), Ran(e)), Adder(e, f));
  }

  /** Walked into from d, f is marked as imported and its object is passed over. */
  lemma WalkBelow(w: World, a: State, e: string, f: string)
    requires TwoNames(e, f) && Index(e) != Index(f) && HasLeaves(w, e, f) && !a.disabled && Unvisited3(a, e, f)
    ensures ResolveDepends(w, a, [e, f], false).state == AfterWalk(a, e, f)
  {
    TwoRequests(w, a, e, f, false);
    var b := VisitAdder(w, Both(a, e, f), e, f, false);
    LeafVisit(w, b, f, [], Instant(f), false);
    assert ImportDepend(w, b, f, false, false).state == AfterWalk(a, e, f);
  }

  // ---------------------------------------------------------------- the failing input

  lemma OneName(w: World, s: State, entry: string, d: string)
    requires Partly(entry, d) && Open(w, d)
    ensures var k := s.(wanted := s.wanted + {Want(Depends, Index(d), "auto_persist")});
            var r := ImportDepend(w, k, d, true, false);
            ResolveDepends(w, s, [entry], true) == Result(r.state, Counted(r.count > 0))
  {
    var k := s.(wanted := s.wanted + {Want(Depends, Index(d), "auto_persist")});
    assert Decode(s, Depends, [entry]) == k;
    assert [d][..0] == [] && ResolveNames(w, k, [d][..0], true) == Result(k, 0);
    assert ProcessDependency(w, k, d, true) == ImportDepend(w, k, d, true, false);
  }

  /** The graph as d and those below it see it. */
  ghost predicate Shape(w: World, d: string, e: string, f: string) {
    && ThreeNames(d, e, f) && HasLeaves(w, e, f)
    && d in w.projects && w.projects[d] == Top(d, e, f, false, true)
  }

  lemma NothingCounted(w: World, k: State, a: State, n: State, d: string, p: Project)
    requires d in w.projects && w.projects[d] == p && p.objects == [Idle(d)] && "MODULES" in p.vars
    requires ImportDue(k, Depends, Index(d)) && !OnlyExistsWanted(k, Depends, Index(d))
    requires ImportAutoPersist(k, Depends, Index(d), p) == Result(a, 0) && Nested(w, a, p) == n
    requires !Due(n, Depends, Index(d), Idle(d), true, false)
    ensures ImportDepend(w, k, d, true, false) == Result(n, 0)
  {
    OneObject(n, Index(d), Idle(d), true);
  }

  /** Only the walk below d does something, and nobody counts it. */
  lemma SilentVisit(w: World, k: State, d: string, e: string, f: string) returns (a: State, n: State)
    requires Shape(w, d, e, f) && k.marks == {} && k.wanted == {Want(Depends, Index(d), "auto_persist")} && !k.disabled
    ensures a == k.(marks := {Mark(Depends, Index(d), AutoPersist)}) && n == AfterWalk(a, e, f)
    ensures ImportDepend(w, k, d, true, false) == Result(n, 0)
  {
    var i := Index(d);
    a := k.(marks := {Mark(Depends, i, AutoPersist)});
    n := AfterWalk(a, e, f);
    assert ImportAutoPersist(k, Depends, i, w.projects[d]) == Result(a, 0) by {
      Import(k, i, [], [e, f], Idle(d));
      assert k.marks + {Mark(Depends, i, AutoPersist)} == a.marks;
    }
    BelowTop(w, a, d, e, f);
    OnlyPersisted(k, d, e, f);
    NothingCounted(w, k, a, n, d, w.projects[d]);
  }

  lemma OnlyPersisted(k: State, d: string, e: string, f: string)
    requires ThreeNames(d, e, f) && k.marks == {} && k.wanted == {Want(Depends, Index(d), "auto_persist")}
    ensures ImportDue(k, Depends, Index(d)) && !OnlyExistsWanted(k, Depends, Index(d))
    ensures !Due(AfterWalk(k.(marks := {Mark(Depends, Index(d), AutoPersist)}), e, f), Depends, Index(d), Idle(d),
            true, false)
  {
    assert Want(Depends, Index(d), "auto_persist") in k.wanted;
  }

  lemma BelowTop(w: World, a: State, d: string, e: string, f: string)
    requires Shape(w, d, e, f) && !a.disabled && Unvisited3(a, e, f)
    ensures Nested(w, a, w.projects[d]) == AfterWalk(a, e, f)
  {
    WalkBelow(w, a, e, f);
    assert LoadModules(w, a, []) == Result(a, 0);
  }

  lemma FirstCall(w: World, entry: string, d: string, e: string, f: string) returns (a: State, n: State)
    requires Shape(w, d, e, f) && Partly(entry, d)
    ensures a == Start(entry).(wanted := {Want(Depends, Index(d), "auto_persist")},
                               marks := {Mark(Depends, Index(d), AutoPersist)})
    ensures n == AfterWalk(a, e, f) && Load(w, Start(entry)) == Result(n, 0)
  {
    var s := Start(entry);
    OneName(w, s, entry, d);
    var k := s.(wanted := {Want(Depends, Index(d), "auto_persist")});
    assert s.wanted + {Want(Depends, Index(d), "auto_persist")} == k.wanted;
    a, n := SilentVisit(w, k, d, e, f);
    assert LoadModules(w, s, []) == Result(s, 0);
  }

  lemma TwoListed(entry: string, d: string, f: string)
    requires TwoNames(d, f) && Partly(entry, d)
    ensures Names([entry, f]) == [d, f] && Unite([entry], [f]) == [entry, f]
    ensures Wants(Depends, [entry, f]) == {Want(Depends, Index(d), "auto_persist"), Want(Depends, Index(f), "all")}
  {
    Plain(f);
    ListBoth([entry], d, f);
    Differs(entry, d, f);
    UnitePresent([entry], f);
    assert [entry] + [f] == [entry, f];
  }

  lemma Differs(entry: string, d: string, f: string)
    requires TwoNames(d, f) && Names([entry]) == [d]
    ensures entry != f
  {
    Single(Depends, f);
  }

  lemma ListBoth(one: seq<string>, d: string, f: string)
    requires Names(one) == [d] && Wants(Depends, one) == {Want(Depends, Index(d), "auto_persist")}
    requires NameOf(f) == f && !HasRule(f) && d != f
    ensures Names(one + [f]) == [d, f]
    ensures Wants(Depends, one + [f]) == {Want(Depends, Index(d), "auto_persist"), Want(Depends, Index(f), "all")}
  {
    Append(Depends, one, f);
  }

  /** What the first call leaves. */
  ghost predicate Left(n: State, entry: string, d: string, f: string) {
    && Value(n.vars, "DEPENDS") == [entry, f] && Value(n.vars, "MODULES") == [] && !n.disabled
    && Want(Depends, Index(d), "auto_persist") in n.wanted && Want(Depends, Index(f), "all") in n.wanted
    && Mark(Depends, Index(d), AutoPersist) in n.marks && Mark(Depends, Index(f), AutoPersist) in n.marks
    && Mark(Depends, Index(f), Ran(f)) !in n.marks
    && !Due(n, Depends, Index(d), Idle(d), true, false)
  }

  lemma FirstLeaves(w: World, entry: string, d: string, e: string, f: string) returns (n: State)
    requires Shape(w, d, e, f) && Partly(entry, d)
    ensures Load(w, Start(entry)) == Result(n, 0) && Left(n, entry, d, f)
  {
    var a;
    a, n := FirstCall(w, entry, d, e, f);
    assert Value(n.vars, "DEPENDS") == [entry, f] && Value(n.vars, "MODULES") == [] by {
      TwoListed(entry, d, f);
      assert Value(a.vars, "DEPENDS") == [entry];
    }
    OnlyPersisted(Start(entry).(wanted := a.wanted), d, e, f);
    assert a == Start(entry).(wanted := a.wanted).(marks := {Mark(Depends, Index(d), AutoPersist)});
    WalkMarks(a, n, d, e, f);
  }

  lemma WalkMarks(a: State, n: State, d: string, e: string, f: string)
    requires ThreeNames(d, e, f) && n == AfterWalk(a, e, f)
    requires a.marks == {Mark(Depends, Index(d), AutoPersist)} && Want(Depends, Index(d), "auto_persist") in a.wanted
    ensures Want(Depends, Index(d), "auto_persist") in n.wanted && Want(Depends, Index(f), "all") in n.wanted
    ensures Mark(Depends, Index(d), AutoPersist) in n.marks && Mark(Depends, Index(f), AutoPersist) in n.marks
    ensures Mark(Depends, Index(f), Ran(f)) !in n.marks && n.disabled == a.disabled
  {
  }

  lemma NotSettled(w: World, n: State, entry: string, d: string, f: string)
    requires f in w.projects && w.projects[f] == Exporter([], [], Instant(f)) && Left(n, entry, d, f) && f in Listed(n)
    ensures !Closed(w, n)
  {
    assert Instant(f) in w.projects[f].objects;
    assert Due(n, Depends, Index(f), Instant(f), true, false);
    assert !SettledDepend(w, n, f);
  }

  /** The first call counts nothing and returns with f listed; the object of f has not run, and the
      second call runs it. */
  lemma PartialStopsEarly(w: World, entry: string, d: string, e: string, f: string)
    requires Shape(w, d, e, f) && Partly(entry, d)
    ensures var r := Load(w, Start(entry));
            && r.count == 0 && !r.state.disabled && f in Listed(r.state)
            && Mark(Depends, Index(f), Ran(f)) !in r.state.marks
            && Mark(Depends, Index(f), Ran(f)) in Load(w, r.state).state.marks
            && !Closed(w, r.state)
  {
    var n := FirstLeaves(w, entry, d, e, f);
    TwoListed(entry, d, f);
    NotSettled(w, n, entry, d, f);
    SecondCallRuns(w, n, entry, d, f);
  }

  lemma SecondCallRuns(w: World, n: State, entry: string, d: string, f: string)
    requires TwoNames(d, f) && Partly(entry, d) && Left(n, entry, d, f) && Open(w, d) && Open(w, f)
    requires w.projects[d].objects == [Idle(d)] && w.projects[f] == Exporter([], [], Instant(f))
    ensures Mark(Depends, Index(f), Ran(f)) in Load(w, n).state.marks
  {
    SecondRound(w, n, entry, d, f);
    SecondPass(w, n, entry, d, f);
    PassConsumes(w, n);
    assert Grows(Pass(w, n).state, Load(w, n).state);
  }

  lemma SecondPass(w: World, n: State, entry: string, d: string, f: string)
    requires TwoNames(d, f) && Partly(entry, d) && Left(n, entry, d, f) && Open(w, d) && Open(w, f)
    ensures Pass(w, n) == ResolveTwo(w, n, d, f, true)
  {
    TwoListed(entry, d, f);
    Resolving(w, n, [entry, f], [d, f]);
    TwoDependencies(w, n, d, f, true);
    assert LoadModules(w, n, []) == Result(n, 0);
  }

  /** A round for requests that were recorded before. */
  lemma Resolving(w: World, n: State, entries: seq<string>, names: seq<string>)
    requires !IsEmpty(entries) && Names(entries) == names && Wants(Depends, entries) <= n.wanted
    ensures ResolveDepends(w, n, entries, true) == ResolveNames(w, n, names, true)
  {
    assert Decode(n, Depends, entries) == n;
  }

  lemma SecondRound(w: World, n: State, entry: string, d: string, f: string)
    requires Left(n, entry, d, f) && d in w.projects && w.projects[d].objects == [Idle(d)]
    requires f in w.projects && w.projects[f] == Exporter([], [], Instant(f))
    ensures var r := ResolveTwo(w, n, d, f, true); r.count > 0 && Mark(Depends, Index(f), Ran(f)) in r.state.marks
  {
    OneObject(n, Index(d), Idle(d), true);
    assert !OnlyExistsWanted(n, Depends, Index(d)) && !ImportDue(n, Depends, Index(d));
    LaterVisit(w, n, f, [], [], Instant(f), true);
  }

  // ---------------------------------------------------------------- the other inputs

  lemma GraphShape(self: string, d: string, e: string, f: string, persists: bool, asks: bool)
    requires ThreeNames(d, e, f)
    ensures var w := Graph(self, d, e, f, persists, asks);
            HasLeaves(w, e, f) && Open(w, d) && w.projects[d] == Top(d, e, f, persists, asks)
  {
  }

  /** Each project exports one object, which has the name of the project. */
  lemma GraphUnique(self: string, d: string, e: string, f: string, persists: bool, asks: bool)
    requires ThreeNames(d, e, f)
    ensures UniqueNames(Graph(self, d, e, f, persists, asks))
  {
    var w := Graph(self, d, e, f, persists, asks);
    forall x, o | x in w.projects && o in w.projects[x].objects ensures o.absName == x {
      assert w.projects[x].objects == [if x == d then Idle(d) else if x == e then Adder(e, f) else Instant(f)];
    }
  }

  lemma GraphAcyclic(self: string, d: string, e: string, f: string, persists: bool, asks: bool)
    requires ThreeNames(d, e, f)
    ensures Acyclic(Graph(self, d, e, f, persists, asks))
  {
    var w, rank := Graph(self, d, e, f, persists, asks), map[d := 1, e := 0, f := 0];
    forall x, y | x in w.projects && y in w.projects && y in Names(Value(w.projects[x].vars, "DEPENDS"))
      ensures rank[y] < rank[x]
    {
      GraphEdge(self, d, e, f, persists, asks, x, y);
    }
    assert Ranked(w, rank);
  }

  lemma GraphLists(self: string, d: string, e: string, f: string, persists: bool, asks: bool, x: string)
    requires ThreeNames(d, e, f) && x in {d, e, f}
    ensures var vars := Graph(self, d, e, f, persists, asks).projects[x].vars;
            Value(vars, "DEPENDS") == (if x == d && asks then [e, f] else []) && Value(vars, "MODULES") == []
  {
  }

  lemma GraphEdge(self: string, d: string, e: string, f: string, persists: bool, asks: bool, x: string, y: string)
    requires ThreeNames(d, e, f) && x in {d, e, f}
    requires y in Names(Value(Graph(self, d, e, f, persists, asks).projects[x].vars, "DEPENDS"))
    ensures x == d && asks && y in {e, f}
  {
    GraphLists(self, d, e, f, persists, asks, x);
    TopNames(e, f, x == d && asks, Value(Graph(self, d, e, f, persists, asks).projects[x].vars, "DEPENDS"), y);
  }

  lemma TopNames(e: string, f: string, asks: bool, list: seq<string>, y: string)
    requires TwoNames(e, f) && list == (if asks then [e, f] else []) && y in Names(list)
    ensures asks && (y == e || y == f)
  {
    if asks { TwoDecoded(e, f); }
  }

  lemma GraphWhole(self: string, d: string, e: string, f: string, persists: bool, asks: bool)
    requires ThreeNames(d, e, f)
    ensures WholeWorld(Graph(self, d, e, f, persists, asks))
  {
    Plain(e);
    Plain(f);
    var w := Graph(self, d, e, f, persists, asks);
    forall p | p in AllProjects(w)
      ensures WholeEntries(Value(p.vars, "DEPENDS"))
      ensures forall o, a :: o in p.objects && a in o.eval && a.variable == "DEPENDS" ==> WholeEntries(a.values)
    {
      assert p in {w.projects[d], w.projects[e], w.projects[f]};
    }
  }

  /** The project is enabled, and everything it lists is loaded. */
  ghost predicate Done(w: World, r: State) {
    !r.disabled && Closed(w, r)
  }

  lemma GraphEnabled(self: string, d: string, e: string, f: string, persists: bool, asks: bool)
    requires ThreeNames(d, e, f)
    ensures Enabled(Graph(self, d, e, f, persists, asks))
  {
    var w := Graph(self, d, e, f, persists, asks);
    assert AllProjects(w) == {w.projects[d], w.projects[e], w.projects[f]};
  }

  lemma GraphAnnounced(self: string, d: string, e: string, f: string, persists: bool, asks: bool, whole: bool,
                       x: string)
    requires ThreeNames(d, e, f) && (persists || !asks || whole) && x in {d, e, f}
    ensures Announced(Graph(self, d, e, f, persists, asks), whole, x)
  {
    var w := Graph(self, d, e, f, persists, asks);
    if x == d {
      if persists {
        assert "QT" in w.projects[d].autoPersist && Persists(w.projects[d], "QT");
      } else if asks {
        GraphAcyclic(self, d, e, f, persists, asks);
        AcyclicOffCycle(w, d);
      }
    }
  }

  lemma OtherwiseDone(self: string, entry: string, d: string, e: string, f: string, persists: bool, asks: bool,
                      whole: bool)
    requires ThreeNames(d, e, f) && (persists || !asks || whole) && (whole ==> entry == d)
    ensures var w := Graph(self, d, e, f, persists, asks); Done(w, Load(w, Start(entry)).state)
  {
    var w := Graph(self, d, e, f, persists, asks);
    GraphUnique(self, d, e, f, persists, asks);
    forall x | x in w.projects ensures Announced(w, whole, x) {
      GraphAnnounced(self, d, e, f, persists, asks, whole, x);
    }
    StartInv(self, entry, d, e, f, persists, asks, whole);
    GraphEnabled(self, d, e, f, persists, asks);
    StaysEnabled(w, Start(entry));
    LoadCloses(w, whole, Start(entry));
  }

  lemma StartInv(self: string, entry: string, d: string, e: string, f: string, persists: bool, asks: bool, whole: bool)
    requires ThreeNames(d, e, f) && (whole ==> entry == d)
    ensures Inv(Graph(self, d, e, f, persists, asks), whole, Start(entry))
  {
    GraphWhole(self, d, e, f, persists, asks);
    Plain(d);
    InitialInv(Graph(self, d, e, f, persists, asks), whole, Start(entry).vars, false);
  }

  // ---------------------------------------------------------------- such graphs exist

  lemma NothingListed(w: World, x: string)
    requires x in w.projects && Value(w.projects[x].vars, "DEPENDS") == [] && Value(w.projects[x].vars, "MODULES") == []
    ensures LoadedItself(w, x)
  {
    var v := From(w, x);
    var s := Initial(w.projects[x].vars, false);
    assert LoadModules(v, s, []) == Result(s, 0);
    assert Pass(v, s) == Result(s, 0);
    assert LoadsInto(v, w.projects[x].vars, w.projects[x].vars);
  }

  /** Loading d itself runs the object of e, which adds nothing new, and that of f. */
  lemma TopLoaded(w: World, vars: map<string, seq<string>>, e: string, f: string)
    requires TwoNames(e, f) && Index(e) != Index(f) && HasLeaves(w, e, f)
    requires "DEPENDS" in vars && vars["DEPENDS"] == [e, f] && Value(vars, "MODULES") == []
    ensures LoadsInto(w, vars, vars)
  {
    var r := TopPass(w, vars, e, f);
    BothVisited(w, r, e, f, Adder(e, f), Instant(f));
    PassConsumes(w, Initial(vars, false));
  }

  lemma TopPass(w: World, vars: map<string, seq<string>>, e: string, f: string) returns (r: State)
    requires TwoNames(e, f) && Index(e) != Index(f) && HasLeaves(w, e, f)
    requires "DEPENDS" in vars && vars["DEPENDS"] == [e, f] && Value(vars, "MODULES") == []
    ensures Pass(w, Initial(vars, false)) == Result(r, 2) && r.vars == vars && !r.disabled
    ensures Visited(r, e, Adder(e, f)) && Visited(r, f, Instant(f))
  {
    var s := Initial(vars, false);
    var b := VisitAdder(w, Both(s, e, f), e, f, true);
    UnitePresent([e, f], f);
    assert b.vars == vars;
    r := VisitInstant(w, b, e, f);
    TwoPass(w, s, e, f);
  }

  lemma VisitInstant(w: World, b: State, e: string, f: string) returns (r: State)
    requires HasLeaves(w, e, f) && Want(Depends, Index(f), "all") in b.wanted
    requires Mark(Depends, Index(f), AutoPersist) !in b.marks && Mark(Depends, Index(f), Ran(f)) !in b.marks
    ensures ImportDepend(w, b, f, true, false) == Result(r, 1)
    ensures r.vars == b.vars && r.wanted == b.wanted && r.disabled == b.disabled
    ensures r.marks == b.marks + {Mark(Depends, Index(f), AutoPersist)} + {Mark(Depends, Index(f), Ran(f))}
  {
    LeafVisit(w, b, f, [], Instant(f), true);
    r := ImportDepend(w, b, f, true, false).state;
    RunIdle(b.(marks := b.marks + {Mark(Depends, Index(f), AutoPersist)}), Mark(Depends, Index(f), Ran(f)), Instant(f));
  }

  lemma GraphDelivered(self: string, d: string, e: string, f: string, persists: bool, asks: bool)
    requires ThreeNames(d, e, f) && self !in {d, e, f}
    ensures Delivered(Graph(self, d, e, f, persists, asks))
  {
    var w := Graph(self, d, e, f, persists, asks);
    GraphAcyclic(self, d, e, f, persists, asks);
    GraphExports(self, d, e, f, persists, asks);
    GraphAllLoaded(self, d, e, f, persists, asks);
    Delivering(w);
  }

  lemma Delivering(w: World)
    requires w.self !in w.projects && Acyclic(w) && ListsExport(w) && forall d :: d in w.projects ==> LoadedItself(w, d)
    ensures Delivered(w)
  {
  }

  lemma GraphAllLoaded(self: string, d: string, e: string, f: string, persists: bool, asks: bool)
    requires ThreeNames(d, e, f)
    ensures var w := Graph(self, d, e, f, persists, asks); forall x :: x in w.projects ==> LoadedItself(w, x)
  {
    var w := Graph(self, d, e, f, persists, asks);
    forall x | x in w.projects ensures LoadedItself(w, x) {
      assert x in {d, e, f};
      GraphLoaded(self, d, e, f, persists, asks, x);
    }
  }

  lemma GraphExports(self: string, d: string, e: string, f: string, persists: bool, asks: bool)
    requires ThreeNames(d, e, f)
    ensures ListsExport(Graph(self, d, e, f, persists, asks))
  {
    var w := Graph(self, d, e, f, persists, asks);
    forall x, y | x in w.projects && y in Names(Value(w.projects[x].vars, "DEPENDS"))
      ensures y in w.projects && w.projects[y].objects != []
    {
      GraphEdge(self, d, e, f, persists, asks, x, y);
    }
  }

  lemma GraphLoaded(self: string, d: string, e: string, f: string, persists: bool, asks: bool, x: string)
    requires ThreeNames(d, e, f) && x in {d, e, f}
    ensures LoadedItself(Graph(self, d, e, f, persists, asks), x)
  {
    var w := Graph(self, d, e, f, persists, asks);
    GraphLists(self, d, e, f, persists, asks, x);
    if x == d && asks {
      TopLoaded(From(w, d), w.projects[d].vars, e, f);
    } else {
      NothingListed(w, x);
    }
  }

  /** On these graphs, all of which can occur, the condition is exact: the first call gets there if
      and only if d persists something, asks for nothing, or is requested whole. */
  lemma PartialRequestIff(self: string, entry: string, d: string, e: string, f: string, persists: bool, asks: bool,
                          whole: bool)
    requires ThreeNames(d, e, f) && self !in {d, e, f} && if whole then entry == d else Partly(entry, d)
    ensures var w := Graph(self, d, e, f, persists, asks);
            && Delivered(w)
            && (Done(w, Load(w, Start(entry)).state) <==> persists || !asks || whole)
  {
    GraphDelivered(self, d, e, f, persists, asks);
    if persists || !asks || whole {
      OtherwiseDone(self, entry, d, e, f, persists, asks, whole);
    } else {
      GraphShape(self, d, e, f, persists, asks);
      PartialStopsEarly(Graph(self, d, e, f, persists, asks), entry, d, e, f);
    }
  }

  /** Such names exist. */
  lemma SuchNames()
    ensures ThreeNames("/d", "/e", "/f")
  {
    assert Index("/d")[1] == 'd' && Index("/e")[1] == 'e' && Index("/f")[1] == 'f';
  }
}
