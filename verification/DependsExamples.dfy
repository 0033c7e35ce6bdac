/** Small project graphs, step by step, and two dependencies on which the loader loses a variable.
    Each dependency exports an object, and each has been loaded itself before it is walked into. */
module DependsExamples {
  import opened Options
  import opened Depends
  import opened DependsInvariants
  import opened DependsClosure

  // ---------------------------------------------------------------- evaluating one request

  lemma PlainLength(entry: string, k: nat)
    requires k <= |entry| && ':' !in entry
    ensures RunLength(entry, k) == |entry| - k
    decreases |entry| - k
  {
    if k < |entry| { PlainLength(entry, k + 1); }
  }

  lemma Plain(entry: string)
    requires entry != "" && ':' !in entry
    ensures NameOf(entry) == entry && !HasRule(entry)
  {
    assert entry[0] != ':';
    PlainLength(entry, 0);
    assert entry[0..|entry|] == entry;
  }

  lemma Append(db: Db, entries: seq<string>, x: string)
    ensures Names(entries + [x]) == if NameOf(x) in Names(entries) then Names(entries) else Names(entries) + [NameOf(x)]
    ensures Wants(db, entries + [x]) == Wants(db, entries) + WantsOf(db, x)
  {
    assert (entries + [x])[..|entries|] == entries;
  }

  lemma Single(db: Db, entry: string)
    requires entry != "" && ':' !in entry
    ensures Names([entry]) == [entry] && Wants(db, [entry]) == {Want(db, Index(entry), "all")}
    ensures !IsEmpty([entry])
  {
    Plain(entry);
    Append(db, [], entry);
    assert [] + [entry] == [entry];
  }

  lemma OneObject(s: State, i: string, o: Obj, root: bool)
    ensures RunObjects(s, Depends, i, [o], root, false) ==
            if Due(s, Depends, i, o, root, false) then
              Result(RunObject(s, Mark(Depends, i, Ran(o.absName)), o), 1)
            else
              Result(s, 0)
  {
    assert [o][..0] == [] && [o][0] == o;
    assert RunObjects(s, Depends, i, [o][..0], root, false) == Result(s, 0);
  }

  lemma UnitePresent(have: seq<string>, x: string)
    ensures Unite(have, [x]) == if x in have then have else have + [x]
  {
    assert [x][..0] == [] && [x][0] == x;
  }

  /** Reading a request that has the form of a name, two colons and a rule. */
  lemma Shape(entry: string, d: string, rule: string)
    requires d != "" && ':' !in d && |d| + 2 <= |entry| && entry[..|d|] == d && entry[|d| + 2..] == rule
    requires entry[|d|] == ':' && entry[|d| + 1] == ':'
    ensures NameOf(entry) == d && HasRule(entry) && RuleOf(entry) == rule
  {
    assert entry[0] == d[0];
    RunEnds(entry, d, 0);
  }

  /** What the two forms of a request ask for: all of a dependency, or one rule of it.  Who asks for
      the persisted objects also asks for all. */
  lemma RequestForms(db: Db, d: string, rule: string)
    requires d != "" && ':' !in d
    ensures WantsOf(db, d) == {Want(db, Index(d), "all")}
    ensures rule != "persisted" ==> WantsOf(db, d + "::" + rule) == {Want(db, Index(d), rule)}
    ensures rule == "persisted" ==>
            WantsOf(db, d + "::" + rule) == {Want(db, Index(d), "persisted"), Want(db, Index(d), "all")}
  {
    Plain(d);
    var colons := "::";
    var entry := d + colons + rule;
    assert entry[..|d|] == d && entry[|d| + 2..] == rule;
    Shape(entry, d, rule);
  }

  lemma Ruled(d: string, rule: string)
    requires d != "" && ':' !in d && rule != "persisted"
    ensures Names([d + "::" + rule]) == [d] && Wants(Depends, [d + "::" + rule]) == {Want(Depends, Index(d), rule)}
  {
    var entry := d + "::" + rule;
    RequestForms(Depends, d, rule);
    assert entry[..|d|] == d && entry[|d| + 2..] == rule;
    Shape(entry, d, rule);
    Append(Depends, [], entry);
    assert [] + [entry] == [entry];
  }

  lemma RunEnds(entry: string, d: string, k: nat)
    requires k <= |d| < |entry| && entry[..|d|] == d && ':' !in d && entry[|d|] == ':'
    ensures RunLength(entry, k) == |d| - k
    decreases |d| - k
  {
    if k < |d| {
      assert entry[k] == d[k];
      RunEnds(entry, d, k + 1);
    }
  }

  // ---------------------------------------------------------------- projects with one object

  /** A project that asks for no modules; `qt` are the values of a variable that it persists. */
  function Exporter(qt: seq<string>, depends: seq<string>, o: Obj): Project {
    Project(true, false, None, ["MODULES", "QT"], map["MODULES" := [], "DEPENDS" := depends, "QT" := qt], [o])
  }

  function WithQt(vars: map<string, seq<string>>, qt: seq<string>): map<string, seq<string>> {
    if qt == [] then vars else UniteVar(vars, "QT", qt)
  }

  function Counted(yes: bool): nat {
    if yes then 1 else 0
  }

  lemma Import(s: State, i: string, qt: seq<string>, depends: seq<string>, o: Obj)
    ensures ImportAutoPersist(s, Depends, i, Exporter(qt, depends, o)) ==
            Result(s.(marks := s.marks + {Mark(Depends, i, AutoPersist)}, vars := WithQt(s.vars, qt)),
                   Counted(qt != []))
  {
    var t, p, v := s.(marks := s.marks + {Mark(Depends, i, AutoPersist)}), Exporter(qt, depends, o), ["MODULES", "QT"];
    assert v[..1] == ["MODULES"] && v[1] == "QT" && ["MODULES"][..0] == [] && ["MODULES"][0] == "MODULES";
    assert !Persists(p, "MODULES") && (Persists(p, "QT") <==> qt != []);
    assert ImportVars(t, p, ["MODULES"][..0]) == Result(t, 0);
    assert ImportVars(t, p, v[..1]) == Result(t, 0);
  }

  /** The object of a dependency that exports just one, after everything else. */
  function Finish(n: State, i: string, o: Obj, root: bool): Result {
    if Due(n, Depends, i, o, root, false) then
      Result(RunObject(n, Mark(Depends, i, Ran(o.absName)), o), 1)
    else
      Result(n, 0)
  }

  /** The first visit of a dependency that asks for nothing itself. */
  lemma LeafVisit(w: World, s: State, x: string, qt: seq<string>, o: Obj, root: bool)
    requires x in w.projects && w.projects[x] == Exporter(qt, [], o)
    requires Want(Depends, Index(x), "all") in s.wanted && Mark(Depends, Index(x), AutoPersist) !in s.marks
    ensures var a := s.(marks := s.marks + {Mark(Depends, Index(x), AutoPersist)}, vars := WithQt(s.vars, qt));
            var f := Finish(a, Index(x), o, root);
            ImportDepend(w, s, x, root, false) == Result(f.state, Counted(qt != []) + f.count)
  {
    var i, p := Index(x), w.projects[x];
    Import(s, i, qt, [], o);
    var a := ImportAutoPersist(s, Depends, i, p).state;
    assert Nested(w, a, p) == a by { NestedNothing(w, a, p); }
    OneObject(a, i, o, root);
    assert !OnlyExistsWanted(s, Depends, i) && ImportDue(s, Depends, i);
  }

  lemma LaterVisit(w: World, s: State, x: string, qt: seq<string>, depends: seq<string>, o: Obj, root: bool)
    requires x in w.projects && w.projects[x] == Exporter(qt, depends, o)
    requires Want(Depends, Index(x), "all") in s.wanted && Mark(Depends, Index(x), AutoPersist) in s.marks
    ensures ImportDepend(w, s, x, root, false) == Finish(s, Index(x), o, root)
  {
    OneObject(s, Index(x), o, root);
    assert !OnlyExistsWanted(s, Depends, Index(x)) && !ImportDue(s, Depends, Index(x));
  }

  // ---------------------------------------------------------------- two requests

  ghost predicate TwoNames(d: string, e: string) {
    d != "" && e != "" && ':' !in d && ':' !in e && d != e
  }

  lemma TwoDecoded(d: string, e: string)
    requires TwoNames(d, e)
    ensures Names([d, e]) == [d, e] && !IsEmpty([d, e])
    ensures Wants(Depends, [d, e]) == {Want(Depends, Index(d), "all"), Want(Depends, Index(e), "all")}
  {
    Single(Depends, d);
    AppendPlain([d], d, e);
    assert [d] + [e] == [d, e];
  }

  lemma AppendPlain(one: seq<string>, d: string, e: string)
    requires TwoNames(d, e) && Names(one) == [d] && Wants(Depends, one) == {Want(Depends, Index(d), "all")}
    ensures Names(one + [e]) == [d, e]
    ensures Wants(Depends, one + [e]) == {Want(Depends, Index(d), "all"), Want(Depends, Index(e), "all")}
  {
    Plain(e);
    Append(Depends, one, e);
  }

  /** Loading both, one after the other. */
  function ResolveTwo(w: World, k: State, d: string, e: string, root: bool): Result
    requires d in w.projects && e in w.projects
  {
    var r := ImportDepend(w, k, d, root, false);
    var q := ImportDepend(w, r.state, e, root, false);
    Result(q.state, Counted(r.count > 0) + Counted(q.count > 0))
  }

  ghost predicate Open(w: World, d: string) {
    d in w.projects && w.projects[d].inRoot && !w.projects[d].disabled
  }

  lemma TwoDependencies(w: World, k: State, d: string, e: string, root: bool)
    requires Open(w, d) && Open(w, e)
    ensures ResolveNames(w, k, [d, e], root) == ResolveTwo(w, k, d, e, root)
  {
    assert [d, e][..1] == [d] && [d, e][1] == e && [d][..0] == [] && [d][0] == d;
    assert ResolveNames(w, k, [d][..0], root) == Result(k, 0);
    assert ProcessDependency(w, k, d, root) == ImportDepend(w, k, d, root, false);
    var r := ImportDepend(w, k, d, root, false);
    assert ResolveNames(w, k, [d, e][..1], root) == Result(r.state, Counted(r.count > 0));
    assert ProcessDependency(w, r.state, e, root) == ImportDepend(w, r.state, e, root, false);
  }

  function Both(s: State, d: string, e: string): State {
    s.(wanted := s.wanted + {Want(Depends, Index(d), "all"), Want(Depends, Index(e), "all")})
  }

  lemma TwoRequests(w: World, s: State, d: string, e: string, root: bool)
    requires TwoNames(d, e) && Open(w, d) && Open(w, e)
    ensures ResolveDepends(w, s, [d, e], root) == ResolveTwo(w, Both(s, d, e), d, e, root)
  {
    TwoDecoded(d, e);
    TwoDependencies(w, Both(s, d, e), d, e, root);
  }

  /** One round with these two names in DEPENDS and nothing in MODULES. */
  lemma TwoPass(w: World, s: State, d: string, e: string)
    requires TwoNames(d, e) && Open(w, d) && Open(w, e)
    requires Value(s.vars, "DEPENDS") == [d, e] && Value(s.vars, "MODULES") == []
    ensures Pass(w, s) == ResolveTwo(w, Both(s, d, e), d, e, true)
  {
    TwoRequests(w, s, d, e, true);
    assert LoadModules(w, s, []) == Result(s, 0);
  }

  /** A state in which both were visited and their objects ran. */
  ghost predicate Visited(r: State, x: string, o: Obj) {
    && Want(Depends, Index(x), "all") in r.wanted
    && Mark(Depends, Index(x), AutoPersist) in r.marks
    && Mark(Depends, Index(x), Ran(o.absName)) in r.marks
  }

  /** Then nothing is left to be done. */
  lemma BothVisited(w: World, r: State, d: string, e: string, o: Obj, q: Obj)
    requires TwoNames(d, e) && Open(w, d) && Open(w, e) && !r.disabled
    requires w.projects[d].objects == [o] && w.projects[e].objects == [q]
    requires Value(r.vars, "DEPENDS") == [d, e] && Value(r.vars, "MODULES") == []
    requires Visited(r, d, o) && Visited(r, e, q)
    ensures Closed(w, r) && Load(w, r) == Result(r, 0)
  {
    BothQuiet(w, r, d, e, o, q);
    PassConsumes(w, r);
    PassStill(w, r);
  }

  lemma BothQuiet(w: World, r: State, d: string, e: string, o: Obj, q: Obj)
    requires TwoNames(d, e) && Open(w, d) && Open(w, e)
    requires w.projects[d].objects == [o] && w.projects[e].objects == [q]
    requires Value(r.vars, "DEPENDS") == [d, e] && Value(r.vars, "MODULES") == []
    requires Visited(r, d, o) && Visited(r, e, q)
    ensures Pass(w, r) == Result(r, 0)
  {
    assert Both(r, d, e) == r;
    assert ResolveTwo(w, r, d, e, true) == Result(r, 0) by {
      VisitedAgain(w, r, d, o);
      VisitedAgain(w, r, e, q);
    }
    TwoPass(w, r, d, e);
  }

  lemma VisitedAgain(w: World, r: State, x: string, o: Obj)
    requires x in w.projects && w.projects[x].objects == [o] && Visited(r, x, o)
    ensures ImportDepend(w, r, x, true, false) == Result(r, 0)
  {
    OneObject(r, Index(x), o, true);
    assert !OnlyExistsWanted(r, Depends, Index(x)) && !ImportDue(r, Depends, Index(x));
  }

  // ---------------------------------------------------------------- two names, one rule database

  function Idle(name: string): Obj {
    Obj("o", name, false, false, [])
  }

  lemma RunIdle(s: State, m: Mark, o: Obj)
    requires o.eval == []
    ensures RunObject(s, m, o) == s.(marks := s.marks + {m}, ran := s.ran + [m])
  {
  }

  /** d and e only differ in characters that the rule database cannot tell apart. */
  ghost predicate Clash(w: World, d: string, e: string, xs: seq<string>, ys: seq<string>) {
    && TwoNames(d, e) && Index(d) == Index(e)
    && w.projects == map[d := Exporter(xs, [], Idle(d)), e := Exporter(ys, [], Idle(e))]
  }

  /** One round: the variable of d is imported, that of e is not, and both objects run. */
  lemma ClashPass(w: World, d: string, e: string, xs: seq<string>, ys: seq<string>) returns (r: State)
    requires Clash(w, d, e, xs, ys)
    ensures Pass(w, Initial(map["DEPENDS" := [d, e]], false)) == Result(r, 2)
    ensures r.vars == WithQt(map["DEPENDS" := [d, e]], xs) && !r.disabled
    ensures Visited(r, d, Idle(d)) && Visited(r, e, Idle(e))
  {
    var s := Initial(map["DEPENDS" := [d, e]], false);
    r := ClashBoth(w, d, e, xs, ys, Both(s, d, e));
    TwoPass(w, s, d, e);
  }

  lemma ClashBoth(w: World, d: string, e: string, xs: seq<string>, ys: seq<string>, k: State) returns (r: State)
    requires Clash(w, d, e, xs, ys) && k.marks == {}
    requires Want(Depends, Index(d), "all") in k.wanted && Want(Depends, Index(e), "all") in k.wanted
    ensures ResolveTwo(w, k, d, e, true) == Result(r, 2)
    ensures r.vars == WithQt(k.vars, xs) && r.disabled == k.disabled
    ensures Visited(r, d, Idle(d)) && Visited(r, e, Idle(e))
  {
    var b := ClashFirst(w, d, e, xs, ys, k);
    r := ClashSecond(w, d, e, xs, ys, b);
  }

  lemma ClashSecond(w: World, d: string, e: string, xs: seq<string>, ys: seq<string>, b: State) returns (r: State)
    requires Clash(w, d, e, xs, ys) && Want(Depends, Index(e), "all") in b.wanted
    requires Mark(Depends, Index(e), AutoPersist) in b.marks && Mark(Depends, Index(e), Ran(e)) !in b.marks
    ensures ImportDepend(w, b, e, true, false) == Result(r, 1)
    ensures var m := Mark(Depends, Index(e), Ran(e)); r == b.(marks := b.marks + {m}, ran := b.ran + [m])
  {
    LaterVisit(w, b, e, ys, [], Idle(e), true);
    RunIdle(b, Mark(Depends, Index(e), Ran(e)), Idle(e));
    r := ImportDepend(w, b, e, true, false).state;
  }

  lemma ClashFirst(w: World, d: string, e: string, xs: seq<string>, ys: seq<string>, k: State) returns (b: State)
    requires Clash(w, d, e, xs, ys) && k.marks == {} && Want(Depends, Index(d), "all") in k.wanted
    ensures ImportDepend(w, k, d, true, false) == Result(b, Counted(xs != []) + 1)
    ensures b == k.(vars := WithQt(k.vars, xs), ran := k.ran + [Mark(Depends, Index(d), Ran(d))],
                    marks := {Mark(Depends, Index(d), AutoPersist), Mark(Depends, Index(d), Ran(d))})
  {
    var i := Index(d);
    var p, m := Mark(Depends, i, AutoPersist), Mark(Depends, i, Ran(d));
    var a := k.(marks := {p}, vars := WithQt(k.vars, xs));
    assert k.marks + {p} == {p};
    b := a.(marks := {p, m}, ran := k.ran + [m]);
    assert Finish(a, i, Idle(d), true) == Result(b, 1) by {
      RunIdle(a, m, Idle(d));
      assert a.marks + {m} == {p, m};
    }
    LeafVisit(w, k, d, xs, Idle(d), true);
  }

  lemma QtMembers(vars: map<string, seq<string>>, xs: seq<string>)
    requires "QT" !in vars
    ensures forall x :: x in Value(WithQt(vars, xs), "QT") <==> x in xs
  {
  }

  lemma ClashHarmless(w: World, d: string, e: string, xs: seq<string>, ys: seq<string>)
    requires Clash(w, d, e, xs, ys)
    ensures Harmless(w, e) <==> forall y :: y in ys ==> y in xs
  {
    var p, q := w.projects[d], w.projects[e];
    assert q.vars["QT"] == ys && p.vars["QT"] == xs && q.vars["MODULES"] == [];
    assert "QT" in q.autoPersist;
    if Harmless(w, e) { assert Covers(p, q); }
  }

  /** The loader finishes normally, with both dependencies loaded as far as their rule database can
      tell; and the variable of the second one has been imported if and only if the first one brought
      the same values, that is, if sharing the database is harmless. */
  lemma ClashLosesVariable(w: World, d: string, e: string, xs: seq<string>, ys: seq<string>)
    requires Clash(w, d, e, xs, ys)
    ensures var r := Load(w, Initial(map["DEPENDS" := [d, e]], false)).state;
            && !r.disabled && Closed(w, r)
            && Mark(Depends, Index(e), AutoPersist) in r.marks
            && (Includes(r.vars, w.projects[e]) <==> Harmless(w, e))
    ensures Harmless(w, e) <==> forall y :: y in ys ==> y in xs
  {
    var vars := map["DEPENDS" := [d, e]];
    var r := ClashPass(w, d, e, xs, ys);
    ClashQt(r.vars, vars, d, e, xs);
    BothVisited(w, r, d, e, Idle(d), Idle(e));
    PassConsumes(w, Initial(vars, false));
    ClashHarmless(w, d, e, xs, ys);
    ClashIncludes(w, r.vars, d, e, xs, ys);
  }

  lemma ClashQt(now: map<string, seq<string>>, vars: map<string, seq<string>>, d: string, e: string, xs: seq<string>)
    requires vars == map["DEPENDS" := [d, e]] && now == WithQt(vars, xs)
    ensures Value(now, "DEPENDS") == [d, e] && Value(now, "MODULES") == []
    ensures forall x :: x in Value(now, "QT") <==> x in xs
  {
    QtMembers(vars, xs);
  }

  lemma ClashIncludes(w: World, vars: map<string, seq<string>>, d: string, e: string, xs: seq<string>, ys: seq<string>)
    requires Clash(w, d, e, xs, ys) && forall x :: x in Value(vars, "QT") <==> x in xs
    ensures Includes(vars, w.projects[e]) <==> forall y :: y in ys ==> y in xs
  {
    var q := w.projects[e];
    assert q.vars["QT"] == ys && q.vars["MODULES"] == [] && "QT" in q.autoPersist;
  }

  /** So it is lost if the second one persists anything else. */
  lemma ClashExample(w: World, d: string, e: string, xs: seq<string>, ys: seq<string>, y: string)
    requires Clash(w, d, e, xs, ys) && y in ys && y !in xs
    ensures var vars := Load(w, Initial(map["DEPENDS" := [d, e]], false)).state.vars;
            y in w.projects[e].vars["QT"] && y !in Value(vars, "QT")
  {
    var vars := map["DEPENDS" := [d, e]];
    var r := ClashPass(w, d, e, xs, ys);
    ClashQt(r.vars, vars, d, e, xs);
    BothVisited(w, r, d, e, Idle(d), Idle(e));
    PassConsumes(w, Initial(vars, false));
  }

  /** Such names exist. */
  lemma ClashingNames()
    ensures Index("/a.b") == Index("/a/b") && "/a.b" != "/a/b"
  {
    assert Index("/a.b") == "_a_b" && Index("/a/b") == "_a_b";
    assert "/a.b"[2] != "/a/b"[2];
  }
}
