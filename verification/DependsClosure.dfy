/** When the dependency loader stops, is everything loaded?

    The loop stops after a round that counts nothing.  What a dependency's own dependencies did is
    not counted, so a round can count nothing and still have added requests.  This module proves
    that everything is loaded exactly when another call would change nothing, and a condition on the
    project graph under which the first call gets there.  DependsPartial has graphs on which it
    does not. */
module DependsClosure {
  import opened Options
  import opened Depends
  import opened DependsInvariants
  import opened DependsSteps
  import opened DependsOrigins

  // ---------------------------------------------------------------- nothing left to do

  ghost predicate Settled(s: State, db: Db, i: string, p: Project, persistedOnly: bool) {
    if OnlyExistsWanted(s, db, i) then Mark(db, i, Exists) in s.marks
    else
      && !ImportDue(s, db, i)
      && forall o :: o in p.objects ==> !Due(s, db, i, o, true, persistedOnly)
  }

  ghost predicate SettledModule(w: World, s: State, m: string) {
    && Resolve(w, m).Some?
    && (Resolve(w, m).value.objects == [] || Settled(s, Modules, Index(m), Resolve(w, m).value, false))
  }

  /** A project that does not exist, or is outside the root and not asked for, is only warned about. */
  ghost predicate SettledDepend(w: World, s: State, d: string) {
    d in w.projects ==>
      var p := w.projects[d];
      if p.inRoot then !p.disabled && Settled(s, Depends, Index(d), p, false)
      else Want(Depends, Index(d), "persisted") in s.wanted ==> Settled(s, Depends, Index(d), p, true)
  }

  /** Everything that MODULES and DEPENDS ask for has been loaded. */
  ghost predicate Closed(w: World, s: State) {
    var modules := Value(s.vars, "MODULES");
    var depends := Value(s.vars, "DEPENDS");
    && (!IsEmpty(modules) ==>
          Wants(Modules, modules) <= s.wanted && forall m :: m in Names(modules) ==> SettledModule(w, s, m))
    && (!IsEmpty(depends) ==>
          Wants(Depends, depends) <= s.wanted && forall d :: d in Names(depends) ==> SettledDepend(w, s, d))
  }

  // ---------------------------------------------------------------- a closed project is a fixpoint

  lemma RunObjectsZero(s: State, db: Db, i: string, objects: seq<Obj>, root: bool, persistedOnly: bool)
    ensures RunObjects(s, db, i, objects, root, persistedOnly).count == 0 <==>
            forall o :: o in objects ==> !Due(s, db, i, o, root, persistedOnly)
    ensures RunObjects(s, db, i, objects, root, persistedOnly).count == 0 ==>
            RunObjects(s, db, i, objects, root, persistedOnly).state == s
  {
    if objects != [] {
      var prev := objects[..|objects| - 1];
      var o := objects[|objects| - 1];
      assert objects == prev + [o];
      RunObjectsZero(s, db, i, prev, root, persistedOnly);
    }
  }

  lemma LoadNamesSettled(w: World, s: State, names: seq<string>)
    requires forall m :: m in names ==> SettledModule(w, s, m)
    ensures LoadNames(w, s, names) == Walk(s, 0, false)
  {
    if names != [] {
      var m := names[|names| - 1];
      assert forall n :: n in names[..|names| - 1] ==> n in names;
      LoadNamesSettled(w, s, names[..|names| - 1]);
      assert SettledModule(w, s, m);
      RunObjectsZero(s, Modules, Index(m), Resolve(w, m).value.objects, true, false);
    }
  }

  lemma ImportDependSettled(w: World, s: State, d: string, persistedOnly: bool)
    requires d in w.projects && Settled(s, Depends, Index(d), w.projects[d], persistedOnly)
    ensures ImportDepend(w, s, d, true, persistedOnly) == Result(s, 0)
  {
    RunObjectsZero(s, Depends, Index(d), w.projects[d].objects, true, persistedOnly);
  }

  lemma ResolveNamesSettled(w: World, s: State, names: seq<string>)
    requires forall d :: d in names ==> SettledDepend(w, s, d)
    ensures ResolveNames(w, s, names, true) == Result(s, 0)
  {
    if names != [] {
      var d := names[|names| - 1];
      assert forall n :: n in names[..|names| - 1] ==> n in names;
      ResolveNamesSettled(w, s, names[..|names| - 1]);
      assert SettledDepend(w, s, d);
      if d in w.projects && (w.projects[d].inRoot || Want(Depends, Index(d), "persisted") in s.wanted) {
        ImportDependSettled(w, s, d, !w.projects[d].inRoot);
      }
    }
  }

  lemma LoadModulesSettled(w: World, s: State, modules: seq<string>)
    requires !IsEmpty(modules) ==>
               Wants(Modules, modules) <= s.wanted && forall m :: m in Names(modules) ==> SettledModule(w, s, m)
    ensures LoadModules(w, s, modules) == Result(s, 0)
  {
    if !IsEmpty(modules) {
      assert Decode(s, Modules, modules) == s;
      LoadNamesSettled(w, s, Names(modules));
    }
  }

  lemma ResolveDependsSettled(w: World, s: State, depends: seq<string>)
    requires !IsEmpty(depends) ==>
               Wants(Depends, depends) <= s.wanted && forall d :: d in Names(depends) ==> SettledDepend(w, s, d)
    ensures ResolveDepends(w, s, depends, true) == Result(s, 0)
  {
    if !IsEmpty(depends) {
      assert Decode(s, Depends, depends) == s;
      ResolveNamesSettled(w, s, Names(depends));
    }
  }

  lemma ClosedIsFixpoint(w: World, s: State)
    requires Closed(w, s)
    ensures Load(w, s) == Result(s, 0)
  {
    LoadModulesSettled(w, s, Value(s.vars, "MODULES"));
    ResolveDependsSettled(w, s, Value(s.vars, "DEPENDS"));
  }

  // ---------------------------------------------------------------- a fixpoint is closed

  lemma Antisymmetric(a: State, b: State)
    requires Grows(a, b) && Grows(b, a)
    ensures a == b
  {
    assert a.vars.Keys == b.vars.Keys;
    forall v | v in a.vars ensures a.vars[v] == b.vars[v] {
      assert a.vars[v] <= b.vars[v] <= a.vars[v];
    }
  }

  lemma ImportModuleStill(w: World, s: State, m: string, p: Project)
    requires Resolve(w, m) == Some(p) && ImportModule(s, m, p) == Result(s, 0)
    ensures SettledModule(w, s, m)
  {
    var i := Index(m);
    ResolveKnown(w, m);
    if p.objects != [] && !OnlyExistsWanted(s, Modules, i) {
      if ImportDue(s, Modules, i) {
        ImportAutoPersistProgress(w, s, Modules, i, p);
        RunObjectsProgress(w, ImportAutoPersist(s, Modules, i, p).state, Modules, i, p, p.objects, true, false);
      }
      RunObjectsZero(s, Modules, i, p.objects, true, false);
    }
  }

  lemma LoadNamesStill(w: World, s: State, names: seq<string>)
    requires LoadNames(w, s, names) == Walk(s, 0, false)
    ensures forall m :: m in names ==> SettledModule(w, s, m)
  {
    if names != [] {
      var prev, m := names[..|names| - 1], names[|names| - 1];
      assert names == prev + [m];
      var k := LoadNames(w, s, prev);
      LoadNamesProgress(w, s, prev);
      ImportModuleProgress(w, k.state, m, Resolve(w, m).value);
      Antisymmetric(s, k.state);
      LoadNamesStill(w, s, prev);
      ImportModuleStill(w, s, m, Resolve(w, m).value);
    }
  }

  lemma ImportDependStill(w: World, s: State, d: string, persistedOnly: bool)
    requires d in w.projects && ImportDepend(w, s, d, true, persistedOnly) == Result(s, 0)
    ensures Settled(s, Depends, Index(d), w.projects[d], persistedOnly)
  {
    var i, p := Index(d), w.projects[d];
    if !OnlyExistsWanted(s, Depends, i) {
      if ImportDue(s, Depends, i) { FirstVisitMarks(w, s, d, persistedOnly); }
      RunObjectsZero(s, Depends, i, p.objects, true, persistedOnly);
    }
  }

  lemma FirstVisitMarks(w: World, s: State, d: string, persistedOnly: bool)
    requires d in w.projects && ImportDue(s, Depends, Index(d)) && !OnlyExistsWanted(s, Depends, Index(d))
    ensures Mark(Depends, Index(d), AutoPersist) in ImportDepend(w, s, d, true, persistedOnly).state.marks
  {
    var i, p := Index(d), w.projects[d];
    ProjectIndex(w, d);
    ImportAutoPersistProgress(w, s, Depends, i, p);
    var a := ImportAutoPersist(s, Depends, i, p).state;
    var n := if "MODULES" in p.vars then Nested(w, a, p) else a;
    RunObjectsProgress(w, n, Depends, i, p, p.objects, true, persistedOnly);
  }

  lemma ResolveNamesStill(w: World, s: State, names: seq<string>)
    requires !s.disabled && ResolveNames(w, s, names, true) == Result(s, 0)
    ensures forall d :: d in names ==> SettledDepend(w, s, d)
  {
    if names != [] {
      var prev, d := names[..|names| - 1], names[|names| - 1];
      assert names == prev + [d];
      var k := ResolveNames(w, s, prev, true);
      assert Progress(w, k.state, ProcessDependency(w, k.state, d, true).state, 0);
      Antisymmetric(s, k.state);
      ResolveNamesStill(w, s, prev);
      DependencyStill(w, s, d);
    }
  }

  lemma DependencyStill(w: World, s: State, d: string)
    requires !s.disabled && ProcessDependency(w, s, d, true) == Result(s, 0)
    ensures SettledDepend(w, s, d)
  {
    if d in w.projects && (w.projects[d].inRoot || Want(Depends, Index(d), "persisted") in s.wanted) {
      ImportDependStill(w, s, d, !w.projects[d].inRoot);
    }
  }

  lemma LoadModulesStill(w: World, s: State, modules: seq<string>)
    requires !s.disabled && LoadModules(w, s, modules) == Result(s, 0) && !IsEmpty(modules)
    ensures Wants(Modules, modules) <= s.wanted && forall m :: m in Names(modules) ==> SettledModule(w, s, m)
  {
    var d := Decode(s, Modules, modules);
    LoadNamesProgress(w, d, Names(modules));
    Antisymmetric(s, d);
    LoadNamesStill(w, s, Names(modules));
  }

  lemma ResolveDependsStill(w: World, s: State, depends: seq<string>)
    requires !s.disabled && ResolveDepends(w, s, depends, true) == Result(s, 0) && !IsEmpty(depends)
    ensures Wants(Depends, depends) <= s.wanted && forall d :: d in Names(depends) ==> SettledDepend(w, s, d)
  {
    var d := Decode(s, Depends, depends);
    assert Grows(d, ResolveNames(w, d, Names(depends), true).state);
    Antisymmetric(s, d);
    ResolveNamesStill(w, s, Names(depends));
  }

  lemma PassStill(w: World, s: State)
    requires !s.disabled && Pass(w, s) == Result(s, 0)
    ensures Closed(w, s)
  {
    var modules := Value(s.vars, "MODULES");
    LoadModulesProgress(w, s, modules);
    Antisymmetric(s, LoadModules(w, s, modules).state);
    if !IsEmpty(modules) { LoadModulesStill(w, s, modules); }
    var depends := Value(s.vars, "DEPENDS");
    if !IsEmpty(depends) { ResolveDependsStill(w, s, depends); }
  }

  /** On every graph: everything that the project lists has been loaded if and only if calling the
      loader changes nothing. */
  lemma ClosedIff(w: World, s: State)
    requires !s.disabled
    ensures Closed(w, s) <==> Load(w, s) == Result(s, 0)
  {
    if Closed(w, s) { ClosedIsFixpoint(w, s); }
    if Load(w, s) == Result(s, 0) {
      PassConsumes(w, s);
      PassStill(w, s);
    }
  }

  // ---------------------------------------------------------------- the condition

  /** Importing the variables of this project counts. */
  ghost predicate PersistsSomething(p: Project) {
    exists v :: v in p.autoPersist && Persists(p, v)
  }

  /** Loading this project's own requests does nothing. */
  ghost predicate AsksForNothing(p: Project) {
    "MODULES" in p.vars ==> IsEmpty(p.vars["MODULES"]) && IsEmpty(Value(p.vars, "DEPENDS"))
  }

  ghost predicate ClosedUnder(w: World, reach: set<string>) {
    forall d, e :: d in reach && d in w.projects && e in Names(Value(w.projects[d].vars, "DEPENDS")) ==> e in reach
  }

  ghost predicate Avoids(w: World, d: string, reach: set<string>) {
    && d in w.projects
    && ClosedUnder(w, reach)
    && d !in reach
    && forall e :: e in Names(Value(w.projects[d].vars, "DEPENDS")) ==> e in reach
  }

  /** The project does not depend on itself, directly or through others. */
  ghost predicate OffCycle(w: World, d: string) {
    exists reach: set<string> :: Avoids(w, d, reach)
  }

  /** The first visit of project d is counted whenever it can have an effect. */
  ghost predicate Announced(w: World, whole: bool, d: string)
    requires d in w.projects
  {
    var p := w.projects[d];
    || PersistsSomething(p)
    || AsksForNothing(p)
    || (whole && p.objects != [] && OffCycle(w, d))
  }

  ghost predicate AllAnnounced(w: World, whole: bool, names: seq<string>) {
    forall d :: d in names && d in w.projects ==> Announced(w, whole, d)
  }

  /** The projects listed in DEPENDS. */
  function Listed(s: State): seq<string> {
    Names(Value(s.vars, "DEPENDS"))
  }

  /** Object names are absolute, so they tell which project exports the object. */
  ghost predicate UniqueNames(w: World) {
    forall d, e, o, q ::
      (d in w.projects && e in w.projects && o in w.projects[d].objects && q in w.projects[e].objects
       && o.absName == q.absName) ==> d == e
  }

  // ---------------------------------------------------------------- what a nested walk can run

  /** A walk only runs objects of these projects, and only asks for something of them. */
  ghost predicate Touches(w: World, s: State, r: State, reach: set<string>) {
    && (forall m :: m in r.marks && m !in s.marks && m.db == Depends && m.rule.Ran? ==>
          exists e, o :: e in reach && e in w.projects && o in w.projects[e].objects && m.rule == Ran(o.absName))
    && (forall x :: x in r.wanted && x !in s.wanted && x.db == Depends ==>
         exists e :: e in reach && x.index == Index(e))
  }

  lemma TouchesTrans(w: World, a: State, b: State, c: State, reach: set<string>)
    requires Touches(w, a, b, reach) && Touches(w, b, c, reach)
    ensures Touches(w, a, c, reach)
  {
  }

  lemma DecodeOnly(w: World, s: State, entries: seq<string>, reach: set<string>)
    requires forall e :: e in Names(entries) ==> e in reach
    ensures Touches(w, s, Decode(s, Depends, entries), reach)
  {
    var r := Decode(s, Depends, entries);
    forall x | x in r.wanted && x !in s.wanted && x.db == Depends
      ensures exists e :: e in reach && x.index == Index(e)
    {
      var e := WantsSource(Depends, entries, x);
      assert NameOf(e) in reach && x.index == Index(NameOf(e));
    }
  }

  lemma RunObjectsOnly(w: World, s: State, i: string, d: string, objects: seq<Obj>, root: bool, persistedOnly: bool,
                       reach: set<string>)
    requires d in reach && d in w.projects && objects <= w.projects[d].objects
    ensures Touches(w, s, RunObjects(s, Depends, i, objects, root, persistedOnly).state, reach)
  {
    if objects != [] {
      RunObjectsOnly(w, s, i, d, objects[..|objects| - 1], root, persistedOnly, reach);
      assert objects[|objects| - 1] == w.projects[d].objects[|objects| - 1];
    }
  }

  lemma ImportVarsMarks(s: State, p: Project, variables: seq<string>)
    ensures var r := ImportVars(s, p, variables).state; r.marks == s.marks && r.wanted == s.wanted
  {
    if variables != [] { ImportVarsMarks(s, p, variables[..|variables| - 1]); }
  }

  lemma RunObjectsModules(s: State, i: string, objects: seq<Obj>)
    ensures var r := RunObjects(s, Modules, i, objects, true, false).state;
            && r.wanted == s.wanted
            && forall m :: m in r.marks && m.db == Depends ==> m in s.marks
  {
    if objects != [] { RunObjectsModules(s, i, objects[..|objects| - 1]); }
  }

  lemma LoadNamesModules(w: World, s: State, names: seq<string>)
    ensures var r := LoadNames(w, s, names).state;
            && r.wanted == s.wanted
            && forall m :: m in r.marks && m.db == Depends ==> m in s.marks
  {
    if names != [] {
      LoadNamesModules(w, s, names[..|names| - 1]);
      var k := LoadNames(w, s, names[..|names| - 1]);
      var n := names[|names| - 1];
      if !k.missing && Resolve(w, n).Some? { ImportModuleModules(k.state, n, Resolve(w, n).value); }
    }
  }

  lemma ImportModuleModules(s: State, m: string, p: Project)
    ensures var r := ImportModule(s, m, p).state;
            && r.wanted == s.wanted
            && forall x :: x in r.marks && x.db == Depends ==> x in s.marks
  {
    var i := Index(m);
    ImportVarsMarks(s.(marks := s.marks + {Mark(Modules, i, AutoPersist)}), p, p.autoPersist);
    RunObjectsModules(s, i, p.objects);
    RunObjectsModules(ImportAutoPersist(s, Modules, i, p).state, i, p.objects);
  }

  lemma LoadModulesOnly(w: World, s: State, entries: seq<string>, reach: set<string>)
    ensures Touches(w, s, LoadModules(w, s, entries).state, reach)
  {
    if !IsEmpty(entries) {
      WantsDb(Modules, entries);
      LoadNamesModules(w, Decode(s, Modules, entries), Names(entries));
    }
  }

  lemma NestedOnly(w: World, s: State, p: Project, reach: set<string>)
    requires "MODULES" in p.vars && ClosedUnder(w, reach)
    requires forall e :: e in Names(Value(p.vars, "DEPENDS")) ==> e in reach
    ensures Touches(w, s, Nested(w, s, p), reach)
    decreases |Unvisited(w, s)|, 5, 0
  {
    LoadModulesProgress(w, s, p.vars["MODULES"]);
    var m := LoadModules(w, s, p.vars["MODULES"]).state;
    UnvisitedShrinks(w, s, m);
    LoadModulesOnly(w, s, p.vars["MODULES"], reach);
    ResolveDependsOnly(w, m, Value(p.vars, "DEPENDS"), reach);
    TouchesTrans(w, s, m, Nested(w, s, p), reach);
  }

  lemma ImportDependOnly(w: World, s: State, d: string, root: bool, persistedOnly: bool, reach: set<string>)
    requires d in w.projects && d in reach && ClosedUnder(w, reach)
    ensures Touches(w, s, ImportDepend(w, s, d, root, persistedOnly).state, reach)
    decreases |Unvisited(w, s)|, 1, 0
  {
    var i := Index(d);
    var p := w.projects[d];
    if OnlyExistsWanted(s, Depends, i) {
    } else if ImportDue(s, Depends, i) {
      Visit(w, s, d);
      var a := ImportAutoPersist(s, Depends, i, p);
      ImportVarsMarks(s.(marks := s.marks + {Mark(Depends, i, AutoPersist)}), p, p.autoPersist);
      assert Touches(w, s, a.state, reach);
      if "MODULES" in p.vars { NestedOnly(w, a.state, p, reach); }
      var n := if "MODULES" in p.vars then Nested(w, a.state, p) else a.state;
      FinishOnly(w, s, a.state, n, i, d, root, persistedOnly, reach);
    } else {
      RunObjectsOnly(w, s, i, d, p.objects, root, persistedOnly, reach);
    }
  }

  lemma FinishOnly(w: World, s: State, a: State, n: State, i: string, d: string, root: bool, persistedOnly: bool,
                   reach: set<string>)
    requires d in w.projects && d in reach && Touches(w, s, a, reach) && (n == a || Touches(w, a, n, reach))
    ensures Touches(w, s, RunObjects(n, Depends, i, w.projects[d].objects, root, persistedOnly).state, reach)
  {
    if n != a { TouchesTrans(w, s, a, n, reach); }
    RunObjectsOnly(w, n, i, d, w.projects[d].objects, root, persistedOnly, reach);
    TouchesTrans(w, s, n, RunObjects(n, Depends, i, w.projects[d].objects, root, persistedOnly).state, reach);
  }

  lemma ResolveNamesOnly(w: World, s: State, names: seq<string>, reach: set<string>)
    requires ClosedUnder(w, reach) && forall e :: e in names ==> e in reach
    ensures Touches(w, s, ResolveNames(w, s, names, false).state, reach)
    decreases |Unvisited(w, s)|, 3, |names|
  {
    if names != [] {
      var d := names[|names| - 1];
      assert forall n :: n in names[..|names| - 1] ==> n in names;
      ResolveNamesOnly(w, s, names[..|names| - 1], reach);
      var k := ResolveNames(w, s, names[..|names| - 1], false);
      UnvisitedShrinks(w, s, k.state);
      assert d in reach;
      if d in w.projects { ImportDependOnly(w, k.state, d, false, !w.projects[d].inRoot, reach); }
      assert Touches(w, k.state, ProcessDependency(w, k.state, d, false).state, reach);
      TouchesTrans(w, s, k.state, ProcessDependency(w, k.state, d, false).state, reach);
    }
  }

  lemma ResolveDependsOnly(w: World, s: State, entries: seq<string>, reach: set<string>)
    requires ClosedUnder(w, reach) && forall e :: e in Names(entries) ==> e in reach
    ensures Touches(w, s, ResolveDepends(w, s, entries, false).state, reach)
    decreases |Unvisited(w, s)|, 4, 0
  {
    if !IsEmpty(entries) {
      var k := Decode(s, Depends, entries);
      UnvisitedShrinks(w, s, k);
      DecodeOnly(w, s, entries, reach);
      ResolveNamesOnly(w, k, Names(entries), reach);
      TouchesTrans(w, s, k, ResolveNames(w, k, Names(entries), false).state, reach);
    }
  }

  // ---------------------------------------------------------------- a round that counts nothing

  /** Only PROCESSED entries may have been added. */
  ghost predicate Quiet(s: State, r: State) {
    s.marks <= r.marks && r == s.(marks := r.marks)
  }

  lemma SettledStays(s: State, r: State, db: Db, i: string, p: Project, persistedOnly: bool)
    requires Settled(s, db, i, p, persistedOnly) && Quiet(s, r)
    ensures Settled(r, db, i, p, persistedOnly)
  {
  }

  lemma ImportVarsZero(s: State, p: Project, variables: seq<string>)
    ensures ImportVars(s, p, variables).count == 0 <==> forall v :: v in variables ==> !Persists(p, v)
    ensures ImportVars(s, p, variables).count == 0 ==> ImportVars(s, p, variables).state == s
  {
    if variables != [] {
      assert variables == variables[..|variables| - 1] + [variables[|variables| - 1]];
      ImportVarsZero(s, p, variables[..|variables| - 1]);
    }
  }

  lemma ImportModuleQuiet(s: State, m: string, p: Project)
    requires ImportModule(s, m, p).count == 0
    ensures var r := ImportModule(s, m, p).state;
            Quiet(s, r) && (p.objects == [] || Settled(r, Modules, Index(m), p, false))
  {
    var i := Index(m);
    if p.objects != [] && !OnlyExistsWanted(s, Modules, i) {
      ImportVarsZero(s.(marks := s.marks + {Mark(Modules, i, AutoPersist)}), p, p.autoPersist);
      var a := if ImportDue(s, Modules, i) then ImportAutoPersist(s, Modules, i, p) else Result(s, 0);
      RunObjectsZero(a.state, Modules, i, p.objects, true, false);
    }
  }

  lemma LoadNamesQuiet(w: World, s: State, names: seq<string>)
    requires LoadNames(w, s, names).count == 0 && !LoadNames(w, s, names).missing
    ensures var r := LoadNames(w, s, names).state;
            Quiet(s, r) && forall m :: m in names ==> SettledModule(w, r, m)
  {
    if names != [] {
      var prev := names[..|names| - 1];
      var m := names[|names| - 1];
      assert names == prev + [m];
      LoadNamesQuiet(w, s, prev);
      var k := LoadNames(w, s, prev).state;
      ImportModuleQuiet(k, m, Resolve(w, m).value);
      var r := LoadNames(w, s, names).state;
      forall n | n in names ensures SettledModule(w, r, n) {
        if n in prev {
          if Resolve(w, n).value.objects != [] {
            SettledStays(k, r, Modules, Index(n), Resolve(w, n).value, false);
          }
        }
      }
    }
  }

  /** What happens after the variables have been imported, when nothing is counted. */
  lemma FinishQuiet(s: State, a: State, n: State, i: string, p: Project, persistedOnly: bool)
    requires Quiet(s, a) && n == a && Mark(Depends, i, AutoPersist) in a.marks && !OnlyExistsWanted(s, Depends, i)
    requires RunObjects(n, Depends, i, p.objects, true, persistedOnly).count == 0
    ensures var r := RunObjects(n, Depends, i, p.objects, true, persistedOnly).state;
            Quiet(s, r) && Settled(r, Depends, i, p, persistedOnly)
  {
    RunObjectsZero(n, Depends, i, p.objects, true, persistedOnly);
  }

  lemma NestedNothing(w: World, s: State, p: Project)
    requires "MODULES" in p.vars && AsksForNothing(p)
    ensures Nested(w, s, p) == s
  {
  }

  /** The first visit of a project that announces itself cannot be both effective and uncounted. */
  lemma ImportDependQuiet(w: World, whole: bool, s: State, d: string, persistedOnly: bool)
    requires Inv(w, whole, s) && UniqueNames(w) && d in w.projects && Announced(w, whole, d)
    requires persistedOnly ==> Want(Depends, Index(d), "persisted") in s.wanted
    requires ImportDepend(w, s, d, true, persistedOnly).count == 0
    ensures var r := ImportDepend(w, s, d, true, persistedOnly).state;
            Quiet(s, r) && Settled(r, Depends, Index(d), w.projects[d], persistedOnly)
  {
    var i := Index(d);
    var p := w.projects[d];
    if !OnlyExistsWanted(s, Depends, i) {
      if ImportDue(s, Depends, i) {
        FirstVisitQuiet(w, whole, s, d, persistedOnly);
      } else {
        RunObjectsZero(s, Depends, i, p.objects, true, persistedOnly);
      }
    }
  }

  lemma FirstVisitQuiet(w: World, whole: bool, s: State, d: string, persistedOnly: bool)
    requires Inv(w, whole, s) && UniqueNames(w) && d in w.projects && Announced(w, whole, d)
    requires !OnlyExistsWanted(s, Depends, Index(d)) && ImportDue(s, Depends, Index(d))
    requires persistedOnly ==> Want(Depends, Index(d), "persisted") in s.wanted
    requires ImportDepend(w, s, d, true, persistedOnly).count == 0
    ensures var r := ImportDepend(w, s, d, true, persistedOnly).state;
            Quiet(s, r) && Settled(r, Depends, Index(d), w.projects[d], persistedOnly)
  {
    var i := Index(d);
    var p := w.projects[d];
    var a := ImportAutoPersist(s, Depends, i, p);
    ImportVarsZero(s.(marks := s.marks + {Mark(Depends, i, AutoPersist)}), p, p.autoPersist);
    Visit(w, s, d);
    var n := if "MODULES" in p.vars then Nested(w, a.state, p) else a.state;
    assert RunObjects(n, Depends, i, p.objects, true, persistedOnly).count == 0;
    if "MODULES" in p.vars {
      if AsksForNothing(p) {
        NestedNothing(w, a.state, p);
      } else {
        RunObjectsZero(n, Depends, i, p.objects, true, persistedOnly);
        FirstObjectIsDue(w, whole, s, a.state, n, d, persistedOnly);
      }
    }
    FinishQuiet(s, a.state, n, i, p, persistedOnly);
  }

  /** The walk into the dependencies of d, which do not include d, runs none of its objects. */
  lemma OwnMarksStay(w: World, s: State, a: State, n: State, d: string, o: Obj, reach: set<string>)
    requires UniqueNames(w) && Avoids(w, d, reach) && o in w.projects[d].objects
    requires ImportDue(s, Depends, Index(d)) && a == ImportAutoPersist(s, Depends, Index(d), w.projects[d]).state
    requires n == if "MODULES" in w.projects[d].vars then Nested(w, a, w.projects[d]) else a
    ensures Grows(s, n) && Touches(w, a, n, reach) && a.wanted == s.wanted
    ensures Mark(Depends, Index(d), Ran(o.absName)) in n.marks <==> Mark(Depends, Index(d), Ran(o.absName)) in s.marks
  {
    var i, p := Index(d), w.projects[d];
    ProjectIndex(w, d);
    ImportAutoPersistProgress(w, s, Depends, i, p);
    if "MODULES" in p.vars { NestedOnly(w, a, p, reach); }
    GrowsTrans(s, a, n);
  }

  /** When d is off every cycle, walking into its dependencies leaves its own objects to be run. */
  lemma FirstObjectIsDue(w: World, whole: bool, s: State, a: State, n: State, d: string, persistedOnly: bool)
    requires Inv(w, whole, s) && UniqueNames(w) && d in w.projects && ImportDue(s, Depends, Index(d))
    requires whole && w.projects[d].objects != [] && OffCycle(w, d)
    requires persistedOnly ==> Want(Depends, Index(d), "persisted") in s.wanted
    requires a == ImportAutoPersist(s, Depends, Index(d), w.projects[d]).state
    requires "MODULES" in w.projects[d].vars && n == Nested(w, a, w.projects[d])
    ensures Due(n, Depends, Index(d), w.projects[d].objects[0], true, persistedOnly)
  {
    var i, o := Index(d), w.projects[d].objects[0];
    assert Want(Depends, i, "all") in s.wanted;
    assert Mark(Depends, i, Ran(o.absName)) !in s.marks;
    var reach :| Avoids(w, d, reach);
    OwnMarksStay(w, s, a, n, d, o, reach);
  }

  lemma DependencyQuiet(w: World, whole: bool, s: State, d: string)
    requires Inv(w, whole, s) && UniqueNames(w) && (d in w.projects ==> Announced(w, whole, d))
    requires ProcessDependency(w, s, d, true).count == 0 && !ProcessDependency(w, s, d, true).state.disabled
    ensures var r := ProcessDependency(w, s, d, true).state;
            Quiet(s, r) && SettledDepend(w, r, d)
  {
    if d in w.projects {
      var outside := !w.projects[d].inRoot;
      if !outside || Want(Depends, Index(d), "persisted") in s.wanted {
        ImportDependQuiet(w, whole, s, d, outside);
      }
    }
  }

  lemma SettledDependStays(w: World, s: State, r: State, d: string)
    requires SettledDepend(w, s, d) && Quiet(s, r)
    ensures SettledDepend(w, r, d)
  {
    if d in w.projects {
      var p := w.projects[d];
      if p.inRoot || Want(Depends, Index(d), "persisted") in s.wanted {
        SettledStays(s, r, Depends, Index(d), p, !p.inRoot);
      }
    }
  }

  lemma ResolveNamesQuiet(w: World, whole: bool, s: State, names: seq<string>)
    requires Inv(w, whole, s) && UniqueNames(w) && AllAnnounced(w, whole, names)
    requires ResolveNames(w, s, names, true).count == 0 && !ResolveNames(w, s, names, true).state.disabled
    ensures var r := ResolveNames(w, s, names, true).state;
            Quiet(s, r) && forall d :: d in names ==> SettledDepend(w, r, d)
  {
    if names != [] {
      var prev := names[..|names| - 1];
      var d := names[|names| - 1];
      assert names == prev + [d];
      ResolveNamesQuiet(w, whole, s, prev);
      ResolveNamesInv(w, whole, s, prev, true);
      var k := ResolveNames(w, s, prev, true).state;
      var r := ResolveNames(w, s, names, true).state;
      assert r == ProcessDependency(w, k, d, true).state;
      DependencyQuiet(w, whole, k, d);
      forall n | n in names ensures SettledDepend(w, r, n) {
        if n in prev { SettledDependStays(w, k, r, n); }
      }
    }
  }

  lemma LoadModulesQuiet(w: World, s: State)
    requires var m := LoadModules(w, s, Value(s.vars, "MODULES")); m.count == 0 && !m.state.disabled
    ensures var m := LoadModules(w, s, Value(s.vars, "MODULES")).state;
            && m == s.(marks := m.marks, wanted := m.wanted)
            && (!IsEmpty(Value(s.vars, "MODULES")) ==>
                  && Wants(Modules, Value(s.vars, "MODULES")) <= m.wanted
                  && forall n :: n in Names(Value(s.vars, "MODULES")) ==> SettledModule(w, m, n))
  {
    var modules := Value(s.vars, "MODULES");
    if !IsEmpty(modules) {
      LoadNamesProgress(w, Decode(s, Modules, modules), Names(modules));
      LoadNamesQuiet(w, Decode(s, Modules, modules), Names(modules));
    }
  }

  lemma WantsDb(db: Db, entries: seq<string>)
    ensures forall x :: x in Wants(db, entries) ==> x.db == db
  {
    if entries != [] { WantsDb(db, entries[..|entries| - 1]); }
  }

  lemma ResolveDependsQuiet(w: World, whole: bool, s: State, entries: seq<string>)
    requires Inv(w, whole, s) && UniqueNames(w) && AllAnnounced(w, whole, Names(entries))
    requires whole ==> WholeEntries(entries)
    requires var r := ResolveDepends(w, s, entries, true); r.count == 0 && !r.state.disabled
    ensures var r := ResolveDepends(w, s, entries, true).state;
            && r == s.(marks := r.marks, wanted := r.wanted)
            && (forall x :: x in r.wanted && x.db == Modules ==> x in s.wanted)
            && (!IsEmpty(entries) ==>
                  Wants(Depends, entries) <= r.wanted && forall d :: d in Names(entries) ==> SettledDepend(w, r, d))
  {
    if !IsEmpty(entries) {
      var k := Decode(s, Depends, entries);
      DecodeInv(w, whole, s, Depends, entries);
      WantsDb(Depends, entries);
      assert ResolveDepends(w, s, entries, true) == ResolveNames(w, k, Names(entries), true);
      ResolveNamesQuiet(w, whole, k, Names(entries));
    }
  }

  /** Work done for DEPENDS leaves settled modules settled. */
  lemma SettledModuleStays(w: World, m: State, r: State, n: string)
    requires SettledModule(w, m, n) && m.wanted <= r.wanted && m.marks <= r.marks
    requires forall x :: x in r.wanted && x.db == Modules ==> x in m.wanted
    ensures SettledModule(w, r, n)
  {
    var i := Index(n);
    assert OnlyExistsWanted(r, Modules, i) == OnlyExistsWanted(m, Modules, i);
  }

  lemma PassQuiet(w: World, whole: bool, s: State)
    requires Inv(w, whole, s) && UniqueNames(w) && AllAnnounced(w, whole, Listed(Pass(w, s).state))
    requires Pass(w, s).count == 0 && !Pass(w, s).state.disabled
    ensures Closed(w, Pass(w, s).state)
  {
    var modules := Value(s.vars, "MODULES");
    var m := LoadModules(w, s, modules).state;
    LoadModulesInv(w, whole, s, modules);
    var r := ResolveDepends(w, m, Value(m.vars, "DEPENDS"), true).state;
    assert r == Pass(w, s).state && Progress(w, m, r, 0);
    LoadModulesQuiet(w, s);
    ListGrows(m, r);
    ResolveDependsQuiet(w, whole, m, Value(m.vars, "DEPENDS"));
    forall n | !IsEmpty(modules) && n in Names(modules) ensures SettledModule(w, r, n) {
      SettledModuleStays(w, m, r, n);
    }
  }

  // ---------------------------------------------------------------- main results

  /** The loader stops at a project in which every listed dependency has been loaded, and calling
      it again runs nothing, if every dependency listed at the end announces itself. */
  lemma {:induction false} LoadCloses(w: World, whole: bool, s: State)
    requires Inv(w, whole, s) && UniqueNames(w)
    requires var r := Load(w, s).state; !r.disabled && AllAnnounced(w, whole, Listed(r))
    ensures Closed(w, Load(w, s).state)
    ensures Load(w, Load(w, s).state) == Result(Load(w, s).state, 0)
    decreases Pending(w, s)
  {
    PassConsumes(w, s);
    if Pass(w, s).count > 0 {
      PassInv(w, whole, s);
      LoadCloses(w, whole, Pass(w, s).state);
    } else {
      PassQuiet(w, whole, s);
    }
    ClosedIsFixpoint(w, Load(w, s).state);
  }

  /** DEPENDS has no cycles.  Opening a dependency loads its own dependencies into it first, and a
      cycle among projects that are being opened is fatal. */
  ghost predicate Acyclic(w: World) {
    exists rank: map<string, nat> :: Ranked(w, rank)
  }

  ghost predicate Ranked(w: World, rank: map<string, nat>) {
    && w.projects.Keys <= rank.Keys
    && forall d, e :: d in w.projects && e in w.projects && e in Names(Value(w.projects[d].vars, "DEPENDS")) ==>
         rank[e] < rank[d]
  }

  lemma AcyclicOffCycle(w: World, d: string)
    requires Acyclic(w) && d in w.projects
    ensures OffCycle(w, d)
  {
    var rank :| Ranked(w, rank);
    var below := set e | e in w.projects && rank[e] < rank[d];
    var missing :=
      set x, e | x in w.projects && e in Names(Value(w.projects[x].vars, "DEPENDS")) && e !in w.projects :: e;
    assert Avoids(w, d, below + missing);
  }

  /** A dependency that exports nothing draws a warning, and warnings are fatal at the end. */
  ghost predicate Exporting(w: World, s: State) {
    forall d :: d in Listed(s) && d in w.projects ==> w.projects[d].objects != []
  }

  /** With every request whole the first call loads everything, whatever the graph. */
  lemma WholeCloses(w: World, vars: map<string, seq<string>>)
    requires Acyclic(w) && UniqueNames(w) && WholeWorld(w) && WholeEntries(Value(vars, "DEPENDS"))
    requires var r := Load(w, Initial(vars, false)).state; !r.disabled && Exporting(w, r)
    ensures var r := Load(w, Initial(vars, false)).state; Closed(w, r) && Load(w, r) == Result(r, 0)
  {
    var r := Load(w, Initial(vars, false)).state;
    forall d | d in Listed(r) && d in w.projects ensures Announced(w, true, d) { AcyclicOffCycle(w, d); }
    InitialInv(w, true, vars, false);
    LoadCloses(w, true, Initial(vars, false));
  }

  /** The visit that imports the variables of d goes uncounted if and only if there is nothing to
      import, and every object that is asked for by now has run before. */
  lemma VisitUncountedIff(w: World, s: State, d: string, reach: set<string>)
    requires UniqueNames(w) && Avoids(w, d, reach) && forall e :: e in reach ==> Index(e) != Index(d)
    requires ImportDue(s, Depends, Index(d)) && !OnlyExistsWanted(s, Depends, Index(d))
    ensures ImportDepend(w, s, d, true, false).count == 0 <==>
            && !PersistsSomething(w.projects[d])
            && forall o :: o in w.projects[d].objects ==> !Due(s, Depends, Index(d), o, true, false)
  {
    var i, p := Index(d), w.projects[d];
    var t := s.(marks := s.marks + {Mark(Depends, i, AutoPersist)});
    ImportVarsZero(t, p, p.autoPersist);
    Visit(w, s, d);
    var a := ImportAutoPersist(s, Depends, i, p);
    var n := if "MODULES" in p.vars then Nested(w, a.state, p) else a.state;
    forall o | o in p.objects ensures Due(n, Depends, i, o, true, false) == Due(s, Depends, i, o, true, false) {
      DueStays(w, s, a.state, n, d, o, reach);
    }
    RunObjectsZero(n, Depends, i, p.objects, true, false);
  }

  /** The walk into the dependencies of d leaves the objects of d and the requests for them alone. */
  lemma DueStays(w: World, s: State, a: State, n: State, d: string, o: Obj, reach: set<string>)
    requires UniqueNames(w) && Avoids(w, d, reach) && forall e :: e in reach ==> Index(e) != Index(d)
    requires ImportDue(s, Depends, Index(d)) && a == ImportAutoPersist(s, Depends, Index(d), w.projects[d]).state
    requires n == if "MODULES" in w.projects[d].vars then Nested(w, a, w.projects[d]) else a
    requires o in w.projects[d].objects
    ensures Due(n, Depends, Index(d), o, true, false) == Due(s, Depends, Index(d), o, true, false)
  {
    OwnMarksStay(w, s, a, n, d, o, reach);
    assert Wanted(n, Depends, Index(d), o.name) == Wanted(s, Depends, Index(d), o.name);
  }

  // ---------------------------------------------------------------- what a closed project has

  /** Whatever q persists, p persists too. */
  ghost predicate Covers(p: Project, q: Project) {
    forall v, x :: v in q.autoPersist && v in q.vars && x in q.vars[v] ==>
      v in p.autoPersist && v in p.vars && x in p.vars[v]
  }

  /** Every dependency that shares the rule database of d persists what d does.  This holds if d has
      one of its own. */
  ghost predicate Harmless(w: World, d: string)
    requires d in w.projects
  {
    forall k :: k in w.projects && Index(k) == Index(d) ==> Covers(w.projects[k], w.projects[d])
  }

  lemma CoversIncludes(vars: map<string, seq<string>>, p: Project, q: Project)
    requires Includes(vars, p) && Covers(p, q)
    ensures Includes(vars, q)
  {
  }

  /** The variables of d, or of a dependency that shares its rule database, have been imported. */
  ghost predicate OneIncluded(w: World, vars: map<string, seq<string>>, d: string) {
    exists k :: k in w.projects && Index(k) == Index(d) && Includes(vars, w.projects[k])
  }

  /** A settled dependency of which everything is wanted. */
  lemma SettledWhole(w: World, whole: bool, r: State, d: string, persistedOnly: bool)
    requires Inv(w, whole, r) && d in w.projects
    requires Settled(r, Depends, Index(d), w.projects[d], persistedOnly) && Want(Depends, Index(d), "all") in r.wanted
    ensures OneIncluded(w, r.vars, d) && (Harmless(w, d) ==> Includes(r.vars, w.projects[d]))
    ensures forall o :: o in w.projects[d].objects && (persistedOnly ==> o.persisted) ==>
            Mark(Depends, Index(d), Ran(o.absName)) in r.ran
  {
    var m := Mark(Depends, Index(d), AutoPersist);
    assert !ImportDue(r, Depends, Index(d)) && m in r.marks;
    var k :| Brought(w, r.vars, m, k);
    if Harmless(w, d) { CoversIncludes(r.vars, w.projects[k], w.projects[d]); }
    forall o | o in w.projects[d].objects && (persistedOnly ==> o.persisted)
      ensures Mark(Depends, Index(d), Ran(o.absName)) in r.ran
    {
      assert !Due(r, Depends, Index(d), o, true, persistedOnly);
    }
  }

  /** What the first call ends with, if it gets there. */
  ghost predicate Finished(w: World, vars: map<string, seq<string>>) {
    var r := Load(w, Initial(vars, false)).state;
    !r.disabled && Closed(w, r)
  }

  /** What the objects that ran have done, and why the rest is there. */
  lemma CallOrigins(w: World, vars: map<string, seq<string>>)
    ensures Origins(w, vars, Load(w, Initial(vars, false)).state)
  {
    LoadOrigins(w, vars, Initial(vars, false));
  }

  /** The object ran, and everything it adds is in the variables. */
  ghost predicate RanFully(w: World, r: State, db: Db, key: string, o: Obj) {
    && Mark(db, Index(key), Ran(o.absName)) in r.ran
    && (SoleName(w, db, key, o) ==> AddsAll(r.vars, o.eval))
  }

  lemma FullyRun(w: World, vars: map<string, seq<string>>, db: Db, key: string, o: Obj)
    requires var r := Load(w, Initial(vars, false)).state;
             !r.disabled && Mark(db, Index(key), Ran(o.absName)) in r.ran
    ensures RanFully(w, Load(w, Initial(vars, false)).state, db, key, o)
  {
    var r := Load(w, Initial(vars, false)).state;
    CallOrigins(w, vars);
    if SoleName(w, db, key, o) { ObjectApplied(w, r, db, key, o); }
  }

  lemma ListedEntry(w: World, r: State, entry: string, rule: string)
    requires Closed(w, r) && entry in Value(r.vars, "DEPENDS") && !IsEmpty(Value(r.vars, "DEPENDS"))
    requires Want(Depends, Index(NameOf(entry)), rule) in WantsOf(Depends, entry)
    ensures SettledDepend(w, r, NameOf(entry)) && Want(Depends, Index(NameOf(entry)), rule) in r.wanted
  {
    var depends := Value(r.vars, "DEPENDS");
    assert WantsOf(Depends, entry) <= Wants(Depends, depends);
    assert NameOf(entry) in Names(depends);
  }

  /** For a dependency requested whole, or one outside the root as persisted: each of its objects
      (outside the root, each persisted one) ran exactly once, with everything that it adds in our
      variables, and each variable it auto-persists, MODULES among them, has been united into ours, if
      sharing its rule database is harmless. */
  lemma WholeDependencyLoaded(w: World, vars: map<string, seq<string>>, entry: string)
    requires Finished(w, vars) && NameOf(entry) in w.projects
    requires var depends := Value(Load(w, Initial(vars, false)).state.vars, "DEPENDS");
             entry in depends && !IsEmpty(depends)
    requires if w.projects[NameOf(entry)].inRoot then !HasRule(entry)
             else HasRule(entry) && RuleOf(entry) == "persisted"
    ensures var r, d := Load(w, Initial(vars, false)).state, NameOf(entry);
            && OneIncluded(w, r.vars, d)
            && (Harmless(w, d) ==> Includes(r.vars, w.projects[d]))
            && NoDuplicates(r.ran)
            && forall o :: o in w.projects[d].objects && (w.projects[d].inRoot || o.persisted) ==>
                 RanFully(w, r, Depends, d, o)
  {
    var r, d := Load(w, Initial(vars, false)).state, NameOf(entry);
    InitialInv(w, false, vars, false);
    LoadInv(w, false, Initial(vars, false));
    ListedEntry(w, r, entry, "all");
    if HasRule(entry) { ListedEntry(w, r, entry, "persisted"); }
    SettledWhole(w, false, r, d, !w.projects[d].inRoot);
    forall o | o in w.projects[d].objects && (w.projects[d].inRoot || o.persisted)
      ensures RanFully(w, r, Depends, d, o)
    {
      FullyRun(w, vars, Depends, d, o);
    }
  }

  /** For an entry of DEPENDS inside the root, with a rule or without: what it asks for ran exactly
      once, with everything that it adds in our variables. */
  lemma RequestedDependLoaded(w: World, vars: map<string, seq<string>>, entry: string, o: Obj)
    requires Finished(w, vars) && NameOf(entry) in w.projects && w.projects[NameOf(entry)].inRoot
    requires var depends := Value(Load(w, Initial(vars, false)).state.vars, "DEPENDS");
             entry in depends && !IsEmpty(depends)
    requires HasRule(entry) ==> RuleOf(entry) == o.name != "exists"
    ensures var r, d := Load(w, Initial(vars, false)).state, NameOf(entry);
            NoDuplicates(r.ran) && (o in w.projects[d].objects ==> RanFully(w, r, Depends, d, o))
  {
    var r, d := Load(w, Initial(vars, false)).state, NameOf(entry);
    InitialInv(w, false, vars, false);
    LoadInv(w, false, Initial(vars, false));
    ListedEntry(w, r, entry, if HasRule(entry) then o.name else "all");
    assert !OnlyExistsWanted(r, Depends, Index(d));
    if o in w.projects[d].objects {
      assert !Due(r, Depends, Index(d), o, true, false);
      FullyRun(w, vars, Depends, d, o);
    }
  }

  /** For an entry of MODULES: the module was found, and what the entry asks for ran exactly once, with
      everything that it adds in our variables. */
  lemma RequestedModuleLoaded(w: World, vars: map<string, seq<string>>, entry: string, o: Obj)
    requires Finished(w, vars)
    requires var modules := Value(Load(w, Initial(vars, false)).state.vars, "MODULES");
             entry in modules && !IsEmpty(modules)
    requires HasRule(entry) ==> RuleOf(entry) == o.name != "exists"
    ensures var r, m := Load(w, Initial(vars, false)).state, NameOf(entry);
            && Resolve(w, m).Some?
            && NoDuplicates(r.ran)
            && (o in Resolve(w, m).value.objects ==> RanFully(w, r, Modules, m, o))
  {
    InitialInv(w, false, vars, false);
    LoadInv(w, false, Initial(vars, false));
    ClosedModule(w, Load(w, Initial(vars, false)).state, entry, o);
    if o in Resolve(w, NameOf(entry)).value.objects { FullyRun(w, vars, Modules, NameOf(entry), o); }
  }

  lemma ClosedModule(w: World, r: State, entry: string, o: Obj)
    requires Closed(w, r) && Once(r) && entry in Value(r.vars, "MODULES") && !IsEmpty(Value(r.vars, "MODULES"))
    requires HasRule(entry) ==> RuleOf(entry) == o.name != "exists"
    ensures var m := NameOf(entry);
            && Resolve(w, m).Some?
            && (o in Resolve(w, m).value.objects ==> Mark(Modules, Index(m), Ran(o.absName)) in r.ran)
  {
    var m := NameOf(entry);
    var modules := Value(r.vars, "MODULES");
    assert WantsOf(Modules, entry) <= Wants(Modules, modules);
    var rule := if HasRule(entry) then o.name else "all";
    assert Want(Modules, Index(m), rule) in WantsOf(Modules, entry);
    assert m in Names(modules);
    assert SettledModule(w, r, m);
    if o in Resolve(w, m).value.objects { SettledObject(w, r, m, rule, o); }
  }

  lemma SettledObject(w: World, r: State, m: string, rule: string, o: Obj)
    requires SettledModule(w, r, m) && Once(r) && o in Resolve(w, m).value.objects
    requires Want(Modules, Index(m), rule) in r.wanted && rule != "exists" && (rule == "all" || rule == o.name)
    ensures Mark(Modules, Index(m), Ran(o.absName)) in r.ran
  {
    assert !OnlyExistsWanted(r, Modules, Index(m));
    assert !Due(r, Modules, Index(m), o, true, false);
  }

  /** The entry e asks for the object o that ran, or for all of its dependency. */
  ghost predicate AsksFor(w: World, r: State, m: Mark, o: Obj, e: string) {
    Asked(w, r, Want(m.db, m.index, "all"), e) || Asked(w, r, Want(m.db, m.index, o.name), e)
  }

  /** Nothing ran for DEPENDS or MODULES that was not wanted from the dependency that exports it, and
      that an entry of ours, or of a dependency whose variables we have, does not ask for. */
  lemma OnlyWantedRuns(w: World, vars: map<string, seq<string>>, m: Mark)
    requires m in Load(w, Initial(vars, false)).state.ran
    ensures var r := Load(w, Initial(vars, false)).state;
            exists key, o, e :: Accounts(w, r, m, key, o) && AsksFor(w, r, m, o, e)
  {
    var r := Load(w, Initial(vars, false)).state;
    CallOrigins(w, vars);
    var key, o :| Accounts(w, r, m, key, o);
    var x := if Want(m.db, m.index, "all") in r.wanted then Want(m.db, m.index, "all") else Want(m.db, m.index, o.name);
    var e :| Asked(w, r, x, e);
    assert AsksFor(w, r, m, o, e);
  }
}
