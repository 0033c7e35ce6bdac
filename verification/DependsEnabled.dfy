/** What can disable a project while its dependencies are loaded: a dependency that is disabled, or a
    module that is nowhere.  Without either it stays enabled. */
module DependsEnabled {
  import opened Options
  import opened Depends

  /** Every module in the list can be found. */
  ghost predicate Known(w: World, entries: seq<string>) {
    forall e :: e in entries ==> Resolve(w, NameOf(e)).Some?
  }

  ghost predicate KnownAdditions(w: World, eval: seq<Addition>) {
    forall a :: a in eval && a.variable == "MODULES" ==> Known(w, a.values)
  }

  /** The variables of a project, and what its objects add, only ask for such modules. */
  ghost predicate KnownProject(w: World, p: Project) {
    Known(w, Value(p.vars, "MODULES")) && forall o :: o in p.objects ==> KnownAdditions(w, o.eval)
  }

  ghost predicate Enabled(w: World) {
    && (forall d :: d in w.projects ==> !w.projects[d].disabled)
    && forall p :: p in AllProjects(w) ==> KnownProject(w, p)
  }

  ghost predicate Free(w: World, s: State) {
    !s.disabled && Known(w, Value(s.vars, "MODULES"))
  }

  lemma UniteKnown(w: World, vars: map<string, seq<string>>, variable: string, values: seq<string>)
    requires Known(w, Value(vars, "MODULES")) && (variable == "MODULES" ==> Known(w, values))
    ensures Known(w, Value(UniteVar(vars, variable, values), "MODULES"))
  {
  }

  lemma EvalKnown(w: World, vars: map<string, seq<string>>, eval: seq<Addition>)
    requires Known(w, Value(vars, "MODULES")) && KnownAdditions(w, eval)
    ensures Known(w, Value(Eval(vars, eval), "MODULES"))
  {
    if eval != [] {
      var prev, a := eval[..|eval| - 1], eval[|eval| - 1];
      assert eval == prev + [a];
      EvalKnown(w, vars, prev);
      UniteKnown(w, Eval(vars, prev), a.variable, a.values);
    }
  }

  lemma RunObjectsFree(w: World, s: State, db: Db, i: string, objects: seq<Obj>, root: bool, persistedOnly: bool)
    requires Free(w, s) && forall o :: o in objects ==> KnownAdditions(w, o.eval)
    ensures Free(w, RunObjects(s, db, i, objects, root, persistedOnly).state)
  {
    if objects != [] {
      var prev, o := objects[..|objects| - 1], objects[|objects| - 1];
      assert objects == prev + [o];
      RunObjectsFree(w, s, db, i, prev, root, persistedOnly);
      EvalKnown(w, RunObjects(s, db, i, prev, root, persistedOnly).state.vars, o.eval);
    }
  }

  lemma ImportVarsFree(w: World, s: State, p: Project, variables: seq<string>)
    requires Free(w, s) && Known(w, Value(p.vars, "MODULES"))
    ensures Free(w, ImportVars(s, p, variables).state)
  {
    if variables != [] {
      var prev, v := variables[..|variables| - 1], variables[|variables| - 1];
      ImportVarsFree(w, s, p, prev);
      if Persists(p, v) { UniteKnown(w, ImportVars(s, p, prev).state.vars, v, p.vars[v]); }
    }
  }

  lemma ImportModuleFree(w: World, s: State, m: string, p: Project)
    requires Free(w, s) && KnownProject(w, p)
    ensures Free(w, ImportModule(s, m, p).state)
  {
    var i := Index(m);
    ImportVarsFree(w, s.(marks := s.marks + {Mark(Modules, i, AutoPersist)}), p, p.autoPersist);
    var a := if ImportDue(s, Modules, i) then ImportAutoPersist(s, Modules, i, p) else Result(s, 0);
    RunObjectsFree(w, a.state, Modules, i, p.objects, true, false);
  }

  lemma LoadNamesFree(w: World, s: State, names: seq<string>)
    requires Enabled(w) && Free(w, s) && forall m :: m in names ==> Resolve(w, m).Some?
    ensures Free(w, LoadNames(w, s, names).state) && !LoadNames(w, s, names).missing
  {
    if names != [] {
      var prev, m := names[..|names| - 1], names[|names| - 1];
      assert names == prev + [m];
      LoadNamesFree(w, s, prev);
      ResolveKnown(w, m);
      ImportModuleFree(w, LoadNames(w, s, prev).state, m, Resolve(w, m).value);
    }
  }

  lemma NamesSource(entries: seq<string>)
    ensures forall x :: x in Names(entries) ==> exists e :: e in entries && NameOf(e) == x
  {
    if entries != [] {
      var prev, e := entries[..|entries| - 1], entries[|entries| - 1];
      assert entries == prev + [e];
      NamesSource(prev);
    }
  }

  lemma LoadModulesFree(w: World, s: State, entries: seq<string>)
    requires Enabled(w) && Free(w, s) && Known(w, entries)
    ensures Free(w, LoadModules(w, s, entries).state)
  {
    NamesSource(entries);
    LoadNamesFree(w, Decode(s, Modules, entries), Names(entries));
  }

  lemma NestedFree(w: World, s: State, p: Project)
    requires Enabled(w) && Free(w, s) && "MODULES" in p.vars && KnownProject(w, p)
    ensures Free(w, Nested(w, s, p))
    decreases |Unvisited(w, s)|, 5, 0
  {
    LoadModulesFree(w, s, p.vars["MODULES"]);
    LoadModulesProgress(w, s, p.vars["MODULES"]);
    var m := LoadModules(w, s, p.vars["MODULES"]).state;
    UnvisitedShrinks(w, s, m);
    ResolveDependsFree(w, m, Value(p.vars, "DEPENDS"), false);
  }

  lemma ImportDependFree(w: World, s: State, d: string, root: bool, persistedOnly: bool)
    requires Enabled(w) && Free(w, s) && d in w.projects
    ensures Free(w, ImportDepend(w, s, d, root, persistedOnly).state)
    decreases |Unvisited(w, s)|, 1, 0
  {
    ProjectIndex(w, d);
    var i, p := Index(d), w.projects[d];
    if OnlyExistsWanted(s, Depends, i) {
    } else if ImportDue(s, Depends, i) {
      Visit(w, s, d);
      ImportVarsFree(w, s.(marks := s.marks + {Mark(Depends, i, AutoPersist)}), p, p.autoPersist);
      var a := ImportAutoPersist(s, Depends, i, p).state;
      if "MODULES" in p.vars { NestedFree(w, a, p); }
      var n := if "MODULES" in p.vars then Nested(w, a, p) else a;
      RunObjectsFree(w, n, Depends, i, p.objects, root, persistedOnly);
    } else {
      RunObjectsFree(w, s, Depends, i, p.objects, root, persistedOnly);
    }
  }

  lemma ResolveNamesFree(w: World, s: State, names: seq<string>, root: bool)
    requires Enabled(w) && Free(w, s)
    ensures Free(w, ResolveNames(w, s, names, root).state)
    decreases |Unvisited(w, s)|, 3, |names|
  {
    if names != [] {
      ResolveNamesFree(w, s, names[..|names| - 1], root);
      var k, d := ResolveNames(w, s, names[..|names| - 1], root).state, names[|names| - 1];
      UnvisitedShrinks(w, s, k);
      if d in w.projects { ImportDependFree(w, k, d, root, !w.projects[d].inRoot); }
    }
  }

  lemma ResolveDependsFree(w: World, s: State, entries: seq<string>, root: bool)
    requires Enabled(w) && Free(w, s)
    ensures Free(w, ResolveDepends(w, s, entries, root).state)
    decreases |Unvisited(w, s)|, 4, 0
  {
    if !IsEmpty(entries) {
      UnvisitedShrinks(w, s, Decode(s, Depends, entries));
      ResolveNamesFree(w, Decode(s, Depends, entries), Names(entries), root);
    }
  }

  lemma PassFree(w: World, s: State)
    requires Enabled(w) && Free(w, s)
    ensures Free(w, Pass(w, s).state)
  {
    LoadModulesFree(w, s, Value(s.vars, "MODULES"));
    var m := LoadModules(w, s, Value(s.vars, "MODULES")).state;
    ResolveDependsFree(w, m, Value(m.vars, "DEPENDS"), true);
  }

  /** Loading leaves a project enabled if no dependency is disabled and every module that anybody asks
      for can be found. */
  lemma {:induction false} StaysEnabled(w: World, s: State)
    requires Enabled(w) && Free(w, s)
    ensures Free(w, Load(w, s).state)
    decreases Pending(w, s)
  {
    PassFree(w, s);
    PassConsumes(w, s);
    if Pass(w, s).count > 0 { StaysEnabled(w, Pass(w, s).state); }
  }
}
