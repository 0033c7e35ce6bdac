/** What the dependency loader keeps over every run: no object runs twice, whatever ran was asked
    for, and a dependency marked as imported has had its variables imported. */
module DependsInvariants {
  import opened Options
  import opened Depends

  // ---------------------------------------------------------------- the invariant

  ghost predicate NoDuplicates<T>(s: seq<T>) {
    forall i, j :: 0 <= i < j < |s| ==> s[i] != s[j]
  }

  /** No object ran twice for a rule database, and the databases record exactly what ran. */
  ghost predicate Once(s: State) {
    && NoDuplicates(s.ran)
    && forall m :: m in s.ran <==> m in s.marks && m.rule.Ran?
  }

  /** The project that a name stands for. */
  function Owner(w: World, db: Db, key: string): Option<Project> {
    match db
    case Modules => Resolve(w, key)
    case Depends => if key in w.projects then Some(w.projects[key]) else None
  }

  ghost predicate Justifies(w: World, wanted: set<Want>, m: Mark, key: string, o: Obj) {
    && Index(key) == m.index
    && Owner(w, m.db, key).Some?
    && o in Owner(w, m.db, key).value.objects
    && m.rule == Ran(o.absName)
    && (Want(m.db, m.index, "all") in wanted || Want(m.db, m.index, o.name) in wanted)
  }

  /** Whatever ran belongs to a dependency and was wanted from it. */
  ghost predicate Justified(w: World, s: State) {
    forall m :: m in s.marks && m.rule.Ran? ==> exists key, o :: Justifies(w, s.wanted, m, key, o)
  }

  ghost predicate Includes(vars: map<string, seq<string>>, p: Project) {
    forall v, x :: v in p.autoPersist && v in p.vars && x in p.vars[v] ==> x in Value(vars, v)
  }

  /** The variables of a dependency that this mark stands for have been imported. */
  ghost predicate Brought(w: World, vars: map<string, seq<string>>, m: Mark, key: string) {
    && Index(key) == m.index
    && Owner(w, m.db, key).Some?
    && Includes(vars, Owner(w, m.db, key).value)
  }

  /** Whatever is marked as imported has been. */
  ghost predicate Imported(w: World, s: State) {
    forall m :: m in s.marks && m.rule.AutoPersist? ==> exists key :: Brought(w, s.vars, m, key)
  }

  ghost predicate WholeEntries(entries: seq<string>) {
    forall e :: e in entries ==> !HasRule(e)
  }

  /** Nobody ever asks for a part of a DEPENDS dependency. */
  ghost predicate WholeWorld(w: World) {
    forall p :: p in AllProjects(w) ==>
      && WholeEntries(Value(p.vars, "DEPENDS"))
      && forall o, a :: o in p.objects && a in o.eval && a.variable == "DEPENDS" ==> WholeEntries(a.values)
  }

  ghost predicate WholeState(s: State) {
    && WholeEntries(Value(s.vars, "DEPENDS"))
    && (forall x :: x in s.wanted && x.db == Depends ==> x.rule == "all")
    && (forall m :: m in s.marks && m.db == Depends && m.rule.Ran? ==> Mark(Depends, m.index, AutoPersist) in s.marks)
  }

  /** What holds at any time.  `whole` says that nobody, the project itself included, ever asks for
      a part of a DEPENDS dependency. */
  ghost predicate Inv(w: World, whole: bool, s: State) {
    && Once(s)
    && Justified(w, s)
    && Imported(w, s)
    && (whole ==> WholeWorld(w) && WholeState(s))
  }

  /** A project before any dependency was loaded. */
  function Initial(vars: map<string, seq<string>>, disabled: bool): State {
    State(vars, {}, {}, [], disabled)
  }

  lemma InitialInv(w: World, whole: bool, vars: map<string, seq<string>>, disabled: bool)
    requires whole ==> WholeWorld(w) && WholeEntries(Value(vars, "DEPENDS"))
    ensures Inv(w, whole, Initial(vars, disabled))
  {
  }

  // ---------------------------------------------------------------- steps

  lemma IncludesGrows(vars: map<string, seq<string>>, more: map<string, seq<string>>, p: Project)
    requires Includes(vars, p)
    requires forall v :: v in vars ==> v in more && vars[v] <= more[v]
    ensures Includes(more, p)
  {
    forall v, x | v in p.autoPersist && v in p.vars && x in p.vars[v] ensures x in Value(more, v) {
      assert x in Value(vars, v);
      assert vars[v] <= more[v];
    }
  }

  lemma JustifiedGrows(w: World, s: State, r: State)
    requires Justified(w, s) && s.wanted <= r.wanted
    requires forall m :: m in r.marks && m.rule.Ran? ==> m in s.marks
    ensures Justified(w, r)
  {
    forall m | m in r.marks && m.rule.Ran? ensures exists key, o :: Justifies(w, r.wanted, m, key, o) {
      var key, o :| Justifies(w, s.wanted, m, key, o);
      assert Justifies(w, r.wanted, m, key, o);
    }
  }

  lemma ImportedGrows(w: World, s: State, r: State)
    requires Imported(w, s) && Grows(s, r)
    requires forall m :: m in r.marks && m.rule.AutoPersist? ==> m in s.marks
    ensures Imported(w, r)
  {
    forall m | m in r.marks && m.rule.AutoPersist? ensures exists key :: Brought(w, r.vars, m, key) {
      var key :| Brought(w, s.vars, m, key);
      IncludesGrows(s.vars, r.vars, Owner(w, m.db, key).value);
      assert Brought(w, r.vars, m, key);
    }
  }

  lemma WholeUnite(vars: map<string, seq<string>>, variable: string, values: seq<string>)
    requires WholeEntries(Value(vars, "DEPENDS")) && (variable == "DEPENDS" ==> WholeEntries(values))
    ensures WholeEntries(Value(UniteVar(vars, variable, values), "DEPENDS"))
  {
  }

  lemma WholeEval(vars: map<string, seq<string>>, eval: seq<Addition>)
    requires WholeEntries(Value(vars, "DEPENDS"))
    requires forall a :: a in eval && a.variable == "DEPENDS" ==> WholeEntries(a.values)
    ensures WholeEntries(Value(Eval(vars, eval), "DEPENDS"))
  {
    if eval != [] {
      WholeEval(vars, eval[..|eval| - 1]);
      var a := eval[|eval| - 1];
      WholeUnite(Eval(vars, eval[..|eval| - 1]), a.variable, a.values);
    }
  }

  lemma WantsSource(db: Db, entries: seq<string>, x: Want) returns (e: string)
    requires x in Wants(db, entries)
    ensures e in entries && x in WantsOf(db, e)
  {
    var last := entries[|entries| - 1];
    if x in WantsOf(db, last) { e := last; } else { e := WantsSource(db, entries[..|entries| - 1], x); }
  }

  lemma DecodeInv(w: World, whole: bool, s: State, db: Db, entries: seq<string>)
    requires Inv(w, whole, s)
    requires whole && db == Depends ==> WholeEntries(entries)
    ensures Inv(w, whole, Decode(s, db, entries))
  {
    var r := Decode(s, db, entries);
    JustifiedGrows(w, s, r);
    ImportedGrows(w, s, r);
    if whole { DecodeWhole(s, db, entries); }
  }

  lemma DecodeWhole(s: State, db: Db, entries: seq<string>)
    requires WholeState(s) && (db == Depends ==> WholeEntries(entries))
    ensures WholeState(Decode(s, db, entries))
  {
    var r := Decode(s, db, entries);
    forall x | x in r.wanted && x.db == Depends ensures x.rule == "all" {
      if x !in s.wanted {
        var e := WantsSource(db, entries, x);
      }
    }
  }

  /** A mark other than a run or an import changes nothing that the invariant speaks about. */
  lemma ExistsInv(w: World, whole: bool, s: State, db: Db, i: string)
    requires Inv(w, whole, s)
    ensures Inv(w, whole, ProcessExists(s, db, i).state)
  {
    var r := ProcessExists(s, db, i).state;
    JustifiedGrows(w, s, r);
    ImportedGrows(w, s, r);
  }

  lemma DisableInv(w: World, whole: bool, s: State)
    requires Inv(w, whole, s)
    ensures Inv(w, whole, s.(disabled := true))
  {
    JustifiedGrows(w, s, s.(disabled := true));
    ImportedGrows(w, s, s.(disabled := true));
  }

  lemma RunObjectInv(w: World, whole: bool, s: State, db: Db, key: string, p: Project, o: Obj)
    requires Inv(w, whole, s) && Owner(w, db, key) == Some(p) && o in p.objects && p in AllProjects(w)
    requires Wanted(s, db, Index(key), o.name) && Mark(db, Index(key), Ran(o.absName)) !in s.marks
    requires whole && db == Depends ==> Mark(db, Index(key), AutoPersist) in s.marks
    ensures Inv(w, whole, RunObject(s, Mark(db, Index(key), Ran(o.absName)), o))
  {
    var m := Mark(db, Index(key), Ran(o.absName));
    var r := RunObject(s, m, o);
    EvalGrows(s.vars, o.eval);
    RunOnce(s, m, o);
    RunJustified(w, s, m, key, o);
    ImportedGrows(w, s, r);
    if whole { WholeEval(s.vars, o.eval); }
  }

  lemma RunOnce(s: State, m: Mark, o: Obj)
    requires Once(s) && m !in s.marks && m.rule.Ran?
    ensures Once(RunObject(s, m, o))
  {
    assert m !in s.ran;
  }

  lemma RunJustified(w: World, s: State, m: Mark, key: string, o: Obj)
    requires Justified(w, s) && Justifies(w, s.wanted, m, key, o)
    ensures Justified(w, RunObject(s, m, o))
  {
    var r := RunObject(s, m, o);
    forall n | n in r.marks && n.rule.Ran? ensures exists k, q :: Justifies(w, r.wanted, n, k, q) {
      if n == m {
        assert Justifies(w, r.wanted, m, key, o);
      } else {
        var k, q :| Justifies(w, s.wanted, n, k, q);
        assert Justifies(w, r.wanted, n, k, q);
      }
    }
  }

  lemma RunObjectsInv(w: World, whole: bool, s: State, db: Db, key: string, p: Project, objects: seq<Obj>, root: bool,
                      persistedOnly: bool)
    requires Inv(w, whole, s) && Owner(w, db, key) == Some(p) && p in AllProjects(w) && objects <= p.objects
    requires whole && db == Depends && Want(db, Index(key), "all") in s.wanted ==>
             Mark(db, Index(key), AutoPersist) in s.marks
    requires Index(key) in Indexes(w)
    ensures Inv(w, whole, RunObjects(s, db, Index(key), objects, root, persistedOnly).state)
  {
    if objects != [] {
      var prev := objects[..|objects| - 1];
      RunObjectsInv(w, whole, s, db, key, p, prev, root, persistedOnly);
      RunObjectsProgress(w, s, db, Index(key), p, prev, root, persistedOnly);
      var r := RunObjects(s, db, Index(key), prev, root, persistedOnly);
      var o := objects[|objects| - 1];
      if Due(r.state, db, Index(key), o, root, persistedOnly) {
        assert o == p.objects[|objects| - 1];
        RunObjectInv(w, whole, r.state, db, key, p, o);
      }
    }
  }

  lemma ImportVarsAdds(w: World, s: State, p: Project, variables: seq<string>)
    requires p in AllProjects(w)
    ensures var r := ImportVars(s, p, variables).state;
            && (forall v, x :: v in variables && v in p.vars && x in p.vars[v] ==> x in Value(r.vars, v))
            && (WholeWorld(w) && WholeEntries(Value(s.vars, "DEPENDS")) ==> WholeEntries(Value(r.vars, "DEPENDS")))
  {
    if variables != [] {
      var prev := variables[..|variables| - 1];
      var v := variables[|variables| - 1];
      assert variables == prev + [v];
      ImportVarsAdds(w, s, p, prev);
      var r := ImportVars(s, p, prev).state;
      if Persists(p, v) && WholeWorld(w) && WholeEntries(Value(s.vars, "DEPENDS")) {
        if v == "DEPENDS" { assert Value(p.vars, "DEPENDS") == p.vars[v]; }
        WholeUnite(r.vars, v, p.vars[v]);
      }
    }
  }

  lemma ImportAutoPersistInv(w: World, whole: bool, s: State, db: Db, key: string, p: Project)
    requires Inv(w, whole, s) && Owner(w, db, key) == Some(p) && p in AllProjects(w)
    requires Index(key) in Indexes(w) && ImportDue(s, db, Index(key))
    ensures Inv(w, whole, ImportAutoPersist(s, db, Index(key), p).state)
  {
    var m := Mark(db, Index(key), AutoPersist);
    var r := ImportAutoPersist(s, db, Index(key), p).state;
    ImportAutoPersistProgress(w, s, db, Index(key), p);
    ImportVarsAdds(w, s.(marks := s.marks + {m}), p, p.autoPersist);
    JustifiedGrows(w, s, r);
    forall n | n in r.marks && n.rule.AutoPersist? ensures exists k :: Brought(w, r.vars, n, k) {
      if n == m {
        assert Brought(w, r.vars, m, key);
      } else {
        var k :| Brought(w, s.vars, n, k);
        IncludesGrows(s.vars, r.vars, Owner(w, n.db, k).value);
        assert Brought(w, r.vars, n, k);
      }
    }
  }

  // ---------------------------------------------------------------- calls

  lemma ImportModuleInv(w: World, whole: bool, s: State, m: string, p: Project)
    requires Inv(w, whole, s) && Resolve(w, m) == Some(p)
    ensures Inv(w, whole, ImportModule(s, m, p).state)
  {
    ResolveKnown(w, m);
    var i := Index(m);
    assert Owner(w, Modules, m) == Some(p);
    if p.objects == [] {
    } else if OnlyExistsWanted(s, Modules, i) {
      ExistsInv(w, whole, s, Modules, i);
    } else {
      if ImportDue(s, Modules, i) { ImportAutoPersistInv(w, whole, s, Modules, m, p); }
      var a := if ImportDue(s, Modules, i) then ImportAutoPersist(s, Modules, i, p) else Result(s, 0);
      RunObjectsInv(w, whole, a.state, Modules, m, p, p.objects, true, false);
    }
  }

  lemma LoadNamesInv(w: World, whole: bool, s: State, names: seq<string>)
    requires Inv(w, whole, s)
    ensures Inv(w, whole, LoadNames(w, s, names).state)
  {
    if names != [] {
      LoadNamesInv(w, whole, s, names[..|names| - 1]);
      var k := LoadNames(w, s, names[..|names| - 1]);
      var m := names[|names| - 1];
      if !k.missing {
        match Resolve(w, m)
        case None => DisableInv(w, whole, k.state);
        case Some(p) => ImportModuleInv(w, whole, k.state, m, p);
      }
    }
  }

  lemma LoadModulesInv(w: World, whole: bool, s: State, entries: seq<string>)
    requires Inv(w, whole, s)
    ensures Inv(w, whole, LoadModules(w, s, entries).state)
  {
    if !IsEmpty(entries) {
      DecodeInv(w, whole, s, Modules, entries);
      LoadNamesInv(w, whole, Decode(s, Modules, entries), Names(entries));
    }
  }

  lemma NestedInv(w: World, whole: bool, s: State, p: Project)
    requires Inv(w, whole, s) && "MODULES" in p.vars && p in AllProjects(w)
    ensures Inv(w, whole, Nested(w, s, p))
    decreases |Unvisited(w, s)|, 5, 0
  {
    LoadModulesInv(w, whole, s, p.vars["MODULES"]);
    LoadModulesProgress(w, s, p.vars["MODULES"]);
    var m := LoadModules(w, s, p.vars["MODULES"]).state;
    UnvisitedShrinks(w, s, m);
    ResolveDependsInv(w, whole, m, Value(p.vars, "DEPENDS"), false);
  }

  lemma ImportDependInv(w: World, whole: bool, s: State, d: string, root: bool, persistedOnly: bool)
    requires Inv(w, whole, s) && d in w.projects
    ensures Inv(w, whole, ImportDepend(w, s, d, root, persistedOnly).state)
    decreases |Unvisited(w, s)|, 1, 0
  {
    ProjectIndex(w, d);
    var i := Index(d);
    var p := w.projects[d];
    assert Owner(w, Depends, d) == Some(p);
    if OnlyExistsWanted(s, Depends, i) {
      ExistsInv(w, whole, s, Depends, i);
    } else if ImportDue(s, Depends, i) {
      Visit(w, s, d);
      ImportAutoPersistInv(w, whole, s, Depends, d, p);
      ImportAutoPersistProgress(w, s, Depends, i, p);
      var a := ImportAutoPersist(s, Depends, i, p);
      if "MODULES" in p.vars { NestedInv(w, whole, a.state, p); }
      var n := if "MODULES" in p.vars then Nested(w, a.state, p) else a.state;
      RunObjectsInv(w, whole, n, Depends, d, p, p.objects, root, persistedOnly);
    } else {
      RunObjectsInv(w, whole, s, Depends, d, p, p.objects, root, persistedOnly);
    }
  }

  lemma ProcessDependencyInv(w: World, whole: bool, s: State, d: string, root: bool)
    requires Inv(w, whole, s)
    ensures Inv(w, whole, ProcessDependency(w, s, d, root).state)
    decreases |Unvisited(w, s)|, 2, 0
  {
    DisableInv(w, whole, s);
    if d in w.projects {
      ImportDependInv(w, whole, s, d, root, !w.projects[d].inRoot);
    }
  }

  lemma ResolveNamesInv(w: World, whole: bool, s: State, names: seq<string>, root: bool)
    requires Inv(w, whole, s)
    ensures Inv(w, whole, ResolveNames(w, s, names, root).state)
    decreases |Unvisited(w, s)|, 3, |names|
  {
    if names != [] {
      ResolveNamesInv(w, whole, s, names[..|names| - 1], root);
      var k := ResolveNames(w, s, names[..|names| - 1], root);
      UnvisitedShrinks(w, s, k.state);
      ProcessDependencyInv(w, whole, k.state, names[|names| - 1], root);
    }
  }

  lemma ResolveDependsInv(w: World, whole: bool, s: State, entries: seq<string>, root: bool)
    requires Inv(w, whole, s) && (whole ==> WholeEntries(entries))
    ensures Inv(w, whole, ResolveDepends(w, s, entries, root).state)
    decreases |Unvisited(w, s)|, 4, 0
  {
    if !IsEmpty(entries) {
      DecodeInv(w, whole, s, Depends, entries);
      UnvisitedShrinks(w, s, Decode(s, Depends, entries));
      ResolveNamesInv(w, whole, Decode(s, Depends, entries), Names(entries), root);
    }
  }

  lemma PassInv(w: World, whole: bool, s: State)
    requires Inv(w, whole, s)
    ensures Inv(w, whole, Pass(w, s).state)
  {
    LoadModulesInv(w, whole, s, Value(s.vars, "MODULES"));
    var m := LoadModules(w, s, Value(s.vars, "MODULES")).state;
    ResolveDependsInv(w, whole, m, Value(m.vars, "DEPENDS"), true);
  }

  /** The invariant holds after every call of the loader. */
  lemma {:induction false} LoadInv(w: World, whole: bool, s: State)
    requires Inv(w, whole, s)
    ensures Inv(w, whole, Load(w, s).state)
    decreases Pending(w, s)
  {
    PassInv(w, whole, s);
    PassConsumes(w, s);
    if Pass(w, s).count > 0 { LoadInv(w, whole, Pass(w, s).state); }
  }
}
