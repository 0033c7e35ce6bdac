/** The dependency loader as it runs: it updates the project in place, through loops and through
    recursion along DEPENDS.  Each method is proved to compute what module Depends defines. */
module DependsLoader {
  import opened Options
  import opened Depends

  /** The first part of an import, before the objects. */
  function Imported(w: World, s: State, db: Db, key: string, p: Project): Result {
    if !ImportDue(s, db, Index(key)) then Result(s, 0)
    else
      var a := ImportAutoPersist(s, db, Index(key), p);
      if db == Depends && "MODULES" in p.vars then Result(Nested(w, a.state, p), a.count) else a
  }

  lemma ImportByParts(w: World, s: State, db: Db, key: string, p: Project, root: bool, persistedOnly: bool)
    requires db == Modules ==> root && !persistedOnly && p.objects != []
    requires db == Depends ==> key in w.projects && w.projects[key] == p
    requires !OnlyExistsWanted(s, db, Index(key))
    ensures var a := Imported(w, s, db, key, p);
            var r := RunObjects(a.state, db, Index(key), p.objects, root, persistedOnly);
            Result(r.state, a.count + r.count) ==
            if db == Modules then ImportModule(s, key, p) else ImportDepend(w, s, key, root, persistedOnly)
  {
  }

  class Loader {
    const world: World
    var vars: map<string, seq<string>>
    var wanted: set<Want>
    var marks: set<Mark>
    var ran: seq<Mark>
    var disabled: bool

    constructor (world: World, vars: map<string, seq<string>>)
      ensures this.world == world && View() == State(vars, {}, {}, [], false)
    {
      this.world := world;
      this.vars := vars;
      wanted, marks, ran, disabled := {}, {}, [], false;
    }

    ghost function View(): State
      reads this
    {
      State(vars, wanted, marks, ran, disabled)
    }

    method DecodeRules(db: Db, entries: seq<string>) returns (pending: seq<string>)
      modifies this`wanted
      ensures View() == Decode(old(View()), db, entries) && pending == Names(entries)
    {
      pending := [];
      for k := 0 to |entries|
        invariant pending == Names(entries[..k])
        invariant wanted == old(wanted) + Wants(db, entries[..k])
      {
        var entry := entries[k];
        var name := NameOf(entry);
        if name !in pending { pending := pending + [name]; }
        AddWanted(db, entry);
        DecodeStep(db, entries, k);
      }
      assert entries[..|entries|] == entries;
    }

    method AddWanted(db: Db, entry: string)
      modifies this`wanted
      ensures wanted == old(wanted) + WantsOf(db, entry)
    {
      var i := Index(NameOf(entry));
      if HasRule(entry) {
        var rule := RuleOf(entry);
        wanted := wanted + {Want(db, i, rule)};
        if rule == "persisted" { wanted := wanted + {Want(db, i, "all")}; }
      } else {
        wanted := wanted + {Want(db, i, "all")};
      }
    }

    method RunDependObject(m: Mark, o: Obj)
      modifies this`vars, this`marks, this`ran
      ensures View() == RunObject(old(View()), m, o)
    {
      marks := marks + {m};
      ran := ran + [m];
      for k := 0 to |o.eval|
        invariant vars == if disabled then old(vars) else Eval(old(vars), o.eval[..k])
        invariant marks == old(marks) + {m} && ran == old(ran) + [m]
      {
        assert o.eval[..k + 1][..k] == o.eval[..k];
        if !disabled { vars := UniteVar(vars, o.eval[k].variable, o.eval[k].values); }
      }
      assert o.eval[..|o.eval|] == o.eval;
    }

    /** Import the auto-persisted variables of `p`. */
    method CopyVariables(i: string, db: Db, p: Project) returns (rules: nat)
      modifies this`vars, this`marks
      ensures Result(View(), rules) == ImportAutoPersist(old(View()), db, i, p)
    {
      marks := marks + {Mark(db, i, AutoPersist)};
      rules := 0;
      ghost var start := View();
      for k := 0 to |p.autoPersist|
        invariant Result(View(), rules) == ImportVars(start, p, p.autoPersist[..k])
      {
        assert p.autoPersist[..k + 1][..k] == p.autoPersist[..k];
        var variable := p.autoPersist[k];
        if variable in p.vars && |p.vars[variable]| != 0 {
          vars := UniteVar(vars, variable, p.vars[variable]);
          rules := rules + 1;
        }
      }
      assert p.autoPersist[..|p.autoPersist|] == p.autoPersist;
    }

    method RunObjectsOf(i: string, db: Db, p: Project, root: bool, persistedOnly: bool) returns (rules: nat)
      modifies this`vars, this`marks, this`ran
      ensures Result(View(), rules) == RunObjects(old(View()), db, i, p.objects, root, persistedOnly)
    {
      rules := 0;
      for k := 0 to |p.objects|
        invariant Result(View(), rules) == RunObjects(old(View()), db, i, p.objects[..k], root, persistedOnly)
      {
        assert p.objects[..k + 1][..k] == p.objects[..k];
        var o := p.objects[k];
        var m := Mark(db, i, Ran(o.absName));
        var chosen := Want(db, i, "all") in wanted || Want(db, i, o.name) in wanted;
        if persistedOnly {
          if o.persisted && (root || !o.immediate) && chosen && m !in marks {
            RunDependObject(m, o);
            rules := rules + 1;
          }
        } else if root || !o.immediate {
          if chosen && m !in marks {
            RunDependObject(m, o);
            rules := rules + 1;
          }
        }
      }
      assert p.objects[..|p.objects|] == p.objects;
    }

    /** Load what `p` exports.  `key` is the module name or the dependency name; only dependencies
        of DEPENDS are walked into, and what that returns is dropped. */
    method ProcessDepProject(root: bool, db: Db, key: string, p: Project, persistedOnly: bool) returns (rules: nat)
      requires db == Modules ==> root && !persistedOnly
      requires db == Depends ==> key in world.projects && world.projects[key] == p
      modifies this
      ensures Result(View(), rules) ==
              if db == Modules then ImportModule(old(View()), key, p)
              else ImportDepend(world, old(View()), key, root, persistedOnly)
      decreases |Unvisited(world, View())|, 0, 1
    {
      if p.objects == [] && db == Modules { return 0; }
      var i := Index(key);
      if Want(db, i, "exists") in wanted
         && forall x :: x in wanted && x.db == db && x.index == i ==> x.rule == "exists" {
        if Mark(db, i, Exists) in marks { return 0; }
        marks := marks + {Mark(db, i, Exists)};
        return 1;
      }
      ImportByParts(world, View(), db, key, p, root, persistedOnly);
      rules := ImportVariables(db, key, p);
      var more := RunObjectsOf(i, db, p, root, persistedOnly);
      rules := rules + more;
    }

    /** The first part: the variables, and what the project itself depends on. */
    method ImportVariables(db: Db, key: string, p: Project) returns (rules: nat)
      requires db == Depends ==> key in world.projects && world.projects[key] == p
      modifies this
      ensures Result(View(), rules) == Imported(world, old(View()), db, key, p)
      decreases |Unvisited(world, View())|, 0, 0
    {
      var i := Index(key);
      rules := 0;
      if (Want(db, i, "all") in wanted || Want(db, i, "auto_persist") in wanted) && Mark(db, i, AutoPersist) !in marks {
        if db == Depends { Visit(world, View(), key); }
        rules := CopyVariables(i, db, p);
        if db == Depends && "MODULES" in p.vars { LoadNested(p); }
      }
    }

    /** Load what `p` itself depends on. */
    method LoadNested(p: Project)
      requires "MODULES" in p.vars
      modifies this
      ensures View() == Nested(world, old(View()), p)
      decreases |Unvisited(world, View())|, 5, 0
    {
      ghost var a := View();
      LoadModulesProgress(world, a, p.vars["MODULES"]);
      var _ := this.LoadModules(p.vars["MODULES"]);
      UnvisitedShrinks(world, a, View());
      var _ := this.ResolveDepends(Value(p.vars, "DEPENDS"), false);
    }

    /** Load the project called `name`; -1 tells the search for a module to go on. */
    method ProcessDependency(root: bool, name: string, db: Db, module_: string) returns (ret: int)
      requires db == Modules ==> root
      modifies this
      ensures db == Modules ==>
                if IsModule(world, module_, name)
                then ret >= 0 && Result(View(), ret) == ImportModule(old(View()), module_, world.projects[name])
                else ret == -1 && View() == old(View())
      ensures db == Depends ==>
                ret >= 0 && Result(View(), ret) == Depends.ProcessDependency(world, old(View()), name, root)
      decreases |Unvisited(world, View())|, 1, 0
    {
      if name !in world.projects {
        return if db == Modules then -1 else 0;
      }
      var p := world.projects[name];
      if p.inRoot {
        if db == Depends && p.disabled {
          if !disabled { disabled := true; }
          return 0;
        }
        if db == Modules && (p.moduleName != Some(module_) || p.disabled) { return -1; }
        ret := ProcessDepProject(root, db, if db == Modules then module_ else name, p, false);
      } else if db == Modules {
        return -1;
      } else if Want(Depends, Index(name), "persisted") in wanted {
        ret := ProcessDepProject(root, Depends, name, p, true);
      } else {
        return 0;
      }
    }

    /** Search the candidates for module `m` and load the first that is one. */
    method LoadMatch(m: string) returns (found: bool, ret: nat)
      modifies this
      ensures var match_ := if m in world.matches then FindMatch(world, m, world.matches[m]) else None;
              && found == match_.Some?
              && (found ==> Result(View(), ret) == ImportModule(old(View()), m, world.projects[match_.value]))
              && (!found ==> View() == old(View()))
      decreases |Unvisited(world, View())|, 2, 0
    {
      found, ret := false, 0;
      if m !in world.matches { return; }
      var matches := world.matches[m];
      var k := 0;
      while k < |matches|
        invariant 0 <= k <= |matches| && View() == old(View())
        invariant FindMatch(world, m, matches) == FindMatch(world, m, matches[k..])
      {
        assert matches[k..][1..] == matches[k + 1..];
        if matches[k] != world.self {
          var r := ProcessDependency(true, matches[k], Modules, m);
          if r != -1 { return true, r; }
        }
        k := k + 1;
      }
    }

    /** Load module `m` from wherever it is; a module that is nowhere disables the project. */
    method LoadName(m: string) returns (found: bool, ret: nat)
      modifies this
      ensures found == Resolve(world, m).Some?
      ensures found ==> Result(View(), ret) == ImportModule(old(View()), m, Resolve(world, m).value)
      ensures !found ==> View() == old(View()).(disabled := true)
      decreases |Unvisited(world, View())|, 3, 0
    {
      found, ret := LoadMatch(m);
      if found { return; }
      if m in world.depFiles {
        ret := ProcessDepProject(true, Modules, m, world.depFiles[m], false);
        found := true;
      } else if m in world.sdkFiles {
        ret := ProcessDepProject(true, Modules, m, world.sdkFiles[m], false);
        found := true;
      } else if !disabled {
        disabled := true;
      }
    }

    method LoadModules(entries: seq<string>) returns (processed: nat)
      modifies this
      ensures Result(View(), processed) == Depends.LoadModules(world, old(View()), entries)
      decreases |Unvisited(world, View())|, 4, 0
    {
      if IsEmpty(entries) { return 0; }
      var names := DecodeRules(Modules, entries);
      ghost var start := View();
      processed := 0;
      for k := 0 to |names|
        invariant LoadNames(world, start, names[..k]) == Walk(View(), processed, false)
      {
        LoadNamesStep(world, start, names, k);
        LoadNamesProgress(world, start, names[..k]);
        UnvisitedShrinks(world, old(View()), View());
        var found, ret := LoadName(names[k]);
        if !found {
          LoadNamesStop(world, start, names, k + 1);
          return 0;
        }
        if ret > 0 { processed := processed + 1; }
      }
      assert names[..|names|] == names;
    }

    method ResolveDepends(entries: seq<string>, root: bool) returns (processed: nat)
      modifies this
      ensures Result(View(), processed) == Depends.ResolveDepends(world, old(View()), entries, root)
      decreases |Unvisited(world, View())|, 4, 0
    {
      if IsEmpty(entries) { return 0; }
      var names := DecodeRules(Depends, entries);
      ghost var start := View();
      processed := 0;
      for k := 0 to |names|
        invariant Result(View(), processed) == ResolveNames(world, start, names[..k], root)
      {
        ResolveNamesStep(world, start, names, k, root);
        UnvisitedShrinks(world, old(View()), View());
        var ret := ProcessDependency(root, names[k], Depends, "");
        if ret > 0 { processed := processed + 1; }
      }
      assert names[..|names|] == names;
    }

    /** One round of the loop. */
    method LoadRound() returns (loaded: nat)
      modifies this
      ensures Result(View(), loaded) == Pass(world, old(View()))
    {
      loaded := LoadModules(Value(vars, "MODULES"));
      var more := ResolveDepends(Value(vars, "DEPENDS"), true);
      loaded := loaded + more;
    }

    /** Load all pending dependencies, until a round loads nothing. */
    method LoadDependencies() returns (ret: nat)
      modifies this
      ensures Result(View(), ret) == Load(world, old(View()))
    {
      ret := 0;
      var loaded := 1;
      ghost var goal := Load(world, View());
      while loaded != 0
        invariant goal == Outcome(world, View(), ret, loaded)
        decreases loaded != 0, Pending(world, View())
      {
        PassConsumes(world, View());
        OutcomeStays(world, View(), ret, loaded);
        loaded := LoadRound();
        ret := ret + loaded;
      }
    }
  }

  /** What loading comes to, when the last round counted `loaded` and all rounds so far `ret`. */
  function Outcome(w: World, s: State, ret: nat, loaded: nat): Result {
    if loaded == 0 then Result(s, ret) else Result(Load(w, s).state, ret + Load(w, s).count)
  }

  lemma OutcomeStays(w: World, s: State, ret: nat, loaded: nat)
    requires loaded != 0
    ensures var r := Pass(w, s); Outcome(w, s, ret, loaded) == Outcome(w, r.state, ret + r.count, r.count)
  {
    PassConsumes(w, s);
  }

  lemma LoadNamesStep(w: World, s: State, names: seq<string>, k: nat)
    requires k < |names| && !LoadNames(w, s, names[..k]).missing
    ensures var a := LoadNames(w, s, names[..k]);
            LoadNames(w, s, names[..k + 1]) ==
            match Resolve(w, names[k])
            case None => Walk(a.state.(disabled := true), a.count, true)
            case Some(p) =>
              var r := ImportModule(a.state, names[k], p);
              Walk(r.state, a.count + (if r.count > 0 then 1 else 0), false)
  {
    assert names[..k + 1][..k] == names[..k];
  }

  lemma ResolveNamesStep(w: World, s: State, names: seq<string>, k: nat, root: bool)
    requires k < |names|
    ensures var a := ResolveNames(w, s, names[..k], root);
            var r := Depends.ProcessDependency(w, a.state, names[k], root);
            ResolveNames(w, s, names[..k + 1], root) == Result(r.state, a.count + (if r.count > 0 then 1 else 0))
  {
    assert names[..k + 1][..k] == names[..k];
  }

  lemma LoadNamesStop(w: World, s: State, names: seq<string>, k: nat)
    requires k <= |names| && LoadNames(w, s, names[..k]).missing
    ensures LoadNames(w, s, names) == LoadNames(w, s, names[..k])
  {
    if k < |names| {
      assert names[..|names| - 1][..k] == names[..k];
      LoadNamesStop(w, s, names[..|names| - 1], k);
    } else {
      assert names[..k] == names;
    }
  }

  lemma DecodeStep(db: Db, entries: seq<string>, k: nat)
    requires k < |entries|
    ensures var n := Names(entries[..k]);
            Names(entries[..k + 1]) == if NameOf(entries[k]) in n then n else n + [NameOf(entries[k])]
    ensures Wants(db, entries[..k + 1]) == Wants(db, entries[..k]) + WantsOf(db, entries[k])
  {
    assert entries[..k + 1][..k] == entries[..k];
  }
}
