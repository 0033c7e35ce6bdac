/** The dependency loader as a run of small steps.

    Whatever the graph looks like, a call of the loader asks for something, notes that a dependency
    exists, imports the variables of a dependency, runs one object, or disables the project, again
    and again.  Each step is described by what it does to the project and by what allows it, without
    the functions of Depends.  Properties of every run follow by induction over the steps: where each
    value, each request and each object that ran comes from, that everything a snippet adds is there,
    and why a project is disabled. */
module DependsSteps {
  import opened Options
  import opened Depends
  import opened DependsInvariants

  // ---------------------------------------------------------------- where things come from

  function ListName(db: Db): string {
    match db
    case Modules => "MODULES"
    case Depends => "DEPENDS"
  }

  ghost predicate Visited(w: World, s: State, d: string) {
    d in w.projects && Mark(Depends, Index(d), AutoPersist) in s.marks
  }

  /** The project itself, or a dependency whose variables it has, lists this entry. */
  ghost predicate Lists(w: World, s: State, db: Db, entry: string) {
    || entry in Value(s.vars, ListName(db))
    || exists d :: Visited(w, s, d) && entry in Value(w.projects[d].vars, ListName(db))
  }

  /** Some statement of the snippet adds x to v. */
  ghost predicate Adds(eval: seq<Addition>, v: string, x: string) {
    exists a :: a in eval && a.variable == v && x in a.values
  }

  predicate Exports(p: Project, v: string, x: string) {
    v in p.autoPersist && v in p.vars && x in p.vars[v]
  }

  /** After: every value that the snippet adds, everything that was there, and nothing else. */
  ghost predicate Executed(before: map<string, seq<string>>, after: map<string, seq<string>>, eval: seq<Addition>) {
    forall v, x :: x in Value(after, v) <==> x in Value(before, v) || Adds(eval, v, x)
  }

  ghost predicate United(before: map<string, seq<string>>, after: map<string, seq<string>>, p: Project) {
    forall v, x :: x in Value(after, v) <==> x in Value(before, v) || Exports(p, v, x)
  }

  // ---------------------------------------------------------------- the steps

  /** What makes a dependency usable: in the root it is enabled, outside it is asked for as persisted. */
  ghost predicate Usable(w: World, s: State, m: Mark, key: string) {
    && Index(key) == m.index
    && Owner(w, m.db, key).Some?
    && match m.db
       case Modules => Owner(w, m.db, key).value.objects != []
       case Depends => if w.projects[key].inRoot then !w.projects[key].disabled
                       else Want(Depends, m.index, "persisted") in s.wanted
  }

  /** Outside the root only PERSISTED objects apply, and IMMEDIATE ones apply to a project that lists
      the dependency itself. */
  ghost predicate Applies(w: World, s: State, m: Mark, key: string, o: Obj) {
    m.db == Depends && key in w.projects ==>
      && (!w.projects[key].inRoot ==> o.persisted)
      && (o.immediate ==> key in Names(Value(s.vars, "DEPENDS")))
  }

  ghost predicate Asks(w: World, s: State, r: State) {
    && r == s.(wanted := r.wanted)
    && s.wanted <= r.wanted
    && forall x :: x in r.wanted && x !in s.wanted ==> exists e :: Asked(w, s, x, e)
  }

  /** The entry e asks for x. */
  ghost predicate Asked(w: World, s: State, x: Want, e: string) {
    x in WantsOf(x.db, e) && Lists(w, s, x.db, e)
  }

  ghost predicate Notes(s: State, r: State) {
    exists db, i :: OnlyExistsWanted(s, db, i) && r == s.(marks := s.marks + {Mark(db, i, Exists)})
  }

  ghost predicate Imports(w: World, s: State, r: State, m: Mark, key: string) {
    && m.rule.AutoPersist? && m !in s.marks && Usable(w, s, m, key)
    && Wanted(s, m.db, m.index, "auto_persist")
    && r == s.(marks := s.marks + {m}, vars := r.vars)
    && United(s.vars, r.vars, Owner(w, m.db, key).value)
  }

  ghost predicate Runs(w: World, s: State, r: State, m: Mark, key: string, o: Obj) {
    && m !in s.marks && Usable(w, s, m, key) && Justifies(w, s.wanted, m, key, o) && Applies(w, s, m, key, o)
    && r == s.(marks := s.marks + {m}, ran := s.ran + [m], vars := r.vars)
    && if s.disabled then r.vars == s.vars else Executed(s.vars, r.vars, o.eval)
  }

  /** A listed module is nowhere, or a listed dependency is disabled. */
  ghost predicate Blocks(w: World, s: State, db: Db, entry: string) {
    && Lists(w, s, db, entry)
    && match db
       case Modules => Resolve(w, NameOf(entry)).None?
       case Depends => NameOf(entry) in w.projects && w.projects[NameOf(entry)].inRoot &&
                       w.projects[NameOf(entry)].disabled
  }

  ghost predicate Disables(w: World, s: State, r: State) {
    r == s.(disabled := true) && exists db, entry :: Blocks(w, s, db, entry)
  }

  /** One step.  Nothing that was there is taken away or reordered. */
  ghost predicate Step(w: World, s: State, r: State) {
    && Grows(s, r)
    && (|| Asks(w, s, r)
        || Notes(s, r)
        || (exists m, key :: Imports(w, s, r, m, key))
        || (exists m, key, o :: Runs(w, s, r, m, key, o))
        || Disables(w, s, r))
  }

  ghost function Steps(w: World): (State, State) -> bool {
    (s, r) => Step(w, s, r)
  }

  /** A run of n steps from s to r. */
  ghost predicate Path(step: (State, State) -> bool, s: State, n: nat, r: State)
    decreases n
  {
    if n == 0 then s == r else exists q :: step(s, q) && Path(step, q, n - 1, r)
  }

  ghost predicate Connected(step: (State, State) -> bool, s: State, r: State) {
    exists n: nat :: Path(step, s, n, r)
  }

  /** Some run of steps leads from s to r. */
  ghost predicate Leads(w: World, s: State, r: State) {
    Connected(Steps(w), s, r)
  }

  lemma PathAppends(step: (State, State) -> bool, a: State, m: nat, b: State, n: nat, c: State)
    requires Path(step, a, m, b) && Path(step, b, n, c)
    ensures Path(step, a, m + n, c)
    decreases m
  {
    if m != 0 {
      var q :| step(a, q) && Path(step, q, m - 1, b);
      PathAppends(step, q, m - 1, b, n, c);
      assert Path(step, q, m + n - 1, c);
    }
  }

  lemma PathKeeps(step: (State, State) -> bool, inv: State -> bool, s: State, n: nat, r: State)
    requires forall a, b :: inv(a) && step(a, b) ==> inv(b)
    requires inv(s) && Path(step, s, n, r)
    ensures inv(r)
    decreases n
  {
    if n != 0 {
      var q :| step(s, q) && Path(step, q, n - 1, r);
      PathKeeps(step, inv, q, n - 1, r);
    }
  }

  /** What every step keeps, every run keeps. */
  lemma LeadsKeeps(w: World, inv: State -> bool, s: State, r: State)
    requires forall a, b :: inv(a) && Steps(w)(a, b) ==> inv(b)
    requires inv(s) && Leads(w, s, r)
    ensures inv(r)
  {
    var n: nat :| Path(Steps(w), s, n, r);
    PathKeeps(Steps(w), inv, s, n, r);
  }

  lemma LeadsOn(w: World, a: State, b: State, c: State)
    requires Leads(w, a, b) && Leads(w, b, c)
    ensures Leads(w, a, c)
  {
    var m: nat :| Path(Steps(w), a, m, b);
    var n: nat :| Path(Steps(w), b, n, c);
    PathAppends(Steps(w), a, m, b, n, c);
  }

  lemma LeadsNowhere(w: World, s: State)
    ensures Leads(w, s, s)
  {
    assert Path(Steps(w), s, 0, s);
  }

  lemma LeadsOne(w: World, s: State, r: State)
    requires Step(w, s, r)
    ensures Leads(w, s, r)
  {
    assert Path(Steps(w), r, 0, r);
    assert Steps(w)(s, r);
    assert Path(Steps(w), s, 1, r);
  }

  // ---------------------------------------------------------------- what a snippet and an import do

  lemma AddsSplit(eval: seq<Addition>, a: Addition, v: string, x: string)
    ensures Adds(eval + [a], v, x) <==> Adds(eval, v, x) || (a.variable == v && x in a.values)
  {
    if a.variable == v && x in a.values { assert a in eval + [a]; }
    if Adds(eval, v, x) {
      var b :| b in eval && b.variable == v && x in b.values;
      assert b in eval + [a];
    }
  }

  /** Executing a snippet: every value of every statement is in its variable, with what was there, and
      nothing else. */
  lemma {:induction false} EvalExecutes(vars: map<string, seq<string>>, eval: seq<Addition>)
    ensures Executed(vars, Eval(vars, eval), eval)
  {
    if eval != [] {
      var prev, a := eval[..|eval| - 1], eval[|eval| - 1];
      assert eval == prev + [a];
      EvalExecutes(vars, prev);
      var before, after := Eval(vars, prev), Eval(vars, eval);
      forall v, x ensures x in Value(after, v) <==> x in Value(vars, v) || Adds(eval, v, x) {
        AddsSplit(prev, a, v, x);
        assert x in Value(after, v) <==> x in Value(before, v) || (v == a.variable && x in a.values);
      }
    }
  }

  /** What the listed variables of p hold. */
  lemma {:induction false} ImportVarsUnites(s: State, p: Project, variables: seq<string>)
    ensures var r := ImportVars(s, p, variables).state;
            forall v, x :: x in Value(r.vars, v) <==>
              x in Value(s.vars, v) || (v in variables && v in p.vars && x in p.vars[v])
  {
    if variables != [] {
      var prev, u := variables[..|variables| - 1], variables[|variables| - 1];
      assert variables == prev + [u];
      ImportVarsUnites(s, p, prev);
    }
  }

  /** The *= of a statement: no value comes twice, and, as more values only add at the end, the new ones
      stand behind the old ones in the order of their first mention. */
  lemma {:induction false} UniteInOrder(have: seq<string>, more: seq<string>)
    ensures NoDuplicates(have) ==> NoDuplicates(Unite(have, more))
    ensures forall rest :: Unite(have, more) <= Unite(have, more + rest)
  {
    if more != [] { UniteInOrder(have, more[..|more| - 1]); }
    forall rest ensures Unite(have, more) <= Unite(have, more + rest) { UniteGrows(have, more, rest); }
  }

  lemma UniteGrows(have: seq<string>, more: seq<string>, rest: seq<string>)
    ensures Unite(have, more) <= Unite(have, more + rest)
  {
    if rest == [] {
      assert more + rest == more;
    } else {
      assert (more + rest)[..|more + rest| - 1] == more + rest[..|rest| - 1];
      UniteGrows(have, more, rest[..|rest| - 1]);
    }
  }

  /** Statements are executed one after the other. */
  lemma {:induction false} EvalInOrder(vars: map<string, seq<string>>, first: seq<Addition>, second: seq<Addition>)
    ensures Eval(vars, first + second) == Eval(Eval(vars, first), second)
  {
    if second == [] {
      assert first + second == first;
    } else {
      assert (first + second)[..|first + second| - 1] == first + second[..|second| - 1];
      EvalInOrder(vars, first, second[..|second| - 1]);
    }
  }

  /** So are objects. */
  lemma {:induction false} ObjectsInOrder(s: State, db: Db, i: string, first: seq<Obj>, second: seq<Obj>, root: bool,
                                          persistedOnly: bool)
    ensures var a := RunObjects(s, db, i, first, root, persistedOnly);
            var b := RunObjects(a.state, db, i, second, root, persistedOnly);
            RunObjects(s, db, i, first + second, root, persistedOnly) == Result(b.state, a.count + b.count)
  {
    if second == [] {
      assert first + second == first;
    } else {
      assert (first + second)[..|first + second| - 1] == first + second[..|second| - 1];
      ObjectsInOrder(s, db, i, first, second[..|second| - 1], root, persistedOnly);
    }
  }

  // ---------------------------------------------------------------- where a module is found

  /** A project of the tree, other than the one being loaded, that is enabled and calls itself m. */
  ghost predicate Candidate(w: World, m: string, name: string) {
    && name != w.self
    && name in w.projects
    && w.projects[name].inRoot
    && !w.projects[name].disabled
    && w.projects[name].moduleName == Some(m)
  }

  lemma FindMatchFirst(w: World, m: string, candidates: seq<string>)
    ensures match FindMatch(w, m, candidates)
            case None => forall c :: c in candidates ==> !Candidate(w, m, c)
            case Some(name) => exists k :: 0 <= k < |candidates| && candidates[k] == name && Candidate(w, m, name) &&
                                 forall j :: 0 <= j < k ==> !Candidate(w, m, candidates[j])
  {
    if candidates != [] && !Candidate(w, m, candidates[0]) {
      FindMatchFirst(w, m, candidates[1..]);
      if FindMatch(w, m, candidates[1..]).Some? {
        var k :| 0 <= k < |candidates| - 1 && candidates[1..][k] == FindMatch(w, m, candidates[1..]).value &&
                 forall j :: 0 <= j < k ==> !Candidate(w, m, candidates[1..][j]);
        assert candidates[k + 1] == candidates[1..][k];
        forall j | 0 <= j < k + 1 ensures !Candidate(w, m, candidates[j]) {
          if j > 0 { assert candidates[j] == candidates[1..][j - 1]; }
        }
      }
    }
  }

  /** A module is the first listed project of the tree that is this module; without one, what its .dep
      file describes; without that, the .dep file of the SDK; and otherwise it is nowhere. */
  lemma ResolveOrder(w: World, m: string, candidates: seq<string>)
    requires candidates == if m in w.matches then w.matches[m] else []
    ensures (forall c :: c in candidates ==> !Candidate(w, m, c)) ==>
            Resolve(w, m) == if m in w.depFiles then Some(w.depFiles[m])
                             else if m in w.sdkFiles then Some(w.sdkFiles[m]) else None
    ensures forall k :: 0 <= k < |candidates| && Candidate(w, m, candidates[k]) &&
                        (forall j :: 0 <= j < k ==> !Candidate(w, m, candidates[j])) ==>
                          Resolve(w, m) == Some(w.projects[candidates[k]])
  {
    FindMatchFirst(w, m, candidates);
  }

  // ---------------------------------------------------------------- calls are runs of steps

  lemma ListsGrow(w: World, s: State, r: State, db: Db, entry: string)
    requires Lists(w, s, db, entry) && Grows(s, r)
    ensures Lists(w, r, db, entry)
  {
    if entry in Value(s.vars, ListName(db)) {
      assert s.vars[ListName(db)] <= r.vars[ListName(db)];
    } else {
      var d :| Visited(w, s, d) && entry in Value(w.projects[d].vars, ListName(db));
      assert Visited(w, r, d);
    }
  }

  ghost predicate AllListed(w: World, s: State, db: Db, entries: seq<string>) {
    forall e :: e in entries ==> Lists(w, s, db, e)
  }

  /** Some listed entry is about this name. */
  ghost predicate Named(w: World, s: State, db: Db, name: string) {
    exists e :: Lists(w, s, db, e) && NameOf(e) == name
  }

  ghost predicate AllNamed(w: World, s: State, db: Db, names: seq<string>) {
    forall n :: n in names ==> Named(w, s, db, n)
  }

  lemma NamedGrows(w: World, s: State, r: State, db: Db, name: string)
    requires Named(w, s, db, name) && Grows(s, r)
    ensures Named(w, r, db, name)
  {
    var e :| Lists(w, s, db, e) && NameOf(e) == name;
    ListsGrow(w, s, r, db, e);
  }

  lemma NamesNamed(w: World, s: State, db: Db, entries: seq<string>)
    requires AllListed(w, s, db, entries)
    ensures AllNamed(w, s, db, Names(entries))
  {
    if entries != [] {
      var prev, e := entries[..|entries| - 1], entries[|entries| - 1];
      assert entries == prev + [e];
      NamesNamed(w, s, db, prev);
      assert Lists(w, s, db, e) && NameOf(e) == NameOf(e);
    }
  }

  lemma WantsListed(w: World, s: State, db: Db, entries: seq<string>, x: Want)
    requires AllListed(w, s, db, entries) && x in Wants(db, entries)
    ensures exists e :: Asked(w, s, x, e)
  {
    var e := WantsSource(db, entries, x);
    assert Asked(w, s, x, e);
  }

  lemma DecodeLeads(w: World, s: State, db: Db, entries: seq<string>)
    requires AllListed(w, s, db, entries)
    ensures Leads(w, s, Decode(s, db, entries))
  {
    var r := Decode(s, db, entries);
    forall x | x in r.wanted && x !in s.wanted ensures exists e :: Asked(w, s, x, e) {
      WantsListed(w, s, db, entries, x);
    }
    assert Asks(w, s, r);
    LeadsOne(w, s, r);
  }

  lemma ExistsLeads(w: World, s: State, db: Db, i: string)
    requires OnlyExistsWanted(s, db, i)
    ensures Leads(w, s, ProcessExists(s, db, i).state)
  {
    var r := ProcessExists(s, db, i).state;
    if r == s { LeadsNowhere(w, s); } else {
      assert Notes(s, r);
      LeadsOne(w, s, r);
    }
  }

  lemma ImportLeads(w: World, s: State, db: Db, key: string, p: Project)
    requires var m := Mark(db, Index(key), AutoPersist); Usable(w, s, m, key) && ImportDue(s, db, Index(key))
    requires Owner(w, db, key) == Some(p)
    ensures Leads(w, s, ImportAutoPersist(s, db, Index(key), p).state)
  {
    var m := Mark(db, Index(key), AutoPersist);
    var t := s.(marks := s.marks + {m});
    var r := ImportAutoPersist(s, db, Index(key), p).state;
    ImportVarsProgress(w, t, p, p.autoPersist);
    ImportVarsUnites(t, p, p.autoPersist);
    assert United(s.vars, r.vars, p);
    assert Imports(w, s, r, m, key);
    LeadsOne(w, s, r);
  }

  lemma RunLeads(w: World, s: State, m: Mark, key: string, o: Obj)
    requires m !in s.marks && Usable(w, s, m, key) && Justifies(w, s.wanted, m, key, o) && Applies(w, s, m, key, o)
    ensures Leads(w, s, RunObject(s, m, o)) && Grows(s, RunObject(s, m, o))
  {
    var r := RunObject(s, m, o);
    EvalGrows(s.vars, o.eval);
    EvalExecutes(s.vars, o.eval);
    assert Runs(w, s, r, m, key, o);
    LeadsOne(w, s, r);
  }

  /** What `root` and `persistedOnly` stand for. */
  ghost predicate Flags(w: World, s: State, db: Db, key: string, root: bool, persistedOnly: bool) {
    db == Depends && key in w.projects ==>
      && (!w.projects[key].inRoot ==> persistedOnly)
      && (root ==> key in Names(Value(s.vars, "DEPENDS")))
  }

  lemma NamesGrow(a: seq<string>, b: seq<string>)
    requires a <= b
    ensures Names(a) <= Names(b)
    decreases |b|
  {
    if a != b {
      assert a <= b[..|b| - 1];
      NamesGrow(a, b[..|b| - 1]);
    }
  }

  /** The names asked for: each once, no others, and, as a longer list only adds at the end, in the
      order of their first mention. */
  lemma {:induction false} NamesMean(entries: seq<string>)
    ensures NoDuplicates(Names(entries))
    ensures forall x :: x in Names(entries) <==> exists e :: e in entries && NameOf(e) == x
    ensures forall more :: Names(entries) <= Names(entries + more)
  {
    if entries != [] {
      var prev, e := entries[..|entries| - 1], entries[|entries| - 1];
      assert entries == prev + [e];
      NamesMean(prev);
    }
    forall more ensures Names(entries) <= Names(entries + more) { NamesGrow(entries, entries + more); }
  }

  lemma ListGrows(s: State, r: State)
    requires Grows(s, r)
    ensures forall n :: n in Names(Value(s.vars, "DEPENDS")) ==> n in Names(Value(r.vars, "DEPENDS"))
  {
    if "DEPENDS" in s.vars { NamesGrow(s.vars["DEPENDS"], r.vars["DEPENDS"]); }
  }

  lemma RunObjectsLeads(w: World, s: State, db: Db, key: string, p: Project, objects: seq<Obj>, root: bool,
                        persistedOnly: bool)
    requires Owner(w, db, key) == Some(p) && objects <= p.objects && p in AllProjects(w) && Index(key) in Indexes(w)
    requires Usable(w, s, Mark(db, Index(key), Exists), key) && Flags(w, s, db, key, root, persistedOnly)
    ensures Leads(w, s, RunObjects(s, db, Index(key), objects, root, persistedOnly).state)
  {
    if objects == [] {
      LeadsNowhere(w, s);
    } else {
      var prev, o := objects[..|objects| - 1], objects[|objects| - 1];
      RunObjectsLeads(w, s, db, key, p, prev, root, persistedOnly);
      RunObjectsProgress(w, s, db, Index(key), p, prev, root, persistedOnly);
      var r := RunObjects(s, db, Index(key), prev, root, persistedOnly).state;
      if Due(r, db, Index(key), o, root, persistedOnly) {
        assert o == p.objects[|objects| - 1];
        var m := Mark(db, Index(key), Ran(o.absName));
        ListGrows(s, r);
        RunLeads(w, r, m, key, o);
        LeadsOn(w, s, r, RunObject(r, m, o));
      }
    }
  }

  lemma ImportModuleLeads(w: World, s: State, m: string, p: Project)
    requires Resolve(w, m) == Some(p)
    ensures Leads(w, s, ImportModule(s, m, p).state)
  {
    ResolveKnown(w, m);
    var i := Index(m);
    if p.objects == [] {
      LeadsNowhere(w, s);
    } else if OnlyExistsWanted(s, Modules, i) {
      ExistsLeads(w, s, Modules, i);
    } else {
      if ImportDue(s, Modules, i) { ImportLeads(w, s, Modules, m, p); } else { LeadsNowhere(w, s); }
      var a := if ImportDue(s, Modules, i) then ImportAutoPersist(s, Modules, i, p) else Result(s, 0);
      RunObjectsLeads(w, a.state, Modules, m, p, p.objects, true, false);
      LeadsOn(w, s, a.state, ImportModule(s, m, p).state);
    }
  }

  lemma DisableLeads(w: World, s: State, db: Db, name: string)
    requires Named(w, s, db, name)
    requires match db
             case Modules => Resolve(w, name).None?
             case Depends => name in w.projects && w.projects[name].inRoot && w.projects[name].disabled
    ensures Leads(w, s, s.(disabled := true))
  {
    var e :| Lists(w, s, db, e) && NameOf(e) == name;
    assert Blocks(w, s, db, e);
    LeadsOne(w, s, s.(disabled := true));
  }

  lemma LoadNamesLeads(w: World, s: State, names: seq<string>)
    requires AllNamed(w, s, Modules, names)
    ensures Leads(w, s, LoadNames(w, s, names).state)
  {
    if names == [] {
      LeadsNowhere(w, s);
    } else {
      var prev, m := names[..|names| - 1], names[|names| - 1];
      assert names == prev + [m];
      LoadNamesLeads(w, s, prev);
      LoadNamesProgress(w, s, prev);
      var k := LoadNames(w, s, prev);
      if !k.missing {
        NamedGrows(w, s, k.state, Modules, m);
        if Resolve(w, m).None? { DisableLeads(w, k.state, Modules, m); }
        else { ImportModuleLeads(w, k.state, m, Resolve(w, m).value); }
        LeadsOn(w, s, k.state, LoadNames(w, s, names).state);
      }
    }
  }

  lemma LoadModulesLeads(w: World, s: State, entries: seq<string>)
    requires AllListed(w, s, Modules, entries)
    ensures Leads(w, s, LoadModules(w, s, entries).state)
  {
    if IsEmpty(entries) {
      LeadsNowhere(w, s);
    } else {
      var d := Decode(s, Modules, entries);
      DecodeLeads(w, s, Modules, entries);
      NamesNamed(w, s, Modules, entries);
      forall n | n in Names(entries) ensures Named(w, d, Modules, n) { NamedGrows(w, s, d, Modules, n); }
      LoadNamesLeads(w, d, Names(entries));
      LeadsOn(w, s, d, LoadModules(w, s, entries).state);
    }
  }

  lemma NestedLeads(w: World, s: State, d: string)
    requires Visited(w, s, d) && "MODULES" in w.projects[d].vars
    ensures Leads(w, s, Nested(w, s, w.projects[d]))
    decreases |Unvisited(w, s)|, 5, 0
  {
    var p := w.projects[d];
    assert AllListed(w, s, Modules, p.vars["MODULES"]) by {
      assert Value(p.vars, ListName(Modules)) == p.vars["MODULES"];
    }
    LoadModulesLeads(w, s, p.vars["MODULES"]);
    LoadModulesProgress(w, s, p.vars["MODULES"]);
    var m := LoadModules(w, s, p.vars["MODULES"]).state;
    UnvisitedShrinks(w, s, m);
    assert Visited(w, m, d);
    ResolveDependsLeads(w, m, Value(p.vars, "DEPENDS"), false);
    LeadsOn(w, s, m, Nested(w, s, p));
  }

  lemma ImportDependLeads(w: World, s: State, d: string, root: bool, persistedOnly: bool)
    requires d in w.projects && Usable(w, s, Mark(Depends, Index(d), AutoPersist), d)
    requires Flags(w, s, Depends, d, root, persistedOnly)
    ensures Leads(w, s, ImportDepend(w, s, d, root, persistedOnly).state)
    decreases |Unvisited(w, s)|, 1, 0
  {
    ProjectIndex(w, d);
    var i, p := Index(d), w.projects[d];
    if OnlyExistsWanted(s, Depends, i) {
      ExistsLeads(w, s, Depends, i);
    } else if ImportDue(s, Depends, i) {
      Visit(w, s, d);
      ImportAutoPersistProgress(w, s, Depends, i, p);
      ImportLeads(w, s, Depends, d, p);
      var a := ImportAutoPersist(s, Depends, i, p).state;
      if "MODULES" in p.vars { NestedLeads(w, a, d); } else { LeadsNowhere(w, a); }
      var n := if "MODULES" in p.vars then Nested(w, a, p) else a;
      LeadsOn(w, s, a, n);
      GrowsTrans(s, a, n);
      FinishLeads(w, s, n, d, root, persistedOnly);
    } else {
      RunObjectsLeads(w, s, Depends, d, p, p.objects, root, persistedOnly);
    }
  }

  lemma FinishLeads(w: World, s: State, n: State, d: string, root: bool, persistedOnly: bool)
    requires d in w.projects && Usable(w, s, Mark(Depends, Index(d), AutoPersist), d)
    requires Flags(w, s, Depends, d, root, persistedOnly) && Grows(s, n) && Leads(w, s, n)
    ensures Leads(w, s, RunObjects(n, Depends, Index(d), w.projects[d].objects, root, persistedOnly).state)
  {
    ProjectIndex(w, d);
    ListGrows(s, n);
    RunObjectsLeads(w, n, Depends, d, w.projects[d], w.projects[d].objects, root, persistedOnly);
    LeadsOn(w, s, n, RunObjects(n, Depends, Index(d), w.projects[d].objects, root, persistedOnly).state);
  }

  lemma ProcessDependencyLeads(w: World, s: State, d: string, root: bool)
    requires Named(w, s, Depends, d) && (root ==> d in Names(Value(s.vars, "DEPENDS")))
    ensures Leads(w, s, ProcessDependency(w, s, d, root).state)
    decreases |Unvisited(w, s)|, 2, 0
  {
    LeadsNowhere(w, s);
    if d in w.projects {
      var p := w.projects[d];
      if p.inRoot && p.disabled {
        DisableLeads(w, s, Depends, d);
      } else if p.inRoot || Want(Depends, Index(d), "persisted") in s.wanted {
        ImportDependLeads(w, s, d, root, !p.inRoot);
      }
    }
  }

  lemma ResolveNamesLeads(w: World, s: State, names: seq<string>, root: bool)
    requires AllNamed(w, s, Depends, names)
    requires root ==> forall d :: d in names ==> d in Names(Value(s.vars, "DEPENDS"))
    ensures Leads(w, s, ResolveNames(w, s, names, root).state)
    decreases |Unvisited(w, s)|, 3, |names|
  {
    if names == [] {
      LeadsNowhere(w, s);
    } else {
      var prev, d := names[..|names| - 1], names[|names| - 1];
      assert names == prev + [d];
      ResolveNamesLeads(w, s, prev, root);
      var k := ResolveNames(w, s, prev, root).state;
      UnvisitedShrinks(w, s, k);
      NamedGrows(w, s, k, Depends, d);
      ListGrows(s, k);
      ProcessDependencyLeads(w, k, d, root);
      LeadsOn(w, s, k, ResolveNames(w, s, names, root).state);
    }
  }

  lemma ResolveDependsLeads(w: World, s: State, entries: seq<string>, root: bool)
    requires AllListed(w, s, Depends, entries) && (root ==> entries == Value(s.vars, "DEPENDS"))
    ensures Leads(w, s, ResolveDepends(w, s, entries, root).state)
    decreases |Unvisited(w, s)|, 4, 0
  {
    if IsEmpty(entries) {
      LeadsNowhere(w, s);
    } else {
      var d := Decode(s, Depends, entries);
      DecodeLeads(w, s, Depends, entries);
      NamesNamed(w, s, Depends, entries);
      UnvisitedShrinks(w, s, d);
      forall n | n in Names(entries) ensures Named(w, d, Depends, n) { NamedGrows(w, s, d, Depends, n); }
      ResolveNamesLeads(w, d, Names(entries), root);
      LeadsOn(w, s, d, ResolveDepends(w, s, entries, root).state);
    }
  }

  lemma PassLeads(w: World, s: State)
    ensures Leads(w, s, Pass(w, s).state)
  {
    var m := LoadModules(w, s, Value(s.vars, "MODULES")).state;
    LoadModulesLeads(w, s, Value(s.vars, "MODULES"));
    ResolveDependsLeads(w, m, Value(m.vars, "DEPENDS"), true);
    LeadsOn(w, s, m, Pass(w, s).state);
  }

  /** Every call of the loader is a run of such steps, on every graph. */
  lemma {:induction false} LoadLeads(w: World, s: State)
    ensures Leads(w, s, Load(w, s).state)
    decreases Pending(w, s)
  {
    PassConsumes(w, s);
    PassLeads(w, s);
    if Pass(w, s).count > 0 {
      LoadLeads(w, Pass(w, s).state);
      LeadsOn(w, s, Pass(w, s).state, Load(w, s).state);
    }
  }
}
