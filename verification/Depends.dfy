/** The dependency loader of the qbuild system, as a transformer of values.

    A project pulls in other projects through two lists of requests, MODULES and DEPENDS.
    Loading a dependency may run snippets that add more requests, and may walk into the
    dependencies of the dependency, so the loader is a fixpoint loop around a recursive walk
    over a project graph that may contain cycles.

    This module defines what every function of the loader computes.  The loader itself, which
    updates the project in place, is in DependsLoader; what the loader guarantees is in
    DependsInvariants and DependsClosure. */
module Depends {
  import opened Options

  /** One statement of a snippet: `variable *= values`. */
  datatype Addition = Addition(variable: string, values: seq<string>)

  /** An exported object of type DEPENDS. */
  datatype Obj = Obj(name: string, absName: string, immediate: bool, persisted: bool, eval: seq<Addition>)

  datatype Project = Project(inRoot: bool, disabled: bool, moduleName: Option<string>,
                             autoPersist: seq<string>, vars: map<string, seq<string>>, objects: seq<Obj>)

  /** Everything outside the project that is being loaded.  `self` is its own name. */
  datatype World = World(self: string, projects: map<string, Project>, matches: map<string, seq<string>>,
                         depFiles: map<string, Project>, sdkFiles: map<string, Project>)

  /** The two rule databases, DEPENDS.MODULES and DEPENDS.DEPENDS. */
  datatype Db = Modules | Depends

  /** An entry of a PROCESSED list.  Object names are absolute paths, so they never collide with
      the two words the loader itself writes there. */
  datatype Rule = Exists | AutoPersist | Ran(absName: string)

  datatype Want = Want(db: Db, index: string, rule: string)
  datatype Mark = Mark(db: Db, index: string, rule: Rule)

  /** The project that is being loaded: its variables, the WANTED and PROCESSED lists of both
      databases, the snippets that were run, and whether it was disabled. */
  datatype State = State(vars: map<string, seq<string>>, wanted: set<Want>, marks: set<Mark>,
                         ran: seq<Mark>, disabled: bool)

  /** State after a call and the number the call returns. */
  datatype Result = Result(state: State, count: nat)

  /** State inside the module loop; `missing` says that the loop was left early. */
  datatype Walk = Walk(state: State, count: nat, missing: bool)

  // ---------------------------------------------------------------- values

  function Value(vars: map<string, seq<string>>, variable: string): seq<string> {
    if variable in vars then vars[variable] else []
  }

  predicate IsEmpty(value: seq<string>) {
    value == [] || value == [""]
  }

  function Unite(have: seq<string>, more: seq<string>): (r: seq<string>)
    ensures have <= r
    ensures forall x :: x in r <==> x in have || x in more
  {
    if more == [] then have
    else
      var u := Unite(have, more[..|more| - 1]);
      var x := more[|more| - 1];
      assert more == more[..|more| - 1] + [x];
      if x in u then u else u + [x]
  }

  function UniteVar(vars: map<string, seq<string>>, variable: string, values: seq<string>): map<string, seq<string>> {
    vars[variable := Unite(Value(vars, variable), values)]
  }

  // ---------------------------------------------------------------- requests

  /** Length of the run of characters other than ':' that starts at position k. */
  function RunLength(entry: string, k: nat): (n: nat)
    requires k <= |entry|
    ensures k + n <= |entry|
    ensures forall j :: k <= j < k + n ==> entry[j] != ':'
    ensures k + n < |entry| ==> entry[k + n] == ':'
    decreases |entry| - k
  {
    if k == |entry| || entry[k] == ':' then 0 else 1 + RunLength(entry, k + 1)
  }

  function SkipColons(entry: string, k: nat): (n: nat)
    requires k <= |entry|
    ensures k <= n <= |entry|
    decreases |entry| - k
  {
    if k < |entry| && entry[k] == ':' then SkipColons(entry, k + 1) else k
  }

  /** The first run without colons; "null" is what the script gets when there is none. */
  function NameOf(entry: string): string {
    var k := SkipColons(entry, 0);
    if k == |entry| then "null" else entry[k..k + RunLength(entry, k)]
  }

  predicate HasRule(entry: string) {
    exists k :: 0 <= k < |entry| - 1 && entry[k] == ':' && entry[k + 1] == ':'
  }

  function RuleOf(entry: string): string {
    var n := RunLength(entry, 0);
    if 0 < n && n + 2 <= |entry| && entry[n + 1] == ':' then entry[n + 2..] else entry
  }

  /** The property name under which a dependency's rules are kept. */
  function Index(name: string): (r: string)
    ensures |r| == |name|
    ensures forall k :: 0 <= k < |name| ==> r[k] == (if name[k] == '/' || name[k] == '.' then '_' else name[k])
  {
    if name == "" then ""
    else
      var c := name[|name| - 1];
      Index(name[..|name| - 1]) + [if c == '/' || c == '.' then '_' else c]
  }

  function WantsOf(db: Db, entry: string): set<Want> {
    var i := Index(NameOf(entry));
    if HasRule(entry) then
      {Want(db, i, RuleOf(entry))} + (if RuleOf(entry) == "persisted" then {Want(db, i, "all")} else {})
    else
      {Want(db, i, "all")}
  }

  /** The names asked for, each once, in the order of their first mention. */
  function Names(entries: seq<string>): (r: seq<string>)
    ensures forall e :: e in entries ==> NameOf(e) in r
  {
    if entries == [] then []
    else
      var n := Names(entries[..|entries| - 1]);
      var x := NameOf(entries[|entries| - 1]);
      assert entries == entries[..|entries| - 1] + [entries[|entries| - 1]];
      if x in n then n else n + [x]
  }

  function Wants(db: Db, entries: seq<string>): (r: set<Want>)
    ensures forall e :: e in entries ==> WantsOf(db, e) <= r
  {
    if entries == [] then {}
    else
      assert entries == entries[..|entries| - 1] + [entries[|entries| - 1]];
      Wants(db, entries[..|entries| - 1]) + WantsOf(db, entries[|entries| - 1])
  }

  function Decode(s: State, db: Db, entries: seq<string>): State {
    s.(wanted := s.wanted + Wants(db, entries))
  }

  // ---------------------------------------------------------------- one dependency

  predicate Wanted(s: State, db: Db, i: string, rule: string) {
    Want(db, i, "all") in s.wanted || Want(db, i, rule) in s.wanted
  }

  predicate OnlyExistsWanted(s: State, db: Db, i: string) {
    && Want(db, i, "exists") in s.wanted
    && forall x :: x in s.wanted && x.db == db && x.index == i ==> x.rule == "exists"
  }

  function Eval(vars: map<string, seq<string>>, eval: seq<Addition>): map<string, seq<string>> {
    if eval == [] then vars
    else
      var a := eval[|eval| - 1];
      UniteVar(Eval(vars, eval[..|eval| - 1]), a.variable, a.values)
  }

  /** Running a snippet.  Once the project is waiting to be reset, statements are skipped. */
  function RunObject(s: State, m: Mark, o: Obj): State {
    s.(marks := s.marks + {m}, ran := s.ran + [m],
       vars := if s.disabled then s.vars else Eval(s.vars, o.eval))
  }

  /** Objects of a dependency of a dependency do not apply when they are IMMEDIATE; of a project
      outside the root only the PERSISTED objects apply. */
  predicate Applicable(o: Obj, root: bool, persistedOnly: bool) {
    (root || !o.immediate) && (persistedOnly ==> o.persisted)
  }

  predicate Due(s: State, db: Db, i: string, o: Obj, root: bool, persistedOnly: bool) {
    Applicable(o, root, persistedOnly) && Wanted(s, db, i, o.name) && Mark(db, i, Ran(o.absName)) !in s.marks
  }

  function RunObjects(s: State, db: Db, i: string, objects: seq<Obj>, root: bool, persistedOnly: bool): Result {
    if objects == [] then Result(s, 0)
    else
      var r := RunObjects(s, db, i, objects[..|objects| - 1], root, persistedOnly);
      var o := objects[|objects| - 1];
      if Due(r.state, db, i, o, root, persistedOnly)
      then Result(RunObject(r.state, Mark(db, i, Ran(o.absName)), o), r.count + 1)
      else r
  }

  predicate Persists(p: Project, variable: string) {
    variable in p.vars && p.vars[variable] != []
  }

  function ImportVars(s: State, p: Project, variables: seq<string>): Result {
    if variables == [] then Result(s, 0)
    else
      var r := ImportVars(s, p, variables[..|variables| - 1]);
      var v := variables[|variables| - 1];
      if Persists(p, v) then Result(r.state.(vars := UniteVar(r.state.vars, v, p.vars[v])), r.count + 1) else r
  }

  predicate ImportDue(s: State, db: Db, i: string) {
    Wanted(s, db, i, "auto_persist") && Mark(db, i, AutoPersist) !in s.marks
  }

  function ImportAutoPersist(s: State, db: Db, i: string, p: Project): Result {
    ImportVars(s.(marks := s.marks + {Mark(db, i, AutoPersist)}), p, p.autoPersist)
  }

  function ProcessExists(s: State, db: Db, i: string): Result {
    var m := Mark(db, i, Exists);
    if m in s.marks then Result(s, 0) else Result(s.(marks := s.marks + {m}), 1)
  }

  // ---------------------------------------------------------------- modules

  /** The first candidate that is inside the root, enabled, and calls itself `m`. */
  function FindMatch(w: World, m: string, candidates: seq<string>): (r: Option<string>)
    ensures r.Some? ==> r.value in candidates && r.value in w.projects
  {
    if candidates == [] then None
    else if candidates[0] != w.self && IsModule(w, m, candidates[0]) then Some(candidates[0])
    else FindMatch(w, m, candidates[1..])
  }

  predicate IsModule(w: World, m: string, name: string) {
    && name in w.projects
    && w.projects[name].inRoot
    && w.projects[name].moduleName == Some(m)
    && !w.projects[name].disabled
  }

  /** Where a module is loaded from: a project of the tree, a .dep file, or one in the SDK. */
  function Resolve(w: World, m: string): Option<Project> {
    var found := if m in w.matches then FindMatch(w, m, w.matches[m]) else None;
    if found.Some? then Some(w.projects[found.value])
    else if m in w.depFiles then Some(w.depFiles[m])
    else if m in w.sdkFiles then Some(w.sdkFiles[m])
    else None
  }

  function ImportModule(s: State, m: string, p: Project): Result {
    var i := Index(m);
    if p.objects == [] then Result(s, 0)
    else if OnlyExistsWanted(s, Modules, i) then ProcessExists(s, Modules, i)
    else
      var a := if ImportDue(s, Modules, i) then ImportAutoPersist(s, Modules, i, p) else Result(s, 0);
      var r := RunObjects(a.state, Modules, i, p.objects, true, false);
      Result(r.state, a.count + r.count)
  }

  function LoadNames(w: World, s: State, names: seq<string>): Walk {
    if names == [] then Walk(s, 0, false)
    else
      var k := LoadNames(w, s, names[..|names| - 1]);
      var m := names[|names| - 1];
      if k.missing then k
      else match Resolve(w, m)
        case None => Walk(k.state.(disabled := true), k.count, true)
        case Some(p) =>
          var r := ImportModule(k.state, m, p);
          Walk(r.state, k.count + (if r.count > 0 then 1 else 0), false)
  }

  function LoadModules(w: World, s: State, entries: seq<string>): Result {
    if IsEmpty(entries) then Result(s, 0)
    else
      var k := LoadNames(w, Decode(s, Modules, entries), Names(entries));
      Result(k.state, if k.missing then 0 else k.count)
  }

  // ---------------------------------------------------------------- what every step keeps

  /** Nothing is ever taken back. */
  ghost predicate Grows(s: State, r: State) {
    && s.wanted <= r.wanted
    && s.marks <= r.marks
    && s.ran <= r.ran
    && (s.disabled ==> r.disabled)
    && (forall v :: v in s.vars ==> v in r.vars && s.vars[v] <= r.vars[v])
  }

  ghost function AllProjects(w: World): set<Project> {
    w.projects.Values + w.depFiles.Values + w.sdkFiles.Values
  }

  ghost function Indexes(w: World): set<string> {
    set n | n in w.projects.Keys + w.matches.Keys + w.depFiles.Keys + w.sdkFiles.Keys :: Index(n)
  }

  ghost function Rules(w: World): set<Rule> {
    {Exists, AutoPersist} + set p, o | p in AllProjects(w) && o in p.objects :: Ran(o.absName)
  }

  /** Every entry that can ever be put in a PROCESSED list. */
  ghost function Universe(w: World): set<Mark> {
    (set i, r | i in Indexes(w) && r in Rules(w) :: Mark(Modules, i, r)) +
    (set i, r | i in Indexes(w) && r in Rules(w) :: Mark(Depends, i, r))
  }

  /** The effect of a call that returned `count`: it only adds, it adds only entries of the
      universe, and a positive count means that a PROCESSED list became longer. */
  ghost predicate Progress(w: World, s: State, r: State, count: nat) {
    && Grows(s, r)
    && r.marks <= s.marks + Universe(w)
    && (count > 0 ==> s.marks != r.marks)
  }

  lemma ProgressTrans(w: World, a: State, b: State, c: State, m: nat, n: nat, k: nat)
    requires Progress(w, a, b, m) && Progress(w, b, c, n)
    requires k > 0 ==> m > 0 || n > 0
    ensures Progress(w, a, c, k)
  {
    forall v | v in a.vars ensures v in c.vars && a.vars[v] <= c.vars[v] {
      assert v in b.vars;
    }
  }

  lemma EvalGrows(vars: map<string, seq<string>>, eval: seq<Addition>)
    ensures forall v :: v in vars ==> v in Eval(vars, eval) && vars[v] <= Eval(vars, eval)[v]
  {
    if eval != [] { EvalGrows(vars, eval[..|eval| - 1]); }
  }

  lemma RunObjectsProgress(w: World, s: State, db: Db, i: string, p: Project, objects: seq<Obj>, root: bool,
                           persistedOnly: bool)
    requires i in Indexes(w) && p in AllProjects(w) && objects <= p.objects
    ensures var r := RunObjects(s, db, i, objects, root, persistedOnly);
            Progress(w, s, r.state, r.count) && r.state.wanted == s.wanted && r.state.disabled == s.disabled
  {
    if objects != [] {
      var prev := objects[..|objects| - 1];
      RunObjectsProgress(w, s, db, i, p, prev, root, persistedOnly);
      var r := RunObjects(s, db, i, prev, root, persistedOnly);
      var o := objects[|objects| - 1];
      if Due(r.state, db, i, o, root, persistedOnly) {
        EvalGrows(r.state.vars, o.eval);
        assert o == p.objects[|objects| - 1];
        assert Ran(o.absName) in Rules(w);
        var q := RunObject(r.state, Mark(db, i, Ran(o.absName)), o);
        assert Progress(w, r.state, q, 1);
        ProgressTrans(w, s, r.state, q, r.count, 1, r.count + 1);
      }
    }
  }

  lemma ImportVarsProgress(w: World, s: State, p: Project, variables: seq<string>)
    ensures var r := ImportVars(s, p, variables);
            Grows(s, r.state) && r.state == s.(vars := r.state.vars)
  {
    if variables != [] { ImportVarsProgress(w, s, p, variables[..|variables| - 1]); }
  }

  lemma ImportAutoPersistProgress(w: World, s: State, db: Db, i: string, p: Project)
    requires i in Indexes(w) && ImportDue(s, db, i)
    ensures var r := ImportAutoPersist(s, db, i, p);
            && Progress(w, s, r.state, r.count)
            && r.state == s.(vars := r.state.vars, marks := s.marks + {Mark(db, i, AutoPersist)})
  {
    ImportVarsProgress(w, s.(marks := s.marks + {Mark(db, i, AutoPersist)}), p, p.autoPersist);
  }

  lemma ResolveKnown(w: World, m: string)
    requires Resolve(w, m).Some?
    ensures Index(m) in Indexes(w) && Resolve(w, m).value in AllProjects(w)
  {
    assert m in w.projects.Keys + w.matches.Keys + w.depFiles.Keys + w.sdkFiles.Keys;
  }

  lemma ImportModuleProgress(w: World, s: State, m: string, p: Project)
    requires Resolve(w, m) == Some(p)
    ensures var r := ImportModule(s, m, p); Progress(w, s, r.state, r.count)
  {
    ResolveKnown(w, m);
    var i := Index(m);
    if p.objects != [] && !OnlyExistsWanted(s, Modules, i) {
      var a := if ImportDue(s, Modules, i) then ImportAutoPersist(s, Modules, i, p) else Result(s, 0);
      if ImportDue(s, Modules, i) { ImportAutoPersistProgress(w, s, Modules, i, p); }
      RunObjectsProgress(w, a.state, Modules, i, p, p.objects, true, false);
      var r := RunObjects(a.state, Modules, i, p.objects, true, false);
      ProgressTrans(w, s, a.state, r.state, a.count, r.count, a.count + r.count);
    }
  }

  lemma LoadNamesProgress(w: World, s: State, names: seq<string>)
    ensures var k := LoadNames(w, s, names);
            && Progress(w, s, k.state, k.count)
            && (k.missing ==> k.state.disabled)
  {
    if names != [] {
      var prev := names[..|names| - 1];
      LoadNamesProgress(w, s, prev);
      var k := LoadNames(w, s, prev);
      var m := names[|names| - 1];
      if !k.missing && Resolve(w, m).Some? {
        var p := Resolve(w, m).value;
        ImportModuleProgress(w, k.state, m, p);
        var r := ImportModule(k.state, m, p);
        ProgressTrans(w, s, k.state, r.state, k.count, r.count, LoadNames(w, s, names).count);
      }
    }
  }

  lemma LoadModulesProgress(w: World, s: State, entries: seq<string>)
    ensures var r := LoadModules(w, s, entries); Progress(w, s, r.state, r.count)
  {
    if !IsEmpty(entries) {
      var d := Decode(s, Modules, entries);
      LoadNamesProgress(w, d, Names(entries));
      var k := LoadNames(w, d, Names(entries));
      assert Progress(w, s, d, 0);
      ProgressTrans(w, s, d, k.state, 0, k.count, k.count);
    }
  }

  // ---------------------------------------------------------------- the walk along DEPENDS

  /** Projects whose variables have not been imported yet.  The walk only recurses after it has
      taken a project out of this set, which is why it ends on cyclic graphs. */
  ghost function Unvisited(w: World, s: State): set<string> {
    set d | d in w.projects && Mark(Depends, Index(d), AutoPersist) !in s.marks
  }

  lemma UnvisitedShrinks(w: World, s: State, r: State)
    requires s.marks <= r.marks
    ensures Unvisited(w, r) <= Unvisited(w, s) && |Unvisited(w, r)| <= |Unvisited(w, s)|
  {
    SubsetSize(Unvisited(w, r), Unvisited(w, s));
  }

  lemma SubsetSize<T>(a: set<T>, b: set<T>)
    requires a <= b
    ensures |a| <= |b|
    ensures a != b ==> |a| < |b|
  {
    assert b == a + (b - a);
    if |b - a| == 0 { assert b - a == {}; }
  }

  lemma Visit(w: World, s: State, d: string)
    requires d in w.projects && ImportDue(s, Depends, Index(d))
    ensures var a := ImportAutoPersist(s, Depends, Index(d), w.projects[d]).state;
            |Unvisited(w, a)| < |Unvisited(w, s)|
  {
    var i := Index(d);
    assert i in Indexes(w) by { assert d in w.projects.Keys + w.matches.Keys + w.depFiles.Keys + w.sdkFiles.Keys; }
    ImportAutoPersistProgress(w, s, Depends, i, w.projects[d]);
    var a := ImportAutoPersist(s, Depends, i, w.projects[d]).state;
    assert d in Unvisited(w, s) && d !in Unvisited(w, a);
    SubsetSize(Unvisited(w, a), Unvisited(w, s));
  }

  lemma ProjectIndex(w: World, d: string)
    requires d in w.projects
    ensures Index(d) in Indexes(w) && w.projects[d] in AllProjects(w)
  {
    assert d in w.projects.Keys + w.matches.Keys + w.depFiles.Keys + w.sdkFiles.Keys;
  }

  /** Loading what project `p` itself asks for; what the two calls return is not looked at. */
  function Nested(w: World, s: State, p: Project): (r: State)
    requires "MODULES" in p.vars
    ensures Progress(w, s, r, 0)
    decreases |Unvisited(w, s)|, 5, 0
  {
    LoadModulesProgress(w, s, p.vars["MODULES"]);
    var m := LoadModules(w, s, p.vars["MODULES"]).state;
    UnvisitedShrinks(w, s, m);
    var r := ResolveDepends(w, m, Value(p.vars, "DEPENDS"), false).state;
    ProgressTrans(w, s, m, r, 0, 0, 0);
    r
  }

  function ImportDepend(w: World, s: State, d: string, root: bool, persistedOnly: bool): (res: Result)
    requires d in w.projects
    ensures Progress(w, s, res.state, res.count)
    decreases |Unvisited(w, s)|, 1, 0
  {
    ProjectIndex(w, d);
    var i := Index(d);
    var p := w.projects[d];
    if OnlyExistsWanted(s, Depends, i) then ProcessExists(s, Depends, i)
    else if ImportDue(s, Depends, i) then
      ImportAutoPersistProgress(w, s, Depends, i, p);
      Visit(w, s, d);
      var a := ImportAutoPersist(s, Depends, i, p);
      var n := if "MODULES" in p.vars then Nested(w, a.state, p) else a.state;
      ProgressTrans(w, s, a.state, n, a.count, 0, a.count);
      RunObjectsProgress(w, n, Depends, i, p, p.objects, root, persistedOnly);
      var r := RunObjects(n, Depends, i, p.objects, root, persistedOnly);
      ProgressTrans(w, s, n, r.state, a.count, r.count, a.count + r.count);
      Result(r.state, a.count + r.count)
    else
      RunObjectsProgress(w, s, Depends, i, p, p.objects, root, persistedOnly);
      RunObjects(s, Depends, i, p.objects, root, persistedOnly)
  }

  /** A name of DEPENDS: missing projects are only warned about, a disabled one disables this
      project, and one outside the root is loaded only on explicit request. */
  function ProcessDependency(w: World, s: State, d: string, root: bool): (res: Result)
    ensures Progress(w, s, res.state, res.count)
    decreases |Unvisited(w, s)|, 2, 0
  {
    if d !in w.projects then Result(s, 0)
    else if w.projects[d].inRoot then
      if w.projects[d].disabled then Result(s.(disabled := true), 0)
      else ImportDepend(w, s, d, root, false)
    else if Want(Depends, Index(d), "persisted") in s.wanted then ImportDepend(w, s, d, root, true)
    else Result(s, 0)
  }

  function ResolveNames(w: World, s: State, names: seq<string>, root: bool): (res: Result)
    ensures Progress(w, s, res.state, res.count)
    decreases |Unvisited(w, s)|, 3, |names|
  {
    if names == [] then Result(s, 0)
    else
      var k := ResolveNames(w, s, names[..|names| - 1], root);
      UnvisitedShrinks(w, s, k.state);
      var r := ProcessDependency(w, k.state, names[|names| - 1], root);
      var n := k.count + (if r.count > 0 then 1 else 0);
      ProgressTrans(w, s, k.state, r.state, k.count, r.count, n);
      Result(r.state, n)
  }

  function ResolveDepends(w: World, s: State, entries: seq<string>, root: bool): (res: Result)
    ensures Progress(w, s, res.state, res.count)
    decreases |Unvisited(w, s)|, 4, 0
  {
    if IsEmpty(entries) then Result(s, 0)
    else
      var d := Decode(s, Depends, entries);
      UnvisitedShrinks(w, s, d);
      var r := ResolveNames(w, d, Names(entries), root);
      ProgressTrans(w, s, d, r.state, 0, r.count, r.count);
      r
  }

  // ---------------------------------------------------------------- the loader

  /** One round of the loop. */
  function Pass(w: World, s: State): (res: Result)
    ensures Progress(w, s, res.state, res.count)
  {
    LoadModulesProgress(w, s, Value(s.vars, "MODULES"));
    var m := LoadModules(w, s, Value(s.vars, "MODULES"));
    var r := ResolveDepends(w, m.state, Value(m.state.vars, "DEPENDS"), true);
    ProgressTrans(w, s, m.state, r.state, m.count, r.count, m.count + r.count);
    Result(r.state, m.count + r.count)
  }

  ghost function Pending(w: World, s: State): nat {
    |Universe(w) - s.marks|
  }

  /** Each counted round takes at least one entry out of what is still pending. */
  lemma PassConsumes(w: World, s: State)
    ensures var r := Pass(w, s);
            Pending(w, r.state) <= Pending(w, s) && (r.count > 0 ==> Pending(w, r.state) < Pending(w, s))
  {
    var r := Pass(w, s);
    assert Universe(w) - r.state.marks <= Universe(w) - s.marks;
    if r.count > 0 {
      var x :| x in r.state.marks && x !in s.marks;
      assert x in Universe(w);
    }
    SubsetSize(Universe(w) - r.state.marks, Universe(w) - s.marks);
  }

  function Load(w: World, s: State): (res: Result)
    ensures Grows(s, res.state)
    decreases Pending(w, s)
  {
    PassConsumes(w, s);
    var r := Pass(w, s);
    if r.count == 0 then r
    else
      var rest := Load(w, r.state);
      ProgressTrans(w, s, r.state, r.state, r.count, 0, 0);
      GrowsTrans(s, r.state, rest.state);
      Result(rest.state, r.count + rest.count)
  }

  lemma GrowsTrans(a: State, b: State, c: State)
    requires Grows(a, b) && Grows(b, c)
    ensures Grows(a, c)
  {
    forall v | v in a.vars ensures v in c.vars && a.vars[v] <= c.vars[v] {
      assert v in b.vars;
    }
  }

  /** Number of rounds until the loop stops. */
  ghost function Rounds(w: World, s: State): nat
    decreases Pending(w, s)
  {
    PassConsumes(w, s);
    if Pass(w, s).count == 0 then 1 else 1 + Rounds(w, Pass(w, s).state)
  }

  lemma {:induction false} RoundsBounded(w: World, s: State)
    ensures Rounds(w, s) <= Pending(w, s) + 1
    decreases Pending(w, s)
  {
    PassConsumes(w, s);
    if Pass(w, s).count > 0 { RoundsBounded(w, Pass(w, s).state); }
  }
}
