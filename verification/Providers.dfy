/** The registry of function providers: a list ordered by priority, and a cache of the extension
    files that were looked up. */
module Providers {
  import opened Options

  /** `id` counts registrations; `functions` are the functions that the provider can call, and
      `extension` that of the files that it can load ("" if none). */
  datatype Provider = Provider(id: nat, priority: int, functions: set<string>, extension: string)

  // ---------------------------------------------------------------- the list

  /** Position of the first provider with a lower priority; a priority that is not positive puts a
      provider at the end. */
  function Slot(list: seq<Provider>, priority: int): (r: nat)
    ensures r <= |list|
  {
    if priority <= 0 then |list|
    else if list == [] || priority > list[0].priority then 0
    else 1 + Slot(list[1..], priority)
  }

  function Insert(list: seq<Provider>, p: Provider): seq<Provider> {
    var k := Slot(list, p.priority);
    list[..k] + [p] + list[k..]
  }

  function Remove(list: seq<Provider>, id: nat): seq<Provider> {
    if list == [] then []
    else (if list[0].id == id then [] else [list[0]]) + Remove(list[1..], id)
  }

  /** The first provider that has the function. */
  function FirstWith(list: seq<Provider>, name: string): Option<Provider> {
    if list == [] then None
    else if name in list[0].functions then Some(list[0])
    else FirstWith(list[1..], name)
  }

  // ---------------------------------------------------------------- the order

  function Rank(p: Provider): nat {
    if p.priority > 0 then p.priority else 0
  }

  /** The documented order: higher priority first, and earlier registration among equals. */
  predicate Before(a: Provider, b: Provider) {
    Rank(a) > Rank(b) || (Rank(a) == Rank(b) && a.id < b.id)
  }

  ghost predicate Ordered(list: seq<Provider>) {
    forall i, j :: 0 <= i < j < |list| ==> Before(list[i], list[j])
  }

  lemma SlotSplits(list: seq<Provider>, priority: int)
    ensures forall i :: 0 <= i < Slot(list, priority) ==> priority <= 0 || list[i].priority >= priority
    ensures Slot(list, priority) < |list| ==> priority > 0 && list[Slot(list, priority)].priority < priority
  {
    if priority > 0 && list != [] && priority <= list[0].priority {
      SlotSplits(list[1..], priority);
      assert forall i :: 0 < i < |list| ==> list[i] == list[1..][i - 1];
    }
  }

  lemma SlotFits(list: seq<Provider>, p: Provider)
    requires Ordered(list) && forall q :: q in list ==> q.id < p.id
    ensures forall i :: 0 <= i < |list| ==>
            if i < Slot(list, p.priority) then Before(list[i], p) else Before(p, list[i])
  {
    var k := Slot(list, p.priority);
    SlotSplits(list, p.priority);
    forall i | 0 <= i < |list| ensures if i < k then Before(list[i], p) else Before(p, list[i]) {
      assert list[i] in list;
      if i > k { assert Before(list[k], list[i]); }
    }
  }

  lemma InsertOrdered(list: seq<Provider>, p: Provider)
    requires Ordered(list) && forall q :: q in list ==> q.id < p.id
    ensures Ordered(Insert(list, p))
    ensures forall q :: q in Insert(list, p) <==> q in list || q == p
  {
    SlotFits(list, p);
    var k := Slot(list, p.priority);
    assert list == list[..k] + list[k..];
  }

  lemma RemoveKeeps(list: seq<Provider>, id: nat)
    requires Ordered(list)
    ensures Ordered(Remove(list, id))
    ensures forall q :: q in Remove(list, id) <==> q in list && q.id != id
  {
    if list != [] {
      assert list == [list[0]] + list[1..];
      RemoveKeeps(list[1..], id);
      forall i | 0 <= i < |Remove(list[1..], id)| ensures Before(list[0], Remove(list[1..], id)[i]) {
        var q := Remove(list[1..], id)[i];
        assert q in list[1..];
      }
    }
  }

  // ---------------------------------------------------------------- the search for a file

  datatype Key = Key(name: string, solution: nat)

  /** What a search depends on: the paths, the providers, and the files of each solution with their
      place in the file system. */
  datatype Env = Env(paths: seq<string>, providers: seq<Provider>, files: map<Key, string>)

  datatype Found = NotFound | Found(path: string, provider: Provider)

  function Candidate(path: string, p: Provider, key: Key): Key {
    Key(path + key.name + "." + p.extension, key.solution)
  }

  predicate Hit(env: Env, path: string, p: Provider, key: Key) {
    p.extension != "" && Candidate(path, p, key) in env.files
  }

  function SearchPath(env: Env, path: string, providers: seq<Provider>, key: Key): Found {
    if providers == [] then NotFound
    else if Hit(env, path, providers[0], key) then Found(env.files[Candidate(path, providers[0], key)], providers[0])
    else SearchPath(env, path, providers[1..], key)
  }

  function Search(env: Env, paths: seq<string>, key: Key): Found {
    if paths == [] then NotFound
    else
      var f := SearchPath(env, paths[0], env.providers, key);
      if f.Found? then f else Search(env, paths[1..], key)
  }

  function FreshSearch(env: Env, key: Key): Found {
    Search(env, env.paths, key)
  }

  /** Path i with provider j is the first hit, by path and then by provider. */
  ghost predicate FirstHit(env: Env, paths: seq<string>, key: Key, i: nat, j: nat) {
    && i < |paths| && j < |env.providers| && Hit(env, paths[i], env.providers[j], key)
    && (forall l :: 0 <= l < j ==> !Hit(env, paths[i], env.providers[l], key))
    && (forall k, l :: 0 <= k < i && 0 <= l < |env.providers| ==> !Hit(env, paths[k], env.providers[l], key))
  }

  lemma SearchPathFirst(env: Env, path: string, providers: seq<Provider>, key: Key)
    ensures SearchPath(env, path, providers, key).NotFound? <==>
            forall l :: 0 <= l < |providers| ==> !Hit(env, path, providers[l], key)
    ensures forall j ::
              && 0 <= j < |providers| && Hit(env, path, providers[j], key)
              && (forall l :: 0 <= l < j ==> !Hit(env, path, providers[l], key)) ==>
              SearchPath(env, path, providers, key) ==
              Found(env.files[Candidate(path, providers[j], key)], providers[j])
  {
    if providers != [] {
      var rest := providers[1..];
      SearchPathFirst(env, path, rest, key);
      assert forall l :: 0 < l < |providers| ==> providers[l] == rest[l - 1];
      assert forall l :: 0 <= l < |rest| ==> rest[l] == providers[l + 1];
    }
  }

  /** The search finds the first hit, if there is one. */
  lemma {:induction false} SearchFirst(env: Env, paths: seq<string>, key: Key, i: nat, j: nat)
    requires FirstHit(env, paths, key, i, j)
    ensures Search(env, paths, key) == Found(env.files[Candidate(paths[i], env.providers[j], key)], env.providers[j])
  {
    SearchPathFirst(env, paths[0], env.providers, key);
    if i > 0 { SearchFirst(env, paths[1..], key, i - 1, j); }
  }

  lemma {:induction false} SearchNothing(env: Env, paths: seq<string>, key: Key)
    ensures Search(env, paths, key).NotFound? <==>
            forall i, j :: 0 <= i < |paths| && 0 <= j < |env.providers| ==> !Hit(env, paths[i], env.providers[j], key)
  {
    if paths != [] {
      SearchPathFirst(env, paths[0], env.providers, key);
      SearchNothing(env, paths[1..], key);
      assert forall i :: 0 < i < |paths| ==> paths[i] == paths[1..][i - 1];
      assert forall i :: 0 <= i < |paths[1..]| ==> paths[1..][i] == paths[i + 1];
    }
  }

  // ---------------------------------------------------------------- runs

  /** `count` is the number of registrations so far. */
  datatype State = State(env: Env, cache: map<Key, Found>, count: nat)

  datatype Op = Register(priority: int, functions: set<string>, extension: string) | Destroy(id: nat)
              | AddPath(path: string) | Change(files: map<Key, string>) | Find(key: Key)

  const EMPTY := State(Env([], [], map[]), map[], 0)

  function WithSlash(path: string): string {
    if path != "" && path[|path| - 1] == '/' then path else path + "/"
  }

  function Lookup(s: State, key: Key): Found {
    if key in s.cache then s.cache[key] else FreshSearch(s.env, key)
  }

  function Apply(s: State, op: Op): State {
    match op
    case Register(priority, functions, extension) =>
      s.(env := s.env.(providers := Insert(s.env.providers, Provider(s.count, priority, functions, extension))),
         count := s.count + 1)
    case Destroy(id) => s.(env := s.env.(providers := Remove(s.env.providers, id)))
    case AddPath(path) => s.(env := s.env.(paths := [WithSlash(path)] + s.env.paths))
    case Change(files) => s.(env := s.env.(files := files))
    case Find(key) => s.(cache := s.cache[key := Lookup(s, key)])
  }

  function Run(ops: seq<Op>): State {
    if ops == [] then EMPTY else Apply(Run(ops[..|ops| - 1]), ops[|ops| - 1])
  }

  /** The providers registered and not destroyed since. */
  ghost function Live(ops: seq<Op>): set<Provider> {
    if ops == [] then {}
    else
      var prev := Live(ops[..|ops| - 1]);
      match ops[|ops| - 1]
      case Register(priority, functions, extension) =>
        prev + {Provider(Registrations(ops[..|ops| - 1]), priority, functions, extension)}
      case Destroy(id) => set p | p in prev && p.id != id
      case _ => prev
  }

  function Registrations(ops: seq<Op>): nat {
    if ops == [] then 0
    else Registrations(ops[..|ops| - 1]) + if ops[|ops| - 1].Register? then 1 else 0
  }

  /** Over every run the list holds exactly the live providers, sorted by priority, and by
      registration among equal priorities, which makes it the stable sort. */
  lemma {:induction false} RunOrdered(ops: seq<Op>)
    ensures Run(ops).count == Registrations(ops)
    ensures var list := Run(ops).env.providers;
            && Ordered(list)
            && (forall p :: p in list <==> p in Live(ops))
            && (forall p :: p in list ==> p.id < Registrations(ops))
  {
    if ops != [] {
      var prev, op := ops[..|ops| - 1], ops[|ops| - 1];
      RunOrdered(prev);
      var list := Run(prev).env.providers;
      if op.Register? { InsertOrdered(list, Provider(Registrations(prev), op.priority, op.functions, op.extension)); }
      if op.Destroy? { RemoveKeeps(list, op.id); }
    }
  }

  /** The paths that were added, in that order. */
  function AddedPaths(ops: seq<Op>): seq<string> {
    if ops == [] then []
    else AddedPaths(ops[..|ops| - 1]) + if ops[|ops| - 1].AddPath? then [ops[|ops| - 1].path] else []
  }

  /** The path, with a slash more if it does not end with one. */
  predicate Slashed(path: string, r: string) {
    && (r == path || r == path + ['/'])
    && r != "" && r[|r| - 1] == '/'
    && (r == path <==> path != "" && path[|path| - 1] == '/')
  }

  /** Over every run the path added last comes first, and each ends with a slash. */
  lemma {:induction false} RunPaths(ops: seq<Op>)
    ensures var paths, added := Run(ops).env.paths, AddedPaths(ops);
            |paths| == |added| && forall k :: 0 <= k < |paths| ==> Slashed(added[|added| - 1 - k], paths[k])
  {
    if ops != [] {
      var prev, op := ops[..|ops| - 1], ops[|ops| - 1];
      RunPaths(prev);
      if op.AddPath? { assert Slashed(op.path, WithSlash(op.path)); }
    }
  }

  lemma FirstWithIndex(list: seq<Provider>, name: string) returns (k: nat)
    ensures FirstWith(list, name).None? <==> forall p :: p in list ==> name !in p.functions
    ensures FirstWith(list, name).Some? ==>
              k < |list| && list[k] == FirstWith(list, name).value && name in list[k].functions
              && forall i :: 0 <= i < k ==> name !in list[i].functions
  {
    k := 0;
    if list != [] && name !in list[0].functions {
      k := FirstWithIndex(list[1..], name);
      assert list == [list[0]] + list[1..];
      k := k + 1;
    }
  }

  /** A function is called on the live provider of the highest priority that has it, registered
      first among equals, and on none only if none has it. */
  lemma EvalPicksBest(ops: seq<Op>, name: string)
    ensures FirstWith(Run(ops).env.providers, name).None? <==> forall p :: p in Live(ops) ==> name !in p.functions
    ensures FirstWith(Run(ops).env.providers, name).Some? ==>
              var best := FirstWith(Run(ops).env.providers, name).value;
              && best in Live(ops) && name in best.functions
              && forall p :: p in Live(ops) && name in p.functions && p != best ==> Before(best, p)
  {
    RunOrdered(ops);
    var list := Run(ops).env.providers;
    var k := FirstWithIndex(list, name);
    if FirstWith(list, name).Some? {
      forall p | p in Live(ops) && name in p.functions && p != list[k] ensures Before(list[k], p) {
        var i :| 0 <= i < |list| && list[i] == p;
      }
    }
  }

  // ---------------------------------------------------------------- the registry object

  class FunctionProviders {
    var extensionsPaths: seq<string>
    var providers: seq<Provider>
    var extensionCache: map<Key, Found>
    var count: nat

    function View(files: map<Key, string>): State
      reads this
    {
      State(Env(extensionsPaths, providers, files), extensionCache, count)
    }

    constructor ()
      ensures View(map[]) == EMPTY
    {
      extensionsPaths, providers, extensionCache, count := [], [], map[], 0;
    }

    method RegisterProvider(priority: int, functions: set<string>, extension: string, ghost files: map<Key, string>)
      modifies this
      ensures View(files) == Apply(old(View(files)), Register(priority, functions, extension))
    {
      var p := Provider(count, priority, functions, extension);
      count := count + 1;
      if priority > 0 {
        var ii := 0;
        while ii < |providers|
          invariant 0 <= ii <= |providers|
          invariant Slot(providers, priority) == ii + Slot(providers[ii..], priority)
        {
          assert providers[ii..][1..] == providers[ii + 1..];
          if priority > providers[ii].priority {
            providers := providers[..ii] + [p] + providers[ii..];
            return;
          }
          ii := ii + 1;
        }
      }
      assert providers[..|providers|] == providers;
      providers := providers + [p];
    }

    method DestroyProvider(id: nat, ghost files: map<Key, string>)
      modifies this
      ensures View(files) == Apply(old(View(files)), Destroy(id))
    {
      providers := Remove(providers, id);
    }

    method EvalFunction(name: string) returns (called: Option<Provider>)
      ensures called == FirstWith(providers, name)
    {
      for ii := 0 to |providers|
        invariant FirstWith(providers, name) == FirstWith(providers[ii..], name)
      {
        assert providers[ii..][1..] == providers[ii + 1..];
        if name in providers[ii].functions { return Some(providers[ii]); }
      }
      called := None;
    }

    method AddExtensionsPath(path: string, ghost files: map<Key, string>)
      modifies this
      ensures View(files) == Apply(old(View(files)), AddPath(path))
    {
      var addPath := path;
      if addPath == "" || addPath[|addPath| - 1] != '/' { addPath := addPath + "/"; }
      extensionsPaths := [addPath] + extensionsPaths;
    }

    method SearchIn(path: string, key: Key, files: map<Key, string>) returns (found: Found)
      ensures found == SearchPath(View(files).env, path, providers, key)
    {
      ghost var env := View(files).env;
      var baseName := path + key.name + ".";
      for ii := 0 to |providers|
        invariant SearchPath(env, path, providers, key) == SearchPath(env, path, providers[ii..], key)
      {
        assert providers[ii..][1..] == providers[ii + 1..];
        var provExt := providers[ii].extension;
        var provName := Key(baseName + provExt, key.solution);
        assert provName == Candidate(path, providers[ii], key);
        if provExt != "" && provName in files { return Found(files[provName], providers[ii]); }
      }
      found := NotFound;
    }

    method FindExtension(key: Key, files: map<Key, string>) returns (found: Found)
      modifies this`extensionCache
      ensures found == Lookup(old(View(files)), key)
      ensures View(files) == Apply(old(View(files)), Find(key))
    {
      if key in extensionCache {
        assert extensionCache[key := extensionCache[key]] == extensionCache;
        return extensionCache[key];
      }
      ghost var env := View(files).env;
      found := NotFound;
      for k := 0 to |extensionsPaths|
        invariant View(files) == old(View(files)) && FreshSearch(env, key) == Search(env, extensionsPaths[k..], key)
      {
        assert extensionsPaths[k..][1..] == extensionsPaths[k + 1..];
        found := SearchIn(extensionsPaths[k], key, files);
        if found.Found? {
          extensionCache := extensionCache[key := found];
          return;
        }
      }
      found := NotFound;
      extensionCache := extensionCache[key := found];
    }
  }
}
