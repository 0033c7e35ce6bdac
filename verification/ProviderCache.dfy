/** The cache of extension lookups: which operations on the registry make a cached answer wrong. */
module ProviderCache {
  import opened Options
  import opened Providers

  // ---------------------------------------------------------------- what is cached

  /** The environment at the first lookup of a name. */
  function FirstEnv(ops: seq<Op>, key: Key): Option<Env> {
    if ops == [] then None
    else
      var prev := ops[..|ops| - 1];
      if FirstEnv(prev, key).Some? then FirstEnv(prev, key)
      else if ops[|ops| - 1] == Find(key) then Some(Run(prev).env)
      else None
  }

  /** The cache remembers what the first search found, also that it found nothing. */
  lemma {:induction false} CacheIsFirst(ops: seq<Op>, key: Key)
    ensures key in Run(ops).cache <==> FirstEnv(ops, key).Some?
    ensures key in Run(ops).cache ==> Run(ops).cache[key] == FreshSearch(FirstEnv(ops, key).value, key)
  {
    if ops != [] { CacheIsFirst(ops[..|ops| - 1], key); }
  }

  predicate OnlyFinds(ops: seq<Op>) {
    forall k :: 0 <= k < |ops| ==> ops[k].Find?
  }

  lemma {:induction false} FindsKeepEnv(ops: seq<Op>, finds: seq<Op>)
    requires OnlyFinds(finds)
    ensures Run(ops + finds).env == Run(ops).env
  {
    if finds == [] {
      assert ops + finds == ops;
    } else {
      assert (ops + finds)[..|ops + finds| - 1] == ops + finds[..|finds| - 1];
      FindsKeepEnv(ops, finds[..|finds| - 1]);
    }
  }

  lemma FirstEnvStays(ops: seq<Op>, more: seq<Op>, key: Key)
    requires FirstEnv(ops, key).Some?
    ensures FirstEnv(ops + more, key) == FirstEnv(ops, key)
  {
    if more == [] {
      assert ops + more == ops;
    } else {
      assert (ops + more)[..|ops + more| - 1] == ops + more[..|more| - 1];
      FirstEnvStays(ops, more[..|more| - 1], key);
    }
  }

  // ---------------------------------------------------------------- when it is right

  /** This is what a search finds: the first hit, or nothing because there is none. */
  ghost predicate Finds(env: Env, key: Key, found: Found) {
    match found
    case NotFound =>
      forall i, j :: 0 <= i < |env.paths| && 0 <= j < |env.providers| ==> !Hit(env, env.paths[i], env.providers[j], key)
    case Found(path, provider) =>
      exists i: nat, j: nat ::
        && FirstHit(env, env.paths, key, i, j)
        && env.providers[j] == provider && env.files[Candidate(env.paths[i], provider, key)] == path
  }

  lemma PathHit(env: Env, path: string, list: seq<Provider>, key: Key) returns (j: nat)
    requires SearchPath(env, path, list, key).Found?
    ensures j < |list| && Hit(env, path, list[j], key) && forall l :: 0 <= l < j ==> !Hit(env, path, list[l], key)
  {
    if Hit(env, path, list[0], key) {
      j := 0;
    } else {
      j := PathHit(env, path, list[1..], key);
      j := j + 1;
    }
  }

  lemma SearchHit(env: Env, paths: seq<string>, key: Key) returns (i: nat, j: nat)
    requires Search(env, paths, key).Found?
    ensures FirstHit(env, paths, key, i, j)
  {
    SearchPathFirst(env, paths[0], env.providers, key);
    if SearchPath(env, paths[0], env.providers, key).Found? {
      i := 0;
      j := PathHit(env, paths[0], env.providers, key);
    } else {
      i, j := SearchHit(env, paths[1..], key);
      i := i + 1;
    }
  }

  lemma SearchIff(env: Env, key: Key, found: Found)
    ensures FreshSearch(env, key) == found <==> Finds(env, key, found)
  {
    SearchNothing(env, env.paths, key);
    if FreshSearch(env, key) == found && found.Found? {
      var i, j := SearchHit(env, env.paths, key);
      SearchFirst(env, env.paths, key, i, j);
    }
    if found.Found? && Finds(env, key, found) {
      var i: nat, j: nat :| FirstHit(env, env.paths, key, i, j)
        && env.providers[j] == found.provider && env.files[Candidate(env.paths[i], found.provider, key)] == found.path;
      SearchFirst(env, env.paths, key, i, j);
    }
  }

  /** There is a file of this name in the solution, with the extension of the provider, on the path. */
  predicate IsFile(env: Env, path: string, p: Provider, key: Key) {
    p.extension != "" && Key(path + key.name + "." + p.extension, key.solution) in env.files
  }

  /** What a search finds is a file of that name, on one of the paths, for the provider of its
      extension; and it finds one if there is any. */
  lemma FoundFile(env: Env, key: Key)
    ensures match FreshSearch(env, key)
            case NotFound =>
              forall i, j :: 0 <= i < |env.paths| && 0 <= j < |env.providers| ==>
                !IsFile(env, env.paths[i], env.providers[j], key)
            case Found(file, p) =>
              exists i :: 0 <= i < |env.paths| && p in env.providers && IsFile(env, env.paths[i], p, key) &&
                env.files[Key(env.paths[i] + key.name + "." + p.extension, key.solution)] == file
  {
    SearchNothing(env, env.paths, key);
    if FreshSearch(env, key).Found? {
      var i, j := SearchHit(env, env.paths, key);
      SearchFirst(env, env.paths, key, i, j);
      assert IsFile(env, env.paths[i], env.providers[j], key);
    } else {
      forall i, j | 0 <= i < |env.paths| && 0 <= j < |env.providers|
        ensures !IsFile(env, env.paths[i], env.providers[j], key)
      {
        assert !Hit(env, env.paths[i], env.providers[j], key);
      }
    }
  }

  /** A lookup gives what a fresh search would give, if and only if nothing is cached for the name,
      or what is cached is the first hit now, or nothing is cached as found and there is no hit. */
  lemma LookupIff(s: State, key: Key)
    ensures Lookup(s, key) == FreshSearch(s.env, key) <==> key !in s.cache || Finds(s.env, key, s.cache[key])
  {
    if key in s.cache { SearchIff(s.env, key, s.cache[key]); }
  }

  /** In particular, as long as nothing but lookups happened since the first lookup of that name. */
  lemma UnchangedLookup(ops: seq<Op>, key: Key, finds: seq<Op>)
    requires FirstEnv(ops, key).None? && OnlyFinds(finds)
    ensures var all := ops + [Find(key)] + finds; Lookup(Run(all), key) == FreshSearch(Run(all).env, key)
  {
    var looked := ops + [Find(key)];
    assert looked[..|looked| - 1] == ops;
    FindsKeepEnv(looked, finds);
    FirstEnvStays(looked, finds, key);
    CacheIsFirst(looked + finds, key);
  }

  // ---------------------------------------------------------------- which operations make it wrong

  function New(s: State, op: Op): Provider
    requires op.Register?
  {
    Provider(s.count, op.priority, op.functions, op.extension)
  }

  /** The operation changes what a search finds, which was `found`. */
  ghost predicate Moves(s: State, key: Key, op: Op, found: Found) {
    match op
    case Register(priority, _, _) =>
      // the new provider has the first hit
      exists i :: FirstHit(Apply(s, op).env, s.env.paths, key, i, Slot(s.env.providers, priority))
    case Destroy(id) => found.Found? && found.provider.id == id
    case AddPath(path) =>
      // something else is found on the new path
      SearchPath(s.env, WithSlash(path), s.env.providers, key) !in {NotFound, found}
    case Change(files) => !Finds(s.env.(files := files), key, found)
    case Find(_) => false
  }

  lemma SearchPathSame(env: Env, other: Env, path: string, list: seq<Provider>, key: Key)
    requires env.files == other.files
    ensures SearchPath(env, path, list, key) == SearchPath(other, path, list, key)
  {
  }

  lemma SearchSame(env: Env, other: Env, paths: seq<string>, key: Key)
    requires env.files == other.files && env.providers == other.providers
    ensures Search(env, paths, key) == Search(other, paths, key)
  {
    if paths != [] { SearchPathSame(env, other, paths[0], env.providers, key); }
  }

  lemma AddPathMoves(s: State, key: Key, path: string)
    ensures FreshSearch(Apply(s, AddPath(path)).env, key) == FreshSearch(s.env, key) <==>
            !Moves(s, key, AddPath(path), FreshSearch(s.env, key))
  {
    var env := Apply(s, AddPath(path)).env;
    SearchPathSame(s.env, env, WithSlash(path), s.env.providers, key);
    SearchSame(s.env, env, s.env.paths, key);
    assert env.paths[1..] == s.env.paths;
  }

  predicate From(found: Found, id: nat) {
    found.Found? && found.provider.id == id
  }

  lemma SearchPathRemove(env: Env, path: string, list: seq<Provider>, key: Key, id: nat)
    ensures var a, b := SearchPath(env, path, list, key), SearchPath(env, path, Remove(list, id), key);
            !From(b, id) && (!From(a, id) ==> a == b)
  {
    if list != [] {
      var rest := Remove(list[1..], id);
      SearchPathRemove(env, path, list[1..], key, id);
      assert ([list[0]] + rest)[1..] == rest && [] + rest == rest;
    }
  }

  lemma SearchRemove(env: Env, other: Env, paths: seq<string>, key: Key, id: nat)
    requires other.files == env.files && other.providers == Remove(env.providers, id)
    ensures var a, b := Search(env, paths, key), Search(other, paths, key);
            !From(b, id) && (!From(a, id) ==> a == b)
  {
    if paths != [] {
      SearchPathRemove(env, paths[0], env.providers, key, id);
      SearchPathSame(env, other, paths[0], other.providers, key);
      SearchRemove(env, other, paths[1..], key, id);
    }
  }

  lemma DestroyMoves(s: State, key: Key, id: nat)
    ensures FreshSearch(Apply(s, Destroy(id)).env, key) == FreshSearch(s.env, key) <==>
            !Moves(s, key, Destroy(id), FreshSearch(s.env, key))
  {
    SearchRemove(s.env, Apply(s, Destroy(id)).env, s.env.paths, key, id);
  }

  lemma SearchPathSplit(env: Env, path: string, a: seq<Provider>, b: seq<Provider>, key: Key)
    ensures SearchPath(env, path, a + b, key) ==
            if SearchPath(env, path, a, key).Found? then SearchPath(env, path, a, key)
            else SearchPath(env, path, b, key)
  {
    if a == [] {
      assert a + b == b;
    } else {
      assert (a + b)[1..] == a[1..] + b;
      SearchPathSplit(env, path, a[1..], b, key);
    }
  }

  /** What a provider with a new number changes on one path: nothing, or it has the first hit. */
  lemma SearchPathInsert(env: Env, path: string, list: seq<Provider>, p: Provider, key: Key)
    requires forall q :: q in list ==> q.id < p.id
    ensures var a, b := SearchPath(env, path, list, key), SearchPath(env, path, Insert(list, p), key);
            !From(a, p.id) && (!From(b, p.id) ==> a == b)
  {
    var k := Slot(list, p.priority);
    assert list == list[..k] + list[k..];
    SearchPathSplit(env, path, list[..k], list[k..], key);
    SearchPathSplit(env, path, list[..k] + [p], list[k..], key);
    SearchPathSplit(env, path, list[..k], [p], key);
    SearchPathSource(env, path, list, key);
  }

  lemma SearchPathSource(env: Env, path: string, list: seq<Provider>, key: Key)
    ensures SearchPath(env, path, list, key).Found? ==> SearchPath(env, path, list, key).provider in list
  {
  }

  lemma SearchInsert(env: Env, other: Env, paths: seq<string>, p: Provider, key: Key)
    requires forall q :: q in env.providers ==> q.id < p.id
    requires other.files == env.files && other.providers == Insert(env.providers, p)
    ensures var a, b := Search(env, paths, key), Search(other, paths, key);
            !From(a, p.id) && (!From(b, p.id) ==> a == b)
  {
    if paths != [] {
      SearchPathInsert(env, paths[0], env.providers, p, key);
      SearchPathSame(env, other, paths[0], other.providers, key);
      SearchInsert(env, other, paths[1..], p, key);
    }
  }

  lemma InsertedAt(list: seq<Provider>, p: Provider, j: nat)
    requires j < |Insert(list, p)| && forall q :: q in list ==> q.id < p.id
    ensures Insert(list, p)[j].id == p.id <==> j == Slot(list, p.priority)
  {
    var k := Slot(list, p.priority);
    if j < k {
      assert Insert(list, p)[j] == list[j];
    } else if j > k {
      assert Insert(list, p)[j] == list[j - 1];
    }
  }

  lemma RegisterMoves(s: State, key: Key, op: Op)
    requires op.Register? && forall q :: q in s.env.providers ==> q.id < s.count
    ensures FreshSearch(Apply(s, op).env, key) == FreshSearch(s.env, key) <==>
            !Moves(s, key, op, FreshSearch(s.env, key))
  {
    var env, p, paths := Apply(s, op).env, New(s, op), s.env.paths;
    var k := Slot(s.env.providers, op.priority);
    SearchInsert(s.env, env, paths, p, key);
    if From(FreshSearch(env, key), p.id) {
      var i, j := SearchHit(env, paths, key);
      SearchFirst(env, paths, key, i, j);
      InsertedAt(s.env.providers, p, j);
    }
    if i :| FirstHit(env, paths, key, i, k) {
      SearchFirst(env, paths, key, i, k);
      InsertedAt(s.env.providers, p, k);
    }
  }

  /** Which operations change what a search finds. */
  lemma MovesIff(ops: seq<Op>, op: Op, key: Key)
    ensures var s := Run(ops);
            FreshSearch(Apply(s, op).env, key) != FreshSearch(s.env, key) <==>
            Moves(s, key, op, FreshSearch(s.env, key))
  {
    var s := Run(ops);
    match op
    case Register(_, _, _) =>
      RunOrdered(ops);
      RegisterMoves(s, key, op);
    case Destroy(id) => DestroyMoves(s, key, id);
    case AddPath(path) => AddPathMoves(s, key, path);
    case Change(files) => SearchIff(Apply(s, op).env, key, FreshSearch(s.env, key));
    case Find(_) =>
  }

  /** As long as a cached answer is right, an operation keeps it right if and only if it does not
      move the first hit. */
  lemma StaysRightIff(ops: seq<Op>, op: Op, key: Key)
    requires key in Run(ops).cache && Lookup(Run(ops), key) == FreshSearch(Run(ops).env, key)
    ensures var s, t := Run(ops), Run(ops + [op]);
            Lookup(t, key) == FreshSearch(t.env, key) <==> !Moves(s, key, op, s.cache[key])
  {
    assert (ops + [op])[..|ops + [op]| - 1] == ops;
    MovesIff(ops, op, key);
  }

  lemma RunMore(ops: seq<Op>, op: Op)
    ensures Run(ops + [op]) == Apply(Run(ops), op)
  {
    assert (ops + [op])[..|ops + [op]| - 1] == ops;
  }

  /** A file that is made after it was looked up is not found, not even later. */
  lemma NeverFound(name: string, file: string)
    ensures var key := Key(name, 0);
            var ops := [] + [Register(1, {}, "so")] + [AddPath("/")] + [Find(key)];
            var later := ops + [Change(map[Key("/" + name + ".so", 0) := file])];
            && Lookup(Run(later), key) == NotFound
            && FreshSearch(Run(later).env, key) == Found(file, Provider(0, 1, {}, "so"))
  {
    var key, p := Key(name, 0), Provider(0, 1, {}, "so");
    var one := [] + [Register(1, {}, "so")];
    var two := one + [AddPath("/")];
    var three := two + [Find(key)];
    var files := map[Key("/" + name + ".so", 0) := file];
    RunMore([], Register(1, {}, "so"));
    RunMore(one, AddPath("/"));
    RunMore(two, Find(key));
    RunMore(three, Change(files));
    assert Insert([], p) == [p];
    assert Candidate("/", p, key) == Key("/" + name + ".so", 0);
    var env := Run(two).env;
    assert env == Env(["/"], [p], map[]);
    OnePathOneProvider(env, key);
    OnePathOneProvider(env.(files := files), key);
  }

  lemma OnePathOneProvider(env: Env, key: Key)
    requires |env.paths| == |env.providers| == 1
    ensures FreshSearch(env, key) ==
            if Hit(env, env.paths[0], env.providers[0], key) then
              Found(env.files[Candidate(env.paths[0], env.providers[0], key)], env.providers[0])
            else NotFound
  {
    assert SearchPath(env, env.paths[0], env.providers[1..], key) == NotFound;
    assert Search(env, env.paths[1..], key) == NotFound;
  }
}
