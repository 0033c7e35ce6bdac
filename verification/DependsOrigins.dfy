/** What the dependency loader has brought into a project, over every run: each object that ran has
    all it adds in the variables, each value has a source, each request an entry, and a disabled
    project a reason. */
module DependsOrigins {
  import opened Options
  import opened Depends
  import opened DependsInvariants
  import opened DependsSteps

  // ---------------------------------------------------------------- what holds after every step

  /** Every value of every statement is in its variable. */
  ghost predicate AddsAll(vars: map<string, seq<string>>, eval: seq<Addition>) {
    forall a, x :: a in eval && x in a.values ==> x in Value(vars, a.variable)
  }

  /** The object behind this entry, and all it adds unless the project is disabled. */
  ghost predicate Accounts(w: World, s: State, m: Mark, key: string, o: Obj) {
    && Justifies(w, s.wanted, m, key, o)
    && Usable(w, s, m, key)
    && Applies(w, s, m, key, o)
    && (!s.disabled ==> AddsAll(s.vars, o.eval))
  }

  ghost predicate Accounted(w: World, s: State) {
    forall m :: m in s.ran ==> exists key, o :: Accounts(w, s, m, key, o)
  }

  /** The dependency whose variables this entry says are there. */
  ghost predicate Obtains(w: World, s: State, m: Mark, key: string) {
    && m.rule.AutoPersist?
    && Usable(w, s, m, key)
    && Wanted(s, m.db, m.index, "auto_persist")
    && forall v, x :: Exports(Owner(w, m.db, key).value, v, x) ==> x in Value(s.vars, v)
  }

  ghost predicate Obtained(w: World, s: State) {
    forall m :: m in s.marks && m.rule.AutoPersist? ==> exists key :: Obtains(w, s, m, key)
  }

  ghost predicate Brings(w: World, s: State, m: Mark, key: string, v: string, x: string) {
    m in s.marks && m.rule.AutoPersist? && Usable(w, s, m, key) && Exports(Owner(w, m.db, key).value, v, x)
  }

  ghost predicate Contributes(w: World, s: State, m: Mark, key: string, o: Obj, v: string, x: string) {
    m in s.ran && Justifies(w, s.wanted, m, key, o) && Adds(o.eval, v, x)
  }

  /** The value was there at the start, or a dependency that was imported exports it, or an object
      that ran adds it. */
  ghost predicate HasSource(w: World, start: map<string, seq<string>>, s: State, v: string, x: string) {
    || x in Value(start, v)
    || (exists m, key :: Brings(w, s, m, key, v, x))
    || (exists m, key, o :: Contributes(w, s, m, key, o, v, x))
  }

  ghost predicate Sourced(w: World, start: map<string, seq<string>>, s: State) {
    forall v, x :: x in Value(s.vars, v) ==> HasSource(w, start, s, v, x)
  }

  ghost predicate AllAsked(w: World, s: State) {
    forall x :: x in s.wanted ==> exists e :: Asked(w, s, x, e)
  }

  ghost predicate Explained(w: World, s: State) {
    s.disabled ==> exists db, entry :: Blocks(w, s, db, entry)
  }

  ghost predicate Origins(w: World, start: map<string, seq<string>>, s: State) {
    Accounted(w, s) && Obtained(w, s) && Sourced(w, start, s) && AllAsked(w, s) && Explained(w, s)
  }

  // ---------------------------------------------------------------- more of everything

  lemma ValueGrows(s: State, r: State, v: string, x: string)
    requires Grows(s, r) && x in Value(s.vars, v)
    ensures x in Value(r.vars, v)
  {
    assert s.vars[v] <= r.vars[v];
  }

  lemma AccountsGrows(w: World, s: State, r: State, m: Mark, key: string, o: Obj)
    requires Accounts(w, s, m, key, o) && Grows(s, r)
    ensures Accounts(w, r, m, key, o)
  {
    ListGrows(s, r);
    if !r.disabled {
      forall a, x | a in o.eval && x in a.values ensures x in Value(r.vars, a.variable) {
        ValueGrows(s, r, a.variable, x);
      }
    }
  }

  lemma ObtainsGrows(w: World, s: State, r: State, m: Mark, key: string)
    requires Obtains(w, s, m, key) && Grows(s, r)
    ensures Obtains(w, r, m, key)
  {
    forall v, x | Exports(Owner(w, m.db, key).value, v, x) ensures x in Value(r.vars, v) {
      ValueGrows(s, r, v, x);
    }
  }

  lemma SourceGrows(w: World, start: map<string, seq<string>>, s: State, r: State, v: string, x: string)
    requires HasSource(w, start, s, v, x) && Grows(s, r)
    ensures HasSource(w, start, r, v, x)
  {
    if m, key :| Brings(w, s, m, key, v, x) {
      assert Brings(w, r, m, key, v, x);
    } else if m, key, o :| Contributes(w, s, m, key, o, v, x) {
      assert Contributes(w, r, m, key, o, v, x);
    }
  }

  // ---------------------------------------------------------------- every step keeps it

  lemma StepAccounted(w: World, s: State, r: State)
    requires Accounted(w, s) && Step(w, s, r)
    ensures Accounted(w, r)
  {
    forall m | m in r.ran ensures exists key, o :: Accounts(w, r, m, key, o) {
      if m in s.ran {
        var key, o :| Accounts(w, s, m, key, o);
        AccountsGrows(w, s, r, m, key, o);
      } else {
        var n, key, o :| Runs(w, s, r, n, key, o);
        RunAccounts(w, s, r, n, key, o);
      }
    }
  }

  lemma RunAccounts(w: World, s: State, r: State, m: Mark, key: string, o: Obj)
    requires Runs(w, s, r, m, key, o) && Grows(s, r)
    ensures Accounts(w, r, m, key, o)
  {
    ListGrows(s, r);
    if !r.disabled {
      forall a, x | a in o.eval && x in a.values ensures x in Value(r.vars, a.variable) {
        assert Adds(o.eval, a.variable, x);
      }
    }
  }

  lemma StepObtained(w: World, s: State, r: State)
    requires Obtained(w, s) && Step(w, s, r)
    ensures Obtained(w, r)
  {
    forall m | m in r.marks && m.rule.AutoPersist? ensures exists key :: Obtains(w, r, m, key) {
      if m in s.marks {
        var key :| Obtains(w, s, m, key);
        ObtainsGrows(w, s, r, m, key);
      } else {
        var n, key :| Imports(w, s, r, n, key);
        assert Obtains(w, r, n, key);
      }
    }
  }

  lemma StepSourced(w: World, start: map<string, seq<string>>, s: State, r: State)
    requires Sourced(w, start, s) && Step(w, s, r)
    ensures Sourced(w, start, r)
  {
    forall v, x | x in Value(r.vars, v) ensures HasSource(w, start, r, v, x) {
      if x in Value(s.vars, v) {
        SourceGrows(w, start, s, r, v, x);
      } else if m, key :| Imports(w, s, r, m, key) {
        assert Brings(w, r, m, key, v, x);
      } else {
        var m, key, o :| Runs(w, s, r, m, key, o);
        assert Contributes(w, r, m, key, o, v, x);
      }
    }
  }

  lemma StepAsked(w: World, s: State, r: State)
    requires AllAsked(w, s) && Step(w, s, r)
    ensures AllAsked(w, r)
  {
    forall x | x in r.wanted ensures exists e :: Asked(w, r, x, e) {
      var e :| Asked(w, s, x, e);
      ListsGrow(w, s, r, x.db, e);
      assert Asked(w, r, x, e);
    }
  }

  lemma StepExplained(w: World, s: State, r: State)
    requires Explained(w, s) && Step(w, s, r)
    ensures Explained(w, r)
  {
    if r.disabled {
      var db, entry :| Blocks(w, s, db, entry);
      ListsGrow(w, s, r, db, entry);
      assert Blocks(w, r, db, entry);
    }
  }

  lemma StepOrigins(w: World, start: map<string, seq<string>>, s: State, r: State)
    requires Origins(w, start, s) && Steps(w)(s, r)
    ensures Origins(w, start, r)
  {
    StepAccounted(w, s, r);
    StepObtained(w, s, r);
    StepSourced(w, start, s, r);
    StepAsked(w, s, r);
    StepExplained(w, s, r);
  }

  // ---------------------------------------------------------------- main results

  /** From a project before any dependency was loaded: after every call each object that ran has all
      it adds in the variables, each imported dependency all it exports, each value has a source, each
      request an entry that makes it, and a disabled project an entry that blocks it. */
  lemma LoadOrigins(w: World, start: map<string, seq<string>>, s: State)
    requires Origins(w, start, s)
    ensures Origins(w, start, Load(w, s).state)
  {
    var inv := (x: State) => Origins(w, start, x);
    forall a, b | inv(a) && Steps(w)(a, b) ensures inv(b) { StepOrigins(w, start, a, b); }
    LoadLeads(w, s);
    LeadsKeeps(w, inv, s, Load(w, s).state);
    assert inv(Load(w, s).state);
  }

  /** No other object behind the same entry does anything else.  Object names are absolute, so this
      fails only if one project exports two objects of the same name. */
  ghost predicate SoleName(w: World, db: Db, key: string, o: Obj) {
    forall k, q ::
      (Index(k) == Index(key) && Owner(w, db, k).Some? && q in Owner(w, db, k).value.objects && q.absName == o.absName)
      ==> q.eval == o.eval
  }

  /** An object that ran has everything it adds in the variables of an enabled project. */
  lemma ObjectApplied(w: World, s: State, db: Db, key: string, o: Obj)
    requires Accounted(w, s) && !s.disabled && Mark(db, Index(key), Ran(o.absName)) in s.ran
    requires SoleName(w, db, key, o)
    ensures AddsAll(s.vars, o.eval)
  {
    var k, q :| Accounts(w, s, Mark(db, Index(key), Ran(o.absName)), k, q);
    assert q.eval == o.eval;
  }

  /** Whatever is in a variable in the end was there at the start, or comes from a dependency that was
      imported, or from an object that ran. */
  lemma NothingElse(w: World, vars: map<string, seq<string>>, v: string, x: string)
    requires x in Value(Load(w, Initial(vars, false)).state.vars, v)
    ensures HasSource(w, vars, Load(w, Initial(vars, false)).state, v, x)
  {
    LoadOrigins(w, vars, Initial(vars, false));
  }

  /** A project that loading has disabled lists, itself or through a dependency whose variables it has,
      a module that is nowhere or a disabled dependency. */
  lemma DisabledBy(w: World, vars: map<string, seq<string>>)
    requires Load(w, Initial(vars, false)).state.disabled
    ensures exists db, entry :: Blocks(w, Load(w, Initial(vars, false)).state, db, entry)
  {
    LoadOrigins(w, vars, Initial(vars, false));
  }
}
