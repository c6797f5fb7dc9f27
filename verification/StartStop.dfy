/**
 * Starting, stopping and unloading on values: which bundles can be started, and how
 * single state changes and removals affect what is recorded.
 */
module StartStop {
  import opened Versions
  import opened Resolution
  import opened Lifecycle

  /** Every ACTIVE bundle's recorded dependencies are ACTIVE. */
  ghost predicate ActiveClosed(w: World) {
    forall n, d :: n in w && w[n].state == Active && d in Names(w[n].deps) ==> d in w && w[d].state == Active
  }

  ghost function WithState(w: World, n: string, s: State): World
    requires n in w
  {
    w[n := w[n].(state := s)]
  }

  /** Moving a bundle between the states that count as resolved keeps the run invariant. */
  lemma StateKeepsInv(cat: Catalog, w: World, order: seq<string>, n: string, s: State)
    requires Inv(cat, w, order) && n in w && w[n].state.IsResolved() && s.IsResolved()
    ensures Inv(cat, WithState(w, n, s), order)
  {
    var w' := WithState(w, n, s);
    forall i | 0 <= i < |order| ensures Ranked(cat, w', order, i) {
      assert Ranked(cat, w, order, i);
    }
  }

  /** The dependencies of a resolved bundle stand before it in the order. */
  lemma DependencyBefore(cat: Catalog, w: World, order: seq<string>, n: string, d: string)
    requires Inv(cat, w, order) && n in order && d in Names(w[n].deps)
    ensures n in w && d in w && d in order && d in cat && Index(order, d) < Index(order, n)
  {
    var i := Index(order, n);
    assert Ranked(cat, w, order, i);
    var j :| 0 <= j < i && order[j] == d;
    assert Index(order, d) == j;
  }

  lemma RecordsAreCurrent(cat: Catalog, w: World, order: seq<string>, n: string)
    requires Inv(cat, w, order) && n in order
    ensures n in w && AllCurrent(cat, w[n].deps)
  {
    assert Ranked(cat, w, order, Index(order, n));
  }

  /**
   * Whether starting n brings it to ACTIVE: it is there already, or it is RESOLVED,
   * its activator starts and all its recorded dependencies can be started.
   */
  ghost predicate CanStart(cat: Catalog, w: World, order: seq<string>, n: string)
    requires Inv(cat, w, order) && n in order
    decreases Index(order, n)
  {
    n in w && n in cat
    && (w[n].state == Active
        || (w[n].state == Resolved && cat[n].activatorStarts
            && forall d :: d in Names(w[n].deps) ==>
                 (DependencyBefore(cat, w, order, n, d); CanStart(cat, w, order, d))))
  }

  /** n is ACTIVE, or RESOLVED with an activator that starts. */
  ghost predicate Startable(cat: Catalog, w: World, n: string) {
    n in w && n in cat && (w[n].state == Active || (w[n].state == Resolved && cat[n].activatorStarts))
  }

  /** A path that goes on only from bundles that are not ACTIVE: an ACTIVE bundle is not started again. */
  ghost predicate IsStartPath(w: World, path: seq<string>) {
    IsPath(w, path) && forall k :: 0 <= k < |path| - 1 ==> w[path[k]].state != Active
  }

  /** CanStart looks at everything that starting would come to. */
  lemma {:induction false} CanStartReaches(cat: Catalog, w: World, order: seq<string>, path: seq<string>)
    requires Inv(cat, w, order)
    requires IsStartPath(w, path) && path[0] in order && CanStart(cat, w, order, path[0])
    ensures Startable(cat, w, path[|path| - 1])
    decreases |path|
  {
    if |path| > 1 {
      assert path[1] in Names(w[path[0]].deps);
      DependencyBefore(cat, w, order, path[0], path[1]);
      assert forall k :: 0 <= k < |path| - 1 ==> path[1..][k] == path[k + 1];
      CanStartReaches(cat, w, order, path[1..]);
    }
  }

  /** A bundle that cannot be started comes to one whose own state or activator is the reason. */
  lemma {:induction false} CannotStartWitness(cat: Catalog, w: World, order: seq<string>, n: string) returns (path: seq<string>)
    requires Inv(cat, w, order) && n in order && !CanStart(cat, w, order, n)
    ensures IsStartPath(w, path) && path[0] == n && !Startable(cat, w, path[|path| - 1])
    decreases Index(order, n)
  {
    assert n in w;
    if !Startable(cat, w, n) {
      path := [n];
    } else {
      var d :| d in Names(w[n].deps) && (DependencyBefore(cat, w, order, n, d); !CanStart(cat, w, order, d));
      DependencyBefore(cat, w, order, n, d);
      var rest := CannotStartWitness(cat, w, order, d);
      path := [n] + rest;
      assert forall k :: 0 < k < |path| ==> path[k] == rest[k - 1];
      forall k | 0 <= k < |path| - 1 ensures path[k + 1] in Names(w[path[k]].deps) && w[path[k]].state != Active {
        if k > 0 { assert rest[k] in Names(w[rest[k - 1]].deps); }
      }
    }
  }

  /** A bundle can be started iff every bundle that starting it comes to is startable itself. */
  lemma CanStartIffAllReachable(cat: Catalog, w: World, order: seq<string>, n: string)
    requires Inv(cat, w, order) && n in order
    ensures CanStart(cat, w, order, n)
       <==> forall path :: IsStartPath(w, path) && path[0] == n ==> Startable(cat, w, path[|path| - 1])
  {
    if CanStart(cat, w, order, n) {
      forall path | IsStartPath(w, path) && path[0] == n ensures Startable(cat, w, path[|path| - 1]) {
        CanStartReaches(cat, w, order, path);
      }
    } else {
      var path := CannotStartWitness(cat, w, order, n);
    }
  }

  /** Below an ACTIVE bundle everything is ACTIVE. */
  lemma {:induction false} ActiveReaches(w: World, path: seq<string>)
    requires ActiveClosed(w) && IsPath(w, path) && w[path[0]].state == Active
    ensures w[path[|path| - 1]].state == Active
    decreases |path|
  {
    if |path| > 1 {
      assert path[1] in Names(w[path[0]].deps);
      assert forall k :: 0 <= k < |path| - 1 ==> path[1..][k] == path[k + 1];
      ActiveReaches(w, path[1..]);
    }
  }

  /** As long as ACTIVE bundles only depend on ACTIVE ones, that is all its transitive dependencies. */
  lemma CanStartIffAllDependencies(cat: Catalog, w: World, order: seq<string>, n: string)
    requires Inv(cat, w, order) && ActiveClosed(w) && n in order
    ensures CanStart(cat, w, order, n)
       <==> forall path :: IsPath(w, path) && path[0] == n ==> Startable(cat, w, path[|path| - 1])
  {
    CanStartIffAllReachable(cat, w, order, n);
    if CanStart(cat, w, order, n) {
      forall path | IsPath(w, path) && path[0] == n ensures Startable(cat, w, path[|path| - 1]) {
        StartableOnPath(cat, w, order, path);
      }
    }
  }

  lemma {:induction false} StartableOnPath(cat: Catalog, w: World, order: seq<string>, path: seq<string>)
    requires Inv(cat, w, order) && ActiveClosed(w)
    requires IsPath(w, path) && path[0] in order && CanStart(cat, w, order, path[0])
    ensures Startable(cat, w, path[|path| - 1])
    decreases |path|
  {
    if |path| > 1 {
      assert path[1] in Names(w[path[0]].deps);
      DependencyBefore(cat, w, order, path[0], path[1]);
      assert forall k :: 0 <= k < |path| - 1 ==> path[1..][k] == path[k + 1];
      if w[path[0]].state == Active {
        assert w[path[1]].state == Active;
      }
      StartableOnPath(cat, w, order, path[1..]);
    }
  }

  /**
   * What starting does to the world: some RESOLVED bundles become ACTIVE, each of them
   * one that could be started from the beginning; nothing else changes.
   */
  ghost predicate Starts(cat: Catalog, order: seq<string>, w: World, w': World) {
    && w.Keys == w'.Keys
    && Inv(cat, w, order)
    && forall n :: n in w ==> w'[n] == w[n] || NewlyActive(cat, order, w, w', n)
  }

  ghost predicate NewlyActive(cat: Catalog, order: seq<string>, w: World, w': World, n: string)
    requires Inv(cat, w, order) && n in w && n in w'
  {
    && n in order && w[n].state == Resolved && w'[n] == w[n].(state := Active)
    && CanStart(cat, w, order, n)
    && DependenciesActive(w', n)
  }

  ghost predicate DependenciesActive(w: World, n: string)
    requires n in w
  {
    forall d :: d in Names(w[n].deps) ==> d in w && w[d].state == Active
  }

  lemma StartsRefl(cat: Catalog, order: seq<string>, w: World)
    requires Inv(cat, w, order)
    ensures Starts(cat, order, w, w)
  {
  }

  lemma StartsKeepsInv(cat: Catalog, order: seq<string>, w: World, w': World)
    requires Starts(cat, order, w, w')
    ensures Inv(cat, w', order)
  {
    forall i | 0 <= i < |order| ensures Ranked(cat, w', order, i) {
      assert Ranked(cat, w, order, i);
    }
    forall n ensures n in order <==> n in w' && w'[n].state.IsResolved() {
      if n in w { assert w'[n] == w[n] || NewlyActive(cat, order, w, w', n); }
    }
  }

  /** What has been started in between does not change what can be started. */
  lemma {:induction false} CanStartStable(cat: Catalog, order: seq<string>, w: World, w': World, n: string)
    requires Starts(cat, order, w, w') && Inv(cat, w', order) && n in order
    ensures CanStart(cat, w', order, n) <==> CanStart(cat, w, order, n)
    decreases Index(order, n)
  {
    assert n in w;
    if w'[n] == w[n] {
      forall d | d in Names(w[n].deps) ensures d in order && (CanStart(cat, w', order, d) <==> CanStart(cat, w, order, d)) {
        DependencyBefore(cat, w, order, n, d);
        CanStartStable(cat, order, w, w', d);
      }
    } else {
      assert NewlyActive(cat, order, w, w', n);
    }
  }

  lemma StartsTransitive(cat: Catalog, order: seq<string>, w: World, w': World, w'': World)
    requires Starts(cat, order, w, w') && Starts(cat, order, w', w'')
    ensures Starts(cat, order, w, w'')
  {
    forall n | n in w ensures w''[n] == w[n] || NewlyActive(cat, order, w, w'', n) {
      if w''[n] != w'[n] {
        assert NewlyActive(cat, order, w', w'', n);
        CanStartStable(cat, order, w, w', n);
      } else if w'[n] != w[n] {
        assert NewlyActive(cat, order, w, w', n);
        ActiveStays(cat, order, w', w'', n);
      }
    }
  }

  lemma ActiveStays(cat: Catalog, order: seq<string>, w: World, w': World, n: string)
    requires Starts(cat, order, w, w') && n in w && DependenciesActive(w, n) && w'[n] == w[n]
    ensures DependenciesActive(w', n)
  {
    forall d | d in Names(w[n].deps) ensures d in w' && w'[d].state == Active {
      assert w'[d] == w[d];
    }
  }

  /** Starting never leaves an ACTIVE bundle with a dependency that is not ACTIVE. */
  lemma StartsKeepsActiveClosed(cat: Catalog, order: seq<string>, w: World, w': World)
    requires Starts(cat, order, w, w') && ActiveClosed(w)
    ensures ActiveClosed(w')
  {
    forall n | n in w && w'[n].state == Active ensures DependenciesActive(w', n) {
      if w'[n] == w[n] {
        ActiveStays(cat, order, w, w', n);
      } else {
        assert NewlyActive(cat, order, w, w', n);
      }
    }
  }

  /** While n is STARTING, the bundles that can be started are those that do not need n. */
  lemma {:induction false} Masked(cat: Catalog, order: seq<string>, w: World, n: string, m: string)
    requires Inv(cat, w, order) && n in order && m in order && n in w && w[n].state == Resolved
    requires Inv(cat, WithState(w, n, Starting), order)
    ensures CanStart(cat, WithState(w, n, Starting), order, m) ==> CanStart(cat, w, order, m)
    ensures Index(order, m) < Index(order, n) && CanStart(cat, w, order, m) ==> CanStart(cat, WithState(w, n, Starting), order, m)
    decreases Index(order, m)
  {
    var w1 := WithState(w, n, Starting);
    forall d | d in Names(w[m].deps)
      ensures d in order && Index(order, d) < Index(order, m)
      ensures CanStart(cat, w1, order, d) ==> CanStart(cat, w, order, d)
      ensures Index(order, d) < Index(order, n) && CanStart(cat, w, order, d) ==> CanStart(cat, w1, order, d)
    {
      DependencyBefore(cat, w, order, m, d);
      Masked(cat, order, w, n, d);
    }
  }

  /** n's dependencies have been started in w2 while n was STARTING; now n gives up or becomes ACTIVE. */
  lemma Unmask(cat: Catalog, order: seq<string>, w: World, n: string, w2: World, s: State)
    requires Inv(cat, w, order) && n in order && n in w && w[n].state == Resolved
    requires Starts(cat, order, WithState(w, n, Starting), w2)
    requires s == Resolved || (s == Active && n in cat && cat[n].activatorStarts && DependenciesActive(w2, n))
    ensures n in w2 && Starts(cat, order, w, WithState(w2, n, s))
    ensures s == Active ==> CanStart(cat, w, order, n)
  {
    var w1 := WithState(w, n, Starting);
    var w3 := WithState(w2, n, s);
    assert w2[n] == w1[n] by {
      assert w2[n] == w1[n] || NewlyActive(cat, order, w1, w2, n);
    }
    forall m | m in order && m in w2 && w2[m].state == Active ensures CanStart(cat, w, order, m) {
      if w2[m] == w1[m] {
      } else {
        assert NewlyActive(cat, order, w1, w2, m);
        Masked(cat, order, w, n, m);
      }
    }
    if s == Active {
      forall d | d in Names(w[n].deps) ensures d in order && CanStart(cat, w, order, d) {
        DependencyBefore(cat, w, order, n, d);
      }
    }
    forall m | m in w ensures w3[m] == w[m] || NewlyActive(cat, order, w, w3, m) {
      if m != n && w2[m] != w1[m] {
        assert NewlyActive(cat, order, w1, w2, m);
        assert DependenciesActive(w3, m);
      }
    }
  }

  ghost function Position(order: seq<string>, n: string): nat {
    if n in order then Index(order, n) + 1 else 0
  }

  /** The first k recorded dependencies are ACTIVE. */
  ghost predicate FirstActive(w: World, deps: seq<ResolvedDependency>, k: nat)
    requires k <= |deps|
  {
    forall i :: 0 <= i < k ==> deps[i].symbolicName in w && w[deps[i].symbolicName].state == Active
  }

  lemma FirstActiveNext(cat: Catalog, order: seq<string>, w: World, w': World, deps: seq<ResolvedDependency>, k: nat)
    requires Starts(cat, order, w, w') && k < |deps| && FirstActive(w, deps, k)
    requires deps[k].symbolicName in w' && w'[deps[k].symbolicName].state == Active
    ensures FirstActive(w', deps, k + 1)
  {
    forall i | 0 <= i < k ensures deps[i].symbolicName in w' && w'[deps[i].symbolicName].state == Active {
      var n := deps[i].symbolicName;
      assert w'[n] == w[n];
    }
  }

  lemma AllFirstActive(w: World, n: string)
    requires n in w && FirstActive(w, w[n].deps, |w[n].deps|)
    ensures DependenciesActive(w, n)
  {
  }

  /** The k-th recorded dependency of a resolved bundle is loaded, current and earlier in the order. */
  lemma DependencyAt(cat: Catalog, w: World, order: seq<string>, n: string, k: nat)
    requires Inv(cat, w, order) && n in w && w[n].state == Starting && k < |w[n].deps|
    ensures n in order && w[n].deps[k].symbolicName in Names(w[n].deps)
    ensures w[n].deps[k].symbolicName in cat && w[n].deps[k].symbolicName in order
    ensures w[n].deps[k].version == cat[w[n].deps[k].symbolicName].manifest.version
    ensures Position(order, w[n].deps[k].symbolicName) < Position(order, n)
  {
    RecordsAreCurrent(cat, w, order, n);
    DependencyBefore(cat, w, order, n, w[n].deps[k].symbolicName);
  }

  /** Every dependency of n can be started. */
  ghost predicate DependenciesCanStart(cat: Catalog, w: World, order: seq<string>, n: string)
    requires Inv(cat, w, order) && n in w
  {
    forall d :: d in Names(w[n].deps) ==> d in order && CanStart(cat, w, order, d)
  }

  lemma DependencyCanStart(cat: Catalog, w: World, order: seq<string>, n: string, d: string)
    requires Inv(cat, w, order) && n in w && DependenciesCanStart(cat, w, order, n) && d in Names(w[n].deps)
    ensures d in order && CanStart(cat, w, order, d)
  {
  }

  /** What can be started is unaffected while n is STARTING, as far as n's own dependencies go. */
  lemma MaskedDependencies(cat: Catalog, order: seq<string>, w: World, n: string)
    requires Inv(cat, w, order) && n in order && n in w && w[n].state == Resolved
    ensures Inv(cat, WithState(w, n, Starting), order)
    ensures CanStart(cat, w, order, n) ==>
              n in cat && cat[n].activatorStarts && DependenciesCanStart(cat, WithState(w, n, Starting), order, n)
  {
    StateKeepsInv(cat, w, order, n, Starting);
    forall d | d in Names(w[n].deps)
      ensures d in order && (CanStart(cat, w, order, d) ==> CanStart(cat, WithState(w, n, Starting), order, d))
    {
      DependencyBefore(cat, w, order, n, d);
      Masked(cat, order, w, n, d);
    }
  }

  lemma ActiveCanStart(cat: Catalog, order: seq<string>, w: World, n: string)
    requires Inv(cat, w, order) && n in w && (w[n].state == Active || w[n].state == Resolved)
    ensures n in order && n in cat
    ensures w[n].state == Active ==> CanStart(cat, w, order, n)
  {
  }

  lemma CanStartState(cat: Catalog, order: seq<string>, w: World, n: string)
    requires Inv(cat, w, order) && n in order && CanStart(cat, w, order, n)
    ensures n in w && (w[n].state == Active || w[n].state == Resolved)
  {
  }

  lemma NoneActiveYet(w: World, deps: seq<ResolvedDependency>)
    ensures FirstActive(w, deps, 0)
  {
  }

  lemma SameVersion(v: Version)
    ensures v.Eq(v)
  {
  }

  lemma StartingStays(cat: Catalog, order: seq<string>, w: World, w': World, n: string)
    requires Starts(cat, order, w, w') && n in w && w[n].state == Starting
    ensures n in w' && w'[n] == w[n]
  {
    assert w'[n] == w[n];
  }

  lemma StateTwice(w: World, n: string, s: State, t: State)
    requires n in w
    ensures WithState(WithState(w, n, s), n, t) == WithState(w, n, t)
    ensures t == w[n].state ==> WithState(w, n, t) == w
  {
  }

  /** No ACTIVE bundle has recorded n as a dependency. */
  ghost predicate NoActiveDependents(w: World, n: string) {
    forall m :: m in w && w[m].state == Active ==> n !in Names(w[m].deps)
  }

  /** One bundle is stopped, and no ACTIVE bundle depends on it at that moment. */
  ghost predicate StopStep(w: World, w': World, n: string) {
    n in w && w[n].state == Active && NoActiveDependents(w, n) && w' == WithState(w, n, Resolved)
  }

  /** The worlds between single stops: every step is a safe one. */
  ghost predicate StopRun(trace: seq<World>) {
    && |trace| > 0
    && (forall k :: 0 < k < |trace| ==> SafeStop(trace[k - 1], trace[k]))
  }

  ghost predicate SafeStop(w: World, w': World) {
    exists n :: StopStep(w, w', n)
  }

  lemma StopRunExtend(trace: seq<World>, w': World, n: string)
    requires StopRun(trace) && StopStep(trace[|trace| - 1], w', n)
    ensures StopRun(trace + [w'])
  {
    var longer := trace + [w'];
    assert SafeStop(trace[|trace| - 1], w');
    forall k | 0 < k < |longer| ensures SafeStop(longer[k - 1], longer[k]) {
      if k < |trace| { assert longer[k] == trace[k]; }
    }
  }

  /** Whether a stop leaves an ACTIVE bundle above one that is not, is whether an ACTIVE bundle depends on the stopped one. */
  lemma StopKeepsClosedIffSafe(cat: Catalog, w: World, order: seq<string>, n: string)
    requires Inv(cat, w, order) && ActiveClosed(w) && n in w && w[n].state == Active
    ensures ActiveClosed(WithState(w, n, Resolved)) <==> NoActiveDependents(w, n)
  {
    var w' := WithState(w, n, Resolved);
    if ActiveClosed(w') {
      forall m | m in w && w[m].state == Active ensures n !in Names(w[m].deps) {
        if m == n {
          if n in Names(w[n].deps) {
            DependencyBefore(cat, w, order, n, n);
          }
        } else {
          assert w'[m] == w[m] && w'[n].state == Resolved;
          assert n in Names(w'[m].deps) <==> n in Names(w[m].deps);
        }
      }
    }
  }

  lemma SafeStopKeepsClosed(w: World, w': World)
    requires ActiveClosed(w) && SafeStop(w, w')
    ensures ActiveClosed(w')
  {
    forall m, d | m in w' && w'[m].state == Active && d in Names(w'[m].deps) ensures d in w' && w'[d].state == Active {
      assert w[m].state == Active;
    }
  }

  /** Safe stops keep closed what was closed. */
  lemma {:induction false} StopRunKeepsClosed(trace: seq<World>, k: nat)
    requires StopRun(trace) && ActiveClosed(trace[0]) && k < |trace|
    ensures ActiveClosed(trace[k])
  {
    if k > 0 {
      StopRunKeepsClosed(trace, k - 1);
      SafeStopKeepsClosed(trace[k - 1], trace[k]);
    }
  }

  /** In every world of the trace the dependencies of ACTIVE bundles are ACTIVE, if they were in the first. */
  ghost predicate StaysClosed(trace: seq<World>) {
    |trace| > 0 && (ActiveClosed(trace[0]) ==> forall k :: 0 <= k < |trace| ==> ActiveClosed(trace[k]))
  }

  lemma StopRunStaysClosed(trace: seq<World>)
    requires StopRun(trace)
    ensures StaysClosed(trace)
  {
    if ActiveClosed(trace[0]) {
      forall k | 0 <= k < |trace| ensures ActiveClosed(trace[k]) {
        StopRunKeepsClosed(trace, k);
      }
    }
  }

  /** In the list every resolved bundle stands before all of its recorded dependencies. */
  ghost predicate DependentsFirst(w: World, names: seq<string>) {
    forall i, j :: 0 <= i <= j < |names| && names[j] in w && w[names[j]].state.IsResolved() ==>
      names[i] !in Names(w[names[j]].deps)
  }

  /** Stopping keeps the order good. */
  lemma StopKeepsOrder(w: World, n: string, names: seq<string>)
    requires DependentsFirst(w, names) && n in w && w[n].state == Active
    ensures DependentsFirst(WithState(w, n, Resolved), names)
  {
  }

  ghost predicate NoneActive(w: World, names: seq<string>, k: nat)
    requires k <= |names|
  {
    forall i :: 0 <= i < k ==> names[i] in w ==> w[names[i]].state != Active
  }

  /** When the bundles before position k are not ACTIVE, nothing ACTIVE depends on the one at k. */
  lemma StopInOrder(w: World, names: seq<string>, k: nat)
    requires DependentsFirst(w, names) && w.Keys == ToSet(names) && k < |names| && NoneActive(w, names, k)
    ensures NoActiveDependents(w, names[k])
  {
    forall m | m in w && w[m].state == Active ensures names[k] !in Names(w[m].deps) {
      assert m in ToSet(names);
      var j :| 0 <= j < |names| && names[j] == m;
      assert k <= j;
    }
  }

  /** No loaded resolved bundle has recorded n as a dependency. */
  ghost predicate NoDependents(w: World, n: string) {
    forall m :: m in w && w[m].state.IsResolved() ==> n !in Names(w[m].deps)
  }

  function Without(order: seq<string>, n: string): (r: seq<string>) {
    if n in order then
      var i := Index(order, n);
      order[..i] + order[i + 1..]
    else order
  }

  lemma WithoutElements(order: seq<string>, n: string)
    requires Distinct(order)
    ensures Distinct(Without(order, n))
    ensures forall m :: m in Without(order, n) <==> m in order && m != n
  {
    if n in order {
      var k, r := Index(order, n), Without(order, n);
      forall m | m in order && m != n ensures m in r {
        var j :| 0 <= j < |order| && order[j] == m;
        assert r[if j < k then j else j - 1] == m;
      }
      forall m | m in r ensures m in order && m != n {
        var j :| 0 <= j < |r| && r[j] == m;
        assert order[if j < k then j else j + 1] == m;
      }
    }
  }

  /** Where an element of the shortened order stood before, nothing but n has gone missing in front of it. */
  lemma WithoutAt(order: seq<string>, n: string, i: nat) returns (j: nat)
    requires Distinct(order) && i < |Without(order, n)|
    ensures j < |order| && order[j] == Without(order, n)[i]
    ensures forall x :: x in order[..j] && x != n ==> x in Without(order, n)[..i]
  {
    var r := Without(order, n);
    if n in order {
      var k := Index(order, n);
      j := if i < k then i else i + 1;
      assert order[j] == r[i];
      forall x | x in order[..j] && x != n ensures x in r[..i] {
        var p :| 0 <= p < j && order[p] == x;
        assert r[..i][if p < k then p else p - 1] == x;
      }
    } else {
      j := i;
    }
  }

  /** Unloading a bundle nobody has recorded keeps the run invariant for the rest. */
  lemma UnloadKeepsInv(cat: Catalog, w: World, order: seq<string>, n: string)
    requires Inv(cat, w, order) && n in cat && NoDependents(w, n)
    ensures Inv(cat - {n}, w - {n}, Without(order, n))
  {
    var cat', w', order' := cat - {n}, w - {n}, Without(order, n);
    WithoutElements(order, n);
    forall i | 0 <= i < |order'| ensures Ranked(cat', w', order', i) {
      var j := WithoutAt(order, n, i);
      assert Ranked(cat, w, order, j);
      assert order'[i] in order;
      StillCovered(cat, order'[i], w[order'[i]].deps, n);
    }
  }

  /** The invariant survives an unload exactly if no loaded resolved bundle has recorded the bundle. */
  lemma UnloadKeepsInvIff(cat: Catalog, w: World, order: seq<string>, n: string)
    requires Inv(cat, w, order) && n in cat
    ensures Inv(cat - {n}, w - {n}, Without(order, n)) <==> NoDependents(w, n)
  {
    hide Without;
    if NoDependents(w, n) {
      UnloadKeepsInv(cat, w, order, n);
    }
    if Inv(cat - {n}, w - {n}, Without(order, n)) {
      forall m | m in w && w[m].state.IsResolved() ensures n !in Names(w[m].deps) {
        if n in Names(w[m].deps) {
          DependencyBefore(cat, w, order, m, n);
          LeftBehind(cat - {n}, w - {n}, Without(order, n), m, n);
        }
      }
    }
  }

  lemma LeftBehind(cat: Catalog, w: World, order: seq<string>, m: string, n: string)
    requires Inv(cat, w, order) && m in w && w[m].state.IsResolved() && n !in w
    ensures n !in Names(w[m].deps)
  {
    if n in Names(w[m].deps) {
      DependencyBefore(cat, w, order, m, n);
    }
  }

  lemma StillCovered(cat: Catalog, m: string, deps: seq<ResolvedDependency>, n: string)
    requires Covered(cat, m, deps) && m != n && n !in Names(deps)
    ensures Covered(cat - {n}, m, deps)
  {
    var cat' := cat - {n};
    forall i | 0 <= i < |deps| ensures Current(cat', deps[i]) {
      assert deps[i].symbolicName in Names(deps);
    }
    var man := cat[m].manifest;
    forall i | 0 <= i < |man.requiredModules| ensures ModuleCovered(cat', man.requiredModules[i], deps) {
      assert ModuleCovered(cat, man.requiredModules[i], deps);
      var p :| p in Providers(cat, man.requiredModules[i]) && p in Names(deps);
      assert p in Providers(cat', man.requiredModules[i]);
    }
    forall i | 0 <= i < |man.requiredBundles| ensures BundleCovered(cat', man.requiredBundles[i], deps) {
      assert BundleCovered(cat, man.requiredBundles[i], deps);
    }
  }

  /** Every RESOLVED bundle without lazy start is ACTIVE in w' exactly if it can be started in w. */
  ghost predicate AllStarted(cat: Catalog, order: seq<string>, w: World, w': World)
    requires Inv(cat, w, order)
  {
    forall n :: n in order && n in cat && n in w && w[n].state == Resolved && !cat[n].manifest.lazyStart ==>
      (n in w' && (w'[n].state == Active <==> CanStart(cat, w, order, n)))
  }

  /** The one-sided form that is built up bundle by bundle. */
  ghost predicate StartedSoFar(cat: Catalog, order: seq<string>, w: World, w': World, names: seq<string>)
    requires Inv(cat, w, order)
  {
    forall n ::
      (&& n in names && n in order && n in cat && n in w && w[n].state == Resolved
       && !cat[n].manifest.lazyStart && CanStart(cat, w, order, n))
      ==> n in w' && w'[n].state == Active
  }

  lemma StartedOneMore(cat: Catalog, order: seq<string>, w: World, w1: World, w2: World, names: seq<string>, n: string)
    requires Starts(cat, order, w, w1) && Starts(cat, order, w1, w2) && StartedSoFar(cat, order, w, w1, names)
    requires n in cat && n in w && n in w2
    requires n in order && w[n].state == Resolved && !cat[n].manifest.lazyStart && CanStart(cat, w, order, n) ==> w2[n].state == Active
    ensures StartedSoFar(cat, order, w, w2, names + [n])
  {
    forall m | m in names && m in w1 && w1[m].state == Active ensures m in w2 && w2[m].state == Active {
      assert w2[m] == w1[m];
    }
  }

  lemma NoneStartedYet(cat: Catalog, order: seq<string>, w: World)
    requires Inv(cat, w, order)
    ensures StartedSoFar(cat, order, w, w, [])
  {
  }

  lemma StartedEverything(cat: Catalog, order: seq<string>, w: World, w': World, names: seq<string>)
    requires Starts(cat, order, w, w') && StartedSoFar(cat, order, w, w', names) && ToSet(names) == cat.Keys
    ensures AllStarted(cat, order, w, w')
  {
    forall n | n in order && n in cat && n in w && w[n].state == Resolved && !cat[n].manifest.lazyStart
      ensures n in w' && (w'[n].state == Active <==> CanStart(cat, w, order, n))
    {
      assert n in ToSet(names);
      assert w'[n] == w[n] || NewlyActive(cat, order, w, w', n);
    }
  }

  lemma NoLongerResolved(cat: Catalog, order: seq<string>, w: World, w1: World, n: string)
    requires Starts(cat, order, w, w1) && n in w1
    ensures n in w && (w[n].state == Resolved && w1[n].state != Resolved ==> w1[n].state == Active)
  {
    assert w1[n] == w[n] || NewlyActive(cat, order, w, w1, n);
  }

  /** A loader's ghost picture: what is loaded, in which condition, and the resolution order. */
  datatype Picture = Picture(cat: Catalog, world: World, order: seq<string>)

  ghost predicate SafeUnload(p: Picture, p': Picture, n: string) {
    && n in p.cat && n in p.world && !p.world[n].state.IsStarted() && NoDependents(p.world, n)
    && p' == Picture(p.cat - {n}, p.world - {n}, Without(p.order, n))
  }

  ghost predicate SafeStep(p: Picture, p': Picture) {
    || (p'.cat == p.cat && p'.order == p.order && SafeStop(p.world, p'.world))
    || (exists n :: SafeUnload(p, p', n))
  }

  ghost predicate GoodPicture(p: Picture) {
    Inv(p.cat, p.world, p.order)
  }

  /** A shutdown step by step: the invariant holds in between, every stop and every unload is a safe one. */
  ghost predicate ShutdownRun(trace: seq<Picture>) {
    && |trace| > 0
    && (forall k :: 0 <= k < |trace| ==> GoodPicture(trace[k]))
    && (forall k :: 0 < k < |trace| ==> SafeStep(trace[k - 1], trace[k]))
  }

  lemma ShutdownExtend(trace: seq<Picture>, p: Picture)
    requires ShutdownRun(trace) && SafeStep(trace[|trace| - 1], p) && GoodPicture(p)
    ensures ShutdownRun(trace + [p])
  {
    var longer := trace + [p];
    forall k | 0 <= k < |longer| ensures GoodPicture(longer[k]) {
      if k < |trace| { assert longer[k] == trace[k]; }
    }
    forall k | 0 < k < |longer| ensures SafeStep(longer[k - 1], longer[k]) {
      if k < |trace| { assert longer[k] == trace[k]; }
    }
  }

  lemma StopIsGood(p: Picture, n: string)
    requires GoodPicture(p) && n in p.world && p.world[n].state == Active && NoActiveDependents(p.world, n)
    ensures GoodPicture(p.(world := WithState(p.world, n, Resolved)))
    ensures SafeStep(p, p.(world := WithState(p.world, n, Resolved)))
  {
    StateKeepsInv(p.cat, p.world, p.order, n, Resolved);
    assert StopStep(p.world, WithState(p.world, n, Resolved), n);
  }

  lemma UnloadIsGood(p: Picture, n: string)
    requires GoodPicture(p) && n in p.cat && n in p.world && !p.world[n].state.IsStarted() && NoDependents(p.world, n)
    ensures GoodPicture(Picture(p.cat - {n}, p.world - {n}, Without(p.order, n)))
    ensures SafeStep(p, Picture(p.cat - {n}, p.world - {n}, Without(p.order, n)))
  {
    UnloadKeepsInv(p.cat, p.world, p.order, n);
    assert SafeUnload(p, Picture(p.cat - {n}, p.world - {n}, Without(p.order, n)), n);
  }

  lemma UnloadKeepsClosed(p: Picture, p': Picture, n: string)
    requires ActiveClosed(p.world) && SafeUnload(p, p', n)
    ensures ActiveClosed(p'.world)
  {
    forall m, d | m in p'.world && p'.world[m].state == Active && d in Names(p'.world[m].deps)
      ensures d in p'.world && p'.world[d].state == Active
    {
      assert p.world[m].state == Active && d in p.world && p.world[d].state == Active;
    }
  }

  lemma SafeStepKeepsClosed(p: Picture, p': Picture)
    requires ActiveClosed(p.world) && SafeStep(p, p')
    ensures ActiveClosed(p'.world)
  {
    if n :| SafeUnload(p, p', n) {
      UnloadKeepsClosed(p, p', n);
    } else {
      SafeStopKeepsClosed(p.world, p'.world);
    }
  }

  lemma {:induction false} ShutdownKeepsClosed(trace: seq<Picture>, k: nat)
    requires ShutdownRun(trace) && ActiveClosed(trace[0].world) && k < |trace|
    ensures ActiveClosed(trace[k].world)
  {
    if k > 0 {
      ShutdownKeepsClosed(trace, k - 1);
      SafeStepKeepsClosed(trace[k - 1], trace[k]);
    }
  }

  ghost predicate ShutdownStaysClosed(trace: seq<Picture>) {
    |trace| > 0 && (ActiveClosed(trace[0].world) ==> forall k :: 0 <= k < |trace| ==> ActiveClosed(trace[k].world))
  }

  lemma ShutdownRunStaysClosed(trace: seq<Picture>)
    requires ShutdownRun(trace)
    ensures ShutdownStaysClosed(trace)
  {
    if ActiveClosed(trace[0].world) {
      forall k | 0 <= k < |trace| ensures ActiveClosed(trace[k].world) {
        ShutdownKeepsClosed(trace, k);
      }
    }
  }

  /** Nothing keeps the bundle from being stopped, if need be, and unloaded. */
  ghost predicate CanUnload(cat: Catalog, w: World, n: string) {
    && n in w && n in cat
    && w[n].state != Starting && w[n].state != Stopping
    && (w[n].state == Active ==> cat[n].activatorStops)
  }

  lemma CanUnloadIs(cat: Catalog, w: World, n: string)
    requires n in w && n in cat
    ensures w[n].state == Active ==> (CanUnload(cat, w, n) <==> cat[n].activatorStops)
    ensures w[n].state != Active ==> (CanUnload(cat, w, n) <==> !w[n].state.IsStarted())
    ensures !Resolved.IsStarted()
  {
  }

  lemma WithStateRemoved(w: World, n: string, s: State)
    requires n in w
    ensures WithState(w, n, s) - {n} == w - {n}
  {
  }

  ghost predicate AllUnload(cat: Catalog, w: World) {
    forall n :: n in w ==> CanUnload(cat, w, n)
  }

  /** The bundles before position k could be unloaded and are gone, those from k on are as before. */
  ghost predicate UnloadedSoFar(p: Picture, q: Picture, names: seq<string>, k: nat)
    requires k <= |names|
  {
    && p.world.Keys == p.cat.Keys == ToSet(names) && Distinct(names)
    && (forall i :: 0 <= i < k ==> CanUnload(p.cat, p.world, names[i]))
    && (forall i :: k <= i < |names| ==> names[i] in p.world && names[i] in q.world && q.world[names[i]] == p.world[names[i]])
    && (forall i :: k <= i < |names| ==> names[i] in p.cat && names[i] in q.cat && q.cat[names[i]] == p.cat[names[i]])
  }

  lemma NothingUnloaded(p: Picture, names: seq<string>)
    requires p.world.Keys == p.cat.Keys == ToSet(names) && Distinct(names)
    ensures UnloadedSoFar(p, p, names, 0)
  {
    assert forall i :: 0 <= i < |names| ==> names[i] in ToSet(names);
  }

  lemma UnloadedOneMore(p: Picture, q: Picture, q': Picture, names: seq<string>, k: nat)
    requires k < |names| && UnloadedSoFar(p, q, names, k)
    requires q'.world == q.world - {names[k]} && q'.cat == q.cat - {names[k]}
    ensures CanUnload(q.cat, q.world, names[k]) <==> CanUnload(p.cat, p.world, names[k])
    ensures CanUnload(q.cat, q.world, names[k]) ==> UnloadedSoFar(p, q', names, k + 1)
  {
  }

  lemma AllUnloaded(p: Picture, q: Picture, names: seq<string>)
    requires UnloadedSoFar(p, q, names, |names|)
    ensures AllUnload(p.cat, p.world)
  {
    forall n | n in p.world ensures CanUnload(p.cat, p.world, n) {
      assert n in ToSet(names);
    }
  }

  lemma CannotUnloadAll(p: Picture, q: Picture, names: seq<string>, k: nat)
    requires k < |names| && UnloadedSoFar(p, q, names, k) && !CanUnload(q.cat, q.world, names[k])
    ensures !AllUnload(p.cat, p.world)
  {
    assert names[k] in p.world;
  }

  /** What is loaded are the bundles from position k on, in an order fit for shutting down. */
  ghost predicate Remaining(w: World, names: seq<string>, k: nat)
    requires k <= |names|
  {
    DependentsFirst(w, names) && w.Keys == ToSet(names[k..]) && Distinct(names)
  }

  lemma RemainingFirst(w: World, names: seq<string>, k: nat)
    requires k < |names| && Remaining(w, names, k)
    ensures names[k] in w && NoDependents(w, names[k]) && NoActiveDependents(w, names[k])
  {
    assert names[k..][0] == names[k];
    forall m | m in w && w[m].state.IsResolved() ensures names[k] !in Names(w[m].deps) {
      assert m in names[k..];
      var j :| 0 <= j < |names[k..]| && names[k..][j] == m;
      assert names[k + j] == m;
    }
  }

  lemma RemainingNext(w: World, names: seq<string>, k: nat)
    requires k < |names| && Remaining(w, names, k)
    ensures Remaining(w - {names[k]}, names, k + 1)
    ensures names[k] in w && w[names[k]].state == Active ==> Remaining(WithState(w, names[k], Resolved), names, k)
  {
    RestWithoutFirst(names, k);
  }

  lemma RestWithoutFirst(names: seq<string>, k: nat)
    requires k < |names| && Distinct(names)
    ensures names[k] in names[k..]
    ensures forall m :: m in names[k + 1..] <==> m in names[k..] && m != names[k]
  {
    var rest := names[k + 1..];
    assert names[k..] == [names[k]] + rest;
    forall j | 0 <= j < |rest| ensures rest[j] != names[k] {
      assert names[k + 1 + j] == rest[j];
    }
  }

  /** Every bundle that is ACTIVE has an activator that stops. */
  ghost predicate AllStop(cat: Catalog, w: World) {
    forall n :: n in w && w[n].state == Active ==> n in cat && cat[n].activatorStops
  }

  /** The bundles before position k have been stopped without failure, those from k on are as before. */
  ghost predicate StoppedSoFar(cat: Catalog, w: World, w': World, names: seq<string>, k: nat)
    requires k <= |names|
  {
    && w'.Keys == w.Keys == ToSet(names)
    && (forall i :: 0 <= i < k && names[i] in w && names[i] in w' ==>
          w'[names[i]].state != Active && (w[names[i]].state == Active ==> names[i] in cat && cat[names[i]].activatorStops))
    && (forall i :: k <= i < |names| && names[i] in w && names[i] in w' ==> w'[names[i]] == w[names[i]])
  }

  lemma NothingStopped(cat: Catalog, w: World, names: seq<string>)
    requires w.Keys == ToSet(names)
    ensures StoppedSoFar(cat, w, w, names, 0)
  {
  }

  lemma StoppedOneMore(cat: Catalog, w: World, w': World, names: seq<string>, k: nat)
    requires k < |names| && StoppedSoFar(cat, w, w', names, k) && Distinct(names)
    ensures names[k] in w' && names[k] in w && w'[names[k]] == w[names[k]]
    ensures w'[names[k]].state != Active ==> StoppedSoFar(cat, w, w', names, k + 1)
    ensures names[k] in cat && cat[names[k]].activatorStops ==> StoppedSoFar(cat, w, WithState(w', names[k], Resolved), names, k + 1)
  {
    assert names[k] in ToSet(names);
  }

  lemma AllStopped(cat: Catalog, w: World, w': World, names: seq<string>)
    requires StoppedSoFar(cat, w, w', names, |names|)
    ensures AllStop(cat, w) && forall n :: n in w' ==> w'[n].state != Active
  {
    forall n | n in w ensures w'[n].state != Active && (w[n].state == Active ==> n in cat && cat[n].activatorStops) {
      assert n in ToSet(names);
    }
  }

  lemma CannotStopAll(cat: Catalog, w: World, n: string)
    requires n in w && w[n].state == Active && (n in cat ==> !cat[n].activatorStops)
    ensures !AllStop(cat, w)
  {
  }

  lemma StoppedNone(cat: Catalog, w: World, w': World, names: seq<string>, k: nat)
    requires k <= |names| && StoppedSoFar(cat, w, w', names, k)
    ensures NoneActive(w', names, k) && w'.Keys == ToSet(names)
  {
    assert forall i :: 0 <= i < k ==> names[i] in ToSet(names);
  }

  lemma StartsHasInv(cat: Catalog, order: seq<string>, w: World, w': World)
    requires Starts(cat, order, w, w')
    ensures Inv(cat, w, order)
  {
  }

  lemma StopRunStarts(w: World)
    ensures StopRun([w])
  {
  }

  lemma StopStepIs(w: World, w': World, n: string)
    requires n in w && w[n].state == Active && NoActiveDependents(w, n) && w' == WithState(w, n, Resolved)
    ensures StopStep(w, w', n)
  {
  }

  lemma ShutdownStarts(p: Picture)
    requires Inv(p.cat, p.world, p.order)
    ensures ShutdownRun([p])
  {
  }

  lemma RemainingAll(w: World, names: seq<string>)
    requires DependentsFirst(w, names) && w.Keys == ToSet(names) && Distinct(names)
    ensures Remaining(w, names, 0)
  {
    assert names[0..] == names;
  }

  lemma LastIsGood(trace: seq<Picture>)
    requires ShutdownRun(trace)
    ensures |trace| > 0 && GoodPicture(trace[|trace| - 1])
  {
  }
}
