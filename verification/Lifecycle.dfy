/**
 * The lifecycle of loaded bundles on values: what every resolved bundle has recorded,
 * the relation between the worlds before and after a resolution, and the start and
 * stop rules over recorded dependencies.
 */
module Lifecycle {
  import opened Versions
  import opened Resolution

  datatype State = Installed | Uninstalled | Resolved | Starting | Active | Stopping {
    predicate IsResolved() {
      Resolved? || Starting? || Active? || Stopping?
    }

    predicate IsStarted() {
      Starting? || Active? || Stopping?
    }
  }

  datatype ResolvedDependency = ResolvedDependency(symbolicName: string, version: Version)

  datatype ModuleProvider = ModuleProvider(required: Dependency, bundles: seq<ResolvedDependency>)

  /** The part of a bundle that changes. */
  datatype Info = Info(state: State, deps: seq<ResolvedDependency>, providers: seq<ModuleProvider>)

  type World = map<string, Info>

  function Names(deps: seq<ResolvedDependency>): set<string> {
    set i | 0 <= i < |deps| :: deps[i].symbolicName
  }

  function ToSet<T>(s: seq<T>): set<T> {
    set x | x in s
  }

  predicate Distinct<T(==)>(s: seq<T>) {
    forall i, j :: 0 <= i < j < |s| ==> s[i] != s[j]
  }

  predicate NoDuplicates(deps: seq<ResolvedDependency>) {
    forall i, j :: 0 <= i < j < |deps| ==> deps[i].symbolicName != deps[j].symbolicName
  }

  predicate Current(cat: Catalog, dep: ResolvedDependency) {
    dep.symbolicName in cat && dep.version == cat[dep.symbolicName].manifest.version
  }

  predicate AllCurrent(cat: Catalog, deps: seq<ResolvedDependency>) {
    forall i :: 0 <= i < |deps| ==> Current(cat, deps[i])
  }

  /** What a successful resolution writes down for n. */
  ghost predicate Recorded(cat: Catalog, n: string, deps: seq<ResolvedDependency>, providers: seq<ModuleProvider>) {
    n in cat
    && var m := cat[n].manifest;
    && NoDuplicates(deps)
    && AllCurrent(cat, deps)
    && Names(deps) == Needs(cat, m)
    && ProvidersRecorded(cat, m.requiredModules, providers)
  }

  ghost predicate ProvidersRecorded(cat: Catalog, modules: seq<Dependency>, providers: seq<ModuleProvider>) {
    |providers| == |modules|
    && forall i :: 0 <= i < |providers| ==> ProviderRecorded(cat, modules[i], providers[i])
  }

  ghost predicate ProviderRecorded(cat: Catalog, d: Dependency, p: ModuleProvider) {
    && p.required == d
    && AllCurrent(cat, p.bundles)
    && NoDuplicates(p.bundles)
    && Names(p.bundles) == Providers(cat, d)
  }

  ghost predicate BundleCovered(cat: Catalog, d: Dependency, deps: seq<ResolvedDependency>) {
    d.symbolicName in cat && Accepts(d, cat[d.symbolicName].manifest) && d.symbolicName in Names(deps)
  }

  ghost predicate ModuleCovered(cat: Catalog, d: Dependency, deps: seq<ResolvedDependency>) {
    exists p :: p in Providers(cat, d) && p in Names(deps)
  }

  /** The recorded dependencies meet every requirement of n; unlike Recorded this survives later loads. */
  ghost predicate Covered(cat: Catalog, n: string, deps: seq<ResolvedDependency>) {
    n in cat
    && var m := cat[n].manifest;
    && NoDuplicates(deps)
    && AllCurrent(cat, deps)
    && (forall i :: 0 <= i < |m.requiredBundles| ==> BundleCovered(cat, m.requiredBundles[i], deps))
    && (forall i :: 0 <= i < |m.requiredModules| ==> ModuleCovered(cat, m.requiredModules[i], deps))
  }

  lemma RecordedIsCovered(cat: Catalog, n: string, info: Info, r: set<string>)
    requires Satisfied(cat, n, r) && Recorded(cat, n, info.deps, info.providers)
    ensures Covered(cat, n, info.deps)
    ensures Names(info.deps) <= r
  {
    var m := cat[n].manifest;
    forall i | 0 <= i < |m.requiredModules| ensures ModuleCovered(cat, m.requiredModules[i], info.deps) {
      var p :| p in Providers(cat, m.requiredModules[i]);
      assert p in Needs(cat, m);
    }
    forall i | 0 <= i < |m.requiredBundles| ensures BundleCovered(cat, m.requiredBundles[i], info.deps) {
      assert BundleMet(cat, m.requiredBundles[i], r);
      assert m.requiredBundles[i].symbolicName in Needs(cat, m);
    }
  }

  /**
   * The run invariant. "order" lists the resolved bundles in the order in which they
   * became resolved; every recorded dependency stands earlier in it, so it ranks the
   * recorded dependency graph.
   */
  ghost predicate Inv(cat: Catalog, w: World, order: seq<string>) {
    && w.Keys == cat.Keys
    && Distinct(order)
    && (forall n :: n in w ==> w[n].state != Uninstalled)
    && (forall n :: n in order <==> n in w && w[n].state.IsResolved())
    && (forall i :: 0 <= i < |order| ==> Ranked(cat, w, order, i))
  }

  ghost predicate Ranked(cat: Catalog, w: World, order: seq<string>, i: nat)
    requires i < |order|
  {
    order[i] in w && Covered(cat, order[i], w[order[i]].deps) && Names(w[order[i]].deps) <= ToSet(order[..i])
  }

  /** A chain of recorded dependencies, from path[0] to its last element. */
  ghost predicate IsPath(w: World, path: seq<string>) {
    && |path| > 0
    && (forall k :: 0 <= k < |path| ==> path[k] in w)
    && (forall k :: 0 <= k < |path| - 1 ==> path[k + 1] in Names(w[path[k]].deps))
  }

  function Index(order: seq<string>, n: string): (i: nat)
    requires n in order
    ensures i < |order| && order[i] == n
  {
    if order[0] == n then 0 else 1 + Index(order[1..], n)
  }

  lemma {:induction false} PathDescends(cat: Catalog, w: World, order: seq<string>, path: seq<string>)
    requires Inv(cat, w, order) && IsPath(w, path) && path[0] in order
    ensures path[|path| - 1] in order
    ensures |path| > 1 ==> Index(order, path[|path| - 1]) < Index(order, path[0])
    decreases |path|
  {
    if |path| > 1 {
      var i := Index(order, path[0]);
      assert Ranked(cat, w, order, i);
      assert path[1] in ToSet(order[..i]);
      var j :| 0 <= j < i && order[j] == path[1];
      assert Index(order, path[1]) == j;
      assert forall k :: 0 <= k < |path| - 1 ==> path[1..][k] == path[k + 1];
      PathDescends(cat, w, order, path[1..]);
    }
  }

  /** Under the invariant no resolved bundle reaches itself through recorded dependencies. */
  lemma Acyclic(cat: Catalog, w: World, order: seq<string>, path: seq<string>)
    requires Inv(cat, w, order) && IsPath(w, path) && path[0] in order && |path| > 1
    ensures path[0] != path[|path| - 1]
  {
    PathDescends(cat, w, order, path);
  }

  /** Loading another bundle keeps a bundle's requirements covered. */
  lemma CoveredStays(cat: Catalog, n: string, u: Unit, b: string, deps: seq<ResolvedDependency>)
    requires n !in cat && Covered(cat, b, deps)
    ensures Covered(cat[n := u], b, deps)
  {
    var cat': Catalog := cat[n := u];
    var m := cat[b].manifest;
    forall k | 0 <= k < |m.requiredModules| ensures ModuleCovered(cat', m.requiredModules[k], deps) {
      assert ModuleCovered(cat, m.requiredModules[k], deps);
      var p :| p in Providers(cat, m.requiredModules[k]) && p in Names(deps);
      assert p in Providers(cat', m.requiredModules[k]);
    }
    forall k | 0 <= k < |m.requiredBundles| ensures BundleCovered(cat', m.requiredBundles[k], deps) {
      assert BundleCovered(cat, m.requiredBundles[k], deps);
    }
  }

  /** Loading a bundle under a new name keeps the invariant. */
  lemma LoadKeepsInv(cat: Catalog, w: World, order: seq<string>, n: string, u: Unit, info: Info)
    requires Inv(cat, w, order) && n !in cat && u.manifest.symbolicName == n && info.state == Installed
    ensures Inv(cat[n := u], w[n := info], order)
  {
    hide Covered;
    var cat': Catalog, w' := cat[n := u], w[n := info];
    forall i | 0 <= i < |order| ensures Ranked(cat', w', order, i) {
      assert Ranked(cat, w, order, i);
      CoveredStays(cat, n, u, order[i], w[order[i]].deps);
    }
  }

  /**
   * What a resolution, successful or not, does to the world: a list of INSTALLED
   * bundles becomes RESOLVED one after the other, each with its requirements met by
   * the bundles resolved before it; nobody else changes state, and bundles that were
   * resolved before do not change at all.
   */
  ghost predicate Progress(cat: Catalog, w: World, order: seq<string>, w': World, order': seq<string>) {
    && w.Keys == w'.Keys == cat.Keys
    && order <= order'
    && (forall n :: n in w && n !in order'[|order|..] ==> w'[n].state == w[n].state)
    && (forall n :: n in w && w[n].state.IsResolved() ==> w'[n] == w[n])
    && (forall i :: |order| <= i < |order'| ==> NewlyResolved(cat, w, w', order', i))
  }

  ghost predicate NewlyResolved(cat: Catalog, w: World, w': World, order': seq<string>, i: nat)
    requires i < |order'|
  {
    var n := order'[i];
    && n in w && n in w' && n !in order'[..i]
    && Satisfied(cat, n, ToSet(order'[..i]))
    && w[n].state == Installed
    && w'[n].state == Resolved
    && Recorded(cat, n, w'[n].deps, w'[n].providers)
  }

  /** Bundles that did not become resolved are left exactly as they were. */
  ghost predicate OthersUntouched(w: World, w': World, added: seq<string>) {
    forall n :: n in w && n !in added ==> n in w' && w'[n] == w[n]
  }

  lemma ProgressKeepsInv(cat: Catalog, w: World, order: seq<string>, w': World, order': seq<string>)
    requires Inv(cat, w, order) && Progress(cat, w, order, w', order')
    ensures Inv(cat, w', order')
  {
    forall i, j | 0 <= i < j < |order'| ensures order'[i] != order'[j] {
      if j >= |order| {
        assert NewlyResolved(cat, w, w', order', j);
        assert order'[i] in order'[..j];
      }
    }
    forall i | 0 <= i < |order'| ensures Ranked(cat, w', order', i) {
      if i < |order| {
        assert Ranked(cat, w, order, i);
        assert order'[..i] == order[..i];
        assert order[i] in order;
      } else {
        assert NewlyResolved(cat, w, w', order', i);
        RecordedIsCovered(cat, order'[i], w'[order'[i]], ToSet(order'[..i]));
      }
    }
    forall n ensures n in order' <==> n in w' && w'[n].state.IsResolved() {
      if n in order' {
        var i :| 0 <= i < |order'| && order'[i] == n;
        if i < |order| { assert order[i] in order; }
        else { assert NewlyResolved(cat, w, w', order', i); }
      } else {
        assert n !in order;
      }
    }
  }

  lemma AddedSplit(o: seq<string>, o': seq<string>, o'': seq<string>)
    requires o <= o' <= o''
    ensures o <= o'' && o''[|o|..] == o'[|o|..] + o''[|o'|..]
  {
  }

  lemma NewlyTransitive(cat: Catalog, w: World, o: seq<string>, w': World, o': seq<string>, w'': World, o'': seq<string>, i: nat)
    requires Progress(cat, w, o, w', o') && Progress(cat, w', o', w'', o'')
    requires |o| <= i < |o''|
    ensures NewlyResolved(cat, w, w'', o'', i)
  {
    var n := o''[i];
    if i < |o'| {
      assert NewlyResolved(cat, w, w', o', i);
      assert o''[..i] == o'[..i] && n == o'[i];
      assert w''[n] == w'[n];
    } else {
      assert NewlyResolved(cat, w', w'', o'', i);
      forall j | |o| <= j < |o'| ensures o'[j] != n {
        assert NewlyResolved(cat, w, w', o', j);
      }
      assert n !in o'[|o|..];
    }
  }

  lemma ProgressTransitive(cat: Catalog, w: World, o: seq<string>, w': World, o': seq<string>, w'': World, o'': seq<string>)
    requires Progress(cat, w, o, w', o') && Progress(cat, w', o', w'', o'')
    ensures Progress(cat, w, o, w'', o'')
  {
    AddedSplit(o, o', o'');
    forall i | |o| <= i < |o''| ensures NewlyResolved(cat, w, w'', o'', i) {
      NewlyTransitive(cat, w, o, w', o', w'', o'', i);
    }
  }

  /** One more bundle becomes RESOLVED with everything it needs in place. */
  lemma ProgressStep(cat: Catalog, w: World, order: seq<string>, n: string, info: Info)
    requires Inv(cat, w, order)
    requires n in cat && w[n].state == Installed && Satisfied(cat, n, ToSet(order))
    requires info.state == Resolved && Recorded(cat, n, info.deps, info.providers)
    ensures Progress(cat, w, order, w[n := info], order + [n])
  {
    hide Satisfied, Recorded, Ranked;
    var order' := order + [n];
    assert order'[..|order|] == order;
  }

  lemma SatisfiedIsResolvable(cat: Catalog, base: set<string>, n: string, s: set<string>)
    requires Satisfied(cat, n, s)
    requires forall m :: m in s ==> Resolvable(cat, base, m)
    ensures Resolvable(cat, base, n)
  {
    var j := OneStage(cat, base, s);
    SatisfiedMonotone(cat, n, s, Stage(cat, base, j));
    assert n in Stage(cat, base, j + 1);
  }

  ghost predicate Justified(cat: Catalog, s: seq<string>, from: nat) {
    forall i :: from <= i < |s| ==> Satisfied(cat, s[i], ToSet(s[..i]))
  }

  /** In a list where each element past "from" is satisfied by those before it, all are resolvable. */
  lemma {:induction false} JustifiedIsResolvable(cat: Catalog, base: set<string>, s: seq<string>, from: nat)
    requires from <= |s| && Justified(cat, s, from)
    requires forall i :: 0 <= i < from ==> s[i] in base
    ensures forall i :: 0 <= i < |s| ==> Resolvable(cat, base, s[i])
    decreases |s|
  {
    hide Satisfied, Resolvable, Justified;
    if |s| == from {
      forall i | 0 <= i < |s| ensures Resolvable(cat, base, s[i]) {
        BaseIsResolvable(cat, base, s[i]);
      }
    } else {
      var k := |s| - 1;
      var t := s[..k];
      JustifiedUpTo(cat, s, from, k);
      JustifiedIsResolvable(cat, base, t, from);
      forall i | 0 <= i < k ensures Resolvable(cat, base, s[i]) {
        assert t[i] == s[i];
      }
      forall d | d in ToSet(t) ensures Resolvable(cat, base, d) {
        var i :| 0 <= i < |t| && t[i] == d;
      }
      SatisfiedIsResolvable(cat, base, s[k], ToSet(t));
    }
  }

  lemma BaseIsResolvable(cat: Catalog, base: set<string>, n: string)
    requires n in base
    ensures Resolvable(cat, base, n)
  {
    assert n in Stage(cat, base, 0);
  }

  lemma JustifiedUpTo(cat: Catalog, s: seq<string>, from: nat, k: nat)
    requires from <= k < |s| && Justified(cat, s, from)
    ensures Justified(cat, s[..k], from) && Satisfied(cat, s[k], ToSet(s[..k]))
  {
    hide Satisfied;
    assert forall i :: 0 <= i < k ==> s[..k][..i] == s[..i];
  }

  /** The newly resolved bundles are all resolvable from those resolved before. */
  lemma ProgressSound(cat: Catalog, w: World, order: seq<string>, w': World, order': seq<string>)
    requires Progress(cat, w, order, w', order')
    ensures forall n :: n in order' ==> Resolvable(cat, ToSet(order), n)
  {
    forall i | |order| <= i < |order'| ensures Satisfied(cat, order'[i], ToSet(order'[..i])) {
      assert NewlyResolved(cat, w, w', order', i);
    }
    JustifiedIsResolvable(cat, ToSet(order), order', |order|);
  }
}
