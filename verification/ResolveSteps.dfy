/**
 * The single steps of a resolution on values: what may be on the resolution stack, how
 * records grow, and how one step's effect on the world follows another's.
 */
module ResolveSteps {
  import opened Versions
  import opened Resolution
  import opened Lifecycle

  /** What k rounds of adding bundles whose requirements are met reach from base without those on the stack. */
  ghost function StageWithout(cat: Catalog, base: set<string>, stack: set<string>, k: nat): set<string> {
    if k == 0 then base
    else
      var s := StageWithout(cat, base, stack, k - 1);
      s + (set n | n in cat && n !in stack && Satisfied(cat, n, s))
  }

  /** n is resolvable without the bundles on the resolution stack. */
  ghost predicate Clear(cat: Catalog, base: set<string>, n: string, stack: set<string>) {
    exists k: nat :: n in StageWithout(cat, base, stack, k)
  }

  /** The clear bundles are the least set that contains base and is closed apart from the stack. */
  lemma {:induction false} ClearIsLeast(cat: Catalog, base: set<string>, stack: set<string>, s: set<string>, k: nat)
    requires base <= s
    requires forall n :: n !in stack && Satisfied(cat, n, s) ==> n in s
    ensures StageWithout(cat, base, stack, k) <= s
  {
    if k > 0 {
      ClearIsLeast(cat, base, stack, s, k - 1);
      forall n | n in cat && n !in stack && Satisfied(cat, n, StageWithout(cat, base, stack, k - 1))
        ensures n in s
      {
        SatisfiedMonotone(cat, n, StageWithout(cat, base, stack, k - 1), s);
      }
    }
  }

  /** With nothing on the stack the clear bundles are the resolvable ones. */
  lemma {:induction false} StageWithoutNothing(cat: Catalog, base: set<string>, k: nat)
    ensures StageWithout(cat, base, {}, k) == Stage(cat, base, k)
  {
    if k > 0 {
      StageWithoutNothing(cat, base, k - 1);
    }
  }

  lemma ClearOfNothing(cat: Catalog, base: set<string>, n: string)
    ensures Clear(cat, base, n, {}) <==> Resolvable(cat, base, n)
  {
    if k: nat :| n in Stage(cat, base, k) {
      StageWithoutNothing(cat, base, k);
    }
    if k: nat :| n in StageWithout(cat, base, {}, k) {
      StageWithoutNothing(cat, base, k);
    }
  }

  lemma {:induction false} NoStackInStage(cat: Catalog, base: set<string>, n: string, stack: set<string>, k: nat)
    requires n in stack && n !in base
    ensures n !in StageWithout(cat, base, stack, k)
  {
    if k > 0 {
      NoStackInStage(cat, base, n, stack, k - 1);
    }
  }

  lemma NotClearOnStack(cat: Catalog, base: set<string>, n: string, stack: set<string>)
    requires n in stack && n !in base
    ensures !Clear(cat, base, n, stack)
  {
    forall k: nat ensures n !in StageWithout(cat, base, stack, k) {
      NoStackInStage(cat, base, n, stack, k);
    }
  }

  /** Up to the stage before n is reached it makes no difference whether n may be used. */
  lemma {:induction false} SameWithout(cat: Catalog, base: set<string>, n: string, stack: set<string>, k: nat)
    requires n !in StageWithout(cat, base, stack, k)
    ensures StageWithout(cat, base, stack + {n}, k) == StageWithout(cat, base, stack, k)
  {
    if k > 0 {
      SameWithout(cat, base, n, stack, k - 1);
    }
  }

  lemma FirstStageWithout(cat: Catalog, base: set<string>, n: string, stack: set<string>, k: nat) returns (j: nat)
    requires n in StageWithout(cat, base, stack, k)
    ensures n in StageWithout(cat, base, stack, j) && (j == 0 || n !in StageWithout(cat, base, stack, j - 1))
  {
    hide StageWithout, Satisfied;
    j := k;
    if k > 0 && n in StageWithout(cat, base, stack, k - 1) {
      j := FirstStageWithout(cat, base, n, stack, k - 1);
    }
  }

  /** If n is clear of the stack, its requirements are met by bundles that are clear of the stack with n on it. */
  lemma ClearAllBelow(cat: Catalog, base: set<string>, n: string, stack: set<string>) returns (below: set<string>)
    requires Clear(cat, base, n, stack) && n !in base
    ensures Satisfied(cat, n, below)
    ensures forall d :: d in below ==> Clear(cat, base, d, stack + {n}) && Clear(cat, base, d, stack)
  {
    hide Satisfied;
    var i: nat :| n in StageWithout(cat, base, stack, i);
    var k := FirstStageWithout(cat, base, n, stack, i);
    below := StageWithout(cat, base, stack, k - 1);
    SameWithout(cat, base, n, stack, k - 1);
    assert below == StageWithout(cat, base, stack + {n}, k - 1);
  }

  /** The Extends-Bundle relation among loaded bundles is acyclic: depth ranks it. */
  ghost predicate ExtendsRanked(cat: Catalog, depth: map<string, nat>) {
    && cat.Keys <= depth.Keys
    && forall n :: n in cat && Extends(cat, cat[n].manifest) ==> depth[cat[n].manifest.extendedBundle] < depth[n]
  }

  lemma ExtendsDeeper(cat: Catalog, depth: map<string, nat>, n: string)
    requires ExtendsRanked(cat, depth) && n in cat && cat[n].manifest.extendedBundle != "" && cat[n].manifest.extendedBundle in cat
    ensures n in depth && cat[n].manifest.extendedBundle in depth
    ensures depth[cat[n].manifest.extendedBundle] < depth[n]
  {
  }

  /** The recorded dependencies after recording one more, unless its name is already there. */
  function Recording(deps: seq<ResolvedDependency>, dep: ResolvedDependency): (r: seq<ResolvedDependency>)
    ensures NoDuplicates(deps) ==> NoDuplicates(r)
    ensures Names(r) == Names(deps) + {dep.symbolicName}
  {
    if dep.symbolicName in Names(deps) then deps
    else
      NamesAppend(deps, dep);
      deps + [dep]
  }

  lemma NamesAppend(deps: seq<ResolvedDependency>, dep: ResolvedDependency)
    ensures Names(deps + [dep]) == Names(deps) + {dep.symbolicName}
  {
    var all := deps + [dep];
    assert all[|deps|] == dep;
    forall n | n in Names(deps) ensures n in Names(all) {
      var i :| 0 <= i < |deps| && deps[i].symbolicName == n;
      assert all[i] == deps[i];
    }
  }

  /** Changing what an unresolved bundle has recorded is no progress and no harm. */
  lemma ScratchProgress(cat: Catalog, w: World, o: seq<string>, n: string, info: Info)
    requires Inv(cat, w, o) && n in cat && w[n].state == info.state == Installed
    ensures Progress(cat, w, o, w[n := info], o) && Inv(cat, w[n := info], o)
    ensures OthersUntouched(w, w[n := info], [n])
  {
    ProgressKeepsInv(cat, w, o, w[n := info], o);
  }

  lemma OrderGrows(cat: Catalog, w: World, o: seq<string>, w': World, o': seq<string>)
    requires Progress(cat, w, o, w', o')
    ensures o <= o' && w.Keys == w'.Keys == cat.Keys
  {
  }

  /** The last step of a successful resolution: n becomes RESOLVED unless it already is. */
  lemma CommitProgress(cat: Catalog, w: World, o: seq<string>, w': World, o': seq<string>, n: string, info: Info)
    requires Inv(cat, w, o) && Progress(cat, w, o, w', o') && OthersUntouched(w, w', o'[|o|..] + [n])
    requires Inv(cat, w', o')
    requires n in cat && w'[n].state == Installed && Satisfied(cat, n, ToSet(o'))
    requires info.state == Resolved && Recorded(cat, n, info.deps, info.providers)
    ensures Progress(cat, w, o, w'[n := info], o' + [n]) && Inv(cat, w'[n := info], o' + [n])
    ensures OthersUntouched(w, w'[n := info], (o' + [n])[|o|..])
  {
    hide Satisfied, Recorded, Progress, Ranked;
    assert (o' + [n])[|o|..] == o'[|o|..] + [n] by {
      OrderGrows(cat, w, o, w', o');
    }
    ProgressStep(cat, w', o', n, info);
    ProgressTransitive(cat, w, o, w', o', w'[n := info], o' + [n]);
    ProgressKeepsInv(cat, w', o', w'[n := info], o' + [n]);
  }

  lemma ScratchUntouched(w: World, w1: World, w': World, n: string, added: seq<string>)
    requires OthersUntouched(w, w1, [n]) && OthersUntouched(w1, w', added + [n])
    ensures OthersUntouched(w, w', added + [n])
  {
  }

  lemma NothingHappened(cat: Catalog, w: World, o: seq<string>)
    requires w.Keys == cat.Keys
    ensures Progress(cat, w, o, w, o) && OthersUntouched(w, w, o[|o|..])
  {
  }

  lemma UntouchedWeaken(w: World, w': World, added: seq<string>, n: string)
    requires OthersUntouched(w, w', added)
    ensures OthersUntouched(w, w', added + [n])
  {
  }

  /** A bundle that is INSTALLED before and after a step did not become resolved in it. */
  lemma StillInstalled(cat: Catalog, w: World, o: seq<string>, w': World, o': seq<string>, n: string)
    requires Inv(cat, w', o') && Progress(cat, w, o, w', o') && OthersUntouched(w, w', o'[|o|..])
    requires n in w && w'[n].state == Installed
    ensures w'[n] == w[n]
  {
    hide NewlyResolved, Ranked;
    assert o' == o + o'[|o|..];
  }

  /** If n became RESOLVED on the way already, it is among the bundles that did. */
  lemma CommittedBefore(cat: Catalog, w: World, o: seq<string>, w': World, o': seq<string>, n: string)
    requires Inv(cat, w, o) && n in w && w[n].state == Installed && n in o' && Progress(cat, w, o, w', o')
    requires OthersUntouched(w, w', o'[|o|..] + [n])
    ensures n in o'[|o|..] && OthersUntouched(w, w', o'[|o|..])
  {
    assert o' == o + o'[|o|..];
  }

  function NamesOf(deps: seq<Dependency>): set<string> {
    set i | 0 <= i < |deps| :: deps[i].symbolicName
  }

  /** The recorded dependencies are current, free of duplicates, and name exactly "names". */
  ghost predicate Collected(cat: Catalog, deps: seq<ResolvedDependency>, names: set<string>) {
    NoDuplicates(deps) && AllCurrent(cat, deps) && Names(deps) == names
  }

  lemma CollectOne(cat: Catalog, deps: seq<ResolvedDependency>, names: set<string>, dep: ResolvedDependency)
    requires Collected(cat, deps, names) && Current(cat, dep)
    ensures Collected(cat, Recording(deps, dep), names + {dep.symbolicName})
  {
  }

  lemma NamesOfPrefix(deps: seq<Dependency>, i: nat)
    requires i < |deps|
    ensures NamesOf(deps[..i + 1]) == NamesOf(deps[..i]) + {deps[i].symbolicName}
  {
    assert deps[..i + 1][i] == deps[i];
    forall n | n in NamesOf(deps[..i]) ensures n in NamesOf(deps[..i + 1]) {
      var k :| 0 <= k < i && deps[..i][k].symbolicName == n;
      assert deps[..i + 1][k] == deps[..i][k];
    }
  }

  ghost predicate AllMet(cat: Catalog, deps: seq<Dependency>, r: set<string>) {
    forall i :: 0 <= i < |deps| ==> BundleMet(cat, deps[i], r)
  }

  lemma AllMetExtend(cat: Catalog, deps: seq<Dependency>, i: nat, r: set<string>, r': set<string>)
    requires i < |deps| && r <= r' && AllMet(cat, deps[..i], r) && BundleMet(cat, deps[i], r')
    ensures AllMet(cat, deps[..i + 1], r')
  {
    forall k | 0 <= k < i + 1 ensures BundleMet(cat, deps[k], r') {
      if k < i {
        assert BundleMet(cat, deps[..i][k], r);
      }
    }
  }

  lemma UntouchedChain(w: World, o: seq<string>, w1: World, o1: seq<string>, w2: World, o2: seq<string>, n: string)
    requires o <= o1 <= o2
    requires OthersUntouched(w, w1, o1[|o|..] + [n]) && OthersUntouched(w1, w2, o2[|o1|..] + [n])
    ensures OthersUntouched(w, w2, o2[|o|..] + [n])
  {
    assert o2[|o|..] == o1[|o|..] + o2[|o1|..];
  }

  function ExactDependencies(bundles: seq<ResolvedDependency>): (deps: seq<Dependency>)
    ensures |deps| == |bundles|
    ensures forall i :: 0 <= i < |deps| ==> deps[i] == Dependency(bundles[i].symbolicName, Exactly(bundles[i].version))
  {
    seq(|bundles|, i requires 0 <= i < |bundles| => Dependency(bundles[i].symbolicName, Exactly(bundles[i].version)))
  }

  lemma ExactNames(bundles: seq<ResolvedDependency>)
    ensures NamesOf(ExactDependencies(bundles)) == Names(bundles)
  {
    var deps := ExactDependencies(bundles);
    forall n | n in Names(bundles) ensures n in NamesOf(deps) {
      var i :| 0 <= i < |bundles| && bundles[i].symbolicName == n;
      assert deps[i].symbolicName == n;
    }
  }

  lemma ExactMet(cat: Catalog, bundles: seq<ResolvedDependency>, r: set<string>)
    requires AllMet(cat, ExactDependencies(bundles), r)
    ensures Names(bundles) <= r
  {
    forall i | 0 <= i < |bundles| ensures bundles[i].symbolicName in r {
      assert BundleMet(cat, ExactDependencies(bundles)[i], r);
    }
  }

  function ProviderNames(providers: seq<ModuleProvider>): set<string> {
    set i, n | 0 <= i < |providers| && n in Names(providers[i].bundles) :: n
  }

  lemma ProviderNamesPrefix(providers: seq<ModuleProvider>, i: nat)
    requires i < |providers|
    ensures ProviderNames(providers[..i + 1]) == ProviderNames(providers[..i]) + Names(providers[i].bundles)
  {
    var longer, shorter := providers[..i + 1], providers[..i];
    assert longer[i] == providers[i];
    forall n | n in ProviderNames(shorter) ensures n in ProviderNames(longer) {
      var k :| 0 <= k < i && n in Names(shorter[k].bundles);
      assert longer[k] == shorter[k];
    }
    forall n | n in ProviderNames(longer) && n !in Names(providers[i].bundles) ensures n in ProviderNames(shorter) {
      var k :| 0 <= k < i + 1 && n in Names(longer[k].bundles);
      assert shorter[k] == longer[k];
    }
  }

  /** Every module requirement has at least one loaded provider. */
  ghost predicate ModulesProvided(cat: Catalog, modules: seq<Dependency>) {
    forall i :: 0 <= i < |modules| ==> Providers(cat, modules[i]) != {}
  }

  ghost predicate ModulesFound(cat: Catalog, modules: seq<Dependency>, providers: seq<ModuleProvider>) {
    ModulesProvided(cat, modules) && ProvidersRecorded(cat, modules, providers)
  }

  /** Resolved provider bundles and resolved required bundles are all that a bundle needs. */
  lemma NeedsCollected(cat: Catalog, m: Manifest, providers: seq<ModuleProvider>)
    requires ProvidersRecorded(cat, m.requiredModules, providers)
    ensures ProviderNames(providers) + NamesOf(m.requiredBundles) == Needs(cat, m)
  {
    forall i | 0 <= i < |providers| ensures Names(providers[i].bundles) == Providers(cat, m.requiredModules[i]) {
      assert ProviderRecorded(cat, m.requiredModules[i], providers[i]);
    }
  }

  lemma ModulesAreMet(cat: Catalog, m: Manifest, providers: seq<ModuleProvider>, r: set<string>)
    requires ModulesFound(cat, m.requiredModules, providers) && ProviderNames(providers) <= r
    ensures ModulesMet(cat, m, r)
  {
    forall i | 0 <= i < |m.requiredModules| ensures Providers(cat, m.requiredModules[i]) <= r {
      assert ProviderRecorded(cat, m.requiredModules[i], providers[i]);
      assert Names(providers[i].bundles) <= ProviderNames(providers);
    }
  }

  /** A step of n's own records after a nested resolution. */
  lemma StayChain(cat: Catalog, w: World, o: seq<string>, w1: World, o1: seq<string>, w2: World, n: string)
    requires o <= o1 && Progress(cat, w, o, w1, o1) && Progress(cat, w1, o1, w2, o1)
    requires OthersUntouched(w, w1, o1[|o|..] + [n]) && OthersUntouched(w1, w2, [n])
    ensures Progress(cat, w, o, w2, o1) && OthersUntouched(w, w2, o1[|o|..] + [n])
  {
    ProgressTransitive(cat, w, o, w1, o1, w2, o1);
  }

  /** The record made of a dependency on a loaded bundle. */
  ghost function Resolving(cat: Catalog, name: string): ResolvedDependency
    requires name in cat
  {
    ResolvedDependency(name, cat[name].manifest.version)
  }

  /** The loaded bundles include one that the dependency accepts. */
  ghost predicate Wanted(cat: Catalog, dep: Dependency) {
    dep.symbolicName in cat && Accepts(dep, cat[dep.symbolicName].manifest)
  }

  /** Every dependency is wanted, and nothing on the stack has to come before it. */
  ghost predicate AllClear(cat: Catalog, deps: seq<Dependency>, base: set<string>, stack: set<string>) {
    forall i :: 0 <= i < |deps| ==> Wanted(cat, deps[i]) && Clear(cat, base, deps[i].symbolicName, stack)
  }

  lemma AllClearAt(cat: Catalog, deps: seq<Dependency>, base: set<string>, stack: set<string>, i: nat)
    requires AllClear(cat, deps, base, stack) && i < |deps|
    ensures Wanted(cat, deps[i]) && Clear(cat, base, deps[i].symbolicName, stack)
  {
  }

  ghost predicate ProvidersClear(cat: Catalog, providers: seq<ModuleProvider>, base: set<string>, stack: set<string>) {
    forall i :: 0 <= i < |providers| ==> AllClear(cat, ExactDependencies(providers[i].bundles), base, stack)
  }

  lemma ProvidersClearAt(cat: Catalog, providers: seq<ModuleProvider>, base: set<string>, stack: set<string>, i: nat)
    requires ProvidersClear(cat, providers, base, stack) && i < |providers|
    ensures AllClear(cat, ExactDependencies(providers[i].bundles), base, stack)
  {
  }

  lemma WantedMeans(cat: Catalog, dep: Dependency)
    ensures Wanted(cat, dep) <==> dep.symbolicName in cat && Accepts(dep, cat[dep.symbolicName].manifest)
  {
  }

  lemma WantedIsLoaded(cat: Catalog, dep: Dependency)
    requires Wanted(cat, dep)
    ensures dep.symbolicName in cat
  {
  }

  lemma WantedIsMet(cat: Catalog, dep: Dependency, r: set<string>)
    requires Wanted(cat, dep) && dep.symbolicName in r
    ensures BundleMet(cat, dep, r)
  {
  }

  lemma MetIsLoaded(cat: Catalog, dep: Dependency, r: set<string>)
    requires BundleMet(cat, dep, r)
    ensures dep.symbolicName in cat
  {
  }

  lemma BaseStill(base: set<string>, o: seq<string>, o': seq<string>)
    requires o <= o' && base <= ToSet(o)
    ensures base <= ToSet(o') && ToSet(o) <= ToSet(o')
  {
  }

  lemma CollectNext(cat: Catalog, names: set<string>, deps: seq<Dependency>, i: nat, before: seq<ResolvedDependency>, after: seq<ResolvedDependency>)
    requires i < |deps| && deps[i].symbolicName in cat
    requires Collected(cat, before, names + NamesOf(deps[..i]))
    requires after == Recording(before, Resolving(cat, deps[i].symbolicName))
    ensures Collected(cat, after, names + NamesOf(deps[..i + 1]))
  {
    NamesOfPrefix(deps, i);
    CollectOne(cat, before, names + NamesOf(deps[..i]), Resolving(cat, deps[i].symbolicName));
    assert names + NamesOf(deps[..i]) + {deps[i].symbolicName} == names + NamesOf(deps[..i + 1]);
  }

  lemma NothingYet(cat: Catalog, names: set<string>, deps: seq<Dependency>, providers: seq<ModuleProvider>, r: set<string>)
    ensures AllMet(cat, deps[..0], r)
    ensures names + NamesOf(deps[..0]) == names
    ensures names + ProviderNames(providers[..0]) == names && ProviderNames(providers[..0]) <= r
  {
  }

  lemma CollectProvider(cat: Catalog, names: set<string>, providers: seq<ModuleProvider>, i: nat, deps: seq<ResolvedDependency>, r: set<string>, r': set<string>)
    requires i < |providers| && r <= r' && ProviderNames(providers[..i]) <= r
    requires AllMet(cat, ExactDependencies(providers[i].bundles), r')
    requires Collected(cat, deps, names + ProviderNames(providers[..i]) + NamesOf(ExactDependencies(providers[i].bundles)))
    ensures Collected(cat, deps, names + ProviderNames(providers[..i + 1]))
    ensures ProviderNames(providers[..i + 1]) <= r'
  {
    ProviderNamesPrefix(providers, i);
    ExactNames(providers[i].bundles);
    ExactMet(cat, providers[i].bundles, r');
    assert names + ProviderNames(providers[..i]) + Names(providers[i].bundles) == names + ProviderNames(providers[..i + 1]);
  }

  /** A resolvable bundle's requirements are clear while it is on the stack itself. */
  lemma RequirementsClear(cat: Catalog, base: set<string>, n: string, stack: set<string>, providers: seq<ModuleProvider>)
    requires Clear(cat, base, n, stack) && n !in base && n in cat
    requires ProvidersRecorded(cat, cat[n].manifest.requiredModules, providers)
    ensures ProvidersClear(cat, providers, base, stack + {n})
  {
    var m := cat[n].manifest;
    var below := ClearAllBelow(cat, base, n, stack);
    forall i | 0 <= i < |providers| ensures AllClear(cat, ExactDependencies(providers[i].bundles), base, stack + {n}) {
      assert ProviderRecorded(cat, m.requiredModules[i], providers[i]);
      var deps := ExactDependencies(providers[i].bundles);
      forall k | 0 <= k < |deps| ensures Wanted(cat, deps[k]) && Clear(cat, base, deps[k].symbolicName, stack + {n}) {
        assert Current(cat, providers[i].bundles[k]);
        assert deps[k].symbolicName in Names(providers[i].bundles);
      }
    }
  }

  lemma ModulesAvailable(cat: Catalog, base: set<string>, n: string, stack: set<string>)
    requires Clear(cat, base, n, stack) && n !in base && n in cat
    ensures ModulesProvided(cat, cat[n].manifest.requiredModules)
  {
    var below := ClearAllBelow(cat, base, n, stack);
  }

  /** A bundle whose extended bundle is sealed or still unresolved did not become resolved. */
  lemma NotBefore(cat: Catalog, w: World, o: seq<string>, w': World, o': seq<string>, n: string)
    requires Inv(cat, w', o') && Progress(cat, w, o, w', o') && n in cat && Extends(cat, cat[n].manifest)
    requires cat[cat[n].manifest.extendedBundle].manifest.sealed || cat[n].manifest.extendedBundle !in o'
    ensures w'[n].state == w[n].state
  {
    forall i | |o| <= i < |o'| ensures o'[i] != n {
      assert NewlyResolved(cat, w, w', o', i);
    }
  }

  lemma ExtendsMeans(cat: Catalog, m: Manifest)
    ensures Extends(cat, m) <==> m.extendedBundle != "" && m.extendedBundle in cat
  {
  }

  lemma NothingToExtend(cat: Catalog, m: Manifest, r: set<string>)
    requires m.extendedBundle == "" || m.extendedBundle !in cat
    ensures ExtensionMet(cat, m, r)
  {
  }

  lemma PrefixSet(o: seq<string>, o': seq<string>)
    requires o <= o'
    ensures ToSet(o) <= ToSet(o')
  {
  }

  lemma AllSatisfied(cat: Catalog, n: string, r: set<string>, r': set<string>)
    requires RequirementsMet(cat, n, r) && r <= r' && n in cat
    requires cat[n].librariesInstall && ExtensionMet(cat, cat[n].manifest, r')
    ensures Satisfied(cat, n, r')
  {
  }

  lemma ClearExtension(cat: Catalog, base: set<string>, n: string, stack: set<string>)
    requires Clear(cat, base, n, stack) && n !in base && n in cat
    ensures cat[n].librariesInstall
    ensures Extends(cat, cat[n].manifest) ==>
              var e := cat[n].manifest.extendedBundle; Clear(cat, base, e, stack) && !cat[e].manifest.sealed
  {
    var below := ClearAllBelow(cat, base, n, stack);
  }

  /** n's records are complete before and after a resolution during which n itself may have been resolved. */
  lemma StillRecorded(cat: Catalog, w: World, o: seq<string>, w': World, o': seq<string>, n: string)
    requires Progress(cat, w, o, w', o') && OthersUntouched(w, w', o'[|o|..])
    requires n in w && Recorded(cat, n, w[n].deps, w[n].providers)
    ensures n in w' && Recorded(cat, n, w'[n].deps, w'[n].providers)
    ensures w'[n].state == w[n].state || (w'[n].state == Resolved && n in o')
  {
    if n in o'[|o|..] {
      var i :| |o| <= i < |o'| && o'[i] == n;
      assert NewlyResolved(cat, w, w', o', i);
    }
  }

  /** What n requires is there and can be resolved without the bundles on the stack. */
  ghost predicate RequirementsAreClear(cat: Catalog, base: set<string>, n: string, stack: set<string>) {
    n in cat
    && var m := cat[n].manifest;
    && ModulesProvided(cat, m.requiredModules)
    && (forall providers :: ProvidersRecorded(cat, m.requiredModules, providers) ==> ProvidersClear(cat, providers, base, stack))
    && AllClear(cat, m.requiredBundles, base, stack)
  }

  lemma RequirementsClearParts(cat: Catalog, base: set<string>, n: string, stack: set<string>, providers: seq<ModuleProvider>)
    requires RequirementsAreClear(cat, base, n, stack)
    ensures n in cat && ModulesProvided(cat, cat[n].manifest.requiredModules) && AllClear(cat, cat[n].manifest.requiredBundles, base, stack)
    ensures ModulesFound(cat, cat[n].manifest.requiredModules, providers) ==> ProvidersClear(cat, providers, base, stack)
  {
  }

  lemma ClearRequirements(cat: Catalog, base: set<string>, n: string, stack: set<string>)
    requires Clear(cat, base, n, stack) && n !in base && n in cat
    ensures RequirementsAreClear(cat, base, n, stack + {n})
  {
    ModulesAvailable(cat, base, n, stack);
    forall providers | ProvidersRecorded(cat, cat[n].manifest.requiredModules, providers)
      ensures ProvidersClear(cat, providers, base, stack + {n})
    {
      RequirementsClear(cat, base, n, stack, providers);
    }
    assert AllClear(cat, cat[n].manifest.requiredBundles, base, stack + {n}) by {
      var m := cat[n].manifest;
      var below := ClearAllBelow(cat, base, n, stack);
      forall i | 0 <= i < |m.requiredBundles| ensures Wanted(cat, m.requiredBundles[i]) && Clear(cat, base, m.requiredBundles[i].symbolicName, stack + {n}) {
        assert BundleMet(cat, m.requiredBundles[i], below);
      }
    }
  }

  lemma CollectedNothing(cat: Catalog)
    ensures Collected(cat, [], {})
  {
  }

  lemma Smaller<T>(s: set<T>, t: set<T>)
    requires s < t
    ensures |s| < |t|
  {
    if s != {} {
      var x :| x in s;
      Smaller(s - {x}, t - {x});
    }
  }

  /** Modules and bundles of n are met by r, and n has written down what it found. */
  ghost predicate RequirementsMet(cat: Catalog, n: string, r: set<string>) {
    n in cat && ModulesMet(cat, cat[n].manifest, r) && BundlesMet(cat, cat[n].manifest, r)
  }

  lemma RequirementsSettled(cat: Catalog, n: string, providers: seq<ModuleProvider>, deps: seq<ResolvedDependency>, r: set<string>, r': set<string>)
    requires n in cat && r <= r'
    requires ModulesFound(cat, cat[n].manifest.requiredModules, providers) && ProviderNames(providers) <= r
    requires AllMet(cat, cat[n].manifest.requiredBundles, r')
    requires Collected(cat, deps, {} + ProviderNames(providers) + NamesOf(cat[n].manifest.requiredBundles))
    ensures RequirementsMet(cat, n, r') && Recorded(cat, n, deps, providers)
  {
    NeedsCollected(cat, cat[n].manifest, providers);
    ModulesAreMet(cat, cat[n].manifest, providers, r');
  }

  /** All resolvable ones among the given bundles are resolved. */
  ghost predicate AllTried(cat: Catalog, base: set<string>, names: seq<string>, resolved: set<string>) {
    forall n :: n in names && Resolvable(cat, base, n) ==> n in resolved
  }

  lemma AllTriedNone(cat: Catalog, base: set<string>, resolved: set<string>)
    ensures AllTried(cat, base, [], resolved)
  {
  }

  lemma AllTriedNext(cat: Catalog, base: set<string>, names: seq<string>, n: string, r: set<string>, r': set<string>)
    requires AllTried(cat, base, names, r) && r <= r'
    requires Resolvable(cat, base, n) ==> n in r'
    ensures AllTried(cat, base, names + [n], r')
  {
  }

  /** Once every bundle has been tried, the resolved ones are exactly the resolvable ones. */
  lemma ExactlyResolvable(cat: Catalog, w: World, o: seq<string>, w': World, o': seq<string>, names: seq<string>)
    requires Inv(cat, w, o) && Progress(cat, w, o, w', o') && ToSet(names) == cat.Keys
    requires AllTried(cat, ToSet(o), names, ToSet(o'))
    ensures ToSet(o') == ResolvableSet(cat, ToSet(o))
  {
    ProgressSound(cat, w, o, w', o');
    forall n | n in o' ensures n in ResolvableSet(cat, ToSet(o)) {
      ResolvableSetComplete(cat, ToSet(o), n);
    }
    forall n | n in ResolvableSet(cat, ToSet(o)) ensures n in o' {
      if n in cat {
        assert n in ToSet(names);
      }
    }
  }
}
