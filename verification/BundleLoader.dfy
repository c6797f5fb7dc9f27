/**
 * Bundles and the loader that resolves, starts, stops and unloads them. The two
 * classes call each other: Bundle.Resolve hands itself to the loader, which resolves
 * the dependencies and comes back to Bundle.Resolve for each of them.
 */
module Loading {
  import opened Versions
  import opened Resolution
  import opened Lifecycle
  import opened ResolveSteps
  import opened StartStop
  import opened Ordering

  datatype Error =
    | StateError
    | AssertionViolation
    | ModuleNotAvailable(name: string)
    | BundleNotAvailable(name: string)
    | VersionNotAvailable(name: string)
    | CircularReference(name: string, other: string)
    | LibraryInstallation
    | BundleSealed
    | UnknownBundle(name: string)
    | NoLongerAvailable(name: string)
    | ActivatorFailed
    | VersionConflict(name: string)

  datatype Outcome = Ok | Thrown(error: Error)

  ghost function StackNames(resolving: set<Bundle>): set<string> {
    set b | b in resolving :: b.Name()
  }

  /** How many loaded bundles are not being resolved. */
  ghost function Unvisited(all: set<Bundle>, resolving: set<Bundle>): nat {
    |all - resolving|
  }

  function BundleNames(bs: seq<Bundle>): (names: seq<string>)
    ensures |names| == |bs| && forall i :: 0 <= i < |bs| ==> names[i] == bs[i].Name()
  {
    seq(|bs|, i requires 0 <= i < |bs| => bs[i].Name())
  }

  lemma InList(bs: seq<Bundle>, i: nat)
    requires i < |bs|
    ensures bs[i] in ToSet(bs)
  {
  }

  lemma NamesNext(bs: seq<Bundle>, i: nat)
    requires i < |bs|
    ensures BundleNames(bs[..i + 1]) == BundleNames(bs[..i]) + [bs[i].Name()]
  {
  }

  lemma WholeList(bs: seq<Bundle>)
    ensures bs[..|bs|] == bs
  {
  }

  lemma NothingStacked()
    ensures StackNames({}) == {}
  {
  }

  /** The bundle map, the set of loaded bundles and the catalog describe the same thing. */
  ghost predicate IndexOf(loader: BundleLoader, bundles: map<string, Bundle>, all: set<Bundle>, catalog: Catalog) {
    && (forall n :: n in bundles ==> bundles[n] in all && bundles[n].Name() == n)
    && (forall b :: b in all ==> b.loader == loader && b.Name() in bundles && bundles[b.Name()] == b)
    && catalog.Keys == bundles.Keys
    && (forall n :: n in bundles ==> catalog[n] == bundles[n].unit)
  }

  lemma IndexPlus(loader: BundleLoader, bundles: map<string, Bundle>, all: set<Bundle>, catalog: Catalog, b: Bundle)
    requires IndexOf(loader, bundles, all, catalog) && b.loader == loader && b.Name() !in bundles
    ensures IndexOf(loader, bundles[b.Name() := b], all + {b}, catalog[b.Name() := b.unit])
    ensures b.Name() !in catalog && forall c :: c in all ==> c.Name() != b.Name()
  {
  }

  lemma IndexMinus(loader: BundleLoader, bundles: map<string, Bundle>, all: set<Bundle>, catalog: Catalog, b: Bundle)
    requires IndexOf(loader, bundles, all, catalog) && b in all
    ensures IndexOf(loader, bundles - {b.Name()}, all - {b}, catalog - {b.Name()})
    ensures b.Name() in catalog && forall c :: c in all && c != b ==> c.Name() != b.Name()
  {
  }

  lemma FirstOfRest(bs: seq<Bundle>, i: nat)
    requires i < |bs| && Distinct(bs)
    ensures bs[i] in ToSet(bs[i..])
    ensures ToSet(bs[i..]) - {bs[i]} == ToSet(bs[i + 1..])
  {
    assert bs[i..] == [bs[i]] + bs[i + 1..];
  }

  ghost predicate LevelsSorted(bs: seq<Bundle>) {
    forall i, j :: 0 <= i < j < |bs| ==> NotAfter(bs[i].unit.manifest.runLevel, bs[j].unit.manifest.runLevel)
  }

  lemma PushSmaller(all: set<Bundle>, resolving: set<Bundle>, b: Bundle)
    requires b in all && b !in resolving
    ensures Unvisited(all, resolving + {b}) < Unvisited(all, resolving)
    ensures StackNames(resolving + {b}) == StackNames(resolving) + {b.Name()}
  {
    assert all - (resolving + {b}) < all - resolving;
    Smaller(all - (resolving + {b}), all - resolving);
  }

  class Bundle {
    const unit: Unit
    const loader: BundleLoader
    var state: State
    var resolvedDependencies: seq<ResolvedDependency>
    var moduleProviders: seq<ModuleProvider>
    var extensionBundles: set<Bundle>

    constructor (loader: BundleLoader, unit: Unit)
      ensures this.loader == loader && this.unit == unit
      ensures state == Installed && resolvedDependencies == [] && moduleProviders == [] && extensionBundles == {}
    {
      this.loader := loader;
      this.unit := unit;
      state := Installed;
      resolvedDependencies := [];
      moduleProviders := [];
      extensionBundles := {};
    }

    function Name(): string {
      unit.manifest.symbolicName
    }

    function Info(): Info
      reads this
    {
      Lifecycle.Info(state, resolvedDependencies, moduleProviders)
    }

    ghost predicate Loaded()
      reads loader`all
    {
      this in loader.all
    }

    lemma LoadedFacts()
      requires loader.Valid() && Loaded()
      ensures Inv(loader.catalog, loader.world, loader.order)
      ensures Name() in loader.world && loader.world[Name()] == Info() == Lifecycle.Info(state, resolvedDependencies, moduleProviders)
      ensures this in loader.all && Name() in loader.catalog && loader.catalog[Name()] == unit
    {
    }

    lemma Entry()
      requires loader.Valid() && this in loader.all
      ensures Name() in loader.world && loader.world[Name()] == Lifecycle.Info(state, resolvedDependencies, moduleProviders)
      ensures Name() in loader.catalog && loader.catalog[Name()] == unit && Loaded()
    {
    }

    lemma IsInOrder()
      requires loader.Valid() && this in loader.all && state.IsResolved()
      ensures Name() in ToSet(loader.order)
    {
      Entry();
    }

    lemma IsInstalled()
      requires loader.Valid() && this in loader.all && !state.IsResolved()
      ensures state == Installed
    {
      Entry();
    }

    lemma OnStack()
      requires this in loader.resolving
      ensures Name() in StackNames(loader.resolving)
    {
    }

    lemma NothingToJoin()
      requires loader.Valid() && (unit.manifest.extendedBundle == "" || unit.manifest.extendedBundle !in loader.bundles)
      ensures Joined()
    {
    }

    lemma JoinedTo(e: Bundle)
      requires loader.Valid() && e in loader.all && e.Name() == unit.manifest.extendedBundle && this in e.extensionBundles
      ensures Joined()
    {
    }

    /** Loaded bundles have different names. */
    lemma OthersElsewhere()
      requires loader.Indexed() && Loaded()
      ensures forall b :: b in loader.all && b != this ==> b.Name() != Name()
    {
    }

    lemma NotInBase(base: set<string>)
      requires loader.Valid() && Loaded() && state == Installed && base <= ToSet(loader.order)
      ensures Name() !in base && Name() in loader.catalog && loader.catalog[Name()] == unit && this in loader.all
    {
      LoadedFacts();
    }

    method AddResolvedDependency(dep: ResolvedDependency)
      requires loader.Valid() && Loaded() && state == Installed
      modifies this`resolvedDependencies, loader`world
      ensures loader.Valid()
      ensures resolvedDependencies == Recording(old(resolvedDependencies), dep)
      ensures Progress(loader.catalog, old(loader.world), loader.order, loader.world, loader.order)
      ensures OthersUntouched(old(loader.world), loader.world, [Name()])
    {
      hide Inv, Progress, OthersUntouched;
      LoadedFacts();
      var i := 0;
      while i < |resolvedDependencies|
        invariant 0 <= i <= |resolvedDependencies|
        invariant forall k :: 0 <= k < i ==> resolvedDependencies[k].symbolicName != dep.symbolicName
        invariant unchanged(this) && unchanged(loader)
      {
        if resolvedDependencies[i].symbolicName == dep.symbolicName {
          Note(loader.world);
          return;
        }
        i := i + 1;
      }
      ghost var w := loader.world;
      resolvedDependencies := resolvedDependencies + [dep];
      Note(w);
    }

    /** Brings the loader's picture of the world up to date after a change of this bundle's records. */
    ghost method Note(w: World)
      requires loader.Indexed() && Loaded() && state == Installed && w == loader.world
      requires Inv(loader.catalog, w, loader.order)
      requires Name() in w && Name() in loader.catalog && w[Name()].state == Installed
      requires forall b :: b in loader.all && b != this ==> b.Name() in w && w[b.Name()] == b.Info()
      requires loader.StackValid()
      modifies loader`world
      ensures loader.Valid()
      ensures Progress(loader.catalog, w, loader.order, loader.world, loader.order)
      ensures OthersUntouched(w, loader.world, [Name()])
    {
      hide Inv, Progress, OthersUntouched, BundleLoader.Indexed;
      ScratchProgress(loader.catalog, w, loader.order, Name(), Info());
      OthersElsewhere();
      loader.world := w[Name() := Info()];
    }

    method ClearResolvedDependencies()
      requires loader.Valid() && Loaded() && state == Installed
      modifies this`resolvedDependencies, loader`world
      ensures loader.Valid() && resolvedDependencies == []
      ensures Progress(loader.catalog, old(loader.world), loader.order, loader.world, loader.order)
      ensures OthersUntouched(old(loader.world), loader.world, [Name()])
    {
      hide Inv, Progress, OthersUntouched;
      LoadedFacts();
      resolvedDependencies := [];
      Note(loader.world);
    }

    method SetModuleProviders(providers: seq<ModuleProvider>)
      requires loader.Valid() && Loaded() && state == Installed
      modifies this`moduleProviders, loader`world
      ensures loader.Valid() && moduleProviders == providers
      ensures Progress(loader.catalog, old(loader.world), loader.order, loader.world, loader.order)
      ensures OthersUntouched(old(loader.world), loader.world, [Name()])
    {
      hide Inv, Progress, OthersUntouched;
      LoadedFacts();
      moduleProviders := providers;
      Note(loader.world);
    }

    method AddExtensionBundle(extension: Bundle) returns (r: Outcome)
      requires loader.Valid()
      modifies this`extensionBundles
      ensures loader.Valid()
      ensures r.Ok? <==> !unit.manifest.sealed && state.IsResolved()
      ensures extensionBundles == old(extensionBundles) + if r.Ok? then {extension} else {}
    {
      hide Inv;
      if unit.manifest.sealed {
        return Thrown(BundleSealed);
      }
      if !state.IsResolved() {
        return Thrown(StateError);
      }
      extensionBundles := extensionBundles + {extension};
      return Ok;
    }

    /** Recorded among the extensions of the bundle it extends, if that one is loaded. */
    ghost predicate Joined()
      reads loader`bundles, loader`all, loader.all`extensionBundles
    {
      unit.manifest.extendedBundle != "" && unit.manifest.extendedBundle in loader.bundles
      && loader.bundles[unit.manifest.extendedBundle] in loader.all
      ==> this in loader.bundles[unit.manifest.extendedBundle].extensionBundles
    }

    /**
     * Resolves the bundle and, on the way, everything it needs. "base" is any set of
     * bundles resolved beforehand; whatever can be resolved from it and does not
     * depend on a bundle being resolved right now, is resolved.
     */
    method Resolve(ghost depth: map<string, nat>, ghost base: set<string>) returns (r: Outcome)
      requires loader.Valid() && Loaded()
      requires ExtendsRanked(loader.catalog, depth) && base <= ToSet(loader.order)
      modifies loader, loader.all
      ensures loader.Valid() && unchanged(loader`bundles, loader`all, loader`resolving, loader`catalog)
      ensures old(loader.order) <= loader.order
      ensures Progress(loader.catalog, old(loader.world), old(loader.order), loader.world, loader.order)
      ensures old(state) != Installed ==> r == Thrown(StateError) && unchanged(loader) && unchanged(loader.all)
      ensures r.Thrown? ==> state == old(state)
      ensures r.Ok? ==> state == Resolved && Joined()
      ensures r.Ok? ==> OthersUntouched(old(loader.world), loader.world, loader.order[|old(loader.order)|..])
      ensures old(state) == Installed && Clear(loader.catalog, base, Name(), StackNames(old(loader.resolving))) ==> r.Ok?
      decreases 2 * Unvisited(loader.all, loader.resolving), depth[Name()], 4
    {
      hide *;
      if state != Installed {
        assert loader.world.Keys == loader.catalog.Keys by {
          loader.ValidFacts();
        }
        NothingHappened(loader.catalog, loader.world, loader.order);
        return Thrown(StateError);
      }
      r := ResolveInstalled(depth, base);
    }

    /** The part of Resolve behind the state check. */
    method ResolveInstalled(ghost depth: map<string, nat>, ghost base: set<string>) returns (r: Outcome)
      requires loader.Valid() && Loaded() && state == Installed
      requires ExtendsRanked(loader.catalog, depth) && base <= ToSet(loader.order)
      modifies loader, loader.all
      ensures loader.Valid() && unchanged(loader`bundles, loader`all, loader`resolving, loader`catalog)
      ensures old(loader.order) <= loader.order
      ensures Progress(loader.catalog, old(loader.world), old(loader.order), loader.world, loader.order)
      ensures r.Thrown? ==> state == Installed
      ensures r.Ok? ==> state == Resolved && Joined()
      ensures r.Ok? ==> OthersUntouched(old(loader.world), loader.world, loader.order[|old(loader.order)|..])
      ensures Clear(loader.catalog, base, Name(), StackNames(old(loader.resolving))) ==> r.Ok?
      decreases 2 * Unvisited(loader.all, loader.resolving), depth[Name()], 3
    {
      hide Inv, Progress, Recorded, Satisfied, OthersUntouched, Clear, ExtendsRanked;
      hide BundleLoader.Valid, Unvisited, Joined;
      LoadedFacts();
      ghost var w, o := loader.world, loader.order;
      ClearResolvedDependencies();
      ghost var w1 := loader.world;
      r := loader.ResolveBundle(this, depth, base);
      ghost var w', o' := loader.world, loader.order;
      ProgressTransitive(loader.catalog, w, o, w1, o, w', o');
      if r.Ok? {
        ScratchUntouched(w, w1, w', Name(), o'[|o|..]);
        MarkResolved(w, o);
      }
    }

    method MarkResolved(ghost w: World, ghost o: seq<string>)
      requires loader.Valid() && Loaded()
      requires (state == Installed && this !in loader.resolving) || (state == Resolved && Name() in loader.order)
      requires Inv(loader.catalog, w, o) && Name() in w && w[Name()].state == Installed
      requires o <= loader.order && Progress(loader.catalog, w, o, loader.world, loader.order)
      requires OthersUntouched(w, loader.world, loader.order[|o|..] + [Name()])
      requires Satisfied(loader.catalog, Name(), ToSet(loader.order)) && Recorded(loader.catalog, Name(), resolvedDependencies, moduleProviders)
      requires Joined()
      modifies this`state, loader`order, loader`world
      ensures Joined()
      ensures loader.Valid() && state == Resolved && o <= loader.order
      ensures Progress(loader.catalog, w, o, loader.world, loader.order)
      ensures OthersUntouched(w, loader.world, loader.order[|o|..])
    {
      hide Inv, Progress, Recorded, Satisfied, OthersUntouched, Joined, BundleLoader.Indexed;
      OthersElsewhere();
      LoadedFacts();
      ghost var w', o' := loader.world, loader.order;
      if state == Installed {
        ghost var info := Info().(state := Resolved);
        CommitProgress(loader.catalog, w, o, w', o', Name(), info);
        loader.order := o' + [Name()];
        loader.world := w'[Name() := info];
        state := Resolved;
      } else {
        CommittedBefore(loader.catalog, w, o, w', o', Name());
      }
    }

    /** A change between states that count as resolved. */
    method SetState(s: State)
      requires loader.Valid() && Loaded()
      requires state != Installed && state != Uninstalled && s != Installed && s != Uninstalled
      modifies this`state, loader`world
      ensures loader.Valid() && state == s
      ensures Name() in old(loader.world) && loader.world == WithState(old(loader.world), Name(), s)
    {
      hide Inv, BundleLoader.Indexed;
      LoadedFacts();
      OthersElsewhere();
      StateKeepsInv(loader.catalog, loader.world, loader.order, Name(), s);
      loader.world := WithState(loader.world, Name(), s);
      state := s;
    }

    /**
     * Starts the bundle and, before it, its dependencies. When anything fails the bundle
     * goes back to RESOLVED; dependencies started by then stay ACTIVE.
     */
    method Start() returns (r: Outcome)
      requires loader.Valid() && Loaded()
      modifies loader.all`state, loader`world, loader`lastBundleStarted
      ensures loader.Valid()
      ensures Starts(loader.catalog, loader.order, old(loader.world), loader.world)
      ensures r.Thrown? ==> state == old(state)
      ensures r.Ok? ==> old(state) == Resolved && state == Active
      ensures old(state) == Resolved ==> Name() in loader.order
      ensures old(state) == Resolved ==> (r.Ok? <==> CanStart(loader.catalog, old(loader.world), loader.order, Name()))
      decreases Position(loader.order, Name()), 2
    {
      hide *;
      LoadedFacts();
      Entry();
      ghost var cat, w, o := loader.catalog, loader.world, loader.order;
      if state != Resolved {
        StartsRefl(cat, o, w);
        return Thrown(StateError);
      }
      ActiveCanStart(cat, o, w, Name());
      MaskedDependencies(cat, o, w, Name());
      SetState(Starting);
      r := loader.StartBundle(this);
      ghost var w2 := loader.world;
      if r.Ok? {
        SetState(Active);
        Unmask(cat, o, w, Name(), w2, Active);
      } else {
        SetState(Resolved);
        Unmask(cat, o, w, Name(), w2, Resolved);
      }
    }

    /** Stops an ACTIVE bundle; when its activator fails to stop, the bundle stays ACTIVE. */
    method Stop() returns (r: Outcome)
      requires loader.Valid() && Loaded()
      modifies this`state, loader`world
      ensures loader.Valid()
      ensures r.Ok? <==> old(state) == Active && unit.activatorStops
      ensures r.Ok? ==> state == Resolved && Name() in old(loader.world) && loader.world == WithState(old(loader.world), Name(), Resolved)
      ensures r.Thrown? ==> state == old(state) && loader.world == old(loader.world)
    {
      hide *;
      LoadedFacts();
      if state != Active {
        return Thrown(StateError);
      }
      ghost var w := loader.world;
      SetState(Stopping);
      StateTwice(w, Name(), Stopping, Active);
      StateTwice(w, Name(), Active, Active);
      StateTwice(w, Name(), Stopping, Resolved);
      r := loader.StopBundle(this);
      if r.Ok? {
        SetState(Resolved);
      } else {
        SetState(Active);
      }
    }
  }

  class BundleLoader {
    var bundles: map<string, Bundle>
    var resolving: set<Bundle>
    var lastBundleStarted: string
    ghost var all: set<Bundle>
    ghost var catalog: Catalog
    ghost var world: World
    ghost var order: seq<string>

    constructor ()
      ensures Valid() && bundles == map[] && resolving == {} && order == []
    {
      bundles := map[];
      resolving := {};
      lastBundleStarted := "";
      all := {};
      catalog := map[];
      world := map[];
      order := [];
    }

    ghost predicate Indexed()
      reads this`bundles, this`all, this`catalog
    {
      IndexOf(this, bundles, all, catalog)
    }

    /** The resolving set holds INSTALLED bundles. */
    ghost predicate StackValid()
      reads this`resolving, this`all, all
    {
      && resolving <= all
      && (forall b :: b in resolving ==> b.state == Installed)
    }

    ghost predicate Valid()
      reads this`bundles, this`resolving, this`all, this`catalog, this`world, this`order, all
    {
      && Indexed()
      && StackValid()
      && Inv(catalog, world, order)
      && (forall b :: b in all ==> b.Name() in world && world[b.Name()] == b.Info())
    }

    /** What holds even after a bundle was unloaded that others depend on. */
    ghost predicate Mirrored()
      reads this`bundles, this`resolving, this`all, this`catalog, this`world, all
    {
      && Indexed()
      && StackValid()
      && (forall b :: b in all ==> b.Name() in world && world[b.Name()] == b.Info())
    }

    lemma ValidMeans()
      ensures Valid() <==> Mirrored() && Inv(catalog, world, order)
    {
    }

    lemma ValidFacts()
      requires Valid()
      ensures Indexed() && resolving <= all && Inv(catalog, world, order) && world.Keys == catalog.Keys
    {
    }

    lemma MemberFacts(b: Bundle)
      requires Valid() && b in all
      ensures b.loader == this && b.Loaded()
    {
    }

    lemma FoundFacts(name: string)
      requires Valid()
      ensures name in bundles <==> name in catalog
      ensures name in bundles ==> var b := bundles[name]; b.loader == this && b.Loaded() && b.Name() == name && catalog[name] == b.unit
    {
    }

    function FindBundle(name: string): (b: Bundle?)
      reads this`bundles
      ensures b == if name in bundles then bundles[name] else null
    {
      if name in bundles then bundles[name] else null
    }

    method ResolveDependency(b: Bundle, dep: Dependency, ghost depth: map<string, nat>, ghost base: set<string>) returns (r: Outcome)
      requires Valid() && b in resolving
      requires ExtendsRanked(catalog, depth) && base <= ToSet(order)
      modifies this, all
      ensures Valid() && unchanged(this`bundles, this`all, this`resolving, this`catalog) && old(order) <= order
      ensures Progress(catalog, old(world), old(order), world, order)
      ensures r.Ok? ==> OthersUntouched(old(world), world, order[|old(order)|..] + [b.Name()])
      ensures r.Ok? ==> BundleMet(catalog, dep, ToSet(order))
      ensures r.Ok? ==> b.resolvedDependencies == Recording(old(b.resolvedDependencies), Resolving(catalog, dep.symbolicName))
      ensures r.Ok? ==> b.moduleProviders == old(b.moduleProviders)
      ensures Wanted(catalog, dep) && Clear(catalog, base, dep.symbolicName, StackNames(old(resolving))) ==> r.Ok?
      decreases 2 * Unvisited(all, resolving) + 1, 0, 2
    {
      hide *;
      ValidFacts();
      NothingHappened(catalog, world, order);
      FoundFacts(dep.symbolicName);
      WantedMeans(catalog, dep);
      var d := FindBundle(dep.symbolicName);
      if d == null {
        return Thrown(BundleNotAvailable(dep.symbolicName));
      }
      if !Accepts(dep, d.unit.manifest) {
        return Thrown(VersionNotAvailable(dep.symbolicName));
      }
      r := ResolveAccepted(b, dep, d, depth, base);
    }

    method ResolveAccepted(b: Bundle, dep: Dependency, d: Bundle, ghost depth: map<string, nat>, ghost base: set<string>) returns (r: Outcome)
      requires Valid() && b in resolving && d.loader == this && d.Loaded()
      requires Wanted(catalog, dep) && d.Name() == dep.symbolicName && catalog[d.Name()] == d.unit
      requires ExtendsRanked(catalog, depth) && base <= ToSet(order)
      modifies this, all
      ensures Valid() && unchanged(this`bundles, this`all, this`resolving, this`catalog) && old(order) <= order
      ensures Progress(catalog, old(world), old(order), world, order)
      ensures r.Ok? ==> OthersUntouched(old(world), world, order[|old(order)|..] + [b.Name()])
      ensures r.Ok? ==> BundleMet(catalog, dep, ToSet(order))
      ensures r.Ok? ==> b.resolvedDependencies == Recording(old(b.resolvedDependencies), Resolving(catalog, dep.symbolicName))
      ensures r.Ok? ==> b.moduleProviders == old(b.moduleProviders)
      ensures Clear(catalog, base, dep.symbolicName, StackNames(old(resolving))) ==> r.Ok?
      decreases 2 * Unvisited(all, resolving) + 1, 0, 1
    {
      hide *;
      ValidFacts();
      WantedIsLoaded(catalog, dep);
      ghost var w, o := world, order;
      r := ResolveUnlessResolved(b, d, depth, base);
      if r.Ok? {
        WantedIsMet(catalog, dep, ToSet(order));
        RecordDependency(b, d, w, o);
      }
    }

    /** Makes sure that d is resolved, which fails if d is being resolved already. */
    method ResolveUnlessResolved(b: Bundle, d: Bundle, ghost depth: map<string, nat>, ghost base: set<string>) returns (r: Outcome)
      requires Valid() && b in resolving && d.loader == this && d.Loaded()
      requires ExtendsRanked(catalog, depth) && base <= ToSet(order)
      modifies this, all
      ensures Valid() && unchanged(this`bundles, this`all, this`resolving, this`catalog) && old(order) <= order
      ensures Progress(catalog, old(world), old(order), world, order)
      ensures r.Ok? ==> OthersUntouched(old(world), world, order[|old(order)|..])
      ensures r.Ok? ==> d.Name() in ToSet(order) && unchanged(b`resolvedDependencies, b`moduleProviders)
      ensures Clear(catalog, base, d.Name(), StackNames(old(resolving))) ==> r.Ok?
      decreases 2 * Unvisited(all, resolving) + 1, 0, 0
    {
      hide Progress, OthersUntouched, ExtendsRanked, Covered, Distinct, Ranked, Clear, StackNames;
      ghost var w, o := world, order;
      assert world[d.Name()].state == d.state;
      if d.state.IsResolved() {
        NothingHappened(catalog, w, o);
        return Ok;
      }
      if d in resolving {
        NothingHappened(catalog, w, o);
        d.NotInBase(base);
        d.OnStack();
        NotClearOnStack(catalog, base, d.Name(), StackNames(resolving));
        return Thrown(CircularReference(b.Name(), d.Name()));
      }
      r := d.Resolve(depth, base);
      if r.Ok? {
        StillInstalled(catalog, w, o, world, order, b.Name());
      }
    }

    method RecordDependency(b: Bundle, d: Bundle, ghost w: World, ghost o: seq<string>)
      requires Valid() && b in resolving && d.Name() in catalog && catalog[d.Name()] == d.unit
      requires Progress(catalog, w, o, world, order) && o <= order
      requires OthersUntouched(w, world, order[|o|..])
      modifies b`resolvedDependencies, this`world
      ensures Valid()
      ensures Progress(catalog, w, o, world, order) && OthersUntouched(w, world, order[|o|..] + [b.Name()])
      ensures b.resolvedDependencies == Recording(old(b.resolvedDependencies), Resolving(catalog, d.Name()))
    {
      hide Inv, Progress, OthersUntouched;
      ghost var w1 := world;
      UntouchedWeaken(w, w1, order[|o|..], b.Name());
      b.AddResolvedDependency(ResolvedDependency(d.Name(), d.unit.manifest.version));
      StayChain(catalog, w, o, w1, order, world, b.Name());
    }

    method ResolveDependencies(b: Bundle, deps: seq<Dependency>, ghost names: set<string>, ghost depth: map<string, nat>, ghost base: set<string>)
      returns (r: Outcome)
      requires Valid() && b in resolving && Collected(catalog, b.resolvedDependencies, names)
      requires ExtendsRanked(catalog, depth) && base <= ToSet(order)
      modifies this, all
      ensures Valid() && unchanged(this`bundles, this`all, this`resolving, this`catalog) && old(order) <= order
      ensures Progress(catalog, old(world), old(order), world, order)
      ensures r.Ok? ==> OthersUntouched(old(world), world, order[|old(order)|..] + [b.Name()])
      ensures r.Ok? ==> AllMet(catalog, deps, ToSet(order))
      ensures r.Ok? ==> Collected(catalog, b.resolvedDependencies, names + NamesOf(deps))
      ensures r.Ok? ==> b.moduleProviders == old(b.moduleProviders)
      ensures AllClear(catalog, deps, base, StackNames(old(resolving))) ==> r.Ok?
      decreases 2 * Unvisited(all, resolving) + 1, 0, 3
    {
      hide *;
      ValidFacts();
      ghost var w, o, stack := world, order, StackNames(resolving);
      NothingHappened(catalog, w, o);
      UntouchedWeaken(w, w, o[|o|..], b.Name());
      NothingYet(catalog, names, deps, [], ToSet(order));
      var i := 0;
      while i < |deps|
        invariant 0 <= i <= |deps|
        invariant Valid() && unchanged(this`bundles, this`all, this`resolving, this`catalog)
        invariant o <= order && base <= ToSet(order)
        invariant Progress(catalog, w, o, world, order)
        invariant OthersUntouched(w, world, order[|o|..] + [b.Name()])
        invariant AllMet(catalog, deps[..i], ToSet(order))
        invariant Collected(catalog, b.resolvedDependencies, names + NamesOf(deps[..i]))
        invariant b.moduleProviders == old(b.moduleProviders)
      {
        ghost var w1, o1, recorded := world, order, b.resolvedDependencies;
        if AllClear(catalog, deps, base, stack) {
          AllClearAt(catalog, deps, base, stack, i);
        }
        r := ResolveDependency(b, deps[i], depth, base);
        ProgressTransitive(catalog, w, o, w1, o1, world, order);
        if r.Thrown? {
          return;
        }
        UntouchedChain(w, o, w1, o1, world, order, b.Name());
        BaseStill(base, o1, order);
        AllMetExtend(catalog, deps, i, ToSet(o1), ToSet(order));
        MetIsLoaded(catalog, deps[i], ToSet(order));
        CollectNext(catalog, names, deps, i, recorded, b.resolvedDependencies);
        i := i + 1;
      }
      assert deps[..i] == deps;
      r := Ok;
    }

    /** All loaded bundles that provide the module, in some order. */
    method FindProviders(d: Dependency) returns (found: seq<ResolvedDependency>)
      requires Indexed()
      ensures ProviderRecorded(catalog, d, ModuleProvider(d, found))
    {
      found := [];
      var names := bundles.Keys;
      while names != {}
        invariant names <= bundles.Keys
        invariant AllCurrent(catalog, found) && NoDuplicates(found)
        invariant Names(found) == Providers(catalog, d) - names
      {
        var n :| n in names;
        names := names - {n};
        if ProvidesModule(bundles[n].unit.manifest, d) {
          ghost var before := found;
          found := found + [ResolvedDependency(n, bundles[n].unit.manifest.version)];
          NamesAppend(before, found[|found| - 1]);
          assert n !in Names(before);
        }
      }
    }

    method ResolveModules(b: Bundle) returns (r: Outcome, providers: seq<ModuleProvider>)
      requires Indexed()
      ensures r.Ok? <==> ModulesProvided(catalog, b.unit.manifest.requiredModules)
      ensures r.Ok? ==> ModulesFound(catalog, b.unit.manifest.requiredModules, providers)
    {
      hide Providers;
      var modules := b.unit.manifest.requiredModules;
      providers := [];
      var i := 0;
      while i < |modules|
        invariant 0 <= i <= |modules|
        invariant ProvidersRecorded(catalog, modules[..i], providers)
        invariant forall k :: 0 <= k < i ==> Providers(catalog, modules[k]) != {}
      {
        var found := FindProviders(modules[i]);
        if found == [] {
          assert Names(found) == {};
          return Thrown(ModuleNotAvailable(modules[i].symbolicName)), [];
        }
        assert found[0].symbolicName in Names(found);
        providers := providers + [ModuleProvider(modules[i], found)];
        i := i + 1;
      }
      assert modules[..i] == modules;
      r := Ok;
    }

    method ResolveProviders(b: Bundle, providers: seq<ModuleProvider>, ghost names: set<string>, ghost depth: map<string, nat>, ghost base: set<string>)
      returns (r: Outcome)
      requires Valid() && b in resolving && Collected(catalog, b.resolvedDependencies, names)
      requires ExtendsRanked(catalog, depth) && base <= ToSet(order)
      modifies this, all
      ensures Valid() && unchanged(this`bundles, this`all, this`resolving, this`catalog) && old(order) <= order
      ensures Progress(catalog, old(world), old(order), world, order)
      ensures r.Ok? ==> OthersUntouched(old(world), world, order[|old(order)|..] + [b.Name()])
      ensures r.Ok? ==> ProviderNames(providers) <= ToSet(order)
      ensures r.Ok? ==> Collected(catalog, b.resolvedDependencies, names + ProviderNames(providers))
      ensures ProvidersClear(catalog, providers, base, StackNames(old(resolving))) ==> r.Ok?
      decreases 2 * Unvisited(all, resolving) + 1, 0, 4
    {
      hide *;
      ValidFacts();
      ghost var w, o, stack := world, order, StackNames(resolving);
      NothingHappened(catalog, w, o);
      UntouchedWeaken(w, w, o[|o|..], b.Name());
      NothingYet(catalog, names, [], providers, ToSet(order));
      var i := 0;
      while i < |providers|
        invariant 0 <= i <= |providers|
        invariant Valid() && unchanged(this`bundles, this`all, this`resolving, this`catalog)
        invariant o <= order && base <= ToSet(order)
        invariant Progress(catalog, w, o, world, order)
        invariant OthersUntouched(w, world, order[|o|..] + [b.Name()])
        invariant ProviderNames(providers[..i]) <= ToSet(order)
        invariant Collected(catalog, b.resolvedDependencies, names + ProviderNames(providers[..i]))
      {
        ghost var w1, o1 := world, order;
        if ProvidersClear(catalog, providers, base, stack) {
          ProvidersClearAt(catalog, providers, base, stack, i);
        }
        r := ResolveDependencies(b, ExactDependencies(providers[i].bundles), names + ProviderNames(providers[..i]), depth, base);
        ProgressTransitive(catalog, w, o, w1, o1, world, order);
        if r.Thrown? {
          return;
        }
        UntouchedChain(w, o, w1, o1, world, order, b.Name());
        BaseStill(base, o1, order);
        CollectProvider(catalog, names, providers, i, b.resolvedDependencies, ToSet(o1), ToSet(order));
        i := i + 1;
      }
      assert providers[..i] == providers;
      r := Ok;
    }

    method PushResolving(b: Bundle)
      requires Valid() && b.loader == this && b.Loaded() && b.state == Installed && b !in resolving
      modifies this`resolving
      ensures Valid() && resolving == old(resolving) + {b}
      ensures StackNames(resolving) == StackNames(old(resolving)) + {b.Name()}
      ensures Unvisited(all, resolving) < Unvisited(all, old(resolving))
    {
      hide Inv, Unvisited, StackNames, BundleLoader.Indexed;
      PushSmaller(all, resolving, b);
      resolving := resolving + {b};
    }

    method PopResolving(b: Bundle, ghost before: set<Bundle>)
      requires Valid() && b !in before && resolving == before + {b}
      modifies this`resolving
      ensures Valid() && resolving == before
    {
      hide Inv, BundleLoader.Indexed;
      resolving := resolving - {b};
      assert resolving == before;
    }

    /** The part of a resolution done with b in the resolving set: its modules and bundles. */
    method ResolveRequirements(b: Bundle, ghost depth: map<string, nat>, ghost base: set<string>) returns (r: Outcome, providers: seq<ModuleProvider>)
      requires Valid() && b in resolving && b.resolvedDependencies == []
      requires ExtendsRanked(catalog, depth) && base <= ToSet(order)
      modifies this, all
      ensures Valid() && unchanged(this`bundles, this`all, this`resolving, this`catalog) && old(order) <= order
      ensures Progress(catalog, old(world), old(order), world, order)
      ensures r.Ok? ==> OthersUntouched(old(world), world, order[|old(order)|..] + [b.Name()])
      ensures r.Ok? ==> RequirementsMet(catalog, b.Name(), ToSet(order))
      ensures r.Ok? ==> Recorded(catalog, b.Name(), b.resolvedDependencies, providers)
      ensures RequirementsAreClear(catalog, base, b.Name(), StackNames(old(resolving))) ==> r.Ok?
      decreases 2 * Unvisited(all, resolving) + 1, 0, 6
    {
      hide *;
      ValidFacts();
      MemberFacts(b);
      b.LoadedFacts();
      NothingHappened(catalog, world, order);
      r, providers := ResolveModules(b);
      if RequirementsAreClear(catalog, base, b.Name(), StackNames(resolving)) {
        RequirementsClearParts(catalog, base, b.Name(), StackNames(resolving), providers);
      }
      if r.Ok? {
        r := ResolveFound(b, providers, depth, base);
      }
    }

    /** First the bundles found to provide the required modules, then the required bundles. */
    method ResolveFound(b: Bundle, providers: seq<ModuleProvider>, ghost depth: map<string, nat>, ghost base: set<string>) returns (r: Outcome)
      requires Valid() && b in resolving && b.resolvedDependencies == []
      requires ExtendsRanked(catalog, depth) && base <= ToSet(order)
      requires b.Name() in catalog && catalog[b.Name()] == b.unit
      requires ModulesFound(catalog, b.unit.manifest.requiredModules, providers)
      modifies this, all
      ensures Valid() && unchanged(this`bundles, this`all, this`resolving, this`catalog) && old(order) <= order
      ensures Progress(catalog, old(world), old(order), world, order)
      ensures r.Ok? ==> OthersUntouched(old(world), world, order[|old(order)|..] + [b.Name()])
      ensures r.Ok? ==> RequirementsMet(catalog, b.Name(), ToSet(order))
      ensures r.Ok? ==> Recorded(catalog, b.Name(), b.resolvedDependencies, providers)
      ensures ProvidersClear(catalog, providers, base, StackNames(old(resolving))) && AllClear(catalog, b.unit.manifest.requiredBundles, base, StackNames(old(resolving))) ==> r.Ok?
      decreases 2 * Unvisited(all, resolving) + 1, 0, 5
    {
      hide *;
      ValidFacts();
      ghost var w, o := world, order;
      CollectedNothing(catalog);
      r := ResolveProviders(b, providers, {}, depth, base);
      if r.Ok? {
        ghost var w1, o1 := world, order;
        BaseStill(base, o, o1);
        r := ResolveDependencies(b, b.unit.manifest.requiredBundles, {} + ProviderNames(providers), depth, base);
        ProgressTransitive(catalog, w, o, w1, o1, world, order);
        if r.Ok? {
          UntouchedChain(w, o, w1, o1, world, order, b.Name());
          BaseStill(base, o1, order);
          RequirementsSettled(catalog, b.Name(), providers, b.resolvedDependencies, ToSet(o1), ToSet(order));
        }
      }
    }

    /** b leaves the resolving set, with its providers noted down or its dependencies cleared. */
    method Unstack(b: Bundle, ok: bool, providers: seq<ModuleProvider>, ghost before: set<Bundle>)
      requires Valid() && b in resolving && resolving == before + {b} && b !in before
      modifies this`resolving, this`world, b`moduleProviders, b`resolvedDependencies
      ensures Valid() && resolving == before && b.state == Installed
      ensures Progress(catalog, old(world), order, world, order)
      ensures OthersUntouched(old(world), world, [b.Name()])
      ensures ok ==> b.resolvedDependencies == old(b.resolvedDependencies) && b.moduleProviders == providers
    {
      hide Inv, Progress, OthersUntouched;
      if ok {
        b.SetModuleProviders(providers);
      } else {
        b.ClearResolvedDependencies();
      }
      PopResolving(b, before);
    }

    method ResolveOnStack(b: Bundle, ghost depth: map<string, nat>, ghost base: set<string>) returns (r: Outcome)
      requires Valid() && b.loader == this && b.Loaded() && b !in resolving
      requires b.state == Installed && b.resolvedDependencies == []
      requires ExtendsRanked(catalog, depth) && base <= ToSet(order)
      modifies this, all
      ensures Valid() && unchanged(this`bundles, this`all, this`resolving, this`catalog) && old(order) <= order
      ensures Progress(catalog, old(world), old(order), world, order) && b.state == Installed
      ensures r.Ok? ==> OthersUntouched(old(world), world, order[|old(order)|..] + [b.Name()])
      ensures r.Ok? ==> RequirementsMet(catalog, b.Name(), ToSet(order))
      ensures r.Ok? ==> Recorded(catalog, b.Name(), b.resolvedDependencies, b.moduleProviders)
      ensures Clear(catalog, base, b.Name(), StackNames(old(resolving))) ==> r.Ok?
      decreases 2 * Unvisited(all, resolving), depth[b.Name()], 1
    {
      hide *;
      b.NotInBase(base);
      if Clear(catalog, base, b.Name(), StackNames(resolving)) {
        ClearRequirements(catalog, base, b.Name(), StackNames(resolving));
      }
      ghost var w, o, before := world, order, resolving;
      PushResolving(b);
      var providers;
      r, providers := ResolveRequirements(b, depth, base);
      ghost var w1, o1 := world, order;
      Unstack(b, r.Ok?, providers, before);
      ProgressTransitive(catalog, w, o, w1, o1, world, o1);
      if r.Ok? {
        StayChain(catalog, w, o, w1, o1, world, b.Name());
      }
    }

    /** Makes b an extension of e, resolving e first if that is still to be done. */
    method Extend(b: Bundle, e: Bundle, ghost depth: map<string, nat>, ghost base: set<string>) returns (r: Outcome)
      requires Valid() && b.loader == this && b.Loaded() && b.state == Installed
      requires e.loader == this && e.Loaded() && e.Name() == b.unit.manifest.extendedBundle != ""
      requires ExtendsRanked(catalog, depth) && base <= ToSet(order)
      modifies this, all
      ensures Valid() && unchanged(this`bundles, this`all, this`resolving, this`catalog) && old(order) <= order
      ensures Progress(catalog, old(world), old(order), world, order)
      ensures r.Ok? ==> OthersUntouched(old(world), world, order[|old(order)|..])
      ensures r.Ok? ==> ExtensionMet(catalog, b.unit.manifest, ToSet(order)) && b in e.extensionBundles
      ensures r.Thrown? ==> b.state == Installed
      ensures Clear(catalog, base, e.Name(), StackNames(old(resolving))) && !e.unit.manifest.sealed ==> r.Ok?
      decreases 2 * Unvisited(all, resolving), depth[b.Name()], 0
    {
      hide Progress, OthersUntouched, ExtendsRanked, Covered, Distinct, Ranked, Satisfied, Clear, StackNames, IndexOf;
      b.LoadedFacts();
      e.LoadedFacts();
      ExtendsDeeper(catalog, depth, b.Name());
      ghost var w, o := world, order;
      NothingHappened(catalog, w, o);
      if !e.state.IsResolved() {
        r := e.Resolve(depth, base);
        if r.Thrown? {
          NotBefore(catalog, w, o, world, order, b.Name());
          return;
        }
      }
      r := e.AddExtensionBundle(b);
      if r.Thrown? {
        NotBefore(catalog, w, o, world, order, b.Name());
      }
    }

    /** What follows once the requirements are resolved: the bundle's libraries and the bundle it extends. */
    method InstallAndExtend(b: Bundle, ghost depth: map<string, nat>, ghost base: set<string>) returns (r: Outcome)
      requires Valid() && b.loader == this && b.Loaded() && b.state == Installed
      requires ExtendsRanked(catalog, depth) && base <= ToSet(order)
      requires RequirementsMet(catalog, b.Name(), ToSet(order))
      modifies this, all
      ensures Valid() && unchanged(this`bundles, this`all, this`resolving, this`catalog) && old(order) <= order
      ensures Progress(catalog, old(world), old(order), world, order)
      ensures r.Ok? ==> OthersUntouched(old(world), world, order[|old(order)|..])
      ensures r.Ok? ==> Satisfied(catalog, b.Name(), ToSet(order)) && b.Joined()
      ensures r.Thrown? ==> b.state == Installed
      ensures Clear(catalog, base, b.Name(), StackNames(old(resolving))) ==> r.Ok?
      decreases 2 * Unvisited(all, resolving), depth[b.Name()], 1
    {
      hide *;
      ValidFacts();
      b.NotInBase(base);
      var name := b.unit.manifest.extendedBundle;
      FoundFacts(name);
      NothingHappened(catalog, world, order);
      if Clear(catalog, base, b.Name(), StackNames(resolving)) {
        ClearExtension(catalog, base, b.Name(), StackNames(resolving));
        ExtendsMeans(catalog, b.unit.manifest);
      }
      ghost var o := order;
      if !b.unit.librariesInstall {
        return Thrown(LibraryInstallation);
      }
      var e := if name != "" then FindBundle(name) else null;
      if e == null {
        b.NothingToJoin();
        NothingToExtend(catalog, b.unit.manifest, ToSet(order));
        r := Ok;
      } else {
        r := Extend(b, e, depth, base);
        if r.Ok? {
          b.JoinedTo(e);
        }
      }
      if r.Ok? {
        PrefixSet(o, order);
        AllSatisfied(catalog, b.Name(), ToSet(o), ToSet(order));
      }
    }

    method ResolveBundle(b: Bundle, ghost depth: map<string, nat>, ghost base: set<string>) returns (r: Outcome)
      requires Valid() && b.loader == this && b.Loaded()
      requires b.state == Installed && b.resolvedDependencies == []
      requires ExtendsRanked(catalog, depth) && base <= ToSet(order)
      modifies this, all
      ensures Valid() && unchanged(this`bundles, this`all, this`resolving, this`catalog) && old(order) <= order
      ensures Progress(catalog, old(world), old(order), world, order)
      ensures r.Ok? ==> OthersUntouched(old(world), world, order[|old(order)|..] + [b.Name()])
      ensures r.Ok? ==> Satisfied(catalog, b.Name(), ToSet(order)) && Recorded(catalog, b.Name(), b.resolvedDependencies, b.moduleProviders)
      ensures r.Ok? ==> b !in resolving && (b.state == Installed || (b.state == Resolved && b.Name() in order))
      ensures r.Ok? ==> b.Joined()
      ensures r.Thrown? ==> b.state == Installed
      ensures Clear(catalog, base, b.Name(), StackNames(old(resolving))) ==> r.Ok?
      decreases 2 * Unvisited(all, resolving), depth[b.Name()], 2
    {
      hide *;
      b.NotInBase(base);
      ValidFacts();
      ghost var w, o := world, order;
      NothingHappened(catalog, w, o);
      if b in resolving {
        b.OnStack();
        NotClearOnStack(catalog, base, b.Name(), StackNames(resolving));
        return Thrown(AssertionViolation);
      }
      r := ResolveOnStack(b, depth, base);
      if r.Ok? {
        ghost var w1, o1 := world, order;
        b.Entry();
        PrefixSet(o, o1);
        r := InstallAndExtend(b, depth, base);
        ProgressTransitive(catalog, w, o, w1, o1, world, order);
        if r.Ok? {
          b.Entry();
          UntouchedWeaken(w1, world, order[|o1|..], b.Name());
          UntouchedChain(w, o, w1, o1, world, order, b.Name());
          StillRecorded(catalog, w1, o1, world, order, b.Name());
        }
      }
    }

    /** Starts the dependencies of a STARTING bundle and invokes its activator. */
    method StartBundle(b: Bundle) returns (r: Outcome)
      requires Valid() && b.loader == this && b.Loaded() && b.state == Starting
      modifies all`state, this`world, this`lastBundleStarted
      ensures Valid() && b.state == Starting
      ensures Starts(catalog, order, old(world), world) && b.Name() in world
      ensures r.Ok? ==> b.unit.activatorStarts && DependenciesActive(world, b.Name()) && lastBundleStarted == b.Name()
      ensures Inv(catalog, old(world), order) && b.Name() in old(world)
      ensures b.unit.activatorStarts && DependenciesCanStart(catalog, old(world), order, b.Name()) ==> r.Ok?
      decreases Position(order, b.Name()), 1
    {
      hide *;
      b.LoadedFacts();
      r := StartDependencies(b);
      if r.Ok? {
        lastBundleStarted := b.Name();
        if !b.unit.activatorStarts {
          r := Thrown(ActivatorFailed);
        }
      }
    }

    method StartDependencies(b: Bundle) returns (r: Outcome)
      requires Valid() && b.loader == this && b.Loaded() && b.state == Starting
      modifies all`state, this`world, this`lastBundleStarted
      ensures Valid() && b.state == Starting
      ensures Starts(catalog, order, old(world), world) && b.Name() in world
      ensures r.Ok? ==> DependenciesActive(world, b.Name())
      ensures Inv(catalog, old(world), order) && b.Name() in old(world)
      ensures DependenciesCanStart(catalog, old(world), order, b.Name()) ==> r.Ok?
      decreases Position(order, b.Name()), 0
    {
      hide *;
      b.LoadedFacts();
      ghost var w, o := world, order;
      var deps := b.resolvedDependencies;
      StartsRefl(catalog, o, w);
      NoneActiveYet(w, deps);
      var i := 0;
      while i < |deps|
        invariant 0 <= i <= |deps|
        invariant Valid() && b.state == Starting
        invariant Starts(catalog, o, w, world)
        invariant FirstActive(world, deps, i)
      {
        b.LoadedFacts();
        ghost var w1 := world;
        DependencyAt(catalog, w, o, b.Name(), i);
        FoundFacts(deps[i].symbolicName);
        var d := FindBundle(deps[i].symbolicName);
        if d == null || !d.unit.manifest.version.Eq(deps[i].version) {
          // The "no longer available" exception: excluded by the run invariant.
          SameVersion(deps[i].version);
          assert false;
        }
        d.LoadedFacts();
        if d.state != Active {
          if DependenciesCanStart(catalog, w, o, b.Name()) {
            DependencyCanStart(catalog, w, o, b.Name(), d.Name());
            CanStartStable(catalog, o, w, w1, d.Name());
            CanStartState(catalog, o, w1, d.Name());
          }
          r := d.Start();
          StartsTransitive(catalog, o, w, w1, world);
          StartingStays(catalog, o, w, world, b.Name());
          b.LoadedFacts();
          if r.Thrown? {
            return;
          }
        } else {
          StartsRefl(catalog, o, w1);
        }
        d.LoadedFacts();
        FirstActiveNext(catalog, o, w1, world, deps, i);
        i := i + 1;
      }
      StartingStays(catalog, o, w, world, b.Name());
      AllFirstActive(world, b.Name());
      r := Ok;
    }

    /** All loaded bundles, in some order. */
    method ListBundles() returns (bs: seq<Bundle>)
      requires Indexed()
      ensures Distinct(bs) && ToSet(bs) == all
    {
      bs := [];
      var names := bundles.Keys;
      while names != {}
        invariant names <= bundles.Keys
        invariant Distinct(bs)
        invariant forall b :: b in bs <==> b in all && b.Name() !in names
      {
        var n :| n in names;
        names := names - {n};
        bs := bs + [bundles[n]];
      }
    }

    /** A library sort: only the order of the run levels is certain. */
    method SortByRunLevel(bs: seq<Bundle>) returns (sorted: seq<Bundle>)
      ensures multiset(sorted) == multiset(bs)
      ensures LevelsSorted(sorted)
    {
      sorted := [];
      var k := 0;
      while k < |bs|
        invariant 0 <= k <= |bs|
        invariant multiset(sorted) == multiset(bs[..k])
        invariant LevelsSorted(sorted)
      {
        assert bs[..k + 1] == bs[..k] + [bs[k]];
        sorted := InsertByRunLevel(sorted, bs[k]);
        k := k + 1;
      }
      assert bs[..k] == bs;
    }

    method InsertByRunLevel(bs: seq<Bundle>, b: Bundle) returns (sorted: seq<Bundle>)
      requires LevelsSorted(bs)
      ensures multiset(sorted) == multiset(bs) + multiset{b}
      ensures LevelsSorted(sorted)
    {
      hide LevelsSorted, NotAfter;
      var i := |bs|;
      while i > 0 && Less(b.unit.manifest.runLevel, bs[i - 1].unit.manifest.runLevel)
        invariant 0 <= i <= |bs|
        invariant forall j :: i <= j < |bs| ==> NotAfter(b.unit.manifest.runLevel, bs[j].unit.manifest.runLevel)
      {
        NotAfterTotal(b.unit.manifest.runLevel, bs[i - 1].unit.manifest.runLevel);
        i := i - 1;
      }
      if i > 0 {
        NotLess(b.unit.manifest.runLevel, bs[i - 1].unit.manifest.runLevel);
      }
      InsertLevel(bs, i, b);
      sorted := bs[..i] + [b] + bs[i..];
      assert bs == bs[..i] + bs[i..];
    }

    static lemma InsertLevel(bs: seq<Bundle>, i: nat, b: Bundle)
      requires i <= |bs| && LevelsSorted(bs)
      requires i > 0 ==> NotAfter(bs[i - 1].unit.manifest.runLevel, b.unit.manifest.runLevel)
      requires forall j :: i <= j < |bs| ==> NotAfter(b.unit.manifest.runLevel, bs[j].unit.manifest.runLevel)
      ensures LevelsSorted(bs[..i] + [b] + bs[i..])
    {
      forall j | 0 <= j < i ensures NotAfter(bs[j].unit.manifest.runLevel, b.unit.manifest.runLevel) {
        if j < i - 1 {
          NotAfterTransitive(bs[j].unit.manifest.runLevel, bs[i - 1].unit.manifest.runLevel, b.unit.manifest.runLevel);
        }
      }
    }

    /** Whether a bundle has recorded a dependency that is not sorted yet. */
    method HasUnsortedDependency(b: Bundle, sorted: set<string>) returns (hasDeps: bool)
      requires Valid() && b in all
      ensures hasDeps <==> !Unblocked(world, sorted, b.Name())
    {
      b.LoadedFacts();
      hide Inv;
      hasDeps := false;
      if b.state.IsResolved() {
        var i := 0;
        while i < |b.resolvedDependencies|
          invariant 0 <= i <= |b.resolvedDependencies|
          invariant forall k :: 0 <= k < i ==> b.resolvedDependencies[k].symbolicName in sorted
        {
          if b.resolvedDependencies[i].symbolicName !in sorted {
            assert b.resolvedDependencies[i].symbolicName in Names(b.resolvedDependencies);
            return true;
          }
          i := i + 1;
        }
      }
    }

    /** What is known while bundles are picked: "picked" in order, "remaining" in run-level order. */
    ghost predicate Picking(picked: seq<Bundle>, sorted: set<string>, remaining: seq<Bundle>)
      reads this`all, this`catalog, this`world
    {
      && Distinct(picked) && Distinct(remaining) && ToSet(picked) !! ToSet(remaining)
      && ToSet(picked) + ToSet(remaining) == all
      && sorted == ToSet(BundleNames(picked))
      && LevelsInOrder(catalog, BundleNames(remaining))
      && DependenciesFirst(world, BundleNames(picked))
      && LowestFirst(catalog, world, BundleNames(picked), ToSet(BundleNames(remaining)))
    }

    lemma NamesDistinct(bs: seq<Bundle>)
      requires Indexed() && Distinct(bs) && ToSet(bs) <= all
      ensures Distinct(BundleNames(bs))
    {
      forall i, j | 0 <= i < j < |bs| ensures BundleNames(bs)[i] != BundleNames(bs)[j] {
        assert bs[i] in ToSet(bs) && bs[j] in ToSet(bs);
      }
    }

    lemma NamesCover(bs: seq<Bundle>, cs: seq<Bundle>)
      requires Indexed() && ToSet(bs) + ToSet(cs) == all
      ensures ToSet(BundleNames(bs)) + ToSet(BundleNames(cs)) == catalog.Keys
    {
      forall n | n in bundles ensures n in BundleNames(bs) || n in BundleNames(cs) {
        var b := bundles[n];
        if b in bs {
          var i :| 0 <= i < |bs| && bs[i] == b;
          assert BundleNames(bs)[i] == n;
        } else {
          assert b in ToSet(cs);
          var i :| 0 <= i < |cs| && cs[i] == b;
          assert BundleNames(cs)[i] == n;
        }
      }
      forall i | 0 <= i < |bs| ensures bs[i].Name() in catalog { assert bs[i] in ToSet(bs); }
      forall i | 0 <= i < |cs| ensures cs[i].Name() in catalog { assert cs[i] in ToSet(cs); }
    }

    lemma ListedNames(bs: seq<Bundle>)
      requires Valid() && ToSet(bs) == all
      ensures ToSet(BundleNames(bs)) == catalog.Keys == world.Keys
    {
      hide Inv;
      ValidFacts();
      NamesCover(bs, []);
      assert ToSet(BundleNames([])) == {};
    }

    lemma SortedList(bs: seq<Bundle>, sorted: seq<Bundle>)
      requires Valid() && Distinct(bs) && ToSet(bs) == all
      requires multiset(sorted) == multiset(bs) && LevelsSorted(sorted)
      ensures ToSet(sorted) == all && LevelsInOrder(catalog, BundleNames(sorted))
    {
      hide Inv;
      Rearranged(bs, sorted);
      forall i | 0 <= i < |sorted| ensures catalog[sorted[i].Name()] == sorted[i].unit {
        assert sorted[i] in ToSet(sorted);
      }
    }

    lemma PickingStarts(bs: seq<Bundle>, remaining: seq<Bundle>)
      requires Indexed() && Distinct(bs) && ToSet(bs) == all
      requires multiset(remaining) == multiset(bs) && LevelsSorted(remaining)
      ensures Picking([], {}, remaining)
    {
      Rearranged(bs, remaining);
      forall i | 0 <= i < |remaining| ensures catalog[remaining[i].Name()] == remaining[i].unit {
        assert remaining[i] in ToSet(remaining);
      }
    }

    lemma PickingContinues(picked: seq<Bundle>, sorted: set<string>, remaining: seq<Bundle>, k: nat)
      requires Indexed() && Picking(picked, sorted, remaining) && k < |remaining|
      requires Unblocked(world, sorted, remaining[k].Name())
      requires forall i :: 0 <= i < k ==> !Unblocked(world, sorted, remaining[i].Name())
      ensures Picking(picked + [remaining[k]], sorted + {remaining[k].Name()}, Removed(remaining, k))
    {
      hide Unblocked, LevelsInOrder, DependenciesFirst, LowestFirst;
      var b := remaining[k];
      var names, rest := BundleNames(picked), BundleNames(remaining);
      NamesDistinct(remaining);
      PickNext(catalog, world, names, rest, k);
      RemovedElements(remaining, k);
      RemovedElements(rest, k);
      RemovedInOrder(catalog, rest, k);
      assert BundleNames(picked + [b]) == names + [b.Name()];
      assert BundleNames(Removed(remaining, k)) == Removed(rest, k);
      assert ToSet(names + [b.Name()]) == sorted + {b.Name()};
      PickedOneMore(picked, remaining, k);
    }

    lemma PickedOneMore(picked: seq<Bundle>, remaining: seq<Bundle>, k: nat)
      requires Distinct(picked) && Distinct(remaining) && ToSet(picked) !! ToSet(remaining)
      requires ToSet(picked) + ToSet(remaining) == all && k < |remaining|
      requires ToSet(Removed(remaining, k)) == ToSet(remaining) - {remaining[k]}
      ensures Distinct(picked + [remaining[k]]) && ToSet(picked + [remaining[k]]) !! ToSet(Removed(remaining, k))
      ensures ToSet(picked + [remaining[k]]) + ToSet(Removed(remaining, k)) == all
    {
      var b := remaining[k];
      assert b in ToSet(remaining);
      assert ToSet(picked + [b]) == ToSet(picked) + {b};
      assert forall i :: 0 <= i < |picked| ==> picked[i] in ToSet(picked);
    }

    lemma PickingEnds(picked: seq<Bundle>, sorted: set<string>, remaining: seq<Bundle>)
      requires Valid() && Picking(picked, sorted, remaining)
      requires forall i :: 0 <= i < |remaining| ==> !Unblocked(world, sorted, remaining[i].Name())
      ensures remaining == []
    {
      hide Unblocked, LevelsInOrder, DependenciesFirst, LowestFirst;
      ValidFacts();
      NamesCover(picked, remaining);
      if remaining != [] {
        var rest := BundleNames(remaining);
        assert rest[0] in rest;
        SomeUnblocked(catalog, world, order, sorted, ToSet(rest), rest[0]);
      }
    }

    lemma IsLoaded(picked: seq<Bundle>, sorted: set<string>, remaining: seq<Bundle>, k: nat)
      requires Picking(picked, sorted, remaining) && k < |remaining|
      ensures remaining[k] in all
    {
      assert remaining[k] in ToSet(remaining);
    }

    lemma ReversedNames(bs: seq<Bundle>)
      ensures BundleNames(Reversed(bs)) == Reversed(BundleNames(bs))
      ensures Reversed(BundleNames(Reversed(bs))) == BundleNames(bs)
    {
    }

    lemma PickedEverything(picked: seq<Bundle>, sorted: set<string>)
      requires Valid() && Picking(picked, sorted, [])
      ensures Distinct(Reversed(picked)) && ToSet(Reversed(picked)) == all
      ensures ToSet(BundleNames(picked)) == world.Keys && Distinct(BundleNames(picked))
    {
      hide DependenciesFirst, LowestFirst, LevelsInOrder, Inv;
      ValidFacts();
      ReversedElements(picked);
      NamesDistinct(picked);
      NamesCover(picked, []);
      assert ToSet(BundleNames([])) == {};
    }

    lemma PickedInOrder(picked: seq<Bundle>, sorted: set<string>)
      requires Picking(picked, sorted, [])
      ensures DependenciesFirst(world, BundleNames(picked)) && LowestFirst(catalog, world, BundleNames(picked), {})
    {
      hide DependenciesFirst;
      assert ToSet(BundleNames([])) == {};
    }

    lemma PickedAll(picked: seq<Bundle>, sorted: set<string>)
      requires Valid() && Picking(picked, sorted, [])
      ensures Distinct(Reversed(picked)) && ToSet(Reversed(picked)) == all
      ensures ToSet(BundleNames(Reversed(picked))) == world.Keys && Distinct(BundleNames(Reversed(picked)))
      ensures DependentsFirst(world, BundleNames(Reversed(picked)))
      ensures LowestFirst(catalog, world, Reversed(BundleNames(Reversed(picked))), {})
    {
      hide *;
      PickedEverything(picked, sorted);
      PickedInOrder(picked, sorted);
      ReversedNames(picked);
      ReversedElements(BundleNames(picked));
      ReversedDependentsFirst(world, BundleNames(picked));
    }

    /**
     * All loaded bundles in an order in which they can be stopped: every resolved bundle
     * before all of its dependencies and, apart from that, higher run levels first.
     */
    method SortBundles() returns (bs: seq<Bundle>)
      requires Valid()
      ensures Distinct(bs) && ToSet(bs) == all
      ensures ToSet(BundleNames(bs)) == world.Keys && Distinct(BundleNames(bs))
      ensures DependentsFirst(world, BundleNames(bs))
      ensures LowestFirst(catalog, world, Reversed(BundleNames(bs)), {})
    {
      hide *;
      ValidFacts();
      var all' := ListBundles();
      var remaining := SortByRunLevel(all');
      bs := [];
      var sorted: set<string> := {};
      PickingStarts(all', remaining);
      while |remaining| > 0
        invariant Picking(bs, sorted, remaining)
        decreases |remaining|
      {
        var it := 0;
        ghost var before := |remaining|;
        while it < |remaining|
          invariant 0 <= it <= |remaining| <= before
          invariant Picking(bs, sorted, remaining)
          invariant forall i :: 0 <= i < it ==> !Unblocked(world, sorted, remaining[i].Name())
          decreases |remaining|, |remaining| - it
        {
          IsLoaded(bs, sorted, remaining, it);
          var hasDeps := HasUnsortedDependency(remaining[it], sorted);
          if !hasDeps {
            PickingContinues(bs, sorted, remaining, it);
            bs := bs + [remaining[it]];
            sorted := sorted + {remaining[it].Name()};
            remaining := Removed(remaining, it);
            it := 0;
          } else {
            it := it + 1;
          }
        }
        PickingEnds(bs, sorted, remaining);
      }
      PickedAll(bs, sorted);
      bs := Reversed(bs);
    }

    /** Invokes the activator of a STOPPING bundle. */
    method StopBundle(b: Bundle) returns (r: Outcome)
      requires Valid() && b.loader == this && b.Loaded()
      ensures r.Ok? <==> b.unit.activatorStops
    {
      r := if b.unit.activatorStops then Ok else Thrown(ActivatorFailed);
    }

    /** Adds a bundle under a name that is not taken yet. */
    method LoadBundle(b: Bundle) returns (r: Outcome)
      requires Valid() && b.loader == this && b.state == Installed
      modifies this`bundles, this`all, this`catalog, this`world
      ensures Valid()
      ensures r == if b.Name() in old(catalog) then Thrown(VersionConflict(b.Name())) else Ok
      ensures r.Ok? ==> bundles == old(bundles)[b.Name() := b] && all == old(all) + {b}
      ensures r.Ok? ==> catalog == old(catalog)[b.Name() := b.unit] && world == old(world)[b.Name() := b.Info()]
      ensures r.Thrown? ==> unchanged(this)
    {
      hide Inv, IndexOf;
      ValidFacts();
      FoundFacts(b.Name());
      if b.Name() in bundles {
        return Thrown(VersionConflict(b.Name()));
      }
      IndexPlus(this, bundles, all, catalog, b);
      LoadKeepsInv(catalog, world, order, b.Name(), b.unit, b.Info());
      bundles := bundles[b.Name() := b];
      all := all + {b};
      catalog := catalog[b.Name() := b.unit];
      world := world[b.Name() := b.Info()];
      r := Ok;
    }

    /**
     * Removes a bundle that is not started, whoever depends on it: the loader is as good as
     * before exactly if no loaded resolved bundle has recorded it.
     */
    method UnloadBundle(b: Bundle) returns (r: Outcome)
      requires Valid() && b.loader == this && b.Loaded() && resolving == {}
      modifies this`bundles, this`all, this`catalog, this`world, this`order, all`extensionBundles
      ensures Mirrored()
      ensures Valid() <==> r.Thrown? || NoDependents(old(world), b.Name())
      ensures r == if b.state.IsStarted() then Thrown(StateError) else Ok
      ensures r.Ok? ==> bundles == old(bundles) - {b.Name()} && all == old(all) - {b}
      ensures r.Ok? ==> Now() == Picture(old(catalog) - {b.Name()}, old(world) - {b.Name()}, Without(old(order), b.Name()))
      ensures r.Thrown? ==> unchanged(this) && unchanged(all)
    {
      hide *;
      b.LoadedFacts();
      ValidMeans();
      if b.state.IsStarted() {
        return Thrown(StateError);
      }
      RemoveExtension(b);
      Forget(b);
      r := Ok;
    }

    method RemoveExtension(b: Bundle)
      requires Valid()
      modifies all`extensionBundles
      ensures Valid()
      ensures b.unit.manifest.extendedBundle in bundles ==>
                var e := bundles[b.unit.manifest.extendedBundle];
                e.extensionBundles == old(e.extensionBundles) - if b.unit.manifest.extendedBundle == "" then {} else {b}
    {
      hide Inv;
      FoundFacts(b.unit.manifest.extendedBundle);
      if b.unit.manifest.extendedBundle != "" {
        var e := FindBundle(b.unit.manifest.extendedBundle);
        if e != null {
          e.extensionBundles := e.extensionBundles - {b};
        }
      }
    }

    method Forget(b: Bundle)
      requires Valid() && b in all && b !in resolving
      modifies this`bundles, this`all, this`catalog, this`world, this`order
      ensures Mirrored()
      ensures Valid() <==> NoDependents(old(world), b.Name())
      ensures bundles == old(bundles) - {b.Name()} && all == old(all) - {b}
      ensures Now() == Picture(old(catalog) - {b.Name()}, old(world) - {b.Name()}, Without(old(order), b.Name()))
    {
      hide Inv, IndexOf, Without, NoDependents;
      IndexMinus(this, bundles, all, catalog, b);
      UnloadKeepsInvIff(catalog, world, order, b.Name());
      bundles, all := bundles - {b.Name()}, all - {b};
      catalog, world, order := catalog - {b.Name()}, world - {b.Name()}, Without(order, b.Name());
    }

    ghost function Now(): Picture
      reads this`catalog, this`world, this`order
    {
      Picture(catalog, world, order)
    }

    /**
     * Tries to resolve every bundle and carries on after failures. In the end exactly
     * the bundles of the least fixpoint over those resolved before are resolved.
     */
    method ResolveAllBundles(ghost depth: map<string, nat>)
      requires Valid() && resolving == {} && ExtendsRanked(catalog, depth)
      modifies this, all
      ensures Valid() && unchanged(this`bundles, this`all, this`resolving, this`catalog) && old(order) <= order
      ensures Progress(catalog, old(world), old(order), world, order)
      ensures ToSet(order) == ResolvableSet(catalog, ToSet(old(order)))
    {
      hide *;
      ValidFacts();
      ghost var w, o, base := world, order, ToSet(order);
      NothingHappened(catalog, w, o);
      PrefixSet(o, o);
      var bs := ListBundles();
      var i := 0;
      AllTriedNone(catalog, base, ToSet(order));
      while i < |bs|
        invariant 0 <= i <= |bs|
        invariant Valid() && unchanged(this`bundles, this`all, this`resolving, this`catalog)
        invariant o <= order && base <= ToSet(order)
        invariant Progress(catalog, w, o, world, order)
        invariant AllTried(catalog, base, BundleNames(bs[..i]), ToSet(order))
      {
        ghost var w1, o1 := world, order;
        InList(bs, i);
        MemberFacts(bs[i]);
        ResolveOne(bs[i], depth, base);
        ProgressTransitive(catalog, w, o, w1, o1, world, order);
        BaseStill(base, o1, order);
        AllTriedNext(catalog, base, BundleNames(bs[..i]), bs[i].Name(), ToSet(o1), ToSet(order));
        NamesNext(bs, i);
        i := i + 1;
      }
      WholeList(bs);
      ListedNames(bs);
      ExactlyResolvable(catalog, w, o, world, order, BundleNames(bs));
    }

    method ResolveOne(b: Bundle, ghost depth: map<string, nat>, ghost base: set<string>)
      requires Valid() && b.loader == this && b.Loaded() && resolving == {}
      requires ExtendsRanked(catalog, depth) && base <= ToSet(order)
      modifies this, all
      ensures Valid() && unchanged(this`bundles, this`all, this`resolving, this`catalog) && old(order) <= order
      ensures Progress(catalog, old(world), old(order), world, order)
      ensures Resolvable(catalog, base, b.Name()) ==> b.Name() in ToSet(order)
    {
      hide *;
      b.LoadedFacts();
      NothingHappened(catalog, world, order);
      if b.state.IsResolved() {
        b.IsInOrder();
      } else {
        b.IsInstalled();
        if Resolvable(catalog, base, b.Name()) {
          ClearOfNothing(catalog, base, b.Name());
          NothingStacked();
        }
        var r := b.Resolve(depth, base);
        if r.Ok? {
          b.IsInOrder();
        }
      }
    }

    /**
     * Starts every RESOLVED bundle without lazy start, lower run levels first, and
     * carries on after failures. "attempts" lists the bundles whose start was tried.
     */
    method StartAllBundles() returns (ghost attempts: seq<string>)
      requires Valid()
      modifies all`state, this`world, this`lastBundleStarted
      ensures Valid()
      ensures Inv(catalog, old(world), order) && Starts(catalog, order, old(world), world)
      ensures AllStarted(catalog, order, old(world), world)
      ensures LevelsInOrder(catalog, attempts)
      ensures forall n :: n in world && n in catalog && world[n].state == Resolved && !catalog[n].manifest.lazyStart ==> n in attempts
    {
      hide *;
      ValidFacts();
      ghost var w := world;
      StartsRefl(catalog, order, w);
      NoneStartedYet(catalog, order, w);
      NoAttempts(catalog, w);
      var unsorted := ListBundles();
      var bs := SortByRunLevel(unsorted);
      SortedList(unsorted, bs);
      ListedNames(bs);
      ghost var names := BundleNames(bs);
      attempts := [];
      var i := 0;
      while i < |bs|
        invariant 0 <= i <= |bs|
        invariant Valid() && Starts(catalog, order, w, world)
        invariant StartedSoFar(catalog, order, w, world, names[..i])
        invariant Attempts(catalog, world, names[..i], attempts)
      {
        var b := bs[i];
        ghost var w1 := world;
        InList(bs, i);
        MemberFacts(b);
        b.LoadedFacts();
        StartsKeepsInv(catalog, order, w, w1);
        StartsRefl(catalog, order, w1);
        NoLongerResolved(catalog, order, w, w1, b.Name());
        var try := b.state == Resolved && !b.unit.manifest.lazyStart;
        if try {
          StartAttempt(b, w);
        }
        AttemptsNext(catalog, order, w1, world, names, i, attempts, try);
        attempts := if try then attempts + [b.Name()] else attempts;
        StartedOneMore(catalog, order, w, w1, world, names[..i], b.Name());
        assert names[..i + 1] == names[..i] + [b.Name()];
        i := i + 1;
      }
      assert names[..i] == names;
      StartedEverything(catalog, order, w, world, names);
      AttemptsAll(catalog, world, names, attempts);
    }

    /** One start whose failure is only reported. */
    method StartAttempt(b: Bundle, ghost w: World)
      requires Valid() && b.loader == this && b.Loaded() && b.state == Resolved
      requires Starts(catalog, order, w, world)
      modifies all`state, this`world, this`lastBundleStarted
      ensures Valid() && Starts(catalog, order, old(world), world) && Starts(catalog, order, w, world)
      ensures b.Name() in order && b.Name() in world
      ensures Inv(catalog, w, order) && CanStart(catalog, w, order, b.Name()) ==> world[b.Name()].state == Active
    {
      hide *;
      b.LoadedFacts();
      ghost var w1 := world;
      ActiveCanStart(catalog, order, w1, b.Name());
      StartsHasInv(catalog, order, w, w1);
      CanStartStable(catalog, order, w, w1, b.Name());
      var r := b.Start();
      StartsTransitive(catalog, order, w, w1, world);
      b.LoadedFacts();
    }

    /**
     * Stops all ACTIVE bundles, dependents before dependencies; the first failure ends
     * it. "trace" lists the worlds between the single stops.
     */
    method StopAllBundles() returns (r: Outcome, ghost trace: seq<World>)
      requires Valid()
      modifies all`state, this`world
      ensures Valid()
      ensures StopRun(trace) && trace[0] == old(world) && trace[|trace| - 1] == world
      ensures StaysClosed(trace)
      ensures r.Ok? ==> forall n :: n in world ==> world[n].state != Active
      ensures r.Ok? <==> AllStop(catalog, old(world))
    {
      hide *;
      ghost var w := world;
      trace := [world];
      StopRunStarts(world);
      StopRunStaysClosed(trace);
      var bs := SortBundles();
      ghost var names := BundleNames(bs);
      NothingStopped(catalog, w, names);
      var i := 0;
      while i < |bs|
        invariant 0 <= i <= |bs|
        invariant Valid() && DependentsFirst(world, names)
        invariant StopRun(trace) && |trace| > 0 && trace[0] == w && trace[|trace| - 1] == world
        invariant StaysClosed(trace)
        invariant StoppedSoFar(catalog, w, world, names, i)
      {
        var b := bs[i];
        InList(bs, i);
        MemberFacts(b);
        b.LoadedFacts();
        StoppedOneMore(catalog, w, world, names, i);
        if b.state == Active {
          ghost var w1 := world;
          StoppedNone(catalog, w, w1, names, i);
          StopInOrder(w1, names, i);
          StopKeepsOrder(w1, b.Name(), names);
          r := b.Stop();
          if r.Thrown? {
            CannotStopAll(catalog, w, b.Name());
            return;
          }
          StopStepIs(w1, world, b.Name());
          StopRunExtend(trace, world, b.Name());
          trace := trace + [world];
          StopRunStaysClosed(trace);
        }
        i := i + 1;
      }
      AllStopped(catalog, w, world, names);
      r := Ok;
    }

    /**
     * Stops and unloads all bundles, dependents before dependencies; the first failure
     * ends it. "trace" lists the pictures between the single stops and unloads.
     */
    method UnloadAllBundles() returns (r: Outcome, ghost trace: seq<Picture>)
      requires Valid() && resolving == {}
      modifies this, all
      ensures Valid()
      ensures ShutdownRun(trace) && trace[0] == old(Now()) && trace[|trace| - 1] == Now()
      ensures ShutdownStaysClosed(trace)
      ensures r.Ok? ==> bundles == map[] && catalog == map[]
      ensures r.Ok? <==> AllUnload(old(catalog), old(world))
    {
      hide *;
      ghost var all0, p0 := all, Now();
      ValidFacts();
      trace := [Now()];
      ShutdownStarts(Picture(catalog, world, order));
      NowIs();
      var bs := SortBundles();
      ghost var names := BundleNames(bs);
      assert names[0..] == names && bs[0..] == bs;
      var i := 0;
      RemainingAll(world, names);
      NothingUnloaded(p0, names);
      while i < |bs|
        invariant 0 <= i <= |bs|
        invariant Valid() && resolving == {}
        invariant all <= all0 && all == ToSet(bs[i..]) && Distinct(bs)
        invariant Remaining(world, names, i)
        invariant UnloadedSoFar(p0, Now(), names, i)
        invariant ShutdownRun(trace) && |trace| > 0 && trace[0] == p0 && trace[|trace| - 1] == Now()
      {
        FirstOfRest(bs, i);
        ghost var p, q := Now(), [];
        NowIs();
        r, q := StopAndUnload(bs[i], names, i, trace);
        NowIs();
        trace := trace + q;
        if r.Thrown? {
          CannotUnloadAll(p0, p, names, i);
          ShutdownRunStaysClosed(trace);
          return;
        }
        UnloadedOneMore(p0, p, Now(), names, i);
        i := i + 1;
      }
      NothingLeft(bs);
      AllUnloaded(p0, Now(), names);
      ShutdownRunStaysClosed(trace);
      r := Ok;
    }

    /** One round of the loop above: "steps" are the pictures it adds. */
    method StopAndUnload(b: Bundle, ghost names: seq<string>, ghost k: nat, ghost trace: seq<Picture>) returns (r: Outcome, ghost steps: seq<Picture>)
      requires Valid() && resolving == {} && b in all
      requires k < |names| && names[k] == b.Name() && Remaining(world, names, k)
      requires ShutdownRun(trace) && |trace| > 0 && trace[|trace| - 1] == Now()
      modifies this`bundles, this`all, this`catalog, this`world, this`order, all`extensionBundles, all`state
      ensures Valid() && ShutdownRun(trace + steps) && (trace + steps)[|trace + steps| - 1] == Now() && (trace + steps)[0] == trace[0]
      ensures r.Ok? ==> all == old(all) - {b} && Remaining(world, names, k + 1)
      ensures r.Ok? ==> world == old(world) - {b.Name()} && catalog == old(catalog) - {b.Name()}
      ensures r.Ok? <==> CanUnload(old(catalog), old(world), b.Name())
    {
      hide *;
      MemberFacts(b);
      b.LoadedFacts();
      CanUnloadIs(catalog, world, b.Name());
      steps := [];
      assert trace + steps == trace;
      if b.state == Active {
        ghost var p := Now();
        NowIs();
        LastIsGood(trace);
        RemainingFirst(world, names, k);
        RemainingNext(world, names, k);
        StopIsGood(p, b.Name());
        r := b.Stop();
        NowIs();
        if r.Thrown? {
          return;
        }
        steps := [Now()];
        ShutdownExtend(trace, Now());
        WithStateRemoved(old(world), b.Name(), Resolved);
      }
      ghost var step;
      r, step := UnloadNext(b, names, k, trace + steps);
      assert trace + (steps + step) == (trace + steps) + step;
      steps := steps + step;
    }

    method UnloadNext(b: Bundle, ghost names: seq<string>, ghost k: nat, ghost trace: seq<Picture>) returns (r: Outcome, ghost steps: seq<Picture>)
      requires Valid() && resolving == {} && b in all
      requires k < |names| && names[k] == b.Name() && Remaining(world, names, k)
      requires ShutdownRun(trace) && |trace| > 0 && trace[|trace| - 1] == Now()
      modifies this`bundles, this`all, this`catalog, this`world, this`order, all`extensionBundles
      ensures Valid() && ShutdownRun(trace + steps) && (trace + steps)[|trace + steps| - 1] == Now()
      ensures r.Ok? ==> all == old(all) - {b} && Remaining(world, names, k + 1)
      ensures r.Ok? ==> world == old(world) - {b.Name()} && catalog == old(catalog) - {b.Name()}
      ensures r.Ok? <==> !old(b.state).IsStarted()
    {
      hide *;
      MemberFacts(b);
      b.LoadedFacts();
      ghost var p := Now();
      NowIs();
      LastIsGood(trace);
      RemainingFirst(world, names, k);
      RemainingNext(world, names, k);
      steps := [];
      assert trace + steps == trace;
      if !b.state.IsStarted() {
        UnloadIsGood(p, b.Name());
      }
      r := UnloadBundle(b);
      NowIs();
      if r.Ok? {
        steps := [Now()];
        ShutdownExtend(trace, Now());
      }
    }

    lemma NowIs()
      ensures Now() == Picture(catalog, world, order)
    {
    }

    lemma NothingLeft(bs: seq<Bundle>)
      requires Valid() && all == ToSet(bs[|bs|..])
      ensures bundles == map[] && catalog == map[]
    {
      assert all == {};
      assert forall n :: n in bundles ==> bundles[n] in all;
    }
  }
}
