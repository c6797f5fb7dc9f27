/**
 * What it means for a set of loaded bundles to be resolvable, stated on values and
 * without any reference to how the loader searches.
 */
module Resolution {
  import opened Versions

  datatype Dependency = Dependency(symbolicName: string, versions: VersionRange)

  datatype ProvidedModule = ProvidedModule(symbolicName: string, version: Version)

  datatype Manifest = Manifest(
    symbolicName: string,
    version: Version,
    requiredBundles: seq<Dependency>,
    requiredModules: seq<Dependency>,
    providedModules: seq<ProvidedModule>,
    extendedBundle: string,
    sealed: bool,
    lazyStart: bool,
    runLevel: string)

  /** A bundle's manifest with the fixed outcomes of the platform calls made for it. */
  datatype Unit = Unit(manifest: Manifest, librariesInstall: bool, activatorStarts: bool, activatorStops: bool)

  /** The loaded bundles by symbolic name. */
  type Catalog = map<string, Unit>

  /** A requirement on a bundle version: an empty range accepts everything. */
  predicate Accepts(d: Dependency, m: Manifest) {
    d.versions.IsEmpty() || d.versions.IsInRange(m.version)
  }

  /** A requirement on a module: here an empty range accepts nothing. */
  predicate ProvidesModule(m: Manifest, d: Dependency) {
    exists k :: 0 <= k < |m.providedModules|
      && d.symbolicName == m.providedModules[k].symbolicName
      && d.versions.IsInRange(m.providedModules[k].version)
  }

  function Providers(cat: Catalog, d: Dependency): set<string> {
    set n | n in cat && ProvidesModule(cat[n].manifest, d)
  }

  /** All names whose bundles must be resolved before n's own dependencies count as resolved. */
  function Needs(cat: Catalog, m: Manifest): set<string> {
    (set i, p | 0 <= i < |m.requiredModules| && p in Providers(cat, m.requiredModules[i]) :: p)
    + (set i | 0 <= i < |m.requiredBundles| :: m.requiredBundles[i].symbolicName)
  }

  ghost predicate ModulesMet(cat: Catalog, m: Manifest, r: set<string>) {
    forall i :: 0 <= i < |m.requiredModules| ==>
      Providers(cat, m.requiredModules[i]) != {} && Providers(cat, m.requiredModules[i]) <= r
  }

  predicate BundleMet(cat: Catalog, d: Dependency, r: set<string>) {
    d.symbolicName in cat && Accepts(d, cat[d.symbolicName].manifest) && d.symbolicName in r
  }

  ghost predicate BundlesMet(cat: Catalog, m: Manifest, r: set<string>) {
    forall i :: 0 <= i < |m.requiredBundles| ==> BundleMet(cat, m.requiredBundles[i], r)
  }

  predicate Extends(cat: Catalog, m: Manifest) {
    m.extendedBundle != "" && m.extendedBundle in cat
  }

  /** An extension needs a loaded extended bundle to be open and resolved; a missing one is only a warning. */
  predicate ExtensionMet(cat: Catalog, m: Manifest, r: set<string>) {
    Extends(cat, m) ==> m.extendedBundle in r && !cat[m.extendedBundle].manifest.sealed
  }

  /** Everything n asks for is met by the bundles in r. */
  ghost predicate Satisfied(cat: Catalog, n: string, r: set<string>) {
    n in cat
    && var u := cat[n];
    && ModulesMet(cat, u.manifest, r)
    && BundlesMet(cat, u.manifest, r)
    && u.librariesInstall
    && ExtensionMet(cat, u.manifest, r)
  }

  lemma SatisfiedMonotone(cat: Catalog, n: string, r: set<string>, r': set<string>)
    requires Satisfied(cat, n, r) && r <= r'
    ensures Satisfied(cat, n, r')
  {
  }

  /** What k rounds of "add every bundle whose requirements are met" reach from base. */
  ghost function Stage(cat: Catalog, base: set<string>, k: nat): set<string> {
    if k == 0 then base
    else
      var s := Stage(cat, base, k - 1);
      s + (set n | n in cat && Satisfied(cat, n, s))
  }

  /** n belongs to the least set that contains base and is closed under Satisfied. */
  ghost predicate Resolvable(cat: Catalog, base: set<string>, n: string) {
    exists k: nat :: n in Stage(cat, base, k)
  }

  lemma StageMonotone(cat: Catalog, base: set<string>, j: nat, k: nat)
    requires j <= k
    ensures Stage(cat, base, j) <= Stage(cat, base, k)
    decreases k
  {
    if j < k {
      StageMonotone(cat, base, j, k - 1);
    }
  }

  /** Stages never leave a set that contains base and is closed. */
  lemma {:induction false} StageLeast(cat: Catalog, base: set<string>, s: set<string>, k: nat)
    requires base <= s
    requires forall n :: Satisfied(cat, n, s) ==> n in s
    ensures Stage(cat, base, k) <= s
  {
    if k > 0 {
      StageLeast(cat, base, s, k - 1);
      forall n | n in cat && Satisfied(cat, n, Stage(cat, base, k - 1))
        ensures n in s
      {
        SatisfiedMonotone(cat, n, Stage(cat, base, k - 1), s);
      }
    }
  }

  /** If s is made of resolvable bundles then one stage already contains all of it. */
  lemma {:induction false} OneStage(cat: Catalog, base: set<string>, s: set<string>) returns (k: nat)
    requires forall n :: n in s ==> Resolvable(cat, base, n)
    ensures s <= Stage(cat, base, k)
    decreases s
  {
    if s == {} {
      k := 0;
    } else {
      var n :| n in s;
      var j := OneStage(cat, base, s - {n});
      var i: nat :| n in Stage(cat, base, i);
      k := if i < j then j else i;
      StageMonotone(cat, base, i, k);
      StageMonotone(cat, base, j, k);
    }
  }

  /** The set of resolvable bundles, as a set. */
  ghost function ResolvableSet(cat: Catalog, base: set<string>): set<string> {
    set n | n in cat.Keys + base && Resolvable(cat, base, n)
  }

  lemma StageInScope(cat: Catalog, base: set<string>, k: nat)
    ensures Stage(cat, base, k) <= cat.Keys + base
  {
  }

  lemma ResolvableSetComplete(cat: Catalog, base: set<string>, n: string)
    ensures n in ResolvableSet(cat, base) <==> Resolvable(cat, base, n)
  {
    if k: nat :| n in Stage(cat, base, k) {
      StageInScope(cat, base, k);
    }
  }

  /** ResolvableSet is the least fixpoint: it contains base, it is closed, and no smaller set is both. */
  lemma LeastFixpoint(cat: Catalog, base: set<string>)
    ensures base <= ResolvableSet(cat, base)
    ensures forall n :: Satisfied(cat, n, ResolvableSet(cat, base)) ==> n in ResolvableSet(cat, base)
    ensures forall n :: n in ResolvableSet(cat, base) - base ==> Satisfied(cat, n, ResolvableSet(cat, base))
    ensures forall s: set<string> ::
              base <= s && (forall n :: Satisfied(cat, n, s) ==> n in s) ==> ResolvableSet(cat, base) <= s
  {
    var all := ResolvableSet(cat, base);
    assert base == Stage(cat, base, 0);
    forall n | Satisfied(cat, n, all) ensures n in all {
      var k := OneStage(cat, base, all);
      SatisfiedMonotone(cat, n, all, Stage(cat, base, k));
      assert n in Stage(cat, base, k + 1);
    }
    forall n | n in all - base ensures Satisfied(cat, n, all) {
      RankSatisfied(cat, base, n);
      forall m | m in Below(cat, base, n) ensures m in all {
        ResolvableSetComplete(cat, base, m);
      }
      SatisfiedMonotone(cat, n, Below(cat, base, n), all);
    }
    forall s: set<string> | base <= s && (forall n :: Satisfied(cat, n, s) ==> n in s)
      ensures all <= s
    {
      forall n | n in all ensures n in s {
        var k: nat :| n in Stage(cat, base, k);
        StageLeast(cat, base, s, k);
      }
    }
  }

  /** The first stage that contains n. */
  ghost function Rank(cat: Catalog, base: set<string>, n: string): (k: nat)
    requires Resolvable(cat, base, n)
    ensures n in Stage(cat, base, k) && (k == 0 || n !in Stage(cat, base, k - 1))
  {
    hide Stage, Satisfied;
    var k: nat :| n in Stage(cat, base, k);
    FirstStage(cat, base, n, k)
  }

  ghost function FirstStage(cat: Catalog, base: set<string>, n: string, k: nat): (j: nat)
    requires n in Stage(cat, base, k)
    ensures n in Stage(cat, base, j) && (j == 0 || n !in Stage(cat, base, j - 1))
  {
    hide Stage, Satisfied;
    if k == 0 || n !in Stage(cat, base, k - 1) then k else FirstStage(cat, base, n, k - 1)
  }

  /** The bundles of strictly smaller rank. */
  ghost function Below(cat: Catalog, base: set<string>, n: string): set<string>
    requires Resolvable(cat, base, n)
  {
    set m | m in cat.Keys + base && Resolvable(cat, base, m) && Rank(cat, base, m) < Rank(cat, base, n)
  }

  lemma RankLeast(cat: Catalog, base: set<string>, m: string, k: nat)
    requires m in Stage(cat, base, k)
    ensures Resolvable(cat, base, m) && Rank(cat, base, m) <= k
  {
    hide Stage, Satisfied;
    assert Resolvable(cat, base, m);
    var j := Rank(cat, base, m);
    if j > k {
      StageMonotone(cat, base, k, j - 1);
    }
  }

  lemma StageBelow(cat: Catalog, base: set<string>, n: string)
    requires Resolvable(cat, base, n) && Rank(cat, base, n) > 0
    ensures Stage(cat, base, Rank(cat, base, n) - 1) <= Below(cat, base, n)
  {
    hide Stage, Satisfied;
    var k := Rank(cat, base, n) - 1;
    StageInScope(cat, base, k);
    forall m | m in Stage(cat, base, k) ensures m in Below(cat, base, n) {
      RankLeast(cat, base, m, k);
    }
  }

  lemma NewInStage(cat: Catalog, base: set<string>, n: string, k: nat)
    requires n in Stage(cat, base, k) && (k == 0 || n !in Stage(cat, base, k - 1)) && n !in base
    ensures k > 0 && Satisfied(cat, n, Stage(cat, base, k - 1))
  {
  }

  /** Everything a resolvable bundle requires has smaller rank. */
  lemma RankSatisfied(cat: Catalog, base: set<string>, n: string)
    requires Resolvable(cat, base, n) && n !in base
    ensures Satisfied(cat, n, Below(cat, base, n))
  {
    hide Stage, Satisfied;
    var k := Rank(cat, base, n);
    NewInStage(cat, base, n, k);
    StageBelow(cat, base, n);
    SatisfiedMonotone(cat, n, Stage(cat, base, k - 1), Below(cat, base, n));
  }

  /** A chain of requirements: each bundle needs the next one. */
  ghost predicate RequirementPath(cat: Catalog, path: seq<string>) {
    && |path| > 0
    && (forall k :: 0 <= k < |path| ==> path[k] in cat)
    && (forall k :: 0 <= k < |path| - 1 ==> path[k + 1] in Needs(cat, cat[path[k]].manifest))
  }

  lemma {:induction false} RankDescends(cat: Catalog, base: set<string>, path: seq<string>)
    requires RequirementPath(cat, path) && Resolvable(cat, base, path[0])
    requires forall k :: 0 <= k < |path| ==> path[k] !in base
    ensures Resolvable(cat, base, path[|path| - 1])
    ensures |path| > 1 ==> Rank(cat, base, path[|path| - 1]) < Rank(cat, base, path[0])
    decreases |path|
  {
    if |path| > 1 {
      RankSatisfied(cat, base, path[0]);
      NeedsAreMet(cat, path[0], Below(cat, base, path[0]));
      assert path[1] in Needs(cat, cat[path[0]].manifest);
      var rest := path[1..];
      assert forall k :: 0 <= k < |rest| ==> rest[k] == path[k + 1];
      RankDescends(cat, base, rest);
    }
  }

  lemma NeedsAreMet(cat: Catalog, n: string, r: set<string>)
    requires Satisfied(cat, n, r)
    ensures Needs(cat, cat[n].manifest) <= r
  {
    var m := cat[n].manifest;
    forall i | 0 <= i < |m.requiredBundles| ensures m.requiredBundles[i].symbolicName in r {
      assert BundleMet(cat, m.requiredBundles[i], r);
    }
  }

  /** Bundles that need each other in a circle are never resolvable, whatever provides what. */
  lemma CircleIsNeverResolvable(cat: Catalog, base: set<string>, path: seq<string>)
    requires RequirementPath(cat, path) && |path| > 1 && path[0] == path[|path| - 1]
    requires forall k :: 0 <= k < |path| ==> path[k] !in base
    ensures !Resolvable(cat, base, path[0])
  {
    if Resolvable(cat, base, path[0]) {
      RankDescends(cat, base, path);
    }
  }

  /**
   * A required module that names no version is never available: unlike for bundles, an
   * empty range is not taken to accept everything.
   */
  lemma UnversionedModuleIsNeverResolvable(cat: Catalog, base: set<string>, n: string, i: nat)
    requires n in cat && n !in base && i < |cat[n].manifest.requiredModules|
    requires cat[n].manifest.requiredModules[i].versions == NO_RANGE
    ensures !Resolvable(cat, base, n)
  {
    var d := cat[n].manifest.requiredModules[i];
    assert Providers(cat, d) == {} by {
      forall m | m in cat ensures !ProvidesModule(cat[m].manifest, d) {
        forall k | 0 <= k < |cat[m].manifest.providedModules| ensures !d.versions.IsInRange(cat[m].manifest.providedModules[k].version) {
          NoRangeIsOneSided(cat[m].manifest.providedModules[k].version);
        }
      }
    }
    if Resolvable(cat, base, n) {
      RankSatisfied(cat, base, n);
      assert false;
    }
  }
}
