/**
 * Whole runs of a bundle loader, as sequences of pictures: what every step keeps, and
 * what therefore holds in every reachable picture.
 */
module Runs {
  import opened Resolution
  import opened Lifecycle
  import opened StartStop
  import Versions

  /** A bundle is loaded under a new name. */
  ghost predicate LoadsOne(p: Picture, p': Picture, n: string, u: Unit, info: Info) {
    && n !in p.cat && u.manifest.symbolicName == n && info.state == Installed
    && p' == Picture(p.cat[n := u], p.world[n := info], p.order)
  }

  ghost predicate Loads(p: Picture, p': Picture) {
    exists n, u: Unit, info: Info :: LoadsOne(p, p', n, u, info)
  }

  /** A resolution, successful or not. */
  ghost predicate Resolves(p: Picture, p': Picture) {
    p'.cat == p.cat && Progress(p.cat, p.world, p.order, p'.world, p'.order)
  }

  /** Bundles are started, successfully or not. */
  ghost predicate StartsSome(p: Picture, p': Picture) {
    p'.cat == p.cat && p'.order == p.order && Starts(p.cat, p.order, p.world, p'.world)
  }

  /** A single bundle is stopped, whatever depends on it. */
  ghost predicate StopsOne(p: Picture, p': Picture, n: string) {
    n in p.world && p.world[n].state == Active && p' == p.(world := WithState(p.world, n, Resolved))
  }

  ghost predicate Stops(p: Picture, p': Picture) {
    exists n :: StopsOne(p, p', n)
  }

  /** A bundle that is not started is unloaded, whatever depends on it. */
  ghost predicate UnloadsOne(p: Picture, p': Picture, n: string) {
    && n in p.cat && n in p.world && !p.world[n].state.IsStarted()
    && p' == Picture(p.cat - {n}, p.world - {n}, Without(p.order, n))
  }

  ghost predicate Unloads(p: Picture, p': Picture) {
    exists n :: UnloadsOne(p, p', n)
  }

  /** One operation of a loader; within a shutdown, one stop or unload. */
  ghost predicate Step(p: Picture, p': Picture) {
    Loads(p, p') || Resolves(p, p') || StartsSome(p, p') || Stops(p, p') || Unloads(p, p')
  }

  const EMPTY := Picture(map[], map[], [])

  ghost predicate IsRun(run: seq<Picture>) {
    && |run| > 0
    && run[0] == EMPTY
    && forall k :: 0 < k < |run| ==> Step(run[k - 1], run[k])
  }

  // ---- What every step keeps ----

  /** A bundle is unloaded that a loaded resolved bundle has recorded as a dependency. */
  ghost predicate UnsafeUnload(p: Picture, p': Picture) {
    exists n :: UnloadsOne(p, p', n) && !NoDependents(p.world, n)
  }

  lemma UnloadedOnce(p: Picture, p': Picture, m: string, n: string)
    requires UnloadsOne(p, p', m) && UnloadsOne(p, p', n)
    ensures m == n
  {
    assert m !in p.cat - {m};
  }

  lemma NothingUnloaded(p: Picture, p': Picture)
    requires p.cat.Keys <= p'.cat.Keys
    ensures !Unloads(p, p') && !UnsafeUnload(p, p')
  {
    forall n ensures !UnloadsOne(p, p', n) {
      assert n !in (p.cat - {n}).Keys;
    }
  }

  lemma OtherStepIsGood(p: Picture, p': Picture)
    requires GoodPicture(p) && Step(p, p') && !Unloads(p, p')
    ensures GoodPicture(p') && p.cat.Keys <= p'.cat.Keys
  {
    hide Inv, Progress, Starts;
    if Loads(p, p') {
      var n, u: Unit, info: Info :| LoadsOne(p, p', n, u, info);
      LoadKeepsInv(p.cat, p.world, p.order, n, u, info);
    } else if Resolves(p, p') {
      ProgressKeepsInv(p.cat, p.world, p.order, p'.world, p'.order);
    } else if StartsSome(p, p') {
      StartsKeepsInv(p.cat, p.order, p.world, p'.world);
    } else {
      var n :| StopsOne(p, p', n);
      StateKeepsInv(p.cat, p.world, p.order, n, Resolved);
    }
  }

  /** Of all steps only the unload of a recorded dependency breaks the invariant, and it always does. */
  lemma StepIsGoodIffSafe(p: Picture, p': Picture)
    requires GoodPicture(p) && Step(p, p')
    ensures GoodPicture(p') <==> !UnsafeUnload(p, p')
  {
    hide Inv, Step, NoDependents, Without;
    if n :| UnloadsOne(p, p', n) {
      UnloadKeepsInvIff(p.cat, p.world, p.order, n);
      forall m | UnloadsOne(p, p', m) ensures m == n {
        UnloadedOnce(p, p', m, n);
      }
    } else {
      OtherStepIsGood(p, p');
      NothingUnloaded(p, p');
    }
  }

  ghost predicate GoodUpTo(run: seq<Picture>, k: nat)
    requires k < |run|
  {
    forall j :: 0 <= j <= k ==> GoodPicture(run[j])
  }

  ghost predicate NeededStay(run: seq<Picture>, k: nat)
    requires k < |run|
  {
    forall j :: 0 < j <= k ==> !UnsafeUnload(run[j - 1], run[j])
  }

  /**
   * In a run up to any point, resolved bundles have current, loaded, complete and
   * duplicate-free records ranked by the resolution order throughout, if and only if no
   * bundle was unloaded that a loaded resolved one depended on.
   */
  lemma {:induction false} RunInvariant(run: seq<Picture>, k: nat)
    requires IsRun(run) && k < |run|
    ensures GoodUpTo(run, k) <==> NeededStay(run, k)
    decreases k
  {
    hide Step, UnsafeUnload;
    if k == 0 {
      EmptyIsGood();
    } else {
      RunInvariant(run, k - 1);
      if GoodPicture(run[k - 1]) {
        StepIsGoodIffSafe(run[k - 1], run[k]);
      }
      assert GoodUpTo(run, k) <==> GoodUpTo(run, k - 1) && GoodPicture(run[k]);
      assert NeededStay(run, k) <==> NeededStay(run, k - 1) && !UnsafeUnload(run[k - 1], run[k]);
    }
  }

  lemma EmptyIsGood()
    ensures GoodPicture(EMPTY)
  {
  }

  /** As long as needed bundles stay loaded, no resolved bundle leads back to itself through recorded dependencies. */
  lemma RunsAreAcyclic(run: seq<Picture>, k: nat, path: seq<string>)
    requires IsRun(run) && k < |run| && NeededStay(run, k)
    requires IsPath(run[k].world, path) && |path| > 1 && path[0] in run[k].order
    ensures path[0] != path[|path| - 1]
  {
    RunInvariant(run, k);
    Acyclic(run[k].cat, run[k].world, run[k].order, path);
  }

  // ---- When the dependencies of ACTIVE bundles are ACTIVE ----

  lemma LoadKeepsClosed(p: Picture, p': Picture)
    requires ActiveClosed(p.world) && Loads(p, p') && GoodPicture(p)
    ensures ActiveClosed(p'.world)
  {
    var n, u: Unit, info: Info :| LoadsOne(p, p', n, u, info);
    forall m, d | m in p'.world && p'.world[m].state == Active && d in Names(p'.world[m].deps)
      ensures d in p'.world && p'.world[d].state == Active
    {
      assert d in p.world && p.world[d].state == Active;
    }
  }

  lemma NewlyResolvedIsNotActive(p: Picture, p': Picture, m: string)
    requires Resolves(p, p') && |p.order| <= |p'.order| && m in p'.order[|p.order|..]
    ensures m in p'.world && p'.world[m].state != Active
  {
    hide Inv, Satisfied, Recorded;
    var i :| |p.order| <= i < |p'.order| && p'.order[i] == m;
    assert NewlyResolved(p.cat, p.world, p'.world, p'.order, i);
  }

  lemma ActiveStaysActive(p: Picture, p': Picture, m: string)
    requires Resolves(p, p') && m in p.world && p.world[m].state == Active
    ensures m in p'.world && p'.world[m] == p.world[m]
  {
  }

  lemma ActiveWasActive(p: Picture, p': Picture, m: string)
    requires Resolves(p, p') && m in p'.world && p'.world[m].state == Active
    ensures m in p.world && p.world[m].state == Active && p'.world[m] == p.world[m]
  {
    hide Inv, Satisfied, Recorded;
    if m in p'.order[|p.order|..] {
      NewlyResolvedIsNotActive(p, p', m);
    }
  }

  lemma ResolveKeepsClosed(p: Picture, p': Picture)
    requires ActiveClosed(p.world) && Resolves(p, p')
    ensures ActiveClosed(p'.world)
  {
    hide Progress;
    forall m, d | m in p'.world && p'.world[m].state == Active && d in Names(p'.world[m].deps)
      ensures d in p'.world && p'.world[d].state == Active
    {
      ActiveWasActive(p, p', m);
      assert d in p.world && p.world[d].state == Active;
      ActiveStaysActive(p, p', d);
    }
  }

  /** Even an unload that breaks the invariant: what is unloaded is not ACTIVE. */
  lemma AnyUnloadKeepsClosed(p: Picture, p': Picture, n: string)
    requires ActiveClosed(p.world) && UnloadsOne(p, p', n)
    ensures ActiveClosed(p'.world)
  {
    forall m, d | m in p'.world && p'.world[m].state == Active && d in Names(p'.world[m].deps)
      ensures d in p'.world && p'.world[d].state == Active
    {
      assert m in p.world && p.world[d].state == Active;
    }
  }

  /** A bundle is stopped while an ACTIVE bundle depends on it. */
  ghost predicate UnsafeStop(p: Picture, p': Picture) {
    exists n :: StopsOne(p, p', n) && !NoActiveDependents(p.world, n)
  }

  lemma StoppedOnce(p: Picture, p': Picture, m: string, n: string)
    requires StopsOne(p, p', m) && StopsOne(p, p', n)
    ensures m == n
  {
    assert p'.world[n].state == Resolved && p.world[n].state == Active;
  }

  /** Of all steps only a stop below an ACTIVE bundle leaves that bundle above one that is not ACTIVE. */
  lemma StepKeepsClosedIffSafe(p: Picture, p': Picture)
    requires GoodPicture(p) && ActiveClosed(p.world) && Step(p, p')
    ensures ActiveClosed(p'.world) <==> !UnsafeStop(p, p')
  {
    hide Inv, Progress, Starts, ActiveClosed, NoActiveDependents;
    if n :| StopsOne(p, p', n) {
      StopKeepsClosedIffSafe(p.cat, p.world, p.order, n);
      forall m | StopsOne(p, p', m) ensures m == n {
        StoppedOnce(p, p', m, n);
      }
    } else if Loads(p, p') {
      LoadKeepsClosed(p, p');
    } else if Resolves(p, p') {
      ResolveKeepsClosed(p, p');
    } else if StartsSome(p, p') {
      StartsKeepsActiveClosed(p.cat, p.order, p.world, p'.world);
    } else {
      var n :| UnloadsOne(p, p', n);
      AnyUnloadKeepsClosed(p, p', n);
    }
  }

  ghost predicate ClosedUpTo(run: seq<Picture>, k: nat)
    requires k < |run|
  {
    forall j :: 0 <= j <= k ==> ActiveClosed(run[j].world)
  }

  ghost predicate SafeUpTo(run: seq<Picture>, k: nat)
    requires k < |run|
  {
    forall j :: 0 < j <= k ==> !UnsafeStop(run[j - 1], run[j])
  }

  /**
   * In a run whose needed bundles stay loaded the dependencies of ACTIVE bundles are ACTIVE
   * throughout if and only if no bundle was stopped while an ACTIVE bundle depended on it.
   */
  lemma {:induction false} ClosedIffStoppedSafely(run: seq<Picture>, k: nat)
    requires IsRun(run) && k < |run| && NeededStay(run, k)
    ensures ClosedUpTo(run, k) <==> SafeUpTo(run, k)
    decreases k
  {
    if k > 0 {
      ClosedIffStoppedSafely(run, k - 1);
      RunInvariant(run, k - 1);
      assert Step(run[k - 1], run[k]);
      if ActiveClosed(run[k - 1].world) {
        StepKeepsClosedIffSafe(run[k - 1], run[k]);
      }
      assert ClosedUpTo(run, k) <==> ClosedUpTo(run, k - 1) && ActiveClosed(run[k].world);
      assert SafeUpTo(run, k) <==> SafeUpTo(run, k - 1) && !UnsafeStop(run[k - 1], run[k]);
    }
  }

  /** After safe stops only, no ACTIVE bundle reaches one that is not ACTIVE. */
  lemma ActiveReachesActive(run: seq<Picture>, k: nat, path: seq<string>)
    requires IsRun(run) && k < |run| && NeededStay(run, k) && SafeUpTo(run, k)
    requires IsPath(run[k].world, path) && run[k].world[path[0]].state == Active
    ensures run[k].world[path[|path| - 1]].state == Active
  {
    ClosedIffStoppedSafely(run, k);
    ActiveReaches(run[k].world, path);
  }

  // ---- A run that stops a bundle below an ACTIVE one ----

  function Plain(n: string, requires': seq<Dependency>): Unit {
    Unit(Manifest(n, Versions.ZERO_VERSION, requires', [], [], "", false, false, ""), true, true, true)
  }

  const BASE := "base"
  const USER := "user"
  const CATALOG: Catalog := map[
    BASE := Plain(BASE, []),
    USER := Plain(USER, [Dependency(BASE, Versions.NO_RANGE)])
  ]
  const RECORD := [ResolvedDependency(BASE, Versions.ZERO_VERSION)]

  function At(base: State, user: State): World {
    map[BASE := Info(base, [], []), USER := Info(user, if user == Installed then [] else RECORD, [])]
  }

  lemma BaseIsRecorded()
    ensures Satisfied(CATALOG, BASE, {}) && Recorded(CATALOG, BASE, [], [])
  {
    assert Names([]) == {} == Needs(CATALOG, CATALOG[BASE].manifest);
  }

  lemma UserIsRecorded()
    ensures Satisfied(CATALOG, USER, {BASE}) && Recorded(CATALOG, USER, RECORD, [])
  {
    var m := CATALOG[USER].manifest;
    assert RECORD[0].symbolicName == BASE && m.requiredBundles[0].symbolicName == BASE;
    assert Names(RECORD) == {BASE} == Needs(CATALOG, m);
  }

  lemma BothLoaded()
    ensures Step(EMPTY, Picture(map[BASE := CATALOG[BASE]], map[BASE := Info(Installed, [], [])], []))
    ensures Step(Picture(map[BASE := CATALOG[BASE]], map[BASE := Info(Installed, [], [])], []), Picture(CATALOG, At(Installed, Installed), []))
  {
    var p, info := Picture(map[BASE := CATALOG[BASE]], map[BASE := Info(Installed, [], [])], []), Info(Installed, [], []);
    assert LoadsOne(EMPTY, p, BASE, CATALOG[BASE], info);
    assert Loads(EMPTY, p);
    var q := Picture(CATALOG, At(Installed, Installed), []);
    assert q.cat == p.cat[USER := CATALOG[USER]] && q.world == p.world[USER := info];
    assert LoadsOne(p, q, USER, CATALOG[USER], info);
    assert Loads(p, q);
  }

  lemma BothResolved()
    requires GoodPicture(Picture(CATALOG, At(Installed, Installed), []))
    ensures Step(Picture(CATALOG, At(Installed, Installed), []), Picture(CATALOG, At(Resolved, Installed), [BASE]))
    ensures Step(Picture(CATALOG, At(Resolved, Installed), [BASE]), Picture(CATALOG, At(Resolved, Resolved), [BASE, USER]))
  {
    hide Satisfied, Recorded, Inv;
    var w0, w1, w2 := At(Installed, Installed), At(Resolved, Installed), At(Resolved, Resolved);
    BaseIsRecorded();
    UserIsRecorded();
    assert ToSet<string>([]) == {} && ToSet([BASE]) == {BASE};
    assert w1 == w0[BASE := Info(Resolved, [], [])] && [] + [BASE] == [BASE];
    ProgressStep(CATALOG, w0, [], BASE, Info(Resolved, [], []));
    assert Resolves(Picture(CATALOG, w0, []), Picture(CATALOG, w1, [BASE]));
    NothingUnloaded(Picture(CATALOG, w0, []), Picture(CATALOG, w1, [BASE]));
    StepIsGoodIffSafe(Picture(CATALOG, w0, []), Picture(CATALOG, w1, [BASE]));
    assert w2 == w1[USER := Info(Resolved, RECORD, [])] && [BASE] + [USER] == [BASE, USER];
    ProgressStep(CATALOG, w1, [BASE], USER, Info(Resolved, RECORD, []));
    assert Resolves(Picture(CATALOG, w1, [BASE]), Picture(CATALOG, w2, [BASE, USER]));
  }

  lemma BaseStarted()
    requires GoodPicture(Picture(CATALOG, At(Resolved, Resolved), [BASE, USER]))
    ensures Step(Picture(CATALOG, At(Resolved, Resolved), [BASE, USER]), Picture(CATALOG, At(Active, Resolved), [BASE, USER]))
  {
    hide Inv;
    var w, w', o := At(Resolved, Resolved), At(Active, Resolved), [BASE, USER];
    assert BASE in o && CanStart(CATALOG, w, o, BASE);
    assert NewlyActive(CATALOG, o, w, w', BASE);
    assert w'[USER] == w[USER];
    assert w.Keys == {BASE, USER} == w'.Keys;
    assert StartsSome(Picture(CATALOG, w, o), Picture(CATALOG, w', o));
  }

  lemma UserStarted()
    requires GoodPicture(Picture(CATALOG, At(Active, Resolved), [BASE, USER]))
    ensures Step(Picture(CATALOG, At(Active, Resolved), [BASE, USER]), Picture(CATALOG, At(Active, Active), [BASE, USER]))
  {
    hide Inv;
    var w, w', o := At(Active, Resolved), At(Active, Active), [BASE, USER];
    assert RECORD[0].symbolicName == BASE;
    assert Names(RECORD) == {BASE};
    assert BASE in o && USER in o && CanStart(CATALOG, w, o, BASE) && CanStart(CATALOG, w, o, USER);
    assert NewlyActive(CATALOG, o, w, w', USER);
    assert w'[BASE] == w[BASE];
    assert w.Keys == {BASE, USER} == w'.Keys;
    assert StartsSome(Picture(CATALOG, w, o), Picture(CATALOG, w', o));
  }

  lemma BaseStopped()
    ensures Step(Picture(CATALOG, At(Active, Active), [BASE, USER]), Picture(CATALOG, At(Resolved, Active), [BASE, USER]))
  {
    var p, p' := Picture(CATALOG, At(Active, Active), [BASE, USER]), Picture(CATALOG, At(Resolved, Active), [BASE, USER]);
    assert p'.world == WithState(p.world, BASE, Resolved);
    assert StopsOne(p, p', BASE);
  }

  lemma UserIsLeftAbove()
    ensures !ActiveClosed(At(Resolved, Active))
  {
    var w := At(Resolved, Active);
    assert RECORD[0].symbolicName == BASE;
    assert BASE in Names(RECORD);
    assert USER in w && w[USER].state == Active && w[USER].deps == RECORD && w[BASE].state == Resolved;
  }

  lemma RunGoesOn(run: seq<Picture>, p: Picture) returns (longer: seq<Picture>)
    requires IsRun(run) && Step(run[|run| - 1], p)
    requires NeededStay(run, |run| - 1) && run[|run| - 1].cat.Keys <= p.cat.Keys
    ensures IsRun(longer) && longer[|longer| - 1] == p
    ensures NeededStay(longer, |longer| - 1) && GoodPicture(p)
  {
    hide Step, GoodPicture, UnsafeUnload;
    longer := run + [p];
    NothingUnloaded(run[|run| - 1], p);
    forall j | 0 < j < |longer| ensures Step(longer[j - 1], longer[j]) && !UnsafeUnload(longer[j - 1], longer[j]) {
      if j < |run| {
        assert longer[j - 1] == run[j - 1] && longer[j] == run[j];
      }
    }
    RunInvariant(longer, |run|);
  }

  lemma CatalogsGrow()
    ensures EMPTY.cat.Keys <= {BASE} && map[BASE := CATALOG[BASE]].Keys == {BASE} && CATALOG.Keys == {BASE, USER}
  {
  }

  const BOTH_RESOLVED := Picture(CATALOG, At(Resolved, Resolved), [BASE, USER])

  lemma ReachesBothResolved() returns (run: seq<Picture>)
    ensures IsRun(run) && NeededStay(run, |run| - 1)
    ensures run[|run| - 1] == BOTH_RESOLVED && GoodPicture(BOTH_RESOLVED)
  {
    hide Step, GoodPicture, UnsafeUnload;
    CatalogsGrow();
    BothLoaded();
    run := [EMPTY];
    run := RunGoesOn(run, Picture(map[BASE := CATALOG[BASE]], map[BASE := Info(Installed, [], [])], []));
    run := RunGoesOn(run, Picture(CATALOG, At(Installed, Installed), []));
    BothResolved();
    run := RunGoesOn(run, Picture(CATALOG, At(Resolved, Installed), [BASE]));
    run := RunGoesOn(run, BOTH_RESOLVED);
  }

  /** Stopping a single bundle can leave an ACTIVE bundle above one that is not: a reachable picture is not closed. */
  lemma StoppingBelowBreaks()
    ensures exists run: seq<Picture> ::
      IsRun(run) && NeededStay(run, |run| - 1) && !ActiveClosed(run[|run| - 1].world)
  {
    hide Step, GoodPicture, ActiveClosed, UnsafeUnload;
    var run := ReachesBothResolved();
    BaseStarted();
    run := RunGoesOn(run, Picture(CATALOG, At(Active, Resolved), [BASE, USER]));
    UserStarted();
    run := RunGoesOn(run, Picture(CATALOG, At(Active, Active), [BASE, USER]));
    BaseStopped();
    run := RunGoesOn(run, Picture(CATALOG, At(Resolved, Active), [BASE, USER]));
    UserIsLeftAbove();
  }

  lemma BaseIsNeeded()
    ensures !NoDependents(At(Resolved, Resolved), BASE)
  {
    var w := At(Resolved, Resolved);
    assert RECORD[0].symbolicName == BASE;
    assert BASE in Names(RECORD);
    assert USER in w && w[USER].state.IsResolved() && w[USER].deps == RECORD;
  }

  /** A single unload can take away what a resolved bundle depends on: a reachable picture breaks the invariant. */
  lemma UnloadingBelowBreaks()
    ensures exists run: seq<Picture> :: IsRun(run) && !GoodPicture(run[|run| - 1])
  {
    hide GoodPicture, NoDependents;
    var run := ReachesBothResolved();
    var p := BOTH_RESOLVED;
    var p' := Picture(p.cat - {BASE}, p.world - {BASE}, Without(p.order, BASE));
    assert UnloadsOne(p, p', BASE);
    BaseIsNeeded();
    StepIsGoodIffSafe(p, p');
    var longer := run + [p'];
    assert IsRun(longer) && longer[|longer| - 1] == p';
  }
}
