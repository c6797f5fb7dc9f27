/**
 * A service listener's cache against the service registry. Threads that register and
 * unregister services interleave with the listener's start-up; what happens under one of
 * the two locks is one step, and so is taking the list of delegates of an event.
 */
module ServiceListening {

  type Name = nat

  /** The identity of a ServiceRef object; registering a name again makes a new one. */
  type Ref = nat

  datatype Notice = Registered(r: Ref) | Unregistered(r: Ref)

  /** Where a thread is in registerService: stored, about to call the listener, about to announce. */
  datatype Registering = Stored | Calling | Announcing

  /** Where a thread is in unregisterService. */
  datatype Unregistering = Removed | Telling | Withdrawing

  /** Where the listener is in init; it is ready when there is nothing left of what it found. */
  datatype Listener =
    | Idle
    | HalfSubscribed
    | Subscribed
    | Finding(todo: set<Ref>)
    | AnnouncingFound(todo: set<Ref>, found: Ref)

  datatype State = State(
    matches: seq<bool>, // for each reference, whether the listener's query matches its properties
    services: map<Name, Ref>,
    registering: map<Ref, Registering>,
    unregistering: map<Ref, Unregistering>,
    listener: Listener,
    refs: set<Ref>,
    notices: seq<Notice>)

  datatype Step =
    | Register(name: Name, matching: bool)
    | NotifyRegistered(r: Ref)
    | Cache(r: Ref)
    | Announce(r: Ref)
    | Unregister(name: Name)
    | NotifyUnregistered(r: Ref)
    | Uncache(r: Ref)
    | Withdraw(r: Ref)
    | SubscribeToRegistrations
    | SubscribeToUnregistrations
    | Find
    | CacheFound(r: Ref)
    | AnnounceFound

  const INITIAL := State([], map[], map[], map[], Idle, {}, [])

  predicate IsRegistering(s: State, r: Ref, phase: Registering) {
    r in s.registering && s.registering[r] == phase
  }

  predicate IsUnregistering(s: State, r: Ref, phase: Unregistering) {
    r in s.unregistering && s.unregistering[r] == phase
  }

  predicate Enabled(s: State, step: Step) {
    match step
    case Register(name, _) => name !in s.services
    case NotifyRegistered(r) => IsRegistering(s, r, Stored)
    case Cache(r) => IsRegistering(s, r, Calling)
    case Announce(r) => IsRegistering(s, r, Announcing)
    case Unregister(name) => name in s.services
    case NotifyUnregistered(r) => IsUnregistering(s, r, Removed)
    case Uncache(r) => IsUnregistering(s, r, Telling)
    case Withdraw(r) => IsUnregistering(s, r, Withdrawing)
    case SubscribeToRegistrations => s.listener.Idle?
    case SubscribeToUnregistrations => s.listener.HalfSubscribed?
    case Find => s.listener.Subscribed?
    case CacheFound(r) => s.listener.Finding? && r in s.listener.todo
    case AnnounceFound => s.listener.AnnouncingFound?
  }

  predicate Matches(s: State, r: Ref) {
    r < |s.matches| && s.matches[r]
  }

  predicate InRegistry(s: State, r: Ref) {
    r in s.services.Values
  }

  /** What the registry's find returns for the listener's query. */
  function Found(s: State): set<Ref> {
    set r | r in s.services.Values && Matches(s, r)
  }

  function Next(s: State, step: Step): State
    requires Enabled(s, step)
  {
    match step
    case Register(name, matching) =>
      var r := |s.matches|;
      s.(matches := s.matches + [matching], services := s.services[name := r], registering := s.registering[r := Stored])
    case NotifyRegistered(r) =>
      if s.listener.Idle? then s.(registering := s.registering - {r})
      else s.(registering := s.registering[r := Calling])
    case Cache(r) =>
      if Matches(s, r) && r !in s.refs then s.(refs := s.refs + {r}, registering := s.registering[r := Announcing])
      else s.(registering := s.registering - {r})
    case Announce(r) =>
      s.(notices := s.notices + [Registered(r)], registering := s.registering - {r})
    case Unregister(name) =>
      s.(services := s.services - {name}, unregistering := s.unregistering[s.services[name] := Removed])
    case NotifyUnregistered(r) =>
      if s.listener.Idle? || s.listener.HalfSubscribed? then s.(unregistering := s.unregistering - {r})
      else s.(unregistering := s.unregistering[r := Telling])
    case Uncache(r) =>
      if r in s.refs then s.(refs := s.refs - {r}, unregistering := s.unregistering[r := Withdrawing])
      else s.(unregistering := s.unregistering - {r})
    case Withdraw(r) =>
      s.(notices := s.notices + [Unregistered(r)], unregistering := s.unregistering - {r})
    case SubscribeToRegistrations => s.(listener := HalfSubscribed)
    case SubscribeToUnregistrations => s.(listener := Subscribed)
    case Find => s.(listener := Finding(Found(s)))
    case CacheFound(r) =>
      var rest := s.listener.todo - {r};
      if Matches(s, r) && r !in s.refs then s.(refs := s.refs + {r}, listener := AnnouncingFound(rest, r))
      else s.(listener := Finding(rest))
    case AnnounceFound =>
      s.(notices := s.notices + [Registered(s.listener.found)], listener := Finding(s.listener.todo))
  }

  /** The listener will still look at a reference it found. */
  predicate InTodo(s: State, r: Ref) {
    (s.listener.Finding? || s.listener.AnnouncingFound?) && r in s.listener.todo
  }

  /** Some thread is still going to put the reference into the cache, or may. */
  predicate CachingAhead(s: State, r: Ref) {
    IsRegistering(s, r, Stored) || IsRegistering(s, r, Calling) || InTodo(s, r)
  }

  /**
   * When a reference may be unregistered: nobody is still going to cache it, and if it is
   * cached, the listener has subscribed to unregistrations.
   */
  predicate Safe(s: State, r: Ref) {
    Matches(s, r) ==> !CachingAhead(s, r) && !(s.listener.HalfSubscribed? && r in s.refs)
  }

  predicate Allowed(s: State, step: Step) {
    Enabled(s, step) && (step.Unregister? ==> Safe(s, s.services[step.name]))
  }

  // ---- What holds throughout ----

  function Count(notices: seq<Notice>, notice: Notice): nat {
    multiset(notices)[notice]
  }

  function One(b: bool): nat {
    if b then 1 else 0
  }

  /** How often a reference has been put into the cache. */
  function Entered(s: State, r: Ref): nat {
    Count(s.notices, Registered(r)) + One(IsRegistering(s, r, Announcing))
    + One(s.listener.AnnouncingFound? && s.listener.found == r)
  }

  /** How often it has been taken out. */
  function Left(s: State, r: Ref): nat {
    Count(s.notices, Unregistered(r)) + One(IsUnregistering(s, r, Withdrawing))
  }

  predicate HasFound(s: State) {
    s.listener.Finding? || s.listener.AnnouncingFound?
  }

  /** Every cached reference is announced, or is about to be, and every uncached one is withdrawn, or is about to be. */
  predicate Accounted(s: State, r: Ref) {
    && Entered(s, r) == Left(s, r) + One(r in s.refs)
    && Entered(s, r) <= 1
    && (r in s.refs || Entered(s, r) > 0 ==> Matches(s, r))
  }

  /** A reference in the registry is not being unregistered, and no trace of it has been withdrawn. */
  predicate Unbroken(s: State, r: Ref) {
    InRegistry(s, r) ==> r !in s.unregistering && Left(s, r) == 0
  }

  /** What is still to be cached is in the registry, and what find has missed is still to be cached. */
  predicate Current(s: State, r: Ref) {
    && (CachingAhead(s, r) && Matches(s, r) ==> InRegistry(s, r))
    && (InRegistry(s, r) && Matches(s, r) && HasFound(s) ==> r in s.refs || CachingAhead(s, r))
    && (IsRegistering(s, r, Calling) ==> !s.listener.Idle?)
  }

  /** A cached reference that has left the registry will be uncached. */
  predicate Leaving(s: State, r: Ref) {
    && (r in s.refs && !InRegistry(s, r) ==>
          || IsUnregistering(s, r, Telling)
          || (IsUnregistering(s, r, Removed) && !s.listener.HalfSubscribed?))
    && (r in s.refs ==> !s.listener.Idle?)
  }

  predicate OneNameEach(s: State) {
    && (forall name :: name in s.services ==> s.services[name] < |s.matches|)
    && (forall a, b :: a in s.services && b in s.services && s.services[a] == s.services[b] ==> a == b)
  }

  predicate ThreadsKnown(s: State) {
    && (forall r :: r in s.registering ==> r < |s.matches|)
    && (forall r :: r in s.unregistering ==> r < |s.matches|)
  }

  predicate CacheKnown(s: State) {
    && (forall r :: r in s.refs ==> r < |s.matches|)
    && (forall k :: 0 <= k < |s.notices| ==> s.notices[k].r < |s.matches|)
  }

  predicate ListenerKnown(s: State) {
    && (HasFound(s) ==> forall r :: r in s.listener.todo ==> r < |s.matches|)
    && (s.listener.AnnouncingFound? ==> s.listener.found < |s.matches|)
  }

  predicate Known(s: State) {
    OneNameEach(s) && ThreadsKnown(s) && CacheKnown(s) && ListenerKnown(s)
  }

  ghost predicate Inv(s: State) {
    && Known(s)
    && forall r: Ref :: Accounted(s, r) && Unbroken(s, r) && Current(s, r) && Leaving(s, r)
  }

  lemma StaysKnown(s: State, step: Step)
    requires Known(s) && Enabled(s, step)
    ensures Known(Next(s, step))
  {
    hide Next, OneNameEach, ThreadsKnown, CacheKnown, ListenerKnown;
    StaysOneNameEach(s, step);
    ThreadsStayKnown(s, step);
    CacheStaysKnown(s, step);
    ListenerStaysKnown(s, step);
  }

  lemma ThreadsStayKnown(s: State, step: Step)
    requires OneNameEach(s) && ThreadsKnown(s) && Enabled(s, step)
    ensures ThreadsKnown(Next(s, step))
  {
  }

  lemma CacheStaysKnown(s: State, step: Step)
    requires ThreadsKnown(s) && CacheKnown(s) && ListenerKnown(s) && Enabled(s, step)
    ensures CacheKnown(Next(s, step))
  {
  }

  lemma ListenerStaysKnown(s: State, step: Step)
    requires OneNameEach(s) && ListenerKnown(s) && Enabled(s, step)
    ensures ListenerKnown(Next(s, step))
  {
    if step.Find? {
      forall r | r in Found(s) ensures r < |s.matches| {
      }
    }
  }

  lemma StaysOneNameEach(s: State, step: Step)
    requires OneNameEach(s) && Enabled(s, step)
    ensures OneNameEach(Next(s, step))
  {
  }

  lemma Counting(notices: seq<Notice>, added: Notice, notice: Notice)
    ensures Count(notices + [added], notice) == Count(notices, notice) + One(added == notice)
  {
  }

  lemma NeverCounted(notices: seq<Notice>, notice: Notice)
    requires forall k :: 0 <= k < |notices| ==> notices[k] != notice
    ensures Count(notices, notice) == 0
  {
    assert notice !in multiset(notices);
  }

  /** What a step does to the registry. */
  lemma RegistryAfter(s: State, step: Step, r: Ref)
    requires Known(s) && Enabled(s, step)
    ensures var n := Next(s, step);
      match step
      case Register(_, _) => InRegistry(n, r) <==> InRegistry(s, r) || r == |s.matches|
      case Unregister(name) => InRegistry(n, r) <==> InRegistry(s, r) && r != s.services[name]
      case _ => InRegistry(n, r) <==> InRegistry(s, r)
  {
    var n := Next(s, step);
    match step {
      case Register(name, _) =>
        assert n.services[name] == |s.matches|;
        if InRegistry(s, r) {
          var a :| a in s.services && s.services[a] == r;
          assert n.services[a] == r;
        }
      case Unregister(name) =>
        if InRegistry(s, r) && r != s.services[name] {
          var a :| a in s.services && s.services[a] == r;
          assert a in n.services && n.services[a] == r;
        }
      case _ =>
    }
  }

  lemma FreshIsUnused(s: State, r: Ref)
    requires Known(s) && |s.matches| <= r
    ensures Entered(s, r) == 0 && Left(s, r) == 0 && !InRegistry(s, r)
  {
    NeverCounted(s.notices, Registered(r));
    NeverCounted(s.notices, Unregistered(r));
  }

  predicate PutsIn(s: State, step: Step, r: Ref) {
    (step == Cache(r) || step == CacheFound(r)) && Matches(s, r) && r !in s.refs
  }

  predicate TakesOut(s: State, step: Step, r: Ref) {
    step == Uncache(r) && r in s.refs
  }

  lemma EnteredAfter(s: State, step: Step, r: Ref)
    requires Known(s) && Enabled(s, step)
    ensures Entered(Next(s, step), r) == Entered(s, r) + One(PutsIn(s, step, r))
  {
    hide Count;
    match step {
      case Announce(q) => Counting(s.notices, Registered(q), Registered(r));
      case AnnounceFound => Counting(s.notices, Registered(s.listener.found), Registered(r));
      case Withdraw(q) => Counting(s.notices, Unregistered(q), Registered(r));
      case _ =>
    }
  }

  lemma LeftAfter(s: State, step: Step, r: Ref)
    requires Known(s) && Enabled(s, step) && Unbroken(s, r)
    ensures Left(Next(s, step), r) == Left(s, r) + One(TakesOut(s, step, r))
  {
    hide Count;
    match step {
      case Announce(q) => Counting(s.notices, Registered(q), Unregistered(r));
      case AnnounceFound => Counting(s.notices, Registered(s.listener.found), Unregistered(r));
      case Withdraw(q) => Counting(s.notices, Unregistered(q), Unregistered(r));
      case Unregister(name) => ServicesAreInRegistry(s, name);
      case _ =>
    }
  }

  lemma KeepsAccounted(s: State, step: Step, r: Ref)
    requires Known(s) && Enabled(s, step)
    requires Accounted(s, r) && Unbroken(s, r) && Current(s, r)
    ensures Accounted(Next(s, step), r)
  {
    hide Entered;
    hide Left;
    hide InRegistry;
    EnteredAfter(s, step, r);
    LeftAfter(s, step, r);
  }

  lemma ServicesAreInRegistry(s: State, name: Name)
    requires name in s.services
    ensures InRegistry(s, s.services[name])
  {
  }

  lemma StepKeepsInv(s: State, step: Step)
    requires Inv(s) && Allowed(s, step)
    ensures Inv(Next(s, step))
  {
    StaysKnown(s, step);
    forall r: Ref ensures var n := Next(s, step); Accounted(n, r) && Unbroken(n, r) && Current(n, r) && Leaving(n, r) {
      KeepsAccounted(s, step, r);
      KeepsUnbroken(s, step, r);
      KeepsCurrent(s, step, r);
      KeepsLeaving(s, step, r);
    }
  }

  lemma KeepsUnbroken(s: State, step: Step, r: Ref)
    requires Known(s) && Enabled(s, step)
    requires Unbroken(s, r)
    ensures Unbroken(Next(s, step), r)
  {
    hide Count;
    hide InRegistry;
    RegistryAfter(s, step, r);
    match step {
      case Register(_, _) =>
        if r == |s.matches| {
          FreshIsUnused(s, r);
        }
      case Announce(q) => Counting(s.notices, Registered(q), Unregistered(r));
      case AnnounceFound => Counting(s.notices, Registered(s.listener.found), Unregistered(r));
      case Withdraw(q) => Counting(s.notices, Unregistered(q), Unregistered(r));
      case _ =>
    }
  }

  lemma KeepsCurrent(s: State, step: Step, r: Ref)
    requires Known(s) && Allowed(s, step)
    requires Unbroken(s, r) && Current(s, r)
    ensures Current(Next(s, step), r)
  {
    hide Count;
    hide InRegistry;
    RegistryAfter(s, step, r);
    if step.Find? {
      FoundIsMatching(s, r);
    }
  }

  lemma FoundIsMatching(s: State, r: Ref)
    ensures r in Found(s) <==> InRegistry(s, r) && Matches(s, r)
  {
  }

  lemma KeepsLeaving(s: State, step: Step, r: Ref)
    requires Known(s) && Allowed(s, step)
    requires Accounted(s, r) && Unbroken(s, r) && Current(s, r) && Leaving(s, r)
    ensures Leaving(Next(s, step), r)
  {
    hide Entered;
    hide Left;
    hide InRegistry;
    RegistryAfter(s, step, r);
  }

  // ---- Runs ----

  /** The steps can be taken one after the other, each unregistration being safe. */
  predicate Runs(s: State, steps: seq<Step>)
    decreases |steps|
  {
    steps == [] || (Allowed(s, steps[0]) && Runs(Next(s, steps[0]), steps[1..]))
  }

  function End(s: State, steps: seq<Step>): State
    requires Runs(s, steps)
    decreases |steps|
  {
    if steps == [] then s else End(Next(s, steps[0]), steps[1..])
  }

  lemma {:induction false} RunKeepsInv(s: State, steps: seq<Step>)
    requires Inv(s) && Runs(s, steps)
    ensures Inv(End(s, steps))
    decreases |steps|
  {
    hide Inv;
    if steps != [] {
      StepKeepsInv(s, steps[0]);
      RunKeepsInv(Next(s, steps[0]), steps[1..]);
    }
  }

  lemma InitialInv()
    ensures Inv(INITIAL)
  {
    forall r: Ref ensures Accounted(INITIAL, r) && Unbroken(INITIAL, r) && Current(INITIAL, r) && Leaving(INITIAL, r) {
    }
  }

  /** Nothing is under way and the listener is ready. */
  predicate Quiescent(s: State) {
    s.registering == map[] && s.unregistering == map[] && s.listener == Finding({})
  }

  /** At quiescence the cache is what find returns; what is in it was announced once and not withdrawn. */
  lemma CacheIsFind(steps: seq<Step>)
    requires Runs(INITIAL, steps) && Quiescent(End(INITIAL, steps))
    ensures var s := End(INITIAL, steps); s.refs == Found(s)
    ensures var s := End(INITIAL, steps); forall r :: r in s.refs ==>
      Count(s.notices, Registered(r)) == 1 && Count(s.notices, Unregistered(r)) == 0
    ensures var s := End(INITIAL, steps); forall r :: r !in s.refs ==>
      Count(s.notices, Registered(r)) == Count(s.notices, Unregistered(r)) <= 1
  {
    var s := End(INITIAL, steps);
    InitialInv();
    RunKeepsInv(INITIAL, steps);
    forall r: Ref
      ensures r in s.refs <==> r in Found(s)
      ensures Count(s.notices, Registered(r)) == Count(s.notices, Unregistered(r)) + One(r in s.refs) <= 1
    {
      assert Accounted(s, r) && Unbroken(s, r) && Current(s, r) && Leaving(s, r);
    }
    forall r | r in s.refs ensures Count(s.notices, Unregistered(r)) == 0 {
      assert Unbroken(s, r) && Leaving(s, r);
    }
  }

  // ---- The condition on unregistering is exact ----

  /** A cached reference that is in the registry no more, with nobody left to take it out. */
  predicate Stale(s: State, r: Ref) {
    r < |s.matches| && r in s.refs && !InRegistry(s, r) && r !in s.unregistering
  }

  /** Once stale, a reference stays in the cache, whatever happens. */
  lemma StaleForGood(s: State, step: Step, r: Ref)
    requires Known(s) && Stale(s, r) && Enabled(s, step)
    ensures Known(Next(s, step)) && Stale(Next(s, step), r)
  {
    StaysKnown(s, step);
    RegistryAfter(s, step, r);
    if step.Unregister? {
      ServicesAreInRegistry(s, step.name);
    }
  }

  ghost predicate CanGoStale(s: State, r: Ref) {
    exists steps :: Runs(s, steps) && Stale(End(s, steps), r)
  }

  lemma StaleNow(s: State, r: Ref)
    requires Stale(s, r)
    ensures CanGoStale(s, r)
  {
    assert Runs(s, []) && End(s, []) == s;
  }

  lemma StaleLater(s: State, step: Step, r: Ref)
    requires Allowed(s, step) && CanGoStale(Next(s, step), r)
    ensures CanGoStale(s, r)
  {
    var steps :| Runs(Next(s, step), steps) && Stale(End(Next(s, step), steps), r);
    var all := [step] + steps;
    assert all[0] == step && all[1..] == steps;
    assert Runs(s, all) && End(s, all) == End(Next(s, step), steps);
  }

  /**
   * Unregistering is safe exactly when it cannot leave a stale reference behind, however
   * the threads go on.
   */
  lemma SafeIffNeverStale(s: State, name: Name)
    requires Inv(s) && name in s.services
    ensures Safe(s, s.services[name]) <==> !CanGoStale(Next(s, Unregister(name)), s.services[name])
  {
    var r := s.services[name];
    var n := Next(s, Unregister(name));
    if Safe(s, r) {
      StepKeepsInv(s, Unregister(name));
      SoundStaysSound(n, r);
    } else {
      assert Accounted(s, r) && Unbroken(s, r) && Current(s, r) && Leaving(s, r);
      RegistryAfter(s, Unregister(name), r);
      TellingTheListener(n, r);
    }
  }

  lemma InvIsNotStale(s: State, r: Ref)
    requires Inv(s)
    ensures !Stale(s, r)
  {
    assert Leaving(s, r);
  }

  lemma SoundStaysSound(s: State, r: Ref)
    requires Inv(s)
    ensures !CanGoStale(s, r)
  {
    if steps :| Runs(s, steps) && Stale(End(s, steps), r) {
      RunKeepsInv(s, steps);
      InvIsNotStale(End(s, steps), r);
    }
  }

  /** The unregistration runs ahead of the caching. */
  lemma TellingTheListener(s: State, r: Ref)
    requires Matches(s, r) && !InRegistry(s, r) && IsUnregistering(s, r, Removed)
    requires CachingAhead(s, r) || (s.listener.HalfSubscribed? && r in s.refs)
    requires s.listener.Idle? ==> r !in s.refs
    ensures CanGoStale(s, r)
  {
    var told := Next(s, NotifyUnregistered(r));
    if s.listener.Idle? || s.listener.HalfSubscribed? {
      if r in s.refs {
        StaleNow(told, r);
      } else {
        CachingAfterwards(told, r);
      }
    } else {
      var gone := Next(told, Uncache(r));
      if r in s.refs {
        CachingAfterwards(Next(gone, Withdraw(r)), r);
        StaleLater(gone, Withdraw(r), r);
      } else {
        CachingAfterwards(gone, r);
      }
      StaleLater(told, Uncache(r), r);
    }
    StaleLater(s, NotifyUnregistered(r), r);
  }

  /** A reference that has been unregistered already is cached. */
  lemma CachingAfterwards(s: State, r: Ref)
    requires Matches(s, r) && !InRegistry(s, r) && r !in s.unregistering && r !in s.refs
    requires CachingAhead(s, r)
    ensures CanGoStale(s, r)
  {
    if InTodo(s, r) {
      var ready := if s.listener.Finding? then s else Next(s, AnnounceFound);
      StaleNow(Next(ready, CacheFound(r)), r);
      StaleLater(ready, CacheFound(r), r);
      if !s.listener.Finding? {
        StaleLater(s, AnnounceFound, r);
      }
    } else if IsRegistering(s, r, Calling) {
      CachingWhenCalled(s, r);
    } else if s.listener.Idle? {
      var half := Next(s, SubscribeToRegistrations);
      CachingWhenCalled(Next(half, NotifyRegistered(r)), r);
      StaleLater(half, NotifyRegistered(r), r);
      StaleLater(s, SubscribeToRegistrations, r);
    } else {
      CachingWhenCalled(Next(s, NotifyRegistered(r)), r);
      StaleLater(s, NotifyRegistered(r), r);
    }
  }

  lemma CachingWhenCalled(s: State, r: Ref)
    requires Matches(s, r) && !InRegistry(s, r) && r !in s.unregistering && r !in s.refs
    requires IsRegistering(s, r, Calling)
    ensures CanGoStale(s, r)
  {
    StaleNow(Next(s, Cache(r)), r);
    StaleLater(s, Cache(r), r);
  }
}
