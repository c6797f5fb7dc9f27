/**
 * The order in which bundles are stopped: run levels, and the repeated choice of the
 * first bundle none of whose dependencies is still waiting.
 */
module Ordering {
  import opened Resolution
  import opened Lifecycle
  import opened StartStop

  /** Run levels are strings compared character by character. */
  predicate Less(a: string, b: string) {
    b != "" && (a == "" || a[0] < b[0] || (a[0] == b[0] && Less(a[1..], b[1..])))
  }

  predicate NotAfter(a: string, b: string) {
    !Less(b, a)
  }

  lemma {:induction false} NotAfterTransitive(a: string, b: string, c: string)
    requires NotAfter(a, b) && NotAfter(b, c)
    ensures NotAfter(a, c)
  {
    if a != "" && b != "" && c != "" && a[0] == b[0] == c[0] {
      NotAfterTransitive(a[1..], b[1..], c[1..]);
    }
  }

  lemma {:induction false} NotAfterTotal(a: string, b: string)
    ensures NotAfter(a, b) || NotAfter(b, a)
    ensures Less(a, b) ==> NotAfter(a, b)
  {
    if a != "" && b != "" && a[0] == b[0] {
      NotAfterTotal(a[1..], b[1..]);
    }
  }

  lemma NotLess(a: string, b: string)
    requires !Less(a, b)
    ensures NotAfter(b, a)
  {
  }

  lemma {:induction false} DistinctCounts<T>(s: seq<T>, x: T)
    requires Distinct(s)
    ensures multiset(s)[x] <= 1
  {
    if s != [] {
      assert s == [s[0]] + s[1..];
      DistinctCounts(s[1..], x);
    }
  }

  lemma CountedTwice<T>(r: seq<T>, i: nat, j: nat)
    requires i < j < |r| && r[i] == r[j]
    ensures multiset(r)[r[i]] >= 2
  {
    assert r == r[..j] + [r[j]] + r[j + 1..];
    assert r[..j][i] == r[i];
  }

  /** A rearrangement of a list without repetitions has no repetitions and the same elements. */
  lemma Rearranged<T>(s: seq<T>, r: seq<T>)
    requires multiset(s) == multiset(r) && Distinct(s)
    ensures Distinct(r) && ToSet(r) == ToSet(s) && |r| == |s|
  {
    forall i, j | 0 <= i < j < |r| ensures r[i] != r[j] {
      if r[i] == r[j] {
        DistinctCounts(s, r[i]);
        CountedTwice(r, i, j);
      }
    }
    forall x ensures x in r <==> x in s {
      assert x in r <==> x in multiset(r);
      assert x in s <==> x in multiset(s);
    }
    assert |multiset(s)| == |multiset(r)|;
  }

  function Removed<T>(s: seq<T>, i: nat): (r: seq<T>)
    requires i < |s|
    ensures |r| == |s| - 1
  {
    s[..i] + s[i + 1..]
  }

  lemma RemovedElements<T>(s: seq<T>, i: nat)
    requires Distinct(s) && i < |s|
    ensures Distinct(Removed(s, i)) && ToSet(Removed(s, i)) == ToSet(s) - {s[i]}
  {
    var r := Removed(s, i);
    forall x | x in s && x != s[i] ensures x in r {
      var j :| 0 <= j < |s| && s[j] == x;
      assert r[if j < i then j else j - 1] == x;
    }
    forall x | x in r ensures x in s && x != s[i] {
      var j :| 0 <= j < |r| && r[j] == x;
      assert s[if j < i then j else j + 1] == x;
    }
  }

  function Reversed<T>(s: seq<T>): (r: seq<T>)
    ensures |r| == |s| && forall i :: 0 <= i < |s| ==> r[i] == s[|s| - 1 - i]
  {
    seq(|s|, i requires 0 <= i < |s| => s[|s| - 1 - i])
  }

  lemma ReversedElements<T>(s: seq<T>)
    ensures ToSet(Reversed(s)) == ToSet(s)
    ensures Distinct(s) ==> Distinct(Reversed(s))
  {
    forall x | x in s ensures x in Reversed(s) {
      var j :| 0 <= j < |s| && s[j] == x;
      assert Reversed(s)[|s| - 1 - j] == x;
    }
  }

  /** Nothing that n has recorded is missing from "done". */
  ghost predicate Unblocked(w: World, done: set<string>, n: string) {
    n in w && (w[n].state.IsResolved() ==> Names(w[n].deps) <= done)
  }

  ghost predicate LevelsInOrder(cat: Catalog, names: seq<string>) {
    forall i, j :: 0 <= i < j < |names| && names[i] in cat && names[j] in cat ==>
      NotAfter(cat[names[i]].manifest.runLevel, cat[names[j]].manifest.runLevel)
  }

  ghost predicate DependenciesFirst(w: World, names: seq<string>) {
    forall j :: 0 <= j < |names| ==> Unblocked(w, ToSet(names[..j]), names[j])
  }

  /**
   * At every position stands a bundle of lowest run level among those that are not yet
   * placed and whose recorded dependencies all are.
   */
  ghost predicate LowestFirst(cat: Catalog, w: World, names: seq<string>, rest: set<string>) {
    forall i, m ::
      (&& 0 <= i < |names|
       && (m in names[i..] || m in rest)
       && Unblocked(w, ToSet(names[..i]), m)
       && m in cat && names[i] in cat)
      ==> NotAfter(cat[names[i]].manifest.runLevel, cat[m].manifest.runLevel)
  }

  /** Taking the first unblocked bundle of a list in run-level order keeps the choice right. */
  lemma PickNext(cat: Catalog, w: World, names: seq<string>, rest: seq<string>, k: nat)
    requires LowestFirst(cat, w, names, ToSet(rest)) && DependenciesFirst(w, names)
    requires k < |rest| && Distinct(rest) && LevelsInOrder(cat, rest)
    requires Unblocked(w, ToSet(names), rest[k])
    requires forall i :: 0 <= i < k ==> !Unblocked(w, ToSet(names), rest[i])
    ensures DependenciesFirst(w, names + [rest[k]])
    ensures LowestFirst(cat, w, names + [rest[k]], ToSet(rest) - {rest[k]})
  {
    var longer := names + [rest[k]];
    assert longer[..|names|] == names;
    forall j | 0 <= j < |longer| ensures Unblocked(w, ToSet(longer[..j]), longer[j]) {
      if j < |names| { assert longer[..j] == names[..j]; }
    }
    forall i, m | 0 <= i < |longer| && (m in longer[i..] || m in ToSet(rest) - {rest[k]})
                  && Unblocked(w, ToSet(longer[..i]), m) && m in cat && longer[i] in cat
      ensures NotAfter(cat[longer[i]].manifest.runLevel, cat[m].manifest.runLevel)
    {
      if i < |names| {
        assert longer[..i] == names[..i];
        assert longer[i..] == names[i..] + [rest[k]];
      } else {
        NotAfterTotal(cat[m].manifest.runLevel, cat[m].manifest.runLevel);
        if m != rest[k] {
          var j :| 0 <= j < |rest| && rest[j] == m;
        }
      }
    }
  }

  /** Removing one entry leaves the rest in run-level order. */
  lemma RemovedInOrder(cat: Catalog, names: seq<string>, i: nat)
    requires LevelsInOrder(cat, names) && i < |names|
    ensures LevelsInOrder(cat, Removed(names, i))
  {
  }

  /**
   * As long as something is left, not everything left is blocked: the one resolved
   * earliest has all its dependencies placed already.
   */
  lemma {:induction false} SomeUnblocked(cat: Catalog, w: World, order: seq<string>, done: set<string>, rest: set<string>, n: string)
    requires Inv(cat, w, order) && w.Keys == done + rest && n in rest
    requires forall m :: m in rest ==> !Unblocked(w, done, m)
    ensures false
    decreases Position(order, n)
  {
    assert !Unblocked(w, done, n);
    var d :| d in Names(w[n].deps) && d !in done;
    DependencyBefore(cat, w, order, n, d);
    SomeUnblocked(cat, w, order, done, rest, d);
  }

  lemma NotInPrefix(names: seq<string>, p: nat, q: nat)
    requires Distinct(names) && p <= q < |names|
    ensures names[q] !in names[..p]
  {
    forall k | 0 <= k < p ensures names[..p][k] != names[q] {
      assert names[k] != names[q];
    }
  }

  lemma ReversedDependentsFirst(w: World, names: seq<string>)
    requires DependenciesFirst(w, names) && Distinct(names)
    ensures DependentsFirst(w, Reversed(names))
  {
    var r := Reversed(names);
    forall i, j | 0 <= i <= j < |r| && r[j] in w && w[r[j]].state.IsResolved()
      ensures r[i] !in Names(w[r[j]].deps)
    {
      var p := |names| - 1 - j;
      assert Unblocked(w, ToSet(names[..p]), names[p]);
      NotInPrefix(names, p, |names| - 1 - i);
    }
  }

  /** The starts tried so far: in run-level order, and covering all that are still only RESOLVED. */
  ghost predicate Attempts(cat: Catalog, w: World, names: seq<string>, attempts: seq<string>) {
    && LevelsInOrder(cat, attempts)
    && (forall n :: n in attempts ==> n in names)
    && (forall n :: n in names && n in cat && n in w && w[n].state == Resolved && !cat[n].manifest.lazyStart ==> n in attempts)
  }

  lemma NoAttempts(cat: Catalog, w: World)
    ensures Attempts(cat, w, [], [])
  {
  }

  lemma AttemptsNext(cat: Catalog, order: seq<string>, w: World, w': World, names: seq<string>, k: nat, attempts: seq<string>, tried: bool)
    requires LevelsInOrder(cat, names) && k < |names| && Attempts(cat, w, names[..k], attempts) && Starts(cat, order, w, w')
    requires tried || (names[k] in w && (w[names[k]].state != Resolved || (names[k] in cat && cat[names[k]].manifest.lazyStart)))
    ensures Attempts(cat, w', names[..k + 1], if tried then attempts + [names[k]] else attempts)
  {
    var more := if tried then attempts + [names[k]] else attempts;
    forall n | n in w && n in w' && w'[n].state == Resolved ensures w[n].state == Resolved {
      assert w'[n] == w[n] || NewlyActive(cat, order, w, w', n);
    }
    assert names[..k + 1] == names[..k] + [names[k]];
    forall i, j | 0 <= i < j < |more| && more[i] in cat && more[j] in cat
      ensures NotAfter(cat[more[i]].manifest.runLevel, cat[more[j]].manifest.runLevel)
    {
      if j == |attempts| {
        assert attempts[i] in names[..k];
        var p :| 0 <= p < k && names[p] == attempts[i];
      }
    }
  }

  lemma AttemptsAll(cat: Catalog, w: World, names: seq<string>, attempts: seq<string>)
    requires Attempts(cat, w, names, attempts) && ToSet(names) == cat.Keys
    ensures LevelsInOrder(cat, attempts)
    ensures forall n :: n in w && n in cat && w[n].state == Resolved && !cat[n].manifest.lazyStart ==> n in attempts
  {
    assert forall n :: n in cat ==> n in ToSet(names);
  }
}
