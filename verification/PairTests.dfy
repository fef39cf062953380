/** Lists of pairwise overlap tests over the drivers that share one peripheral.

    Each test refuses a configuration in which two macros are defined and two
    macros add up to more than one. The two pairs are usually the same, but the
    test does not have to be written that way. */
module PairTests {
  import opened OptionForest

  datatype PairTest<K> = PairTest(needA: K, needB: K, sumA: K, sumB: K)

  /** The test as it is meant to be written. */
  function Pair<K>(a: K, b: K): PairTest<K> {
    PairTest(a, b, a, b)
  }

  predicate Fires<K>(t: PairTest<K>, env: Env<K>) {
    t.needA in env && t.needB in env && Value(env, t.sumA) + Value(env, t.sumB) > 1
  }

  predicate Passes<K>(tests: seq<PairTest<K>>, env: Env<K>) {
    forall t :: t in tests ==> !Fires(t, env)
  }

  /** No two drivers of the group are enabled. */
  predicate AtMostOne<K(==)>(group: set<K>, env: Env<K>) {
    forall a, b :: a in group && b in group && a != b ==> Value(env, a) == 0 || Value(env, b) == 0
  }

  /** The test looks at nothing but `a` and `b`. */
  predicate IsAbout<K(==)>(t: PairTest<K>, a: K, b: K) {
    && (t.needA == a || t.needA == b) && (t.needB == a || t.needB == b)
    && (t.sumA == a || t.sumA == b) && (t.sumB == a || t.sumB == b)
  }

  ghost predicate Tested<K>(tests: seq<PairTest<K>>, a: K, b: K) {
    exists t :: t in tests && IsAbout(t, a, b)
  }

  ghost predicate CoversEveryPair<K>(tests: seq<PairTest<K>>, group: set<K>) {
    forall a, b :: a in group && b in group && a != b ==> Tested(tests, a, b)
  }

  /** Passing the tests keeps the group exclusive, whatever natural numbers the
      macros stand for and whichever of them are defined. */
  ghost predicate Exclusive<K(!new)>(tests: seq<PairTest<K>>, group: set<K>) {
    forall env: Env<K> :: Natural(env) && Passes(tests, env) ==> AtMostOne(group, env)
  }

  lemma TestedPairClashes<K(!new)>(tests: seq<PairTest<K>>, env: Env<K>, a: K, b: K)
    requires Natural(env) && Tested(tests, a, b)
    requires Value(env, a) != 0 && Value(env, b) != 0
    ensures !Passes(tests, env)
  {
    var t :| t in tests && IsAbout(t, a, b);
    assert Fires(t, env);
  }

  lemma UntestedPairPasses<K>(tests: seq<PairTest<K>>, a: K, b: K)
    requires !Tested(tests, a, b)
    ensures Passes(tests, map[a := 1, b := 1])
  {
    forall t | t in tests
      ensures !Fires(t, map[a := 1, b := 1])
    {
      assert !IsAbout(t, a, b);
    }
  }

  /** A list of tests makes a group of any size exclusive exactly when some
      test is about each pair. */
  lemma ExclusiveExactly<K(!new)>(tests: seq<PairTest<K>>, group: set<K>)
    ensures Exclusive(tests, group) <==> CoversEveryPair(tests, group)
  {
    if CoversEveryPair(tests, group) {
      forall env: Env<K>, a, b |
        Natural(env) && Passes(tests, env) && a in group && b in group && a != b
        ensures Value(env, a) == 0 || Value(env, b) == 0
      {
        if Value(env, a) != 0 && Value(env, b) != 0 {
          TestedPairClashes(tests, env, a, b);
        }
      }
    } else {
      var a, b :| a in group && b in group && a != b && !Tested(tests, a, b);
      UntestedPairPasses(tests, a, b);
      var env := map[a := 1, b := 1];
      assert Value(env, a) != 0 && Value(env, b) != 0;
      assert Natural(env) && Passes(tests, env) && !AtMostOne(group, env);
    }
  }

  // ---------------------------------------------------------------------
  // Listing every pair
  // ---------------------------------------------------------------------

  function WithEach<K>(a: K, others: seq<K>): seq<PairTest<K>> {
    if others == [] then [] else [Pair(a, others[0])] + WithEach(a, others[1..])
  }

  /** A test for every pair of `drivers`, the earlier driver first. */
  function AllPairs<K>(drivers: seq<K>): seq<PairTest<K>> {
    if drivers == [] then [] else WithEach(drivers[0], drivers[1..]) + AllPairs(drivers[1..])
  }

  lemma AllPairsCons<K>(a: K, others: seq<K>)
    ensures AllPairs([a] + others) == WithEach(a, others) + AllPairs(others)
  {
    assert ([a] + others)[1..] == others;
  }

  lemma WithEachCons<K>(a: K, b: K, others: seq<K>)
    ensures WithEach(a, [b] + others) == [Pair(a, b)] + WithEach(a, others)
  {
    assert ([b] + others)[1..] == others;
  }

  /** The tests of one driver against up to five others, written out. */
  lemma WithEachListed<K>(a: K, b: K, c: K, d: K, e: K, f: K)
    ensures WithEach(a, [f]) == [Pair(a, f)]
    ensures WithEach(a, [e, f]) == [Pair(a, e), Pair(a, f)]
    ensures WithEach(a, [d, e, f]) == [Pair(a, d), Pair(a, e), Pair(a, f)]
    ensures WithEach(a, [c, d, e, f]) == [Pair(a, c), Pair(a, d), Pair(a, e), Pair(a, f)]
    ensures WithEach(a, [b, c, d, e, f]) == [Pair(a, b), Pair(a, c), Pair(a, d), Pair(a, e), Pair(a, f)]
  {
    WithEachCons(a, f, []);
    assert [f] + [] == [f];
    WithEachCons(a, e, [f]);
    assert [e] + [f] == [e, f];
    WithEachCons(a, d, [e, f]);
    assert [d] + [e, f] == [d, e, f];
    WithEachCons(a, c, [d, e, f]);
    assert [c] + [d, e, f] == [c, d, e, f];
    WithEachCons(a, b, [c, d, e, f]);
    assert [b] + [c, d, e, f] == [b, c, d, e, f];
  }

  lemma AllPairsOfThree<K>(a: K, b: K, c: K)
    ensures AllPairs([a, b, c]) == [Pair(a, b), Pair(a, c), Pair(b, c)]
  {
    AllPairsCons(c, []);
    assert [c] + [] == [c];
    AllPairsCons(b, [c]);
    assert [b] + [c] == [b, c];
    AllPairsCons(a, [b, c]);
    assert [a] + [b, c] == [a, b, c];
    WithEachListed(a, a, a, a, b, c);
    WithEachListed(b, b, b, b, b, c);
  }

  lemma AllPairsOfFour<K>(a: K, b: K, c: K, d: K)
    ensures AllPairs([a, b, c, d]) ==
            [Pair(a, b), Pair(a, c), Pair(a, d), Pair(b, c), Pair(b, d), Pair(c, d)]
  {
    AllPairsOfThree(b, c, d);
    AllPairsCons(a, [b, c, d]);
    assert [a] + [b, c, d] == [a, b, c, d];
    WithEachListed(a, a, a, b, c, d);
  }

  lemma AllPairsOfFive<K>(a: K, b: K, c: K, d: K, e: K)
    ensures AllPairs([a, b, c, d, e]) ==
            [ Pair(a, b), Pair(a, c), Pair(a, d), Pair(a, e),
              Pair(b, c), Pair(b, d), Pair(b, e), Pair(c, d), Pair(c, e), Pair(d, e) ]
  {
    AllPairsOfFour(b, c, d, e);
    AllPairsCons(a, [b, c, d, e]);
    assert [a] + [b, c, d, e] == [a, b, c, d, e];
    WithEachListed(a, a, b, c, d, e);
  }

  /** The tests of six drivers, in the order the file lists them. */
  lemma AllPairsOfSix<K>(a: K, b: K, c: K, d: K, e: K, f: K)
    ensures AllPairs([a, b, c, d, e, f]) ==
            [ Pair(a, b), Pair(a, c), Pair(a, d), Pair(a, e), Pair(a, f),
              Pair(b, c), Pair(b, d), Pair(b, e), Pair(b, f),
              Pair(c, d), Pair(c, e), Pair(c, f), Pair(d, e), Pair(d, f), Pair(e, f) ]
  {
    AllPairsOfFive(b, c, d, e, f);
    AllPairsCons(a, [b, c, d, e, f]);
    assert [a] + [b, c, d, e, f] == [a, b, c, d, e, f];
    WithEachListed(a, b, c, d, e, f);
  }

  lemma {:induction false} InWithEach<K>(a: K, others: seq<K>, j: nat)
    requires j < |others|
    ensures Pair(a, others[j]) in WithEach(a, others)
  {
    if j > 0 {
      InWithEach(a, others[1..], j - 1);
    }
  }

  lemma {:induction false} InAllPairs<K>(drivers: seq<K>, i: nat, j: nat)
    requires i < j < |drivers|
    ensures Pair(drivers[i], drivers[j]) in AllPairs(drivers)
  {
    if i == 0 {
      InWithEach(drivers[0], drivers[1..], j - 1);
    } else {
      InAllPairs(drivers[1..], i - 1, j - 1);
    }
  }

  /** Listing every pair makes the group exclusive. */
  lemma AllPairsExclusive<K(!new)>(drivers: seq<K>)
    ensures Exclusive(AllPairs(drivers), set k | k in drivers)
  {
    var group := set k | k in drivers;
    forall a, b | a in group && b in group && a != b
      ensures Tested(AllPairs(drivers), a, b)
    {
      var i :| 0 <= i < |drivers| && drivers[i] == a;
      var j :| 0 <= j < |drivers| && drivers[j] == b;
      if i < j {
        InAllPairs(drivers, i, j);
        assert IsAbout(Pair(a, b), a, b);
      } else {
        InAllPairs(drivers, j, i);
        assert IsAbout(Pair(b, a), a, b);
      }
    }
    ExclusiveExactly(AllPairs(drivers), group);
  }

  lemma {:induction false} FromWithEach<K>(a: K, others: seq<K>, t: PairTest<K>) returns (j: nat)
    requires t in WithEach(a, others)
    ensures j < |others| && t == Pair(a, others[j])
  {
    if t == Pair(a, others[0]) {
      j := 0;
    } else {
      j := FromWithEach(a, others[1..], t);
      j := j + 1;
    }
  }

  lemma {:induction false} FromAllPairs<K>(drivers: seq<K>, t: PairTest<K>) returns (i: nat, j: nat)
    requires t in AllPairs(drivers)
    ensures i < j < |drivers| && t == Pair(drivers[i], drivers[j])
  {
    if t in WithEach(drivers[0], drivers[1..]) {
      j := FromWithEach(drivers[0], drivers[1..], t);
      i, j := 0, j + 1;
    } else {
      i, j := FromAllPairs(drivers[1..], t);
      i, j := i + 1, j + 1;
    }
  }

  ghost predicate NoRepeats<K>(drivers: seq<K>) {
    forall i, j :: 0 <= i < j < |drivers| ==> drivers[i] != drivers[j]
  }

  /** A driver above 1 stands alone: no other driver of the group is as much as
      defined, be it to 0. */
  predicate Lone<K(==)>(group: set<K>, env: Env<K>) {
    forall a, b :: a in group && b in group && a != b && Value(env, a) > 1 ==> b !in env
  }

  /** One test passes exactly when it keeps its two drivers apart and neither
      is above 1 beside the other. */
  lemma PairExactly<K(!new)>(a: K, b: K, env: Env<K>)
    requires a != b && Natural(env)
    ensures !Fires(Pair(a, b), env) <==> AtMostOne({a, b}, env) && Lone({a, b}, env)
  {
    assert a in {a, b} && b in {a, b};
  }

  lemma PairWithin<K>(a: K, b: K, group: set<K>, env: Env<K>)
    requires a in group && b in group && AtMostOne(group, env) && Lone(group, env)
    ensures AtMostOne({a, b}, env) && Lone({a, b}, env)
  {
  }

  /** Listing every pair of some drivers accepts exactly the configurations in
      which at most one is on and a driver above 1 stands alone. */
  lemma AllPairsExactly<K(!new)>(drivers: seq<K>, env: Env<K>)
    requires NoRepeats(drivers) && Natural(env)
    ensures var group := set k | k in drivers;
            Passes(AllPairs(drivers), env) <==> AtMostOne(group, env) && Lone(group, env)
  {
    var group := set k | k in drivers;
    if AtMostOne(group, env) && Lone(group, env) {
      forall t | t in AllPairs(drivers)
        ensures !Fires(t, env)
      {
        var i, j := FromAllPairs(drivers, t);
        PairWithin(drivers[i], drivers[j], group, env);
        PairExactly(drivers[i], drivers[j], env);
      }
    }
    if Passes(AllPairs(drivers), env) {
      AllPairsExclusive(drivers);
      forall a, b | a in group && b in group && a != b && Value(env, a) > 1
        ensures b !in env
      {
        if b in env {
          LargeValueRefused(drivers, a, b, env);
        }
      }
    }
  }

  /** So a driver above 1 is refused beside one that is merely defined. */
  lemma LargeValueRefused<K(!new)>(drivers: seq<K>, a: K, b: K, env: Env<K>)
    requires a in drivers && b in drivers && a != b
    requires Natural(env) && Value(env, a) > 1 && b in env
    ensures !Passes(AllPairs(drivers), env)
  {
    var i :| 0 <= i < |drivers| && drivers[i] == a;
    var j :| 0 <= j < |drivers| && drivers[j] == b;
    if i < j {
      InAllPairs(drivers, i, j);
      assert Fires(Pair(a, b), env);
    } else {
      InAllPairs(drivers, j, i);
      assert Fires(Pair(b, a), env);
    }
  }
}
