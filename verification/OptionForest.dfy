/** The configuration file as a forest of options.

    An option gives a macro its default when the macro is still undefined, and
    its children are visited when the macro is then nonzero. `Resolve` visits
    the options in file order; `IsMeaning` says, without any order of
    evaluation, which environment the file stands for. */
module OptionForest {

  /** The finished or half-finished set of macro definitions. */
  type Env<K(==)> = map<K, int>

  /** `Opt(key, default, children, next)` is one option, the options nested
      under it, and the options that follow it at the same level. */
  datatype Forest<K> = End | Opt(key: K, default: int, children: Forest<K>, next: Forest<K>)

  datatype Maybe<+T> = None | Some(value: T)

  /** An identifier that is not defined reads as 0 in `#if`. */
  function Value<K>(env: Env<K>, k: K): int {
    if k in env then env[k] else 0
  }

  function DefineIfUndefined<K>(env: Env<K>, k: K, default: int): Env<K> {
    if k in env then env else env[k := default]
  }

  /** Visits the options of `f` in file order. */
  function Resolve<K>(f: Forest<K>, env: Env<K>): Env<K> {
    match f
    case End => env
    case Opt(k, d, children, next) =>
      var defined := DefineIfUndefined(env, k, d);
      Resolve(next, if defined[k] != 0 then Resolve(children, defined) else defined)
  }

  /** `f` followed by `g` at the same level. */
  function Then<K>(f: Forest<K>, g: Forest<K>): Forest<K> {
    match f
    case End => g
    case Opt(k, d, children, next) => Opt(k, d, children, Then(next, g))
  }

  function Size<K>(f: Forest<K>): nat {
    match f
    case End => 0
    case Opt(_, _, children, next) => 1 + Size(children) + Size(next)
  }

  // ---------------------------------------------------------------------
  // What the file means
  // ---------------------------------------------------------------------

  /** The default of the first option for `k`, in file order, all of whose
      enclosing options are nonzero in `env`. */
  function Select<K(==)>(f: Forest<K>, env: Env<K>, k: K): Maybe<int> {
    match f
    case End => None
    case Opt(key, d, children, next) =>
      if key == k then Some(d)
      else
        var nested := if Value(env, key) != 0 then Select(children, env, k) else None;
        if nested.Some? then nested else Select(next, env, k)
  }

  /** What `k` stands for when the application defines `overrides` and the
      finished environment is `env`: the override if there is one, else the
      default of the first option in force, else nothing. */
  function Expected<K(==)>(f: Forest<K>, overrides: Env<K>, env: Env<K>, k: K): Maybe<int> {
    if k in overrides then Some(overrides[k]) else Select(f, env, k)
  }

  function Find<K(==)>(env: Env<K>, k: K): Maybe<int> {
    if k in env then Some(env[k]) else None
  }

  /** `env` explains itself: every macro has exactly the value the file and
      the overrides call for, where "in force" is judged in `env` itself. */
  ghost predicate IsMeaning<K(!new)>(f: Forest<K>, overrides: Env<K>, env: Env<K>) {
    forall k :: Find(env, k) == Expected(f, overrides, env, k)
  }

  ghost predicate Extends<K(!new)>(small: Env<K>, large: Env<K>) {
    forall k :: k in small ==> k in large && large[k] == small[k]
  }

  lemma {:induction false} SizeThen<K>(f: Forest<K>, g: Forest<K>)
    ensures Size(Then(f, g)) == Size(f) + Size(g)
  {
    if f.Opt? {
      SizeThen(f.next, g);
    }
  }

  lemma {:induction false} ResolveThen<K>(f: Forest<K>, g: Forest<K>, env: Env<K>)
    ensures Resolve(Then(f, g), env) == Resolve(g, Resolve(f, env))
  {
    match f
    case End =>
    case Opt(k, d, children, next) =>
      var defined := DefineIfUndefined(env, k, d);
      ResolveThen(next, g, if defined[k] != 0 then Resolve(children, defined) else defined);
  }

  lemma {:induction false} SelectThen<K>(f: Forest<K>, g: Forest<K>, env: Env<K>, k: K)
    ensures Select(Then(f, g), env, k) ==
            if Select(f, env, k).Some? then Select(f, env, k) else Select(g, env, k)
  {
    if f.Opt? {
      SelectThen(f.next, g, env, k);
    }
  }

  /** A macro once defined keeps its value for the rest of the file. */
  lemma {:induction false} ResolveExtends<K(!new)>(f: Forest<K>, env: Env<K>)
    ensures Extends(env, Resolve(f, env))
  {
    match f
    case End =>
    case Opt(k, d, children, next) =>
      var defined := DefineIfUndefined(env, k, d);
      ResolveExtends(children, defined);
      ResolveExtends(next, if defined[k] != 0 then Resolve(children, defined) else defined);
  }

  /** What is left to visit after the first option of `f` has been seen. */
  function Rest<K>(f: Forest<K>, env: Env<K>): Forest<K>
    requires f.Opt?
  {
    if Value(env, f.key) != 0 then Then(f.children, f.next) else f.next
  }

  lemma RestShrinks<K>(f: Forest<K>, env: Env<K>)
    requires f.Opt?
    ensures Size(Rest(f, env)) < Size(f)
  {
    SizeThen(f.children, f.next);
  }

  lemma ResolveRest<K>(f: Forest<K>, env: Env<K>)
    requires f.Opt?
    ensures var defined := DefineIfUndefined(env, f.key, f.default);
            Resolve(f, env) == Resolve(Rest(f, defined), defined)
  {
    ResolveThen(f.children, f.next, DefineIfUndefined(env, f.key, f.default));
  }

  lemma SelectRest<K>(f: Forest<K>, env: Env<K>, k: K)
    requires f.Opt? && k != f.key
    ensures Select(f, env, k) == Select(Rest(f, env), env, k)
  {
    SelectThen(f.children, f.next, env, k);
  }

  /** Visiting the file in order yields an environment that explains itself. */
  lemma {:induction false} ResolveIsMeaning<K(!new)>(f: Forest<K>, overrides: Env<K>)
    ensures IsMeaning(f, overrides, Resolve(f, overrides))
    decreases Size(f)
  {
    if f.Opt? {
      var defined := DefineIfUndefined(overrides, f.key, f.default);
      var env := Resolve(f, overrides);
      ResolveRest(f, overrides);
      RestShrinks(f, defined);
      ResolveIsMeaning(Rest(f, defined), defined);
      ResolveExtends(Rest(f, defined), defined);
      assert env[f.key] == defined[f.key];
      forall k
        ensures Find(env, k) == Expected(f, overrides, env, k)
      {
        assert Find(env, k) == Expected(Rest(f, defined), defined, env, k);
        if k != f.key {
          SelectRest(f, env, k);
        }
      }
    }
  }

  /** No other environment does. */
  lemma {:induction false} MeaningIsResolve<K(!new)>(f: Forest<K>, overrides: Env<K>, env: Env<K>)
    requires IsMeaning(f, overrides, env)
    ensures env == Resolve(f, overrides)
    decreases Size(f)
  {
    match f
    case End =>
      assert forall k :: Find(env, k) == Find(overrides, k);
      SameFinds(env, overrides);
    case Opt(key, d, _, _) =>
      var defined := DefineIfUndefined(overrides, key, d);
      assert Find(env, key) == Expected(f, overrides, env, key);
      assert key in env && env[key] == defined[key];
      forall k
        ensures Find(env, k) == Expected(Rest(f, defined), defined, env, k)
      {
        assert Find(env, k) == Expected(f, overrides, env, k);
        if k != key {
          SelectRest(f, env, k);
        }
      }
      RestShrinks(f, defined);
      MeaningIsResolve(Rest(f, defined), defined, env);
      ResolveRest(f, overrides);
  }

  lemma SameFinds<K(!new)>(a: Env<K>, b: Env<K>)
    requires forall k :: Find(a, k) == Find(b, k)
    ensures a == b
  {
    forall k
      ensures k in a <==> k in b
      ensures k in a && k in b ==> a[k] == b[k]
    {
      assert Find(a, k) == Find(b, k);
    }
  }

  /** The resolver computes the one environment that explains itself, for every
      forest (repeated keys included) and every set of overrides. */
  lemma ResolveExact<K(!new)>(f: Forest<K>, overrides: Env<K>, env: Env<K>)
    ensures IsMeaning(f, overrides, env) <==> env == Resolve(f, overrides)
  {
    ResolveIsMeaning(f, overrides);
    if IsMeaning(f, overrides, env) {
      MeaningIsResolve(f, overrides, env);
    }
  }

  // ---------------------------------------------------------------------
  // Files whose keys are distinct
  // ---------------------------------------------------------------------

  /** `f` has an option for `k` with default `d` nested under exactly the
      options `path`, outermost first. */
  predicate Declares<K(==)>(f: Forest<K>, path: seq<K>, k: K, d: int) {
    match f
    case End => false
    case Opt(key, default, children, next) =>
      || (path == [] && key == k && default == d)
      || (path != [] && path[0] == key && Declares(children, path[1..], k, d))
      || Declares(next, path, k, d)
  }

  /** No macro is declared at two places or with two defaults. */
  ghost predicate DistinctKeys<K(!new)>(f: Forest<K>) {
    forall k, p, d, q, e ::
      Declares(f, p, k, d) && Declares(f, q, k, e) ==> p == q && d == e
  }

  predicate AllNonzero<K>(env: Env<K>, path: seq<K>) {
    forall a :: a in path ==> Value(env, a) != 0
  }

  ghost predicate InForce<K(!new)>(f: Forest<K>, env: Env<K>, k: K, d: int) {
    exists path :: Declares(f, path, k, d) && AllNonzero(env, path)
  }

  /** What `Select` picks is declared somewhere in force. */
  lemma {:induction false} SelectSound<K(!new)>(f: Forest<K>, env: Env<K>, k: K) returns (path: seq<K>)
    ensures Select(f, env, k).Some? ==>
              Declares(f, path, k, Select(f, env, k).value) && AllNonzero(env, path)
  {
    path := [];
    match f
    case End =>
    case Opt(key, d, children, next) =>
      if key != k {
        if Value(env, key) != 0 && Select(children, env, k).Some? {
          var inner := SelectSound(children, env, k);
          path := [key] + inner;
          assert path[1..] == inner;
        } else {
          path := SelectSound(next, env, k);
        }
      }
  }

  /** A declaration in force is never passed over. */
  lemma {:induction false} SelectComplete<K>(f: Forest<K>, env: Env<K>, path: seq<K>, k: K, d: int)
    requires Declares(f, path, k, d) && AllNonzero(env, path)
    ensures Select(f, env, k).Some?
  {
    match f
    case Opt(key, default, children, next) =>
      if key != k {
        if path != [] && path[0] == key && Declares(children, path[1..], k, d) {
          assert key in path;
          SelectComplete(children, env, path[1..], k, d);
        } else {
          SelectComplete(next, env, path, k, d);
        }
      }
  }

  lemma SelectDistinct<K(!new)>(f: Forest<K>, env: Env<K>, k: K, d: int)
    requires DistinctKeys(f)
    ensures Select(f, env, k) == Some(d) <==> InForce(f, env, k, d)
  {
    var path := SelectSound(f, env, k);
    if InForce(f, env, k, d) {
      var p :| Declares(f, p, k, d) && AllNonzero(env, p);
      SelectComplete(f, env, p, k, d);
    }
  }

  /** The promise of the configuration file, key by key: a macro is its
      override if the application gives one; else its default if every option
      around it resolves nonzero; else it stays undefined. */
  lemma ResolveDistinct<K(!new)>(f: Forest<K>, overrides: Env<K>, path: seq<K>, k: K, d: int)
    requires DistinctKeys(f) && Declares(f, path, k, d)
    ensures var env := Resolve(f, overrides);
            Find(env, k) ==
              if k in overrides then Some(overrides[k])
              else if AllNonzero(env, path) then Some(d)
              else None
  {
    var env := Resolve(f, overrides);
    ResolveIsMeaning(f, overrides);
    assert Find(env, k) == Expected(f, overrides, env, k);
    SelectDistinct(f, env, k, d);
    var p := SelectSound(f, env, k);
  }

  /** The options around the first option for `k`, outermost first. */
  function PathTo<K(==)>(f: Forest<K>, k: K): Maybe<seq<K>> {
    match f
    case End => None
    case Opt(key, _, children, next) =>
      if key == k then Some([])
      else
        var nested := PathTo(children, k);
        if nested.Some? then Some([key] + nested.value) else PathTo(next, k)
  }

  lemma {:induction false} PathToDeclares<K>(f: Forest<K>, k: K) returns (d: int)
    ensures PathTo(f, k).Some? ==> Declares(f, PathTo(f, k).value, k, d)
  {
    d := 0;
    if f.Opt? {
      if f.key == k {
        d := f.default;
      } else if PathTo(f.children, k).Some? {
        d := PathToDeclares(f.children, k);
        assert PathTo(f, k).value[1..] == PathTo(f.children, k).value;
      } else {
        d := PathToDeclares(f.next, k);
      }
    }
  }

  lemma {:induction false} DeclaresPathTo<K>(f: Forest<K>, path: seq<K>, k: K, d: int)
    requires Declares(f, path, k, d)
    ensures PathTo(f, k).Some?
  {
    match f
    case Opt(key, default, children, next) =>
      if path != [] && path[0] == key && Declares(children, path[1..], k, d) {
        DeclaresPathTo(children, path[1..], k, d);
      } else if Declares(next, path, k, d) {
        DeclaresPathTo(next, path, k, d);
      }
  }

  /** Exactly which macros are defined in the end: those overridden, and those
      declared under options that are all nonzero. */
  lemma DefinedExactly<K(!new)>(f: Forest<K>, overrides: Env<K>, k: K)
    requires DistinctKeys(f)
    ensures var env := Resolve(f, overrides);
            k in env <==>
            k in overrides || (PathTo(f, k).Some? && AllNonzero(env, PathTo(f, k).value))
  {
    var env := Resolve(f, overrides);
    var d := PathToDeclares(f, k);
    if PathTo(f, k).Some? {
      ResolveDistinct(f, overrides, PathTo(f, k).value, k, d);
    } else {
      ResolveIsMeaning(f, overrides);
      assert Find(env, k) == Expected(f, overrides, env, k);
      var path := SelectSound(f, env, k);
      if k !in overrides && k in env {
        DeclaresPathTo(f, path, k, env[k]);
      }
    }
  }

  /** The order of siblings, at any depth, does not matter: two files that
      declare the same options under the same parents resolve alike. */
  lemma OrderIrrelevant<K(!new)>(f: Forest<K>, g: Forest<K>, overrides: Env<K>)
    requires DistinctKeys(f)
    requires forall path, k, d :: Declares(f, path, k, d) <==> Declares(g, path, k, d)
    ensures Resolve(f, overrides) == Resolve(g, overrides)
  {
    var env := Resolve(f, overrides);
    ResolveIsMeaning(f, overrides);
    forall k
      ensures Find(env, k) == Expected(g, overrides, env, k)
    {
      assert Find(env, k) == Expected(f, overrides, env, k);
      SelectTransfers(f, g, env, k);
    }
    MeaningIsResolve(g, overrides, env);
  }

  lemma SelectTransfers<K(!new)>(f: Forest<K>, g: Forest<K>, env: Env<K>, k: K)
    requires DistinctKeys(f)
    requires forall path, k, d :: Declares(f, path, k, d) <==> Declares(g, path, k, d)
    ensures Select(f, env, k) == Select(g, env, k)
  {
    var p := SelectSound(f, env, k);
    var q := SelectSound(g, env, k);
    if Select(f, env, k).Some? {
      SelectComplete(g, env, p, k, Select(f, env, k).value);
    }
    if Select(g, env, k).Some? {
      SelectComplete(f, env, q, k, Select(g, env, k).value);
    }
  }

  lemma {:induction false} DeclaresThen<K>(f: Forest<K>, g: Forest<K>, path: seq<K>, k: K, d: int)
    ensures Declares(Then(f, g), path, k, d) <==> Declares(f, path, k, d) || Declares(g, path, k, d)
  {
    if f.Opt? {
      DeclaresThen(f.next, g, path, k, d);
    }
  }

  /** Two blocks of the file can change places. */
  lemma BlocksCommute<K(!new)>(f: Forest<K>, g: Forest<K>, overrides: Env<K>)
    requires DistinctKeys(Then(f, g))
    ensures Resolve(Then(f, g), overrides) == Resolve(Then(g, f), overrides)
  {
    forall path, k, d
      ensures Declares(Then(f, g), path, k, d) <==> Declares(Then(g, f), path, k, d)
    {
      DeclaresThen(f, g, path, k, d);
      DeclaresThen(g, f, path, k, d);
    }
    OrderIrrelevant(Then(f, g), Then(g, f), overrides);
  }

  // ---------------------------------------------------------------------
  // The first definition wins
  // ---------------------------------------------------------------------

  /** Same options in the same nesting; the defaults may differ. */
  predicate SameShape<K(==)>(f: Forest<K>, g: Forest<K>) {
    match (f, g)
    case (End, End) => true
    case (Opt(k, _, c, n), Opt(k', _, c', n')) => k == k' && SameShape(c, c') && SameShape(n, n')
    case _ => false
  }

  /** Every option of `f` that would be visited is already defined. */
  predicate Settled<K(==)>(f: Forest<K>, env: Env<K>) {
    match f
    case End => true
    case Opt(k, _, children, next) =>
      k in env && (env[k] != 0 ==> Settled(children, env)) && Settled(next, env)
  }

  lemma {:induction false} SettledGrows<K(!new)>(f: Forest<K>, small: Env<K>, large: Env<K>)
    requires Settled(f, small) && Extends(small, large)
    ensures Settled(f, large)
  {
    if f.Opt? {
      if small[f.key] != 0 {
        SettledGrows(f.children, small, large);
      }
      SettledGrows(f.next, small, large);
    }
  }

  lemma {:induction false} ResolveSettles<K(!new)>(f: Forest<K>, env: Env<K>)
    ensures Settled(f, Resolve(f, env))
  {
    match f
    case End =>
    case Opt(k, d, children, next) =>
      var defined := DefineIfUndefined(env, k, d);
      var inner := if defined[k] != 0 then Resolve(children, defined) else defined;
      var env' := Resolve(next, inner);
      ResolveExtends(children, defined);
      ResolveExtends(next, inner);
      ResolveSettles(next, inner);
      if defined[k] != 0 {
        ResolveSettles(children, defined);
        SettledGrows(children, inner, env');
      }
  }

  lemma {:induction false} SettledIsFixed<K>(f: Forest<K>, g: Forest<K>, env: Env<K>)
    requires Settled(f, env) && SameShape(f, g)
    ensures Resolve(g, env) == env
  {
    if f.Opt? {
      if env[f.key] != 0 {
        SettledIsFixed(f.children, g.children, env);
      }
      SettledIsFixed(f.next, g.next, env);
    }
  }

  /** A block that repeats the keys and nesting of an earlier block is dead,
      whatever its defaults and whatever stands between and after the two. */
  lemma RepeatedBlockIsDead<K(!new)>(
      before: Forest<K>, first: Forest<K>, between: Forest<K>, again: Forest<K>, after: Forest<K>,
      overrides: Env<K>)
    requires SameShape(first, again)
    ensures Resolve(Then(before, Then(first, Then(between, Then(again, after)))), overrides) ==
            Resolve(Then(before, Then(first, Then(between, after))), overrides)
  {
    var e0 := Resolve(before, overrides);
    var e1 := Resolve(first, e0);
    var e2 := Resolve(between, e1);
    ResolveThen(before, Then(first, Then(between, Then(again, after))), overrides);
    ResolveThen(first, Then(between, Then(again, after)), e0);
    ResolveThen(between, Then(again, after), e1);
    ResolveThen(again, after, e2);
    ResolveThen(before, Then(first, Then(between, after)), overrides);
    ResolveThen(first, Then(between, after), e0);
    ResolveThen(between, after, e1);
    ResolveSettles(first, e0);
    ResolveExtends(between, e1);
    SettledGrows(first, e1, e2);
    SettledIsFixed(first, again, e2);
  }

  lemma {:induction false} SameShapeReflexive<K>(f: Forest<K>)
    ensures SameShape(f, f)
  {
    if f.Opt? {
      SameShapeReflexive(f.children);
      SameShapeReflexive(f.next);
    }
  }

  /** Reading the file a second time changes nothing. */
  lemma ResolveIdempotent<K(!new)>(f: Forest<K>, overrides: Env<K>)
    ensures Resolve(f, Resolve(f, overrides)) == Resolve(f, overrides)
  {
    ResolveSettles(f, overrides);
    SameShapeReflexive(f);
    SettledIsFixed(f, f, Resolve(f, overrides));
  }

  // ---------------------------------------------------------------------
  // Lowering the overrides
  // ---------------------------------------------------------------------

  ghost predicate Natural<K(!new)>(env: Env<K>) {
    forall k :: k in env ==> env[k] >= 0
  }

  predicate NaturalDefaults<K>(f: Forest<K>) {
    match f
    case End => true
    case Opt(_, d, children, next) => d >= 0 && NaturalDefaults(children) && NaturalDefaults(next)
  }

  /** `low` defines no more than `high` and no macro to a larger value. */
  ghost predicate Below<K(!new)>(low: Env<K>, high: Env<K>) {
    forall k :: k in low ==> k in high && low[k] <= high[k]
  }

  lemma {:induction false} NaturalDefaultsThen<K>(f: Forest<K>, g: Forest<K>)
    requires NaturalDefaults(f) && NaturalDefaults(g)
    ensures NaturalDefaults(Then(f, g))
  {
    if f.Opt? {
      NaturalDefaultsThen(f.next, g);
    }
  }

  lemma {:induction false} ResolveNatural<K(!new)>(f: Forest<K>, env: Env<K>)
    requires NaturalDefaults(f) && Natural(env)
    ensures Natural(Resolve(f, env))
  {
    match f
    case End =>
    case Opt(k, d, children, next) =>
      var defined := DefineIfUndefined(env, k, d);
      ResolveNatural(children, defined);
      ResolveNatural(next, if defined[k] != 0 then Resolve(children, defined) else defined);
  }

  /** Every option that encloses a declared one is declared itself. */
  lemma {:induction false} EnclosingDeclared<K>(f: Forest<K>, path: seq<K>, k: K, d: int, i: nat) returns (e: int)
    requires Declares(f, path, k, d) && i < |path|
    ensures Declares(f, path[..i], path[i], e)
  {
    match f
    case Opt(key, default, children, next) =>
      if path[0] == key && Declares(children, path[1..], k, d) {
        if i == 0 {
          e := default;
        } else {
          e := EnclosingDeclared(children, path[1..], k, d, i - 1);
          assert path[..i][1..] == path[1..][..i - 1];
        }
      } else {
        e := EnclosingDeclared(next, path, k, d, i);
      }
  }

  lemma {:induction false} LowerKey<K(!new)>(f: Forest<K>, low: Env<K>, high: Env<K>, path: seq<K>, k: K, d: int)
    requires DistinctKeys(f) && NaturalDefaults(f) && Declares(f, path, k, d)
    requires Natural(low) && low.Keys == high.Keys && Below(low, high)
    ensures k in Resolve(f, low) ==>
              k in Resolve(f, high) && Resolve(f, low)[k] <= Resolve(f, high)[k]
    decreases |path|
  {
    var low', high' := Resolve(f, low), Resolve(f, high);
    ResolveDistinct(f, low, path, k, d);
    ResolveDistinct(f, high, path, k, d);
    if k !in low && AllNonzero(low', path) {
      ResolveNatural(f, low);
      forall a | a in path
        ensures Value(high', a) != 0
      {
        var i :| 0 <= i < |path| && path[i] == a;
        var e := EnclosingDeclared(f, path, k, d, i);
        LowerKey(f, low, high, path[..i], a, e);
        assert Value(low', a) != 0;
      }
    }
  }

  /** Lowering overrides, without adding or dropping any, defines no new macro
      and raises no macro's value. */
  lemma {:induction false} LowerOverrides<K(!new)>(f: Forest<K>, low: Env<K>, high: Env<K>)
    requires DistinctKeys(f) && NaturalDefaults(f)
    requires Natural(low) && low.Keys == high.Keys && Below(low, high)
    ensures Below(Resolve(f, low), Resolve(f, high))
  {
    var low', high' := Resolve(f, low), Resolve(f, high);
    ResolveIsMeaning(f, low);
    ResolveExtends(f, low);
    ResolveExtends(f, high);
    forall k | k in low'
      ensures k in high' && low'[k] <= high'[k]
    {
      assert Find(low', k) == Expected(f, low, low', k);
      if k !in low {
        var path := SelectSound(f, low', k);
        LowerKey(f, low, high, path, k, low'[k]);
      }
    }
  }

  // ---------------------------------------------------------------------
  // Files whose keys can be listed
  // ---------------------------------------------------------------------

  function Keys<K(==)>(f: Forest<K>): set<K> {
    match f
    case End => {}
    case Opt(k, _, children, next) => {k} + Keys(children) + Keys(next)
  }

  /** No key occurs twice. */
  predicate Separate<K(==)>(f: Forest<K>) {
    match f
    case End => true
    case Opt(k, _, children, next) =>
      && k !in Keys(children) && k !in Keys(next) && Keys(children) !! Keys(next)
      && Separate(children) && Separate(next)
  }

  lemma {:induction false} DeclaredKey<K>(f: Forest<K>, path: seq<K>, k: K, d: int)
    requires Declares(f, path, k, d)
    ensures k in Keys(f)
  {
    match f
    case Opt(key, default, children, next) =>
      if path != [] && path[0] == key && Declares(children, path[1..], k, d) {
        DeclaredKey(children, path[1..], k, d);
      } else if Declares(next, path, k, d) {
        DeclaredKey(next, path, k, d);
      }
  }

  lemma {:induction false} DeclaredOnce<K>(f: Forest<K>, k: K, p: seq<K>, d: int, q: seq<K>, e: int)
    requires Separate(f) && Declares(f, p, k, d) && Declares(f, q, k, e)
    ensures p == q && d == e
  {
    match f
    case Opt(key, default, children, next) =>
      var pNested := p != [] && p[0] == key && Declares(children, p[1..], k, d);
      var qNested := q != [] && q[0] == key && Declares(children, q[1..], k, e);
      if pNested {
        DeclaredKey(children, p[1..], k, d);
      } else if Declares(next, p, k, d) {
        DeclaredKey(next, p, k, d);
      }
      if qNested {
        DeclaredKey(children, q[1..], k, e);
      } else if Declares(next, q, k, e) {
        DeclaredKey(next, q, k, e);
      }
      if pNested && qNested {
        DeclaredOnce(children, k, p[1..], d, q[1..], e);
        assert p == [key] + p[1..] && q == [key] + q[1..];
      } else if k in Keys(next) {
        DeclaredOnce(next, k, p, d, q, e);
      }
  }

  lemma SeparateDistinct<K(!new)>(f: Forest<K>)
    requires Separate(f)
    ensures DistinctKeys(f)
  {
    forall k, p, d, q, e | Declares(f, p, k, d) && Declares(f, q, k, e)
      ensures p == q && d == e
    {
      DeclaredOnce(f, k, p, d, q, e);
    }
  }

  // ---------------------------------------------------------------------
  // Looking at some macros only
  // ---------------------------------------------------------------------

  /** Drops the options whose macro is not of interest, with their children. */
  function Prune<K>(f: Forest<K>, keep: K -> bool): Forest<K> {
    match f
    case End => End
    case Opt(k, d, children, next) =>
      if keep(k) then Opt(k, d, Prune(children, keep), Prune(next, keep)) else Prune(next, keep)
  }

  /** No macro of interest is nested under one that is not. */
  predicate Prunable<K>(f: Forest<K>, keep: K -> bool) {
    match f
    case End => true
    case Opt(k, _, children, next) =>
      && (keep(k) || Prune(children, keep) == End)
      && Prunable(children, keep)
      && Prunable(next, keep)
  }

  ghost predicate AgreeOn<K(!new)>(keep: K -> bool, a: Env<K>, b: Env<K>) {
    forall k | keep(k) :: Find(a, k) == Find(b, k)
  }

  /** The options dropped never show in the macros kept. */
  lemma {:induction false} PruneFaithful<K(!new)>(f: Forest<K>, keep: K -> bool, a: Env<K>, b: Env<K>)
    requires Prunable(f, keep) && AgreeOn(keep, a, b)
    ensures AgreeOn(keep, Resolve(f, a), Resolve(Prune(f, keep), b))
    decreases f
  {
    match f
    case End =>
    case Opt(k, d, children, next) =>
      var a1 := DefineIfUndefined(a, k, d);
      var a2 := if a1[k] != 0 then Resolve(children, a1) else a1;
      if keep(k) {
        assert Find(a, k) == Find(b, k);
        var b1 := DefineIfUndefined(b, k, d);
        assert AgreeOn(keep, a1, b1);
        PruneFaithful(children, keep, a1, b1);
        assert Find(a1, k) == Find(b1, k);
        PruneFaithful(next, keep, a2, if b1[k] != 0 then Resolve(Prune(children, keep), b1) else b1);
      } else {
        assert AgreeOn(keep, a1, b);
        PruneFaithful(children, keep, a1, b);
        PruneFaithful(next, keep, a2, b);
      }
  }
}
