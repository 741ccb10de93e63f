/** Properties that relate several operations of Conditional<T>: round trips through
    java.util.Optional, idempotence, the map and flatMap composition laws, the
    agreement of the boolean resolvers, chains of filter calls, and the equals /
    hashCode contract. */
module ConditionalLaws {
  import opened JavaLang
  import opened Conditional

  // ---------------------------------------------------------------------------
  // Factories and optional()

  /** of() and the value field undo each other: every wrapper is of(its value). */
  lemma OfFieldRoundTrip<T>(c: Cond<T>, v: Nullable<T>)
    ensures Of(c.Field()) == c
    ensures Of(v).Field() == v
  {
  }

  /** ofOptional and optional() are inverse bijections between non-null Optionals
      and wrappers, in both directions. */
  lemma OptionalRoundTrip<T>(c: Cond<T>, o: Optional<T>)
    ensures OfOptional(Ref(ToOptional(c))) == Ok(c)
    ensures OfOptional(Ref(o)) == Ok(Of(if o.IsPresent() then Ref(o.value) else Null))
    ensures ToOptional(OfOptional(Ref(o)).value) == o
  {
  }

  // ---------------------------------------------------------------------------
  // filter and evaluate

  /** Filtering twice with the same predicate is filtering once. */
  lemma FilterIdempotent<T>(c: Cond<T>, p: Predicate<T>)
    ensures Filter(c, Ref(p)).Ok? ==>
      Filter(Filter(c, Ref(p)).value, Ref(p)) == Filter(c, Ref(p))
  {
  }

  /** Evaluating twice with the same evaluator is evaluating once. */
  lemma EvaluateIdempotent<T>(c: Cond<T>, e: Predicate<Cond<T>>)
    ensures Evaluate(c, Ref(e)).Ok? ==>
      Evaluate(Evaluate(c, Ref(e)).value, Ref(e)) == Evaluate(c, Ref(e))
  {
  }

  /** filter(p) is evaluate with the evaluator `w -> w.test(p)`. */
  lemma FilterIsEvaluateOfTest<T>(c: Cond<T>, p: Predicate<T>)
    ensures Filter(c, Ref(p)) == Evaluate(c, Ref(w => Test(w, Ref(p))))
  {
  }

  /** The evaluator `w -> w.map(f).test(p)` filters on "f gives a non-null result of
      which p holds". ConditionalDemo.java chains evaluators of this shape, but calls
      a `get` that Conditional.java does not define; here `test` takes its place. */
  lemma EvaluateMapThenTest<T, U>(c: Cond<T>, f: Function<T, U>, p: Predicate<U>)
    ensures Evaluate(c, Ref(w => var m :- Map(w, Ref(f)); Test(m, Ref(p))))
         == Filter(c, Ref(x => var u :- f(x); if u.Ref? then p(u.ref) else Ok(false)))
  {
  }

  /** test(p) answers true exactly when the wrapper is present and filter(p) keeps it. */
  lemma TestIsFilterKeeps<T>(c: Cond<T>, p: Predicate<T>)
    ensures Test(c, Ref(p)) == Ok(true) <==> c.NonNull() && Filter(c, Ref(p)) == Ok(c)
  {
  }

  // ---------------------------------------------------------------------------
  // A chain of filter calls, c.filter(p1).filter(p2)...filter(pn)

  /** The chained calls; the first exception ends the chain. */
  function FilterAll<T>(c: Cond<T>, filters: seq<Nullable<Predicate<T>>>): (r: Outcome<Cond<T>>)
    ensures r.Ok? ==> r.value == c || r.value.IsNull()
    decreases |filters|
  {
    if filters == [] then Ok(c)
    else
      var d :- Filter(c, filters[0]);
      FilterAll(d, filters[1..])
  }

  /** Short-circuit conjunction of predicates, evaluated left to right: the first
      false or the first exception decides. */
  function AllHold<T>(ps: seq<Predicate<T>>, x: T): Outcome<bool>
  {
    if ps == [] then Ok(true)
    else
      var b :- ps[0](x);
      if b then AllHold(ps[1..], x) else Ok(false)
  }

  function NonNulls<T>(ps: seq<Predicate<T>>): (filters: seq<Nullable<Predicate<T>>>)
    ensures |filters| == |ps|
    ensures forall i :: 0 <= i < |ps| ==> filters[i] == Ref(ps[i])
  {
    seq(|ps|, i requires 0 <= i < |ps| => Ref(ps[i]))
  }

  /** A chain of non-null filters is one filter by the conjunction of their
      predicates: once one predicate rejects, the later ones are never asked. */
  lemma {:induction false} FilterAllIsConjunction<T>(c: Cond<T>, ps: seq<Predicate<T>>)
    ensures FilterAll(c, NonNulls(ps)) == Filter(c, Ref(x => AllHold(ps, x)))
    decreases |ps|
  {
    if ps != [] {
      assert NonNulls(ps)[1..] == NonNulls(ps[1..]);
      var first := Filter(c, Ref(ps[0]));
      if first.Ok? {
        FilterAllIsConjunction(first.value, ps[1..]);
      }
    }
  }

  /** On an empty receiver a chain of filters asks no predicate, yet still fails
      with a NullPointerException as soon as any filter in it is null. */
  lemma {:induction false} FilterAllOnEmpty<T>(filters: seq<Nullable<Predicate<T>>>)
    ensures FilterAll(EmptyCond(), filters) == NullPointer || FilterAll(EmptyCond(), filters) == Ok(EmptyCond())
    ensures FilterAll(EmptyCond(), filters) == NullPointer <==> exists i :: 0 <= i < |filters| && filters[i].Null?
    decreases |filters|
  {
    if filters != [] {
      FilterAllOnEmpty(filters[1..]);
      if filters[0].Ref? {
        assert forall i :: 1 <= i < |filters| ==> filters[i] == filters[1..][i - 1];
      }
    }
  }

  // ---------------------------------------------------------------------------
  // map and flatMap

  /** Running g after f on a value: a null from f stays null, as map would make it. */
  function AndThen<T, U, V>(f: Function<T, U>, g: Function<U, V>): Function<T, V>
  {
    x => var y :- f(x); if y.Ref? then g(y.ref) else Ok(Null)
  }

  /** map(f).map(g) is map(g after f); where f gives a non-null value, g after f is
      just `v -> g(f(v))`. */
  lemma MapFusion<T, U, V>(c: Cond<T>, f: Function<T, U>, g: Function<U, V>)
    ensures (var d :- Map(c, Ref(f)); Map(d, Ref(g))) == Map(c, Ref(AndThen(f, g)))
  {
  }

  /** map(f) is flatMap with the mapper `v -> of(f(v))`. */
  lemma MapIsFlatMapOfOf<T, U>(c: Cond<T>, f: Function<T, U>)
    ensures Map(c, Ref(f)) == FlatMap(c, Ref(x => var u :- f(x); Ok(Ref(Of(u)))))
  {
  }

  /** flatMap with `Conditional::of` gives the receiver back. */
  lemma FlatMapOfIsIdentity<T>(c: Cond<T>)
    ensures FlatMap(c, Ref(x => Ok(Ref(Of(Ref(x)))))) == Ok(c)
  {
  }

  /** flatMap(f).flatMap(g) is flatMap(v -> f(v).flatMap(g)); dereferencing a null
      from f throws a NullPointerException in both. */
  lemma FlatMapAssociative<T, U, V>(c: Cond<T>, f: Function<T, Cond<U>>, g: Function<U, Cond<V>>)
    ensures (var d :- FlatMap(c, Ref(f)); FlatMap(d, Ref(g)))
         == FlatMap(c, Ref(x => var o :- f(x); var d :- RequireNonNull(o);
                                    var e :- FlatMap(d, Ref(g)); Ok(Ref(e))))
  {
  }

  // ---------------------------------------------------------------------------
  // or

  /** or with a supplier of the empty wrapper changes nothing. */
  lemma OrEmptyIsIdentity<T>(c: Cond<T>)
    ensures Or(c, Ref(() => Ok(Ref(EmptyCond())))) == Ok(c)
  {
  }

  /** or(s1).or(s2) is or(() -> s1.get().or(s2)). */
  lemma OrAssociative<T>(c: Cond<T>, s1: Supplier<Nullable<Cond<T>>>, s2: Supplier<Nullable<Cond<T>>>)
    ensures (var d :- Or(c, Ref(s1)); Or(d, Ref(s2)))
         == Or(c, Ref(() => var o :- s1(); var d :- RequireNonNull(o);
                                var e :- Or(d, Ref(s2)); Ok(Ref(e))))
  {
  }

  // ---------------------------------------------------------------------------
  // Boolean resolvers

  /** On a present wrapper every resolver gives the predicate's verdict on the value,
      whatever fallback it was given. */
  lemma ResolversAgreeWhenPresent<T>(c: Cond<T>, p: Predicate<T>, other: bool, s: Supplier<bool>,
                                     es: Supplier<Nullable<Throwable>>)
    requires c.NonNull()
    ensures Test(c, Ref(p)) == p(c.value)
    ensures OrElse(c, Ref(p), other) == p(c.value)
    ensures OrElseTrue(c, Ref(p)) == p(c.value)
    ensures OrElseFalse(c, Ref(p)) == p(c.value)
    ensures OrElseGet(c, Ref(p), Ref(s)) == p(c.value)
    ensures OrElseThrow(c, Ref(p)) == p(c.value)
    ensures OrElseThrowWith(c, Ref(p), Ref(es)) == p(c.value)
  {
  }

  /** Every resolver throws a NullPointerException on a null predicate, present or not. */
  lemma ResolversRejectNullPredicate<T>(c: Cond<T>, other: bool, s: Nullable<Supplier<bool>>,
                                        es: Nullable<Supplier<Nullable<Throwable>>>)
    ensures Test(c, Null) == NullPointer
    ensures OrElse(c, Null, other) == NullPointer
    ensures OrElseTrue(c, Null) == NullPointer
    ensures OrElseFalse(c, Null) == NullPointer
    ensures OrElseGet(c, Null, s) == NullPointer
    ensures OrElseThrow(c, Null) == NullPointer
    ensures OrElseThrowWith(c, Null, es) == NullPointer
  {
  }

  /** The resolvers with a fixed fallback are orElse with that fallback; orElseGet is
      orElse with the supplier's answer. */
  lemma ResolversAreOrElse<T>(c: Cond<T>, p: Nullable<Predicate<T>>, s: Supplier<bool>)
    ensures Test(c, p) == OrElse(c, p, false)
    ensures OrElseTrue(c, p) == OrElse(c, p, true)
    ensures OrElseFalseIntended(c, p) == OrElse(c, p, false)
    ensures s().Ok? ==> OrElseGet(c, p, Ref(s)) == OrElse(c, p, s().value)
  {
  }

  /** orElseFalse as written is orElseTrue under another name: on the empty wrapper
      both answer true. */
  lemma OrElseFalseIsOrElseTrue<T>(c: Cond<T>, p: Nullable<Predicate<T>>)
    ensures OrElseFalse(c, p) == OrElseTrue(c, p)
  {
  }

  /** The unit test's case `Conditional.<String>empty().orElseFalse(String::isEmpty)`,
      which it expects to be false: the code answers true. */
  lemma OrElseFalseEmptyCounterexample()
    ensures OrElseFalse(EmptyCond<string>(), Ref((s: string) => Ok(|s| == 0))) == Ok(true)
    ensures OrElseFalseIntended(EmptyCond<string>(), Ref((s: string) => Ok(|s| == 0))) == Ok(false)
  {
  }

  /** The intended orElseFalse and orElseTrue are the two ends of orElse: they agree
      on a present wrapper and differ exactly on the empty one. */
  lemma OrElseFalseIntendedIsDualOfOrElseTrue<T>(c: Cond<T>, p: Predicate<T>)
    ensures OrElseFalseIntended(c, Ref(p)) == OrElseTrue(c, Ref(p)) <==> c.NonNull()
  {
  }

  // ---------------------------------------------------------------------------
  // Callback dispatch

  /** ifHasOrElse behaves as ifHas on a present wrapper, and on an empty one
      additionally runs the empty action, once. */
  lemma IfHasOrElseExtendsIfHas<T>(c: Cond<T>, p: Predicate<T>, a: Consumer, e: Runnable)
    ensures c.NonNull() ==> IfHasOrElse(c, Ref(p), Ref(a), Ref(e)) == IfHas(c, Ref(p), Ref(a))
    ensures c.IsNull() ==>
      IfHasOrElse(c, Ref(p), Ref(a), Ref(e)).calls
        == IfHas(c, Ref(p), Ref(a)).calls + [RanEmptyAction]
  {
  }

  // ---------------------------------------------------------------------------
  // equals and hashCode

  ghost predicate Reflexive<T(!new)>(eq: (T, T) -> bool) {
    forall x :: eq(x, x)
  }

  ghost predicate Symmetric<T(!new)>(eq: (T, T) -> bool) {
    forall x, y :: eq(x, y) ==> eq(y, x)
  }

  ghost predicate Transitive<T(!new)>(eq: (T, T) -> bool) {
    forall x, y, z :: eq(x, y) && eq(y, z) ==> eq(x, z)
  }

  /** With the element's equals being value equality, equals on wrappers is
      structural: two empty wrappers are equal, and present ones exactly when they
      hold equal values. */
  lemma EqualsIsStructural<T>(a: Cond<T>, b: Cond<T>)
    ensures Equals(a, Ref(b), (x: T, y: T) => x == y) <==> a == b
  {
  }

  /** equals inherits reflexivity, symmetry and transitivity from the element's
      equals, so the wrapper keeps the contract of Object.equals. */
  lemma EqualsIsEquivalence<T(!new)>(eq: (T, T) -> bool, a: Cond<T>, b: Cond<T>, c: Cond<T>)
    ensures Reflexive(eq) ==> Equals(a, Ref(a), eq)
    ensures Symmetric(eq) ==> (Equals(a, Ref(b), eq) ==> Equals(b, Ref(a), eq))
    ensures Transitive(eq) ==>
      (Equals(a, Ref(b), eq) && Equals(b, Ref(c), eq) ==> Equals(a, Ref(c), eq))
  {
  }

  /** Equal wrappers have equal hash codes when the element's hashCode agrees with
      its equals. */
  lemma HashCodeAgreesWithEquals<T(!new)>(eq: (T, T) -> bool, hash: T -> int32, a: Cond<T>, b: Cond<T>)
    requires forall x, y :: eq(x, y) ==> hash(x) == hash(y)
    ensures Equals(a, Ref(b), eq) ==> HashCode(a, hash) == HashCode(b, hash)
  {
  }
}
