# Conditional<T> in Dafny

A model of `dev.alexengrig.util.Conditional<T>`, an immutable Java wrapper that
either holds a non-null value or is empty. It works much like `java.util.Optional`,
but its main job is to answer boolean questions about the value (`test`, `orElse*`).
Most of its methods take a callback. Each of them checks its callback arguments for
null before doing anything else, and short-circuits on an empty wrapper.

Files:

- `java_lang.dfy` (module `JavaLang`) holds the Java runtime the class relies on:
  - `Nullable<T>` is a reference that may be null.
  - `Optional<T>` is `java.util.Optional`.
  - `Outcome<R>` says how a call completes: `Ok(value)`, or one of the exceptions
    `NullPointer`, `NoSuchElement(message)` and `Thrown(exception)`. It supports
    Dafny's `:-`, so an exception propagates exactly where Java would throw it.
  - `RequireNonNull`, `ObjectsEquals` and `ObjectsHashCode` model the helpers of
    `java.util.Objects`.
- `conditional.dfy` (module `Conditional`) holds the wrapper itself. `Cond<T> = Empty | Has(value)`
  has one pure function per public method.
- `laws.dfy` (module `ConditionalLaws`) holds the properties that relate several
  operations. It also models a chain of `filter` calls (`FilterAll`).

How the Java side is modelled:

- Every value, mapper result and supplier result that may be null is a
  `Nullable<_>`. This is what makes `of(null)` empty and a mapper's null collapse
  to empty.
- Every callback argument is itself `Nullable<_>`. A null callback gives
  `NullPointer` before anything else, whatever state the wrapper is in.
- User callbacks are pure functions returning an `Outcome`, so a callback may
  throw. "The callback is not called" is stated as "the result is the same for
  every callback, including one that always throws".
- `ifHas` and `ifHasOrElse` return an `Effect`. It records which actions were
  invoked and with what verdict (`Accepted(b)` or `RanEmptyAction`), together
  with how the call completed.
- The contained class's `equals` and `hashCode` are parameters (`eq`, `hash`).
  The hash is a Java `int` (`int32`).

Facts about the program that the model reflects:

- `test` on an empty wrapper returns `false` (Conditional.java:139-146).
- `orElseFalse` on an empty wrapper returns `true`. This is recorded under Findings.
- ConditionalTest.java:189-191, 207 and 211 call an `orElseGet(Predicate, Supplier<Boolean>)`
  overload that Conditional.java does not define. Only the `BooleanSupplier`
  overload of Conditional.java:175-183 is modelled.

## Model

| member | source | states |
|---|---|---|
| Conditional.EmptyCond | src/main/java/dev/alexengrig/util/Conditional.java:28-31 | `empty()` is a wrapper whose value field is null |
| Conditional.Cond.IsNull | src/main/java/dev/alexengrig/util/Conditional.java:47-49 | `isNull()` holds exactly when the wrapper's value field is null, i.e. for the empty wrapper and for no present one |
| Conditional.Cond.Field | src/main/java/dev/alexengrig/util/Conditional.java:22-26 | the private `value` field is null exactly when `isNull()` holds, and otherwise refers to the held value |
| Conditional.Cond.NonNull | src/main/java/dev/alexengrig/util/Conditional.java:47-53 | `nonNull()` holds exactly when `isNull()` does not, i.e. the two state checks always disagree |
| Conditional.Of | src/main/java/dev/alexengrig/util/Conditional.java:33-39 | `of(v)` is empty exactly when `v` is null; otherwise it is present and holds `v`; its value field is `v` |
| Conditional.OfOptional | src/main/java/dev/alexengrig/util/Conditional.java:41-45 | throws NPE exactly when the container is null; otherwise succeeds with a wrapper that `optional()` turns back into the same Optional |
| Conditional.ToOptional | src/main/java/dev/alexengrig/util/Conditional.java:123-129 | `optional()` is present exactly when the wrapper is, with the same value |
| Conditional.Filter | src/main/java/dev/alexengrig/util/Conditional.java:74-81 | NPE on a null predicate even when empty; an empty receiver is returned without consulting the predicate; the result is the receiver or empty; a present receiver is kept iff the predicate answers true, dropped iff it answers false, and the predicate's exception propagates |
| Conditional.Evaluate | src/main/java/dev/alexengrig/util/Conditional.java:83-90 | as filter, but the predicate is applied to the wrapper itself, not its value |
| Conditional.Map | src/main/java/dev/alexengrig/util/Conditional.java:92-99 | NPE on a null mapper; empty stays empty without calling the mapper; a present receiver gives `of(mapper(v))`, so a null result is empty; the mapper's exception propagates |
| Conditional.FlatMap | src/main/java/dev/alexengrig/util/Conditional.java:101-110 | NPE on a null mapper; empty stays empty without calling it; a present receiver gives the mapper's wrapper unchanged, or NPE when the mapper returns null |
| Conditional.Or | src/main/java/dev/alexengrig/util/Conditional.java:112-121 | NPE on a null supplier; a present receiver is returned without calling the supplier; an empty one gives the supplier's wrapper, or NPE when it supplies null |
| Conditional.Test | src/main/java/dev/alexengrig/util/Conditional.java:139-146 | NPE on a null predicate; the predicate's verdict when present; false when empty |
| Conditional.OrElse | src/main/java/dev/alexengrig/util/Conditional.java:148-155 | NPE on a null predicate; the verdict when present; `other` when empty |
| Conditional.OrElseTrue | src/main/java/dev/alexengrig/util/Conditional.java:157-164 | NPE on a null predicate; the verdict when present; true when empty |
| Conditional.OrElseFalse | src/main/java/dev/alexengrig/util/Conditional.java:166-173 | as written: NPE on a null predicate; the verdict when present; TRUE when empty |
| Conditional.OrElseFalseIntended | src/main/java/dev/alexengrig/util/Conditional.java:166-173 | corrected: the same, but false when empty |
| Conditional.OrElseGet | src/main/java/dev/alexengrig/util/Conditional.java:175-183 | NPE if the predicate or the supplier is null, checked before the state; the verdict when present; the supplier's answer or exception when empty |
| Conditional.OrElseThrow | src/main/java/dev/alexengrig/util/Conditional.java:185-192 | NPE on a null predicate; the verdict when present; NoSuchElementException("Value is null") when empty |
| Conditional.OrElseThrowWith | src/main/java/dev/alexengrig/util/Conditional.java:194-202 | NPE if either argument is null; the verdict when present; when empty always throws: the supplied exception, NPE if the supplier gives null, or the supplier's own exception |
| Conditional.IfHas | src/main/java/dev/alexengrig/util/Conditional.java:55-61 | NPE with no action invoked on any null argument; at most one call; the action is invoked exactly when present and the predicate answers, once, with the verdict; the empty action is never run |
| Conditional.IfHasOrElse | src/main/java/dev/alexengrig/util/Conditional.java:63-72 | NPE with no action invoked on any null argument; at most one call; the empty action runs, once, exactly when all arguments are non-null and the wrapper is empty; when present it hands the verdict to the action |
| Conditional.Equals | src/main/java/dev/alexengrig/util/Conditional.java:204-214 | false against null; two empty wrappers are equal; a present one equals exactly a present one with an `eq`-equal value |
| Conditional.HashCode | src/main/java/dev/alexengrig/util/Conditional.java:216-219 | 0 when empty; the value's hash when present |
| ConditionalLaws.OfFieldRoundTrip | src/main/java/dev/alexengrig/util/Conditional.java:22-39 | `of` and the value field are inverse: every wrapper is `of` its field, and `of(v)` stores `v` |
| ConditionalLaws.OptionalRoundTrip | src/main/java/dev/alexengrig/util/Conditional.java:41-45 | `ofOptional(c.optional())` gives back `c`, and `ofOptional(o).optional()` gives back `o`, for present and empty alike |
| ConditionalLaws.FilterIdempotent | src/main/java/dev/alexengrig/util/Conditional.java:74-81 | filtering twice with the same predicate equals filtering once |
| ConditionalLaws.EvaluateIdempotent | src/main/java/dev/alexengrig/util/Conditional.java:83-90 | evaluating twice with the same evaluator equals evaluating once |
| ConditionalLaws.FilterIsEvaluateOfTest | src/main/java/dev/alexengrig/util/Conditional.java:74-90 | `filter(p)` equals `evaluate(w -> w.test(p))` |
| ConditionalLaws.EvaluateMapThenTest | src/main/java/dev/alexengrig/util/Conditional.java:83-99 | the evaluator `w -> w.map(f).test(p)` filters on "f gives a non-null result of which p holds" |
| ConditionalLaws.TestIsFilterKeeps | src/main/java/dev/alexengrig/util/Conditional.java:139-146 | `test(p)` is true iff the wrapper is present and `filter(p)` keeps it |
| ConditionalLaws.FilterAll | src/main/java/dev/alexengrig/util/Conditional.java:74-81 | a chain of filter calls returns the receiver or empty |
| ConditionalLaws.FilterAllIsConjunction | src/main/java/dev/alexengrig/util/Conditional.java:74-81 | a chain of non-null filters equals one filter by the short-circuit conjunction of their predicates |
| ConditionalLaws.FilterAllOnEmpty | src/main/java/dev/alexengrig/util/Conditional.java:74-76 | on an empty receiver a filter chain either stays empty or throws NPE, and throws exactly when some filter in it is null |
| ConditionalLaws.MapFusion | src/main/java/dev/alexengrig/util/Conditional.java:92-99 | `map(f).map(g)` equals `map(g after f)`, for all inputs including throwing and null-returning mappers |
| ConditionalLaws.MapIsFlatMapOfOf | src/main/java/dev/alexengrig/util/Conditional.java:92-110 | `map(f)` equals `flatMap(v -> of(f(v)))` |
| ConditionalLaws.FlatMapOfIsIdentity | src/main/java/dev/alexengrig/util/Conditional.java:101-110 | `flatMap(Conditional::of)` returns the receiver |
| ConditionalLaws.FlatMapAssociative | src/main/java/dev/alexengrig/util/Conditional.java:101-110 | `flatMap(f).flatMap(g)` equals `flatMap(v -> f(v).flatMap(g))`, with the same NPE when f returns null |
| ConditionalLaws.OrEmptyIsIdentity | src/main/java/dev/alexengrig/util/Conditional.java:112-121 | `or(() -> empty())` returns the receiver |
| ConditionalLaws.OrAssociative | src/main/java/dev/alexengrig/util/Conditional.java:112-121 | `or(s1).or(s2)` equals `or(() -> s1.get().or(s2))` |
| ConditionalLaws.ResolversAgreeWhenPresent | src/main/java/dev/alexengrig/util/Conditional.java:139-202 | on a present wrapper all seven resolvers return exactly `predicate(v)`, whatever their fallback |
| ConditionalLaws.ResolversRejectNullPredicate | src/main/java/dev/alexengrig/util/Conditional.java:139-202 | all seven resolvers throw NPE on a null predicate, in either state and whatever their other arguments |
| ConditionalLaws.ResolversAreOrElse | src/main/java/dev/alexengrig/util/Conditional.java:139-183 | test, orElseTrue, the intended orElseFalse and orElseGet are orElse with a fixed or supplied fallback |
| ConditionalLaws.OrElseFalseIsOrElseTrue | src/main/java/dev/alexengrig/util/Conditional.java:157-173 | as written, orElseFalse equals orElseTrue on every input |
| ConditionalLaws.OrElseFalseEmptyCounterexample | src/test/java/dev/alexengrig/util/ConditionalTest.java:168 | the test's case `empty().orElseFalse(String::isEmpty)` yields true in the code and false in the corrected version |
| ConditionalLaws.OrElseFalseIntendedIsDualOfOrElseTrue | src/main/java/dev/alexengrig/util/Conditional.java:157-173 | the intended orElseFalse and orElseTrue agree exactly on present wrappers |
| ConditionalLaws.IfHasOrElseExtendsIfHas | src/main/java/dev/alexengrig/util/Conditional.java:55-72 | ifHasOrElse equals ifHas on a present wrapper; on an empty one it adds exactly one run of the empty action |
| ConditionalLaws.EqualsIsStructural | src/main/java/dev/alexengrig/util/Conditional.java:204-214 | with value equality for the elements, two wrappers are equal iff they are the same datatype value |
| ConditionalLaws.EqualsIsEquivalence | src/main/java/dev/alexengrig/util/Conditional.java:204-214 | equals is reflexive, symmetric and transitive when the element's equals is |
| ConditionalLaws.HashCodeAgreesWithEquals | src/main/java/dev/alexengrig/util/Conditional.java:204-219 | equal wrappers have equal hash codes when the element's hashCode agrees with its equals |

## Findings

| source | as written | input that shows it | evidently intended | confidence | as-written member | corrected member |
|---|---|---|---|---|---|---|
| src/main/java/dev/alexengrig/util/Conditional.java:166-173 | `orElseFalse` returns `true` on an empty wrapper, the same as `orElseTrue` | `Conditional.<String>empty().orElseFalse(String::isEmpty)` gives true; ConditionalTest.java:168 expects false, but `OrElseFalseMethodTest` (ConditionalTest.java:163-175) carries only `@Override` and no `@Test`, so JUnit never runs that expectation | return `false` on an empty wrapper | high; not executed | Conditional.OrElseFalse (with ConditionalLaws.OrElseFalseIsOrElseTrue, ConditionalLaws.OrElseFalseEmptyCounterexample) | Conditional.OrElseFalseIntended (with ConditionalLaws.ResolversAreOrElse, ConditionalLaws.OrElseFalseIntendedIsDualOfOrElseTrue) |

## Left out

- `stream()`: it returns a lazy `java.util.Stream` of zero or one element. The Dafny model has no stream type to return.
- `toString()`: it depends on `String.format` and on the contained value's `toString`.
- Reference identity: the shared `EMPTY` instance, the `this == obj` fast path of `equals`, and the identity test inside `Objects.equals`. All empty wrappers are one datatype value, so structural equality covers what can be observed.
- `equals` against an object of another class (`instanceof` failing): the argument of `Equals` is a possibly-null `Conditional` only.
- Conditional.Equals: assumes the element's `equals` returns false when given null, as the contract of `Object.equals` requires.
- Java generics: the variance wildcards and the unchecked casts in `flatMap` and `or`.
- Conditional.HashCode: the contained value's hash is an uninterpreted parameter `hash`, because `Objects.hashCode` of an arbitrary value cannot be seen.
- Side effects of user callbacks other than throwing are not modelled, because callbacks are pure functions. For the actions of `ifHas` and `ifHasOrElse`, the returned call record stands in for those effects. Invocations of predicates, mappers and suppliers are not recorded. For them, "not called" is shown by the result not depending on the callback.
- Conditional.IfHas: the call record lists actions only. It does not list the predicate call that precedes them.
- ConditionalLaws.MapFusion: the composed mapper keeps a null from `f` as null, instead of handing null to `g` as the literal lambda `v -> g(f(v))` would. The two agree whenever `f(v)` is non-null, which is the case the law is about.
