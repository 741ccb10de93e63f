/** Conditional<T>: an immutable wrapper that holds a non-null value or nothing, and
    answers boolean questions about that value.

    Every operation that takes a callback checks it for null first and throws a
    NullPointerException before anything else happens, whatever state the wrapper
    is in. Callbacks are pure functions returning an `Outcome`, so a callback that
    throws is one that returns a failure; "the callback is not called" is then the
    statement that the result does not depend on the callback at all, not even on a
    callback that always throws. */
module Conditional {
  import opened JavaLang

  /** Empty stands for every wrapper whose `value` field is null (the shared EMPTY
      instance and anything built from null); Has(value) for one holding a value. */
  datatype Cond<+T> = Empty | Has(value: T) {

    /** isNull(): the value field is null. */
    predicate IsNull()
      ensures IsNull() <==> this == Empty
    {
      Empty?
    }

    /** nonNull(): the value field is not null; always the negation of IsNull. */
    predicate NonNull()
      ensures NonNull() <==> !IsNull()
    {
      Has?
    }

    /** The private `value` field, as the nullable reference Java stores. */
    function Field(): (f: Nullable<T>)
      ensures f.Null? <==> IsNull()
      ensures NonNull() ==> f.ref == value
    {
      if Has? then Ref(value) else Null
    }
  }

  /** java.util.function.Predicate: the verdict, or an exception. */
  type Predicate<!T> = T -> Outcome<bool>
  /** java.util.function.Function whose result may be null. */
  type Function<!T, U> = T -> Outcome<Nullable<U>>
  /** java.util.function.Supplier (and BooleanSupplier when R is bool). */
  type Supplier<R> = () -> Outcome<R>
  /** Consumer<Boolean>: its only observable effect is its own exception, if any. */
  type Consumer = bool -> Outcome<()>
  /** Runnable. */
  type Runnable = () -> Outcome<()>

  /** The message of the NoSuchElementException thrown by orElseThrow(predicate). */
  const NoValueMessage: string := "Value is null"

  // ---------------------------------------------------------------------------
  // Factories

  /** empty(): the canonical empty wrapper. */
  function EmptyCond<T>(): (c: Cond<T>)
    ensures c.IsNull()
    ensures c.Field() == Null
  {
    Empty
  }

  /** of(value): empty exactly when `value` is null, otherwise holding `value`. */
  function Of<T>(value: Nullable<T>): (c: Cond<T>)
    ensures c.IsNull() <==> value.Null?
    ensures c.NonNull() ==> c.value == value.ref
    ensures c.Field() == value
  {
    if value.Ref? then Has(value.ref) else EmptyCond()
  }

  /** ofOptional(optional): NullPointerException on a null container; otherwise the
      wrapper that optional() turns back into the same Optional. */
  function OfOptional<T>(optional: Nullable<Optional<T>>): (r: Outcome<Cond<T>>)
    ensures optional.Null? <==> r.IsFailure()
    ensures optional.Null? ==> r == NullPointer
    ensures optional.Ref? ==> r.Ok? && ToOptional(r.value) == optional.ref
  {
    var opt :- RequireNonNull(optional);
    match opt
    case OptionalOf(v) => Ok(Of(Ref(v)))
    case OptionalEmpty => Ok(EmptyCond())
  }

  /** optional(): present exactly when the wrapper is, with the same value. */
  function ToOptional<T>(c: Cond<T>): (o: Optional<T>)
    ensures o.IsPresent() <==> c.NonNull()
    ensures c.NonNull() ==> o.value == c.value
  {
    if c.NonNull() then OptionalOf(c.value) else OptionalEmpty
  }

  // ---------------------------------------------------------------------------
  // Transformers

  /** filter(filter): keeps the receiver when the predicate holds of its value and
      gives empty when it does not; an empty receiver comes back as it is. */
  function Filter<T>(c: Cond<T>, filter: Nullable<Predicate<T>>): (r: Outcome<Cond<T>>)
    ensures filter.Null? ==> r == NullPointer
    ensures filter.Ref? && c.IsNull() ==> r == Ok(c)
    ensures r.Ok? ==> r.value == c || r.value.IsNull()
    ensures filter.Ref? && c.NonNull() ==>
      && (r == Ok(c) <==> filter.ref(c.value) == Ok(true))
      && (r == Ok(EmptyCond()) <==> filter.ref(c.value) == Ok(false))
      && (filter.ref(c.value).IsFailure() ==> r == filter.ref(c.value).PropagateFailure())
  {
    var p :- RequireNonNull(filter);
    if c.IsNull() then Ok(c)
    else
      var keep :- p(c.value);
      if keep then Ok(c) else Ok(EmptyCond())
  }

  /** evaluate(evaluator): like filter, but the predicate is asked about the
      wrapper itself rather than its value. */
  function Evaluate<T>(c: Cond<T>, evaluator: Nullable<Predicate<Cond<T>>>): (r: Outcome<Cond<T>>)
    ensures evaluator.Null? ==> r == NullPointer
    ensures evaluator.Ref? && c.IsNull() ==> r == Ok(c)
    ensures r.Ok? ==> r.value == c || r.value.IsNull()
    ensures evaluator.Ref? && c.NonNull() ==>
      && (r == Ok(c) <==> evaluator.ref(c) == Ok(true))
      && (r == Ok(EmptyCond()) <==> evaluator.ref(c) == Ok(false))
      && (evaluator.ref(c).IsFailure() ==> r == evaluator.ref(c).PropagateFailure())
  {
    var e :- RequireNonNull(evaluator);
    if c.IsNull() then Ok(c)
    else
      var keep :- e(c);
      if keep then Ok(c) else Ok(EmptyCond())
  }

  /** map(mapper): of(mapper(value)) on a present receiver, so a null result gives
      empty; empty on an empty receiver. */
  function Map<T, U>(c: Cond<T>, mapper: Nullable<Function<T, U>>): (r: Outcome<Cond<U>>)
    ensures mapper.Null? ==> r == NullPointer
    ensures mapper.Ref? && c.IsNull() ==> r == Ok(EmptyCond())
    ensures mapper.Ref? && c.NonNull() ==>
      && (mapper.ref(c.value).Ok? ==> r == Ok(Of(mapper.ref(c.value).value)))
      && (mapper.ref(c.value).IsFailure() ==> r == mapper.ref(c.value).PropagateFailure())
  {
    var f :- RequireNonNull(mapper);
    if c.NonNull() then
      var mapped :- f(c.value);
      Ok(Of(mapped))
    else
      Ok(EmptyCond())
  }

  /** flatMap(mapper): the mapper's wrapper itself on a present receiver, or a
      NullPointerException when the mapper returns null; empty on an empty receiver. */
  function FlatMap<T, U>(c: Cond<T>, mapper: Nullable<Function<T, Cond<U>>>): (r: Outcome<Cond<U>>)
    ensures mapper.Null? ==> r == NullPointer
    ensures mapper.Ref? && c.IsNull() ==> r == Ok(EmptyCond())
    ensures mapper.Ref? && c.NonNull() ==>
      && (mapper.ref(c.value) == Ok(Null) ==> r == NullPointer)
      && (mapper.ref(c.value).Ok? && mapper.ref(c.value).value.Ref? ==> r == Ok(mapper.ref(c.value).value.ref))
      && (mapper.ref(c.value).IsFailure() ==> r == mapper.ref(c.value).PropagateFailure())
  {
    var f :- RequireNonNull(mapper);
    if c.NonNull() then
      var other :- f(c.value);
      RequireNonNull(other)
    else
      Ok(EmptyCond())
  }

  /** or(supplier): the receiver when present; otherwise the supplier's wrapper, or
      a NullPointerException when the supplier returns null. */
  function Or<T>(c: Cond<T>, supplier: Nullable<Supplier<Nullable<Cond<T>>>>): (r: Outcome<Cond<T>>)
    ensures supplier.Null? ==> r == NullPointer
    ensures supplier.Ref? && c.NonNull() ==> r == Ok(c)
    ensures supplier.Ref? && c.IsNull() ==>
      && (supplier.ref() == Ok(Null) ==> r == NullPointer)
      && (supplier.ref().Ok? && supplier.ref().value.Ref? ==> r == Ok(supplier.ref().value.ref))
      && (supplier.ref().IsFailure() ==> r == supplier.ref().PropagateFailure())
  {
    var s :- RequireNonNull(supplier);
    if c.NonNull() then Ok(c)
    else
      var other :- s();
      RequireNonNull(other)
  }

  // ---------------------------------------------------------------------------
  // Boolean resolvers: the predicate's verdict on a present receiver, and a
  // per-resolver answer on an empty one.

  /** test(predicate): false on an empty receiver. */
  function Test<T>(c: Cond<T>, pred: Nullable<Predicate<T>>): (r: Outcome<bool>)
    ensures pred.Null? ==> r == NullPointer
    ensures pred.Ref? && c.NonNull() ==> r == pred.ref(c.value)
    ensures pred.Ref? && c.IsNull() ==> r == Ok(false)
  {
    var p :- RequireNonNull(pred);
    if c.NonNull() then p(c.value) else Ok(false)
  }

  /** orElse(predicate, other): `other` on an empty receiver. */
  function OrElse<T>(c: Cond<T>, pred: Nullable<Predicate<T>>, other: bool): (r: Outcome<bool>)
    ensures pred.Null? ==> r == NullPointer
    ensures pred.Ref? && c.NonNull() ==> r == pred.ref(c.value)
    ensures pred.Ref? && c.IsNull() ==> r == Ok(other)
  {
    var p :- RequireNonNull(pred);
    if c.NonNull() then p(c.value) else Ok(other)
  }

  /** orElseTrue(predicate): true on an empty receiver. */
  function OrElseTrue<T>(c: Cond<T>, pred: Nullable<Predicate<T>>): (r: Outcome<bool>)
    ensures pred.Null? ==> r == NullPointer
    ensures pred.Ref? && c.NonNull() ==> r == pred.ref(c.value)
    ensures pred.Ref? && c.IsNull() ==> r == Ok(true)
  {
    var p :- RequireNonNull(pred);
    if c.NonNull() then p(c.value) else Ok(true)
  }

  /** orElseFalse(predicate) as the code has it: on an empty receiver it answers
      TRUE, exactly like orElseTrue, although its name and its unit test expect
      false. See OrElseFalseIntended for the evidently intended version. */
  function OrElseFalse<T>(c: Cond<T>, pred: Nullable<Predicate<T>>): (r: Outcome<bool>)
    ensures pred.Null? ==> r == NullPointer
    ensures pred.Ref? && c.NonNull() ==> r == pred.ref(c.value)
    ensures pred.Ref? && c.IsNull() ==> r == Ok(true)
  {
    var p :- RequireNonNull(pred);
    if c.NonNull() then p(c.value) else Ok(true)
  }

  /** orElseFalse(predicate) as its name and its unit test intend: false on an
      empty receiver. */
  function OrElseFalseIntended<T>(c: Cond<T>, pred: Nullable<Predicate<T>>): (r: Outcome<bool>)
    ensures pred.Null? ==> r == NullPointer
    ensures pred.Ref? && c.NonNull() ==> r == pred.ref(c.value)
    ensures pred.Ref? && c.IsNull() ==> r == Ok(false)
  {
    var p :- RequireNonNull(pred);
    if c.NonNull() then p(c.value) else Ok(false)
  }

  /** orElseGet(predicate, supplier): the supplier's answer on an empty receiver;
      both arguments are checked for null first. */
  function OrElseGet<T>(c: Cond<T>, pred: Nullable<Predicate<T>>, supplier: Nullable<Supplier<bool>>): (r: Outcome<bool>)
    ensures pred.Null? || supplier.Null? ==> r == NullPointer
    ensures pred.Ref? && supplier.Ref? && c.NonNull() ==> r == pred.ref(c.value)
    ensures pred.Ref? && supplier.Ref? && c.IsNull() ==> r == supplier.ref()
  {
    var p :- RequireNonNull(pred);
    var s :- RequireNonNull(supplier);
    if c.NonNull() then p(c.value) else s()
  }

  /** orElseThrow(predicate): a NoSuchElementException on an empty receiver. */
  function OrElseThrow<T>(c: Cond<T>, pred: Nullable<Predicate<T>>): (r: Outcome<bool>)
    ensures pred.Null? ==> r == NullPointer
    ensures pred.Ref? && c.NonNull() ==> r == pred.ref(c.value)
    ensures pred.Ref? && c.IsNull() ==> r == NoSuchElement(NoValueMessage)
  {
    var p :- RequireNonNull(pred);
    if c.NonNull() then p(c.value) else NoSuchElement(NoValueMessage)
  }

  /** orElseThrow(predicate, exceptionSupplier): on an empty receiver, throws what
      the supplier returns; `throw null` is itself a NullPointerException. */
  function OrElseThrowWith<T>(c: Cond<T>, pred: Nullable<Predicate<T>>,
                              exceptionSupplier: Nullable<Supplier<Nullable<Throwable>>>): (r: Outcome<bool>)
    ensures pred.Null? || exceptionSupplier.Null? ==> r == NullPointer
    ensures pred.Ref? && exceptionSupplier.Ref? && c.NonNull() ==> r == pred.ref(c.value)
    ensures pred.Ref? && exceptionSupplier.Ref? && c.IsNull() ==>
      && r.IsFailure()
      && (exceptionSupplier.ref().Ok? && exceptionSupplier.ref().value.Ref? ==>
          r == Thrown(exceptionSupplier.ref().value.ref))
      && (exceptionSupplier.ref() == Ok(Null) ==> r == NullPointer)
      && (exceptionSupplier.ref().IsFailure() ==> r == exceptionSupplier.ref().PropagateFailure())
  {
    var p :- RequireNonNull(pred);
    var s :- RequireNonNull(exceptionSupplier);
    if c.NonNull() then p(c.value)
    else
      var exception :- s();
      match exception
      case Null => NullPointer
      case Ref(e) => Thrown(e)
  }

  // ---------------------------------------------------------------------------
  // Callback dispatch

  /** One invocation of a user action: the consumer with a verdict, or the
      empty-action Runnable. */
  datatype Call = Accepted(verdict: bool) | RanEmptyAction

  /** What a dispatch did: the actions it invoked, in order, and how it completed. */
  datatype Effect = Effect(calls: seq<Call>, outcome: Outcome<()>)

  /** ifHas(predicate, action): on a present receiver, hands the predicate's verdict
      to the action; on an empty one does nothing. */
  function IfHas<T>(c: Cond<T>, pred: Nullable<Predicate<T>>, action: Nullable<Consumer>): (r: Effect)
    ensures pred.Null? || action.Null? ==> r == Effect([], NullPointer)
    ensures pred.Ref? && action.Ref? && c.IsNull() ==> r == Effect([], Ok(()))
    ensures |r.calls| <= 1
    ensures RanEmptyAction !in r.calls
    ensures r.calls != [] <==>
      pred.Ref? && action.Ref? && c.NonNull() && pred.ref(c.value).Ok?
    ensures r.calls != [] ==>
      r == Effect([Accepted(pred.ref(c.value).value)], action.ref(pred.ref(c.value).value))
    ensures pred.Ref? && action.Ref? && c.NonNull() && pred.ref(c.value).IsFailure() ==>
      r.outcome == pred.ref(c.value).PropagateFailure()
  {
    if pred.Null? || action.Null? then Effect([], NullPointer)
    else if c.NonNull() then
      var verdict := pred.ref(c.value);
      if verdict.Ok? then Effect([Accepted(verdict.value)], action.ref(verdict.value))
      else Effect([], verdict.PropagateFailure())
    else
      Effect([], Ok(()))
  }

  /** ifHasOrElse(predicate, action, emptyAction): as ifHas on a present receiver;
      runs emptyAction once on an empty one. */
  function IfHasOrElse<T>(c: Cond<T>, pred: Nullable<Predicate<T>>, action: Nullable<Consumer>,
                          emptyAction: Nullable<Runnable>): (r: Effect)
    ensures pred.Null? || action.Null? || emptyAction.Null? ==> r == Effect([], NullPointer)
    ensures pred.Ref? && action.Ref? && emptyAction.Ref? && c.IsNull() ==>
      r == Effect([RanEmptyAction], emptyAction.ref())
    ensures |r.calls| <= 1
    ensures r.calls == [RanEmptyAction] <==>
      pred.Ref? && action.Ref? && emptyAction.Ref? && c.IsNull()
    ensures pred.Ref? && action.Ref? && emptyAction.Ref? && c.NonNull() ==>
      if pred.ref(c.value).Ok? then
        r == Effect([Accepted(pred.ref(c.value).value)], action.ref(pred.ref(c.value).value))
      else
        r == Effect([], pred.ref(c.value).PropagateFailure())
  {
    if pred.Null? || action.Null? || emptyAction.Null? then Effect([], NullPointer)
    else if c.NonNull() then
      var verdict := pred.ref(c.value);
      if verdict.Ok? then Effect([Accepted(verdict.value)], action.ref(verdict.value))
      else Effect([], verdict.PropagateFailure())
    else
      Effect([RanEmptyAction], emptyAction.ref())
  }

  // ---------------------------------------------------------------------------
  // equals and hashCode

  /** equals(obj) against a possibly-null Conditional, where `eq` is the contained
      class's equals: false for null, otherwise Objects.equals on the two value
      fields, so two empty wrappers are equal. */
  function Equals<T>(c: Cond<T>, obj: Nullable<Cond<T>>, eq: (T, T) -> bool): (r: bool)
    ensures obj.Null? ==> !r
    ensures obj.Ref? && c.IsNull() ==> (r <==> obj.ref.IsNull())
    ensures obj.Ref? && c.NonNull() ==> (r <==> obj.ref.NonNull() && eq(c.value, obj.ref.value))
  {
    if obj.Null? then false
    else ObjectsEquals(c.Field(), obj.ref.Field(), eq)
  }

  /** hashCode(), where `hash` is the contained class's hashCode: 0 when empty. */
  function HashCode<T>(c: Cond<T>, hash: T -> int32): (h: int32)
    ensures c.IsNull() ==> h == 0
    ensures c.NonNull() ==> h == hash(c.value)
  {
    ObjectsHashCode(c.Field(), hash)
  }
}
