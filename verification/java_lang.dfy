/** The few pieces of the Java runtime the wrapper is built on: null references,
    java.util.Optional, abrupt completion by an exception, and the helpers of
    java.util.Objects (requireNonNull, equals, hashCode). */
module JavaLang {

  /** A reference that may be null: Null, or a Ref to an object. */
  datatype Nullable<+T> = Null | Ref(ref: T)

  /** java.util.Optional: either empty or holding a value that is never null. */
  datatype Optional<+T> = OptionalEmpty | OptionalOf(value: T) {
    predicate IsPresent() { OptionalOf? }
  }

  /** An exception object created by user code, identified by its class and message. */
  datatype Throwable = Throwable(className: string, message: string)

  /** The 32-bit range of a Java `int`, as returned by hashCode. */
  newtype int32 = x: int | -0x8000_0000 <= x < 0x8000_0000

  /** How a Java call completes: normally with a value, or abruptly by throwing
      a NullPointerException, a NoSuchElementException or an exception of user code.
      The failure-compatible members let `:-` model an exception propagating out of
      the caller at the point where it is raised. */
  datatype Outcome<+R> =
    | Ok(value: R)
    | NullPointer
    | NoSuchElement(message: string)
    | Thrown(exception: Throwable)
  {
    predicate IsFailure() { !Ok? }

    /** The same exception, seen from a caller whose normal result has another type. */
    function PropagateFailure<U>(): (r: Outcome<U>)
      requires IsFailure()
      ensures r.IsFailure()
      ensures r.NullPointer? <==> NullPointer?
      ensures NoSuchElement? ==> r == NoSuchElement(message)
      ensures Thrown? ==> r == Thrown(exception)
    {
      match this
      case NullPointer => NullPointer
      case NoSuchElement(m) => NoSuchElement(m)
      case Thrown(e) => Thrown(e)
    }

    function Extract(): R
      requires Ok?
    {
      value
    }
  }

  /** Objects.requireNonNull: hands the reference back, or throws a
      NullPointerException before the caller does anything else. */
  function RequireNonNull<T>(x: Nullable<T>): (r: Outcome<T>)
    ensures r.Ok? <==> x.Ref?
    ensures x.Ref? ==> r.value == x.ref
    ensures x.Null? ==> r == NullPointer
  {
    match x
    case Null => NullPointer
    case Ref(v) => Ok(v)
  }

  /** Objects.equals(a, b) where `eq` is the element class's `equals` on two non-null
      objects. Two nulls are equal; a null and a non-null never are (Object.equals
      must return false for a null argument). */
  function ObjectsEquals<T>(a: Nullable<T>, b: Nullable<T>, eq: (T, T) -> bool): (r: bool)
    ensures a.Null? && b.Null? ==> r
    ensures a.Null? != b.Null? ==> !r
    ensures a.Ref? && b.Ref? ==> (r <==> eq(a.ref, b.ref))
  {
    match (a, b)
    case (Null, Null) => true
    case (Ref(x), Ref(y)) => eq(x, y)
    case _ => false
  }

  /** Objects.hashCode(o) where `hash` is the element class's hashCode: 0 for null. */
  function ObjectsHashCode<T>(a: Nullable<T>, hash: T -> int32): (h: int32)
    ensures a.Null? ==> h == 0
    ensures a.Ref? ==> h == hash(a.ref)
  {
    match a
    case Null => 0
    case Ref(x) => hash(x)
  }
}
