/** Shared vocabulary of the model: optional values, identifiers, dates,
    the repositories' exceptions, and the string checks the constructors use. */
module Common {

  /** A nullable value (`T?` in the source). */
  datatype Option<+T> = None | Some(value: T)

  /** An opaque identifier (`System.Guid`) with the distinguished all-zero value `Guid.Empty`. */
  datatype Guid = EmptyGuid | Guid(bits: nat)

  /** `DateOnly` as a day number; any order-preserving encoding will do. */
  type Date = int

  /** `DateTimeOffset` as an instant on one time line. */
  type Instant = int

  /** The exceptions the core raises, one constructor per exception class. */
  datatype Error =
    | PositionNotFound
    | PositionAlreadyExists
    | PositionHistoryNotFound
    | PostHistoryNotFound
    | ScoreNotFound
    | EducationNotFound
    | EducationAlreadyExists
    | EmployeeNotFound
    | EmployeeAlreadyExists
    | InvalidArgument(param: string)   // ArgumentException, tagged with the offending parameter

  /** The value of an operation, or the exception it raises. */
  datatype Result<+T> = Success(value: T) | Failure(error: Error)

  /** The `??` operator: the supplied value, or the fallback when none is supplied. */
  function Coalesce<T>(o: Option<T>, fallback: T): T
  {
    match o
    case Some(v) => v
    case None => fallback
  }

  /** The characters `char.IsWhiteSpace` accepts (Unicode separators and the
      control characters TAB, LF, VT, FF, CR and NEL). */
  predicate IsWhiteSpace(c: char)
  {
    ('\U{9}' <= c <= '\U{D}') || c == ' ' || c == '\U{85}' || c == '\U{A0}' || c == '\U{1680}'
    || ('\U{2000}' <= c <= '\U{200A}') || c == '\U{2028}' || c == '\U{2029}'
    || c == '\U{202F}' || c == '\U{205F}' || c == '\U{3000}'
  }

  /** `string.IsNullOrWhiteSpace` on a non-null string. */
  predicate IsBlank(s: string)
  {
    forall i :: 0 <= i < |s| ==> IsWhiteSpace(s[i])
  }
}
