/**
 * The exceptions the bundle raises, as tags. Each tag names the exception
 * class the source throws and the situation it is thrown in.
 */
module Errors {
  import opened Wrappers

  datatype Error =
      // FilterException
    | InvalidFilterType
    | MissingChoiceValues
    | FilterQueryMissing
    | FilterMethodUndefined
      // SorterException
    | SorterQueryMissing
      // ElementException
    | ElementCallableFailed
    | ElementMethodFailed
      // ListerException, raised by Lister::apply
    | FilterFormNotBuilt
    | NoElements
    | NoQuery
      // InvalidArgumentException
    | InvalidModelClass
    | InvalidSnapshot
    | InvalidBagValue
      // a default text filter holding an array or object value (see README)
    | TextFilterArrayValue

  /** Effect of an operation that mutates its object and may throw midway:
      the state as it stands when the operation returns or raises. */
  datatype Effect<T> = Effect(state: T, raised: Option<Error>)
}
