/** The exceptions the core throws, as values, and the message each carries. */
module Errors {
  import opened Decimal

  datatype Error =
    /** NotFoundException: no product has this id. */
    | NotFound(id: int)
    /** BadRequestException: a product with this name already exists. */
    | BadRequest(duplicateName: string)
    /** TooManyRequestsException: the per-user action limit `max` was exceeded. */
    | TooManyRequests(max: nat)
    /** IllegalArgumentException raised by Spring Data's PageRequest. */
    | IllegalArgument(detail: string)

  const NOT_FOUND_PREFIX: string := "Product not found by id: "

  /** The exception's message, as the source formats it. */
  function Message(e: Error): string {
    match e
    case NotFound(id) => NOT_FOUND_PREFIX + IntToString(id)
    case BadRequest(name) => "Product with name '" + name + "' already exists"
    case TooManyRequests(max) => "You have exceeded the allowed number of actions, max: " + IntToString(max)
    case IllegalArgument(detail) => detail
  }

  /** A not-found message names the id it was raised for: two such messages
      are equal only for equal ids. */
  lemma NotFoundMessageIdentifiesId(a: int, b: int)
    requires Message(NotFound(a)) == Message(NotFound(b))
    ensures a == b
  {
    assert Message(NotFound(a))[|NOT_FOUND_PREFIX|..] == IntToString(a);
    assert Message(NotFound(b))[|NOT_FOUND_PREFIX|..] == IntToString(b);
    IntRoundTrip(a);
    IntRoundTrip(b);
  }
}
