/** The error conditions the services raise. `NotFound` models
    ResourceNotFoundException, `Api` models APIErrorHandler, `BadRequest`
    models a 400 response returned without throwing, `RoleNotFound` the
    RuntimeException of a missing role row, `NonUniqueResult` a single-result
    repository query that matched more than one row, and `IllegalArgument`
    the rejection of a bad page request. */
module Errors {

  datatype Resource = ProductRes | CartRes | AddressRes | OrderRes | CategoryRes | UserRes

  datatype Reason =
    | AlreadyInCart
    | Unavailable
    | OnlyUnitsAvailable(units: int)
    | NotInCart
    | NegativeQuantity
    | NoCarts
    | EmptyCart
    | NoCategories
    | CategoryExists
    | UsernameTaken
    | EmailTaken

  datatype Error =
    | NotFound(resource: Resource)
    | Api(reason: Reason)
    | BadRequest(why: Reason)
    | RoleNotFound
    | NonUniqueResult
    | IllegalArgument
}
