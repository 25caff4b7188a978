/** Wrappers and the error kinds shared by the server services. */
module Common {

  /** Database primary keys (UUID strings in the database; opaque here). */
  type Id = string

  datatype Option<+T> = None | Some(value: T)

  /** A service call either returns its value or raises one of the errors below. */
  datatype Result<+T> = Ok(value: T) | Err(error: Error)

  /** The exceptions the services raise. Those named `...NotFound` are NestJS
      `NotFoundException`s (HTTP 404); the others are `BadRequestException`s (HTTP 400). */
  datatype Error =
    | IncidentNotFound
    | IncidentNotAwaitingDispatch
    | ResourcesNotFound
    | ResourceNotAvailable(name: string)
    | ProtocolNotFound(protocolId: Id)
    | OperatorNotFound(operatorId: Id)
    | NatureNotFound(natureId: Id)
    | ResourceNotFound(resourceId: Id)
}
