/** The exceptions the core raises, one constructor per exception class. */
module Errors {

  datatype Error =
    | Conflict(message: string)       // errorhub ConflictException
    | NotFound(message: string)       // errorhub NotFoundException
    | BadRequest(message: string)     // errorhub BadRequestException
    | Unauthorized(message: string)   // errorhub UnauthorizedException
    | Forbidden(message: string)      // errorhub ForbiddenException
    | ValueError(message: string)     // Python ValueError
    | KeyError(key: string)           // Python KeyError raised by `d[key]`
    | IndexError(message: string)     // Python IndexError
    | AttributeError(message: string) // Python AttributeError
    | ValidationError(field: string)  // pydantic ValidationError, by the field that fails
}
