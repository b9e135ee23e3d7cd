/** The error table of com.photory.common.exception.ErrorCode: every constant
    carries an `ErrorStatusCode`, and `getStatus` reads the numeric HTTP status
    off that status code alone. */
module ErrorCodes {

  /** The status groups the table uses. The enum that declares them is not part
      of this model; their numbers are the standard HTTP status codes of
      RFC 9110, section 15. */
  datatype ErrorStatusCode =
    | BadRequest | Unauthorized | Forbidden | NotFound | MethodNotAllowed
    | NotAcceptable | Conflict | UnsupportedMediaType | InternalServer
    | BadGateway | ServiceUnavailable

  /** The numeric status of a status group. */
  function HttpStatus(sc: ErrorStatusCode): int
  {
    match sc
    case BadRequest => 400
    case Unauthorized => 401
    case Forbidden => 403
    case NotFound => 404
    case MethodNotAllowed => 405
    case NotAcceptable => 406
    case Conflict => 409
    case UnsupportedMediaType => 415
    case InternalServer => 500
    case BadGateway => 502
    case ServiceUnavailable => 503
  }

  datatype ErrorCode =
    // 400 group
    | ValidationException
    | ValidationEnumValueException
    | ValidationRequestMissingException
    | ValidationWrongTypeException
    | ValidationSocialTypeException
    | ValidationWrongPasswordException
    | ValidationEmailAuthKeyException
    // 401 group
    | UnauthorizedException
    | UnauthorizedEmailException
    // 403 group (two of its members carry BadRequest, see StatusCode)
    | ForbiddenException
    | ForbiddenFileTypeException
    | ForbiddenFileNameException
    | ForbiddenRoomOwnerException
    | ForbiddenRoomOwnerLeaveLastException
    | ForbiddenRoomOwnerDisableLastException
    | ForbiddenRoomOwnerLeaveException
    | ForbiddenRoomExceedCapacityException
    | ForbiddenRoomParticipantException
    | ForbiddenFeedOwnerException
    // 404 group
    | NotFoundException
    | NotFoundUserException
    | NotFoundRoomException
    | NotFoundFeedException
    | NotFoundEmailException
    // 405, 406
    | MethodNotAllowedException
    | NotAcceptableException
    // 409 group
    | ConflictException
    | ConflictNicknameException
    | ConflictEmailException
    | ConflictUserException
    | ConflictJoinRoomException
    | ConflictLeaveRoomException
    // 415, 500, 502, 503
    | UnsupportedMediaTypeException
    | InternalServerException
    | BadGatewayException
    | ServiceUnavailableException

  /** The `statusCode` field each constant is declared with. Every name group
      carries its own status, except that the two file codes of the
      `FORBIDDEN_*` block carry `BAD_REQUEST`. */
  function StatusCode(e: ErrorCode): (sc: ErrorStatusCode)
    ensures sc == BadRequest <==>
      IsValidationCode(e) || e == ForbiddenFileTypeException || e == ForbiddenFileNameException
    ensures sc == Unauthorized <==> e == UnauthorizedException || e == UnauthorizedEmailException
    ensures sc == Forbidden <==> IsRoomOrFeedForbidden(e) || e == ForbiddenException
    ensures sc == NotFound <==> IsNotFoundCode(e)
    ensures sc == Conflict <==> IsConflictCode(e)
  {
    match e
    case ValidationException => BadRequest
    case ValidationEnumValueException => BadRequest
    case ValidationRequestMissingException => BadRequest
    case ValidationWrongTypeException => BadRequest
    case ValidationSocialTypeException => BadRequest
    case ValidationWrongPasswordException => BadRequest
    case ValidationEmailAuthKeyException => BadRequest
    case UnauthorizedException => Unauthorized
    case UnauthorizedEmailException => Unauthorized
    case ForbiddenException => Forbidden
    case ForbiddenFileTypeException => BadRequest
    case ForbiddenFileNameException => BadRequest
    case ForbiddenRoomOwnerException => Forbidden
    case ForbiddenRoomOwnerLeaveLastException => Forbidden
    case ForbiddenRoomOwnerDisableLastException => Forbidden
    case ForbiddenRoomOwnerLeaveException => Forbidden
    case ForbiddenRoomExceedCapacityException => Forbidden
    case ForbiddenRoomParticipantException => Forbidden
    case ForbiddenFeedOwnerException => Forbidden
    case NotFoundException => NotFound
    case NotFoundUserException => NotFound
    case NotFoundRoomException => NotFound
    case NotFoundFeedException => NotFound
    case NotFoundEmailException => NotFound
    case MethodNotAllowedException => MethodNotAllowed
    case NotAcceptableException => NotAcceptable
    case ConflictException => Conflict
    case ConflictNicknameException => Conflict
    case ConflictEmailException => Conflict
    case ConflictUserException => Conflict
    case ConflictJoinRoomException => Conflict
    case ConflictLeaveRoomException => Conflict
    case UnsupportedMediaTypeException => UnsupportedMediaType
    case InternalServerException => InternalServer
    case BadGatewayException => BadGateway
    case ServiceUnavailableException => ServiceUnavailable
  }

  /** `ErrorCode.getStatus()`: the HTTP status of the code's status group. */
  function Status(e: ErrorCode): (r: int)
    ensures 400 <= r < 600
    ensures r < 500 <==> e !in {InternalServerException, BadGatewayException, ServiceUnavailableException}
  {
    HttpStatus(StatusCode(e))
  }

  /** The room- and feed-specific codes of the 403 block: owner-only requests,
      the owner leave/disable rules, the capacity limit, participant-only
      requests and feed-author-only requests. */
  predicate IsRoomOrFeedForbidden(e: ErrorCode)
  {
    e in {ForbiddenRoomOwnerException, ForbiddenRoomOwnerLeaveLastException,
          ForbiddenRoomOwnerDisableLastException, ForbiddenRoomOwnerLeaveException,
          ForbiddenRoomExceedCapacityException, ForbiddenRoomParticipantException,
          ForbiddenFeedOwnerException}
  }

  /** The `VALIDATION_*` constants. */
  predicate IsValidationCode(e: ErrorCode)
  {
    e in {ValidationException, ValidationEnumValueException, ValidationRequestMissingException,
          ValidationWrongTypeException, ValidationSocialTypeException,
          ValidationWrongPasswordException, ValidationEmailAuthKeyException}
  }

  /** The `CONFLICT_*` constants. */
  predicate IsConflictCode(e: ErrorCode)
  {
    e in {ConflictException, ConflictNicknameException, ConflictEmailException,
          ConflictUserException, ConflictJoinRoomException, ConflictLeaveRoomException}
  }

  /** The `NOT_FOUND_*` constants. */
  predicate IsNotFoundCode(e: ErrorCode)
  {
    e in {NotFoundException, NotFoundUserException, NotFoundRoomException,
          NotFoundFeedException, NotFoundEmailException}
  }

  /** Exactly the room and feed authorisation codes, plus the generic
      `FORBIDDEN_EXCEPTION`, answer 403; the two file codes listed in the 403
      block answer 400. */
  lemma ForbiddenGroup(e: ErrorCode)
    ensures Status(e) == 403 <==> IsRoomOrFeedForbidden(e) || e == ForbiddenException
    ensures e in {ForbiddenFileTypeException, ForbiddenFileNameException} ==> Status(e) == 400
  {
  }

  /** Exactly the `NOT_FOUND_*` constants answer 404. */
  lemma NotFoundGroup(e: ErrorCode)
    ensures Status(e) == 404 <==> IsNotFoundCode(e)
  {
  }

  /** Joining a room twice and leaving a room twice are conflicts. */
  lemma RoomConflicts()
    ensures Status(ConflictJoinRoomException) == 409
    ensures Status(ConflictLeaveRoomException) == 409
    ensures Status(ValidationWrongPasswordException) == 400
  {
  }

  /** `getStatus` depends on nothing but the constant's status group, and
      distinct groups give distinct numbers. */
  lemma StatusDeterminedByStatusCode(a: ErrorCode, b: ErrorCode)
    ensures Status(a) == Status(b) <==> StatusCode(a) == StatusCode(b)
  {
  }
}
