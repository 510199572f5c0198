/**
 * The service's error value: a message, an HTTP status fixed at construction,
 * and an optional cause. It has no mutator; as an immutable datatype value
 * its status cannot change after construction.
 */
module ServiceException {
  import opened Wrappers

  /** A constant of Spring's `HttpStatus` enumeration: its numeric value and its constant name. */
  datatype HttpStatus = HttpStatus(value: int, name: string)

  const Ok := HttpStatus(200, "OK")
  const BadRequest := HttpStatus(400, "BAD_REQUEST")
  const NotFound := HttpStatus(404, "NOT_FOUND")
  const BadGateway := HttpStatus(502, "BAD_GATEWAY")

  /** What the exception wraps: the client error it translates, or the parser's failure. */
  datatype Cause = ClientErrorCause(code: int) | ParseFailureCause

  datatype GitHubServiceException = GitHubServiceException(message: string, status: HttpStatus, cause: Option<Cause>)

  function NewServiceException(message: string, status: HttpStatus, cause: Option<Cause>): (e: GitHubServiceException)
    ensures GetMessage(e) == message
    ensures GetStatus(e) == status
    ensures GetCause(e) == cause
  {
    GitHubServiceException(message, status, cause)
  }

  function GetMessage(e: GitHubServiceException): string {
    e.message
  }

  function GetStatus(e: GitHubServiceException): HttpStatus {
    e.status
  }

  function GetCause(e: GitHubServiceException): Option<Cause> {
    e.cause
  }

  /** An exception is determined by what its three getters return. */
  lemma GettersDetermineException(a: GitHubServiceException, b: GitHubServiceException)
    requires GetMessage(a) == GetMessage(b) && GetStatus(a) == GetStatus(b) && GetCause(a) == GetCause(b)
    ensures a == b
  {
  }
}
