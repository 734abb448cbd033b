/** The HTTP exchange with Jira, reduced to what the services inspect of it. */
module JiraHttp {
  import opened Wrappers
  import opened JsonTree

  /**
   * What `restTemplate.exchange(..)` gave back: a response with its status code and its body as
   * `objectMapper.readTree` sees it (None when the body is missing or cannot be parsed, so that
   * readTree throws), or an exception thrown by the exchange itself.
   */
  datatype HttpOutcome = Response(status: int, body: Option<JsonNode>) | Thrown

  /** The `RuntimeException` into which every service wraps a failure. */
  datatype ServiceError = RuntimeFailure

  /** `HttpStatus.OK`: the only status whose body the services decode. */
  const StatusOk := 200
}
