/** The connector SDK's error classification, as far as the providers use it. */
module ConnectorErrors {
  import opened GoStrings

  datatype Kind = Permanent | Retryable | Uncertain

  datatype Code = Named(name: string) | HttpStatus(status: int) | ProviderCode(code: int)

  datatype Failure = Failure(kind: Kind, code: Code)

  function Fail<T>(kind: Kind, name: string): Result<T, Failure> {
    Err(Failure(kind, Named(name)))
  }

  predicate Is2xx(status: int) {
    200 <= status < 300
  }
}
