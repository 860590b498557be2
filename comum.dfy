/**
 * Shared value types: the optional values that stand for Java's nullable
 * references, failure-carrying results, and the catalogue's error kinds.
 */
module Comum {

  /** A nullable Java reference: None is `null`. */
  datatype Option<+T> = None | Some(value: T)

  /** The outcome of an operation that either returns a value or throws. */
  datatype Result<+R> = Success(value: R) | Failure(error: Erro)

  /** The outcome of a `void` operation that may throw. */
  datatype Outcome = Pass | Fail(error: Erro)

  /**
   * The exceptions of the catalogue, one constructor per kind:
   * ValidationException, ApiException (with its HTTP status, 0 when there
   * was no response), the RuntimeException of a failed JSON conversion,
   * IllegalArgumentException, the RuntimeException of a book without an
   * author, a row that the store refuses to insert, and the
   * NullPointerException of a method called on a null reference.
   */
  datatype Erro =
    | Validacao(mensagem: string)
    | Api(mensagem: string, status: int)
    | ConversaoDados(mensagem: string)
    | ArgumentoInvalido(mensagem: string)
    | Dominio(mensagem: string)
    | Persistencia(mensagem: string)
    | ReferenciaNula
}
