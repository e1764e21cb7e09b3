/**
 * The failures the write path raises, as values (lakesuperior.exceptions),
 * and the small wrappers that carry them.
 */
module Exceptions {
  import opened Rdf

  datatype RepoError =
    | ResourceNotExists(uid: string)
      /** The strict tombstone checks of `extract_imr`; only "it fails" is modelled. */
    | TombstoneFound(uid: string)
    | SingleSubject(subject: Term, uuid: string)
    | RefIntViolation(obj: Term)
    | ServerManagedTerm(terms: set<Term>, kind: string)

  datatype Option<T> = None | Some(value: T)

  datatype Result<T> = Ok(value: T) | Err(error: RepoError)

  /** For operations that return nothing or raise. */
  datatype Outcome = Pass | Fail(error: RepoError)
}
