/** Optional values, the exceptions the modelled code raises, and a
    success-or-error result. */
module Results {
  import opened Values

  datatype Option<T> = None | Some(value: T)

  /** One constructor per exception the modelled code raises, named after
      the situation rather than the Python class. */
  datatype Error =
    | StateDeleted                    // ValueError: the instance state is deleted, cannot add
    | Duplicated(iid: Value)          // ValueError: the iid is held by two partitions
    | NotInSession                    // ValueError: server update of an instance the session lost
    | IdChanged(held: Value, given: Value) // ValueError: the server returned a different id
    | InvalidTransaction(reason: string)
    | NoneNotIterable                 // TypeError: iterating the session of a detached transaction
    | NoneAttribute                   // AttributeError: setting `session` on `None`
    | Unhashable                      // TypeError: hashing an instance without an id
    | ForeignQuery                    // ValueError: a query generated by another session
    | FieldError(field: string)
    | DoesNotExist(what: string)
    | InvalidKeyword(keyword: string) // ValueError: an unknown constructor keyword
    | ModelNotRegistered
    | NeverSaved                      // StdNetException: deleting an instance without an id
    | UnboundLocal                    // UnboundLocalError: `c` referenced before assignment
    | IndexError

  datatype Result<T> = Ok(value: T) | Err(error: Error)
}
