/** Shared vocabulary of the model. */
module Common {

  /** A document identifier (a MongoDB ObjectId). The store hands out ids from a
      counter, which stands for the freshness of generated ObjectIds. */
  type Id = nat

  /** A value that may be absent (an unset document field, a `null` result). */
  datatype Option<T> = None | Some(value: T)
}
