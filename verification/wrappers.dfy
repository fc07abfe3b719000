/** The optional-value wrapper used by the schemas and by the balance handler. */
module Wrappers {

  /** A value that may be absent: a zod `.optional()` field, or the identity
      returned by the session check when nobody is signed in. */
  datatype Option<+T> = None | Some(value: T)
}
