/** The optional value used throughout: `undefined`/`null` in the frontend,
    `Option` in the backend. */
module Opt {
  datatype Option<+T> = None | Some(value: T)
}
