/**
 The outcome of an external call that may produce nothing: a size probe that fails, a download
 that raises, a request without a JSON body.
 */
module Wrappers {

  datatype Option<T> = None | Some(value: T)
}
