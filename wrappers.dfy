/** The nullable results of the proxy (a missing target URI, a missing content or content type). */
module Wrappers {

  datatype Option<+T> = None | Some(value: T)
}
