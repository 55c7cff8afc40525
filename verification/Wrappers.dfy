// A value that may be missing. Go says so with a second result or a nil pointer, and several of the modelled
// functions do: metadata that cannot be read, a version that does not parse, a fence that is not found, a key
// that neither a manifest nor a harness asks for. All of them return the one type here.

module Wrappers {

  datatype Option<T> = None | Some(value: T)
}
