/**
  A result that may be missing. Where an operation of the kernel has one, None is the outcome
  that stops it: a failed assertion, a panic, or going to sleep where the caller says so.
 */
module Wrappers {
  datatype Option<+T> = None | Some(value: T)
}
