/** Failure-compatible wrapper used for optional parts of the syntax tree and for
    the parser's result. */
module Wrappers {

  /** `None` stands for an absent value: a method without a body, or a parse
      that produced no compilation unit. */
  datatype Option<+T> = None | Some(value: T)
}
