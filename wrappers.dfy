/** Stock wrapper datatypes shared by the modules of this model. */
module Wrappers {

  /** `None` stands for JavaScript's `null` where the source returns it. */
  datatype Option<+T> = None | Some(value: T)
}
