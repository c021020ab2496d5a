/** The optional-value wrapper shared by every module of the model. */
module Options {

  /** `None` stands for a value the program could not obtain. */
  datatype Option<+T> = None | Some(value: T)
}
