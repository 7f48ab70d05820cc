/** The optional-value wrapper used for the configurable span-confidence threshold. */
module Options {

  datatype Option<+T> = None | Some(value: T)

}
