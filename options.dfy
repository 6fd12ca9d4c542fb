/** The optional value used for "no hit" and "no outgoing ray" results. */
module Options {

  datatype Option<+T> = None | Some(value: T)
}
