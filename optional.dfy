/** The optional value the model uses wherever the source has `None` or a
    missing dictionary entry. */
module Optional {

  datatype Option<+T> = None | Some(value: T)
}
