/** The optional values the model needs: a JSON member that may be absent,
    and a song's download URL, which is `None` until it is resolved. */
module Options {

  datatype Option<+T> = None | Some(value: T)
}
