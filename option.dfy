/** The optional value that the handlers read from forms and query strings
    (absent or present) and that the session holds (nobody or a user). */
module Optional {
  datatype Option<+T> = None | Some(value: T)
}
