/** Values shared by every component: Go's `error` (nil or an error value)
    and the optional value used for it. */
module Base {

  /** An error value as returned by a backend, a broker or a factory. */
  datatype Error = Error(message: string)

  /** `None` stands for Go's nil. */
  datatype Option<+T> = None | Some(value: T)
}
