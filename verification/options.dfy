/** The conventional optional value: `None` stands for JavaScript's `null`
    (or, for a retry loop, for a candidate supply that ran out). */
module Options {

  datatype Option<+T> = None | Some(value: T)
}
