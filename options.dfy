/** An optional value: used for the pending step timer and for the result of
    decoding the location fragment, which either yields a sequence or throws. */
module Options {
  datatype Option<+T> = None | Some(value: T)
}
