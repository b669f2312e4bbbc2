/** An optional value: the model's stand-in for a form field that may be left
    unset (`undefined` in the dashboard's date state). */
module Optional {

  datatype Option<+T> = None | Some(value: T)
}
