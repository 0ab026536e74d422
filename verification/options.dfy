/** The "value or nothing" wrapper used wherever the script can come back with
    `undefined` (a failed `find`) or throw (a `reduce` on an empty array). */
module Options {

  datatype Option<+T> = None | Some(value: T)

}
