/** An optional value. In the explorer it stands for a JavaScript value that may be
    `null` or `undefined`: a listing read from a cache key that was never written, or
    the absent preview path. */
module Optional {

  datatype Option<+T> = None | Some(value: T)

}
