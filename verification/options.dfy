/** Optional values. `None` stands for JavaScript's `undefined`/`null` wherever
    the modelled code reads a property or array slot that may be absent. */
module Options {

  datatype Option<+T> = None | Some(value: T)

}
