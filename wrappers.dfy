/** Optional values and fallible results, as the source uses `Option<T>` and `Result<T, ()>`. */
module Wrappers {

  datatype Option<+T> = None | Some(value: T)

  /** The source's errors carry no payload (`Result<T, ()>`), so neither does `Err`. */
  datatype Result<+T> = Ok(value: T) | Err
}
