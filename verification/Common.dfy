/** Types shared by the models. */
module Common {

  newtype byte = x: int | 0 <= x < 256

  datatype Option<+T> = None | Some(value: T)

  function Min(a: int, b: int): (r: int) { if a < b then a else b }

  function Max(a: int, b: int): (r: int) { if a < b then b else a }
}
