/** Types shared by the models of several components. */
module Common {

  datatype Option<+T> = None | Some(value: T)

  /** One more than the largest unsigned 64-bit integer. */
  const TWO64 := 0x1_0000_0000_0000_0000

  /** The last n elements, or all of them if there are fewer. */
  function LastOf<T>(s: seq<T>, n: nat): seq<T> {
    if n <= |s| then s[|s| - n..] else s
  }
}
