/** What several modules share. */
module Common {

  datatype Option<+T> = None | Some(value: T)

  /** A value, or the error that the program throws. */
  datatype Result<+T> = Ok(value: T) | Invalid

  /** A token of a model's vocabulary. */
  type Token = int

  /** The upper end of a number of repetitions. */
  datatype Limit = AtMost(n: nat) | NoLimit

  function Concat(ws: seq<string>): (w: string) {
    if ws == [] then "" else ws[0] + Concat(ws[1..])
  }
}
