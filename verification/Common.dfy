/** What several parts of the model share. */
module Common {

  datatype Option<+T> = None | Some(value: T)

  /** The 64-bit id of an action object, on the client and on the trainer. */
  type ObjectId = x: nat | x < 0x1_0000_0000_0000_0000
}
