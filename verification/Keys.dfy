// Keys, as terms: a derived key is what it was derived from, so equal keys mean equal inputs.
module Keys {
  import opened Bytes

  /** The sixteen raw rows that hold one token. */
  type Token = seq<bv24>

  /** The key that authenticates a device's state log. */
  datatype Key = JournalKey(token: Token, slot: nat, device: nat)

  /** The device's contribution to a vault envelope. */
  datatype Binding = BindingOf(token: Token, slot: nat, volume: seq<byte>)
}
