// The record that the flash log persists and the vault interprets.
module DeviceState {
  import opened Bytes
  import opened Envelope
  import opened Keys
  import opened Limits
  import opened Policy

  const TOKEN_SLOTS: nat := 228

  datatype Status = EmptyVault | Active | Locked | DestroyPending | Destroyed

  /** A hash is the header it was computed from. */
  datatype Hash = ZeroHash | HashOf(header: Header)

  /** The device identifier is an opaque value. */
  datatype State = State(
    status: Status, sequence: uint64, device: nat, volume: seq<byte>, generation: uint64,
    headerHash: Hash, attempts: uint32, pending: bool, tokenSlot: uint32, policy: AuthPolicy)

  const NO_VOLUME: seq<byte> := Zeros(16)

  predicate Encodable(s: State, device: nat) {
    && s.sequence != 0
    && s.device == device
    && s.tokenSlot < TOKEN_SLOTS
    && (if s.status == EmptyVault then
          s.generation == 0 && s.attempts == 0 && !s.pending && s.volume == NO_VOLUME && s.headerHash == ZeroHash
        else
          s.generation != 0 && s.attempts <= s.policy.maxAttempts && (s.pending ==> s.attempts != 0)
          && s.volume != NO_VOLUME && s.headerHash != ZeroHash)
    && PolicyValid(s.policy)
  }
}
