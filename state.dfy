/** The escrow state record. */
module State {
  import opened SolanaProgram

  /** The record kept in the escrow account; the field widths are those of
      the types (`Pubkey` is 32 bytes, `expected_amount` is a `u64`). */
  datatype Escrow = Escrow(
    isInitialized: bool,
    initializerPubkey: Pubkey,
    tempTokenAccountPubkey: Pubkey,
    initializerAccountToReceiveTokenPubkey: Pubkey,
    expectedAmount: u64)
}
