/** The parts of the Solana runtime library that the escrow program uses:
    fixed-width integers, public keys, the generic program error channel,
    account handles and the rent sysvar. They are foreign to the program and
    are modelled only as far as the program observes them. */
module SolanaProgram {

  newtype u8 = x: int | 0 <= x < 0x100
  newtype u32 = x: int | 0 <= x < 0x1_0000_0000
  newtype u64 = x: int | 0 <= x < 0x1_0000_0000_0000_0000

  /** A `Pubkey` is a fixed 32-byte key. */
  type Pubkey = k: seq<u8> | |k| == 32 witness seq(32, i => 0)

  /** The built-in error set of the runtime (the variants the program can
      meet), plus the `Custom` channel that programs use for their own codes. */
  datatype ProgramError =
    | Custom(code: u32)
    | InvalidArgument
    | InvalidInstructionData
    | InvalidAccountData
    | AccountDataTooSmall
    | InsufficientFunds
    | IncorrectProgramId
    | MissingRequiredSignature
    | AccountAlreadyInitialized
    | UninitializedAccount
    | NotEnoughAccountKeys
    | AccountBorrowFailed

  /** `Result<T, ProgramError>`; failure-compatible, so `:-` plays the part of `?`. */
  datatype Result<+T> = Ok(value: T) | Err(error: ProgramError)
  {
    predicate IsFailure() { Err? }

    function PropagateFailure<U>(): Result<U>
      requires Err?
    {
      Err(error)
    }

    function Extract(): T
      requires Ok?
    {
      value
    }
  }

  /** `ProgramResult`: success carries nothing. */
  type ProgramResult = Result<()>

  /** What the program sees of an account: its key, whether it signed the
      transaction, its balance, its data buffer and its owning program. */
  datatype AccountInfo = AccountInfo(
    key: Pubkey,
    isSigner: bool,
    lamports: u64,
    data: seq<u8>,
    owner: Pubkey)

  /** The rent parameters, seen only through `is_exempt(lamports, data_len)`;
      the threshold arithmetic itself belongs to the runtime library. */
  datatype Rent = Rent(isExempt: (u64, nat) -> bool)
}
