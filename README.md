# Solana escrow: the InitEscrow validation pipeline

This project models the processor of a two-party token escrow program on Solana, together with its error taxonomy and its escrow record. The processor decodes an instruction. For `InitEscrow { amount }`, it walks the ordered account list with an iterator and runs four checks in a fixed order:

1. the initializer signed;
2. the account that is to receive tokens is owned by the SPL token program;
3. the escrow account is rent-exempt;
4. the escrow record is not already initialized.

It returns the error of the first check that fails, or `Ok(())`.

Files and modules:

- `solana_program.dfy`, module `SolanaProgram`: the runtime library's types as the program sees them. These are the fixed-width integers `u8`, `u32` and `u64`, the 32-byte `Pubkey`, `ProgramError`, `Result`/`ProgramResult`, `AccountInfo` and `Rent`. An account is a plain value: key, signer flag, lamports, data bytes and owner.
- `error.dfy`, module `Error`: `EscrowError` and its conversion to `ProgramError::Custom(n)` by declaration order.
- `state.dfy`, module `State`: the `Escrow` record with its five fields.
- `processor.dfy`, module `Processor`:
  - `Process` is the dispatcher, a pure function.
  - `ProcessInitEscrow` is an imperative method. It takes accounts one at a time through `NextAccountInfo` and a cursor, and `:-` stands for Rust's `?`.
  - `InitEscrowOutcome` is the reference definition the method is proved equal to. It is an ordered list of checks, interpreted by `RunChecks`, in which the first failing check decides the result.
- `processor_properties.dfy`, module `ProcessorProperties`: the properties of that pipeline. These cover which error wins, where a shortage of accounts shows, which accounts and record fields are consulted, and dispatch.

Collaborators whose code is not part of this model are fields of a `Runtime` value:

- `spl_token::id()`;
- `EscrowInstruction::unpack`;
- `Rent::from_account_info`;
- `Escrow::unpack_unchecked`.

Every lemma quantifies over all of them, so every property holds whatever those collaborators do.

The escrow's intended flow goes further than the code. The checks are meant to be followed by writing the initialized record into the escrow account, so that a repeated `InitEscrow` on the same account fails as a re-initialization. The model follows the code:

- The code stops at `Ok(())` (`processor.rs:73`) and writes nothing. So no account is ever modified, and the `amount` and `program_id` arguments have no effect (`AmountAndProgramIdIgnored`).
- Because nothing is written, repeating a successful `InitEscrow` on the same accounts succeeds again instead of failing.
- The ownership and re-initialization failures use the runtime's built-in `IncorrectProgramId` and `AccountAlreadyInitialized`, not codes of the program's own. The signature failure is the built-in `ProgramError::MissingRequiredSignature`, not the program's own `Custom(1)`. The only custom code the processor produces itself is `NotRentExempt`'s `Custom(2)` (`OnlyNotRentExemptIsCustom`).

The source does not compile as written. The model follows its evident intent:

- `pub struct processor;` (`processor.rs:16`) does not match `impl Processor` (`processor.rs:18`).
- `Escrow` is never imported into `processor.rs`.
- `next_account_info` and `ProgramError` are imported twice (`processor.rs:3-7`).
- `initializer.is_signer()` (`processor.rs:41`) calls `is_signer` as a method, but it is a field of `AccountInfo`. The model reads the field (`initializer.isSigner`).
- `processor.rs` calls `Escrow::unpack_unchecked` and `is_initialized()`, but `state.rs` defines no `Pack` or `IsInitialized` impl for `Escrow`. The model reads `is_initialized()` as the record's `is_initialized` field.

## Model

| member | source | states |
|---|---|---|
| `Error.Discriminant` | solana-escrow/programs/solana-escrow/src/error.rs:9-16 | `e as u32` is the position of `e` in the enum's declaration order, so it is below 3 |
| `Error.ToProgramError` | solana-escrow/programs/solana-escrow/src/error.rs:22-26 | the conversion is total, always yields `Custom`, with a code below 3 that names the kind at that declaration position |
| `Error.CustomCodes` | solana-escrow/programs/solana-escrow/src/error.rs:9-26 | `InvalidInstruction` maps to `Custom(0)`, `MissingRequiredSignature` to `Custom(1)`, `NotRentExempt` to `Custom(2)` |
| `Error.ToProgramErrorInjective` | solana-escrow/programs/solana-escrow/src/error.rs:9-26 | two kinds get the same code if and only if they are the same kind |
| `Error.NeverBuiltIn` | solana-escrow/programs/solana-escrow/src/error.rs:22-26 | a converted error differs from every built-in (non-`Custom`) `ProgramError`, in particular from the runtime's `MissingRequiredSignature` |
| `Processor.Process` | solana-escrow/programs/solana-escrow/src/processor/processor.rs:22-32 | a failing instruction decode is returned unchanged; a decoded `InitEscrow { amount }` gives the validation of the same accounts with that amount and program id |
| `Processor.NextAccountInfo` | solana-escrow/programs/solana-escrow/src/processor/processor.rs:38-39 | gives the account under the cursor and advances the cursor; once the list is exhausted gives `NotEnoughAccountKeys` and leaves the cursor where it is |
| `Processor.ProcessInitEscrow` | solana-escrow/programs/solana-escrow/src/processor/processor.rs:37-74 | the step-by-step validation returns exactly the verdict of the reference pipeline: first failing check of signer, owner, rent, initialized |
| `ProcessorProperties.FirstFailureDecides` | solana-escrow/programs/solana-escrow/src/processor/processor.rs:37-74 | a check pipeline fails with `e` if and only if some check fails with `e` and every earlier check passes |
| `ProcessorProperties.SucceedsIffAllPass` | solana-escrow/programs/solana-escrow/src/processor/processor.rs:37-74 | a check pipeline succeeds if and only if every check passes |
| `ProcessorProperties.CheckSeesOnlyTakenAccounts` | solana-escrow/programs/solana-escrow/src/processor/processor.rs:38-68 | a check's verdict depends only on the accounts the iterator has handed out before it |
| `ProcessorProperties.MoreAccountsChangeNothing` | solana-escrow/programs/solana-escrow/src/processor/processor.rs:38-61 | a pipeline verdict other than `NotEnoughAccountKeys` is unchanged by appending accounts |
| `ProcessorProperties.LaterAccountsUnseen` | solana-escrow/programs/solana-escrow/src/processor/processor.rs:38-61 | accounts past the last one any check takes do not affect the verdict |
| `ProcessorProperties.NoAccounts` | solana-escrow/programs/solana-escrow/src/processor/processor.rs:38-39 | an empty account list yields `NotEnoughAccountKeys` |
| `ProcessorProperties.MissingSignatureWins` | solana-escrow/programs/solana-escrow/src/processor/processor.rs:39-43 | an unsigned initializer yields the built-in `MissingRequiredSignature`, even with fewer than five accounts |
| `ProcessorProperties.IncorrectOwnerWins` | solana-escrow/programs/solana-escrow/src/processor/processor.rs:46-55 | a signed initializer with a receiving account not owned by the token program yields `IncorrectProgramId`, whatever the rent and the record |
| `ProcessorProperties.RentSysvarErrorPropagates` | solana-escrow/programs/solana-escrow/src/processor/processor.rs:57-61 | past the signer and owner checks, a failure to read the rent sysvar is returned unchanged |
| `ProcessorProperties.NotRentExemptWins` | solana-escrow/programs/solana-escrow/src/processor/processor.rs:57-65 | past the signer and owner checks, an escrow account that is not rent-exempt for its lamports and data length yields `Custom(2)`, whatever its record |
| `ProcessorProperties.RecordDecodeErrorPropagates` | solana-escrow/programs/solana-escrow/src/processor/processor.rs:67-68 | past the first three checks, a failure to decode the record is returned unchanged |
| `ProcessorProperties.AlreadyInitializedWins` | solana-escrow/programs/solana-escrow/src/processor/processor.rs:68-71 | past the first three checks, a record whose flag is set yields `AccountAlreadyInitialized` |
| `ProcessorProperties.InitEscrowSucceedsIff` | solana-escrow/programs/solana-escrow/src/processor/processor.rs:37-74 | `InitEscrow` returns `Ok(())` if and only if there are five accounts, the initializer signed, the receiver is token-owned, the sysvar reads, the account is exempt, the record decodes, and it is not initialized |
| `ProcessorProperties.ShortAccountList` | solana-escrow/programs/solana-escrow/src/processor/processor.rs:38-57 | with fewer than five accounts the result is the signer error, the owner error or `NotEnoughAccountKeys`, by how far the iterator gets, and no decoder is consulted |
| `ProcessorProperties.ShortageOnlyWhereListRunsOut` | solana-escrow/programs/solana-escrow/src/processor/processor.rs:38-61 | a result other than `NotEnoughAccountKeys` stays the same when more accounts are supplied |
| `ProcessorProperties.ExtraAccountsIgnored` | solana-escrow/programs/solana-escrow/src/processor/processor.rs:57-61 | only the first five accounts are ever looked at |
| `ProcessorProperties.AppendingToFiveAccounts` | solana-escrow/programs/solana-escrow/src/processor/processor.rs:38-61 | with at least five accounts, appending more never changes the result, whatever the decoders report |
| `ProcessorProperties.TempTokenAccountUnchecked` | solana-escrow/programs/solana-escrow/src/processor/processor.rs:45-46 | any account in second position gives the same result: the temp token account is taken but never checked |
| `ProcessorProperties.OnlyInitializedFlagConsulted` | solana-escrow/programs/solana-escrow/src/processor/processor.rs:68-71 | replacing the decoded record by any record with the same `is_initialized` gives the same result |
| `ProcessorProperties.AmountAndProgramIdIgnored` | solana-escrow/programs/solana-escrow/src/processor/processor.rs:22-74 | `process` on two instructions that both decode to `InitEscrow`, with any amounts and any program ids, gives the same result on the same accounts, since the record is never written |
| `ProcessorProperties.OnlyNotRentExemptIsCustom` | solana-escrow/programs/solana-escrow/src/processor/processor.rs:57-68 | a `Custom(n)` result is `NotRentExempt`'s code or the error of one of the two decoders |
| `ProcessorProperties.DecodeErrorPropagates` | solana-escrow/programs/solana-escrow/src/processor/processor.rs:22-24 | a failing instruction decode is returned exactly, and the result is the same for any account list |
| `ProcessorProperties.DispatchesInitEscrow` | solana-escrow/programs/solana-escrow/src/processor/processor.rs:26-30 | `InitEscrow { amount }` runs the account validation on the same accounts, amount and program id |

## Left out

- `EscrowInstruction::unpack`: `instruction.rs` is not part of this model. The decoder is the `unpackInstruction` field of `Runtime`, and `Process` propagates its error unchanged.
- `Rent::from_account_info` and `Rent::is_exempt` are runtime library code, and the threshold uses floating point. Decoding the sysvar is `rentFromAccount`, which may fail. A `Rent` is represented by its exemption predicate on `(lamports, data_len)`.
- `Escrow::unpack_unchecked`: `state.rs` defines no `Pack` impl for `Escrow`. The byte layout, the packed length, strict unpacking and packing are not modelled. Decoding is the `unpackEscrow` field of `Runtime`, which may fail with any error.
- `try_borrow_data` is not modelled. That includes its `AccountBorrowFailed` failure, because within one call nothing else holds a borrow of the escrow data. The `RefCell` sharing of account data is not modelled either.
- `spl_token::id()` is the fixed key `tokenProgramId` of `Runtime`.
- `msg!` logging is a side channel and is left out.
- No account is modified. Accounts are immutable values and no result carries an account, so this holds by construction rather than being stated as a postcondition. Writability, `executable` and `rent_epoch` are not part of `AccountInfo` here.
- `ProgramError` lists only the built-in variants relevant to this program, not the runtime's full set.
- Not present in the code, so not modelled: writing the initialized record, transferring the temp token account to a program-derived address, and the Exchange and Cancel instructions.
- The entry point, transactional rollback by the runtime, and the runtime's enforcement of account writability are runtime behaviour.
