/** The instruction processor: dispatch on the decoded instruction, then the
    ordered account validation of `InitEscrow`. */
module Processor {
  import opened SolanaProgram
  import opened Error
  import opened State

  /** The decoded instruction (its decoder is not part of this model). */
  datatype EscrowInstruction = InitEscrow(amount: u64)

  /** The collaborators the processor calls but whose code is not part of
      this model. Every property below holds whatever they are. */
  datatype Runtime = Runtime(
    // spl_token::id()
    tokenProgramId: Pubkey,
    // EscrowInstruction::unpack
    unpackInstruction: seq<u8> -> Result<EscrowInstruction>,
    // Rent::from_account_info
    rentFromAccount: AccountInfo -> Result<Rent>,
    // Escrow::unpack_unchecked
    unpackEscrow: seq<u8> -> Result<Escrow>)

  // ---------------------------------------------------------------------
  // Reference definition: an ordered pipeline of checks, the first failing
  // one deciding the result.
  // ---------------------------------------------------------------------

  datatype Check = SignerCheck | ReceiverOwnerCheck | RentExemptCheck | NotInitializedCheck

  /** The verdict of one check. */
  datatype Verdict = Pass | Fail(error: ProgramError)

  /** The order in which `InitEscrow` validates its accounts. */
  const InitEscrowChecks: seq<Check> := [SignerCheck, ReceiverOwnerCheck, RentExemptCheck, NotInitializedCheck]

  /** How many accounts the iterator must have handed out before the check
      runs: the initializer; then the temp token and receiving accounts;
      then the escrow account and the rent sysvar. */
  function AccountsTaken(c: Check): nat {
    match c
    case SignerCheck => 1
    case ReceiverOwnerCheck => 3
    case RentExemptCheck => 5
    case NotInitializedCheck => 5
  }

  /** The error a check reports on accounts that are all present, if any.
      Accounts are positional: 0 initializer, 1 temp token account,
      2 account to receive tokens, 3 escrow account, 4 rent sysvar. */
  function CheckFailure(rt: Runtime, c: Check, accounts: seq<AccountInfo>): Verdict
    requires AccountsTaken(c) <= |accounts|
  {
    match c
    case SignerCheck =>
      if accounts[0].isSigner then Pass else Fail(ProgramError.MissingRequiredSignature)
    case ReceiverOwnerCheck =>
      if accounts[2].owner == rt.tokenProgramId then Pass else Fail(IncorrectProgramId)
    case RentExemptCheck =>
      (match rt.rentFromAccount(accounts[4])
       case Err(e) => Fail(e)
       case Ok(rent) =>
         if rent.isExempt(accounts[3].lamports, |accounts[3].data|) then Pass
         else Fail(ToProgramError(NotRentExempt)))
    case NotInitializedCheck =>
      match rt.unpackEscrow(accounts[3].data)
      case Err(e) => Fail(e)
      case Ok(escrow) => if escrow.isInitialized then Fail(AccountAlreadyInitialized) else Pass
  }

  /** A check reached with too few accounts fails with `NotEnoughAccountKeys`. */
  function StepFailure(rt: Runtime, c: Check, accounts: seq<AccountInfo>): Verdict {
    if |accounts| < AccountsTaken(c) then Fail(NotEnoughAccountKeys) else CheckFailure(rt, c, accounts)
  }

  function RunChecks(rt: Runtime, checks: seq<Check>, accounts: seq<AccountInfo>): ProgramResult
    decreases |checks|
  {
    if checks == [] then Ok(())
    else match StepFailure(rt, checks[0], accounts)
      case Fail(e) => Err(e)
      case Pass => RunChecks(rt, checks[1..], accounts)
  }

  /** What `process_init_escrow` returns. The amount and the program id are
      accepted but play no part, since the record is never written. */
  function InitEscrowOutcome(rt: Runtime, accounts: seq<AccountInfo>, amount: u64, programId: Pubkey): ProgramResult {
    RunChecks(rt, InitEscrowChecks, accounts)
  }

  // ---------------------------------------------------------------------
  // The processor itself.
  // ---------------------------------------------------------------------

  /** `Processor::process`: decode, propagating the decoder's error as is,
      then dispatch on the instruction. */
  function Process(rt: Runtime, programId: Pubkey, accounts: seq<AccountInfo>, instructionData: seq<u8>): (r: ProgramResult)
    ensures rt.unpackInstruction(instructionData).Err? ==> r == Err(rt.unpackInstruction(instructionData).error)
    ensures rt.unpackInstruction(instructionData).Ok? ==>
      r == InitEscrowOutcome(rt, accounts, rt.unpackInstruction(instructionData).value.amount, programId)
  {
    var instruction :- rt.unpackInstruction(instructionData);
    match instruction
    case InitEscrow(amount) => InitEscrowOutcome(rt, accounts, amount, programId)
  }

  /** `next_account_info`: the account under the cursor, advancing it, or
      `NotEnoughAccountKeys` once the list is exhausted. */
  method NextAccountInfo(accounts: seq<AccountInfo>, cursor: nat) returns (r: Result<AccountInfo>, next: nat)
    ensures cursor < |accounts| ==> r == Ok(accounts[cursor]) && next == cursor + 1
    ensures |accounts| <= cursor ==> r == Err(NotEnoughAccountKeys) && next == cursor
  {
    if cursor < |accounts| {
      r, next := Ok(accounts[cursor]), cursor + 1;
    } else {
      r, next := Err(NotEnoughAccountKeys), cursor;
    }
  }

  /** `Processor::process_init_escrow`: takes accounts one at a time from the
      front of the list and returns at the first failed check. */
  method ProcessInitEscrow(rt: Runtime, accounts: seq<AccountInfo>, amount: u64, programId: Pubkey)
    returns (r: ProgramResult)
    ensures r == InitEscrowOutcome(rt, accounts, amount, programId)
  {
    var cursor: nat := 0;
    var initializer: AccountInfo;
    initializer, cursor :- NextAccountInfo(accounts, cursor);
    if !initializer.isSigner {
      return Err(ProgramError.MissingRequiredSignature);
    }

    // The temp token account is taken but not examined.
    var tempTokenAccount: AccountInfo;
    tempTokenAccount, cursor :- NextAccountInfo(accounts, cursor);

    var accountToReceiveToken: AccountInfo;
    accountToReceiveToken, cursor :- NextAccountInfo(accounts, cursor);
    if accountToReceiveToken.owner != rt.tokenProgramId {
      return Err(IncorrectProgramId);
    }

    var escrowAccount: AccountInfo;
    escrowAccount, cursor :- NextAccountInfo(accounts, cursor);

    var rentAccount: AccountInfo;
    rentAccount, cursor :- NextAccountInfo(accounts, cursor);
    var rent :- rt.rentFromAccount(rentAccount);
    if !rent.isExempt(escrowAccount.lamports, |escrowAccount.data|) {
      return Err(ToProgramError(NotRentExempt));
    }

    var escrowInfo :- rt.unpackEscrow(escrowAccount.data);
    // `is_initialized()` reads the record's flag.
    if escrowInfo.isInitialized {
      return Err(AccountAlreadyInitialized);
    }

    return Ok(());
  }
}
