/** What the processor promises: the checks short-circuit in their fixed
    order, a shortage of accounts shows only where the iterator runs out,
    and which error wins when several conditions fail. */
module ProcessorProperties {
  import opened SolanaProgram
  import opened Error
  import opened State
  import opened Processor

  // ---------------------------------------------------------------------
  // The pipeline in general.
  // ---------------------------------------------------------------------

  /** Every check before position `k` passes. */
  ghost predicate PassesBefore(rt: Runtime, checks: seq<Check>, accounts: seq<AccountInfo>, k: nat)
    requires k <= |checks|
  {
    forall j :: 0 <= j < k ==> StepFailure(rt, checks[j], accounts) == Pass
  }

  /** The pipeline fails with `e` exactly when some check fails with `e`
      and every check before it passes. */
  lemma {:induction false} FirstFailureDecides(rt: Runtime, checks: seq<Check>, accounts: seq<AccountInfo>, e: ProgramError)
    ensures RunChecks(rt, checks, accounts) == Err(e) <==>
      exists k :: 0 <= k < |checks| && StepFailure(rt, checks[k], accounts) == Fail(e) && PassesBefore(rt, checks, accounts, k)
    decreases |checks|
  {
    if checks != [] {
      var tail := checks[1..];
      match StepFailure(rt, checks[0], accounts)
      case Fail(e0) =>
        if e0 == e {
          assert StepFailure(rt, checks[0], accounts) == Fail(e) && PassesBefore(rt, checks, accounts, 0);
        } else {
          forall k | 0 <= k < |checks| && StepFailure(rt, checks[k], accounts) == Fail(e)
            ensures !PassesBefore(rt, checks, accounts, k)
          {
            assert k != 0;
            assert StepFailure(rt, checks[0], accounts) != Pass;
          }
        }
      case Pass =>
        FirstFailureDecides(rt, tail, accounts, e);
        if RunChecks(rt, checks, accounts) == Err(e) {
          var k' :| 0 <= k' < |tail| && StepFailure(rt, tail[k'], accounts) == Fail(e) && PassesBefore(rt, tail, accounts, k');
          assert StepFailure(rt, checks[k' + 1], accounts) == Fail(e);
          forall j | 0 <= j < k' + 1 ensures StepFailure(rt, checks[j], accounts) == Pass {
            if j > 0 { assert checks[j] == tail[j - 1]; }
          }
        } else {
          forall k | 0 <= k < |checks| && StepFailure(rt, checks[k], accounts) == Fail(e)
            ensures !PassesBefore(rt, checks, accounts, k)
          {
            assert k != 0;
            assert checks[k] == tail[k - 1];
            if PassesBefore(rt, checks, accounts, k) {
              forall j | 0 <= j < k - 1 ensures StepFailure(rt, tail[j], accounts) == Pass {
                assert tail[j] == checks[j + 1];
              }
              assert PassesBefore(rt, tail, accounts, k - 1);
            }
          }
        }
    }
  }

  /** The pipeline succeeds exactly when every check passes. */
  lemma {:induction false} SucceedsIffAllPass(rt: Runtime, checks: seq<Check>, accounts: seq<AccountInfo>)
    ensures RunChecks(rt, checks, accounts) == Ok(()) <==> PassesBefore(rt, checks, accounts, |checks|)
    decreases |checks|
  {
    if checks != [] {
      var tail := checks[1..];
      SucceedsIffAllPass(rt, tail, accounts);
      if StepFailure(rt, checks[0], accounts) == Pass {
        if PassesBefore(rt, tail, accounts, |tail|) {
          forall j | 0 <= j < |checks| ensures StepFailure(rt, checks[j], accounts) == Pass {
            if j > 0 { assert checks[j] == tail[j - 1]; }
          }
        }
        if PassesBefore(rt, checks, accounts, |checks|) {
          forall j | 0 <= j < |tail| ensures StepFailure(rt, tail[j], accounts) == Pass {
            assert tail[j] == checks[j + 1];
          }
        }
      } else {
        assert !PassesBefore(rt, checks, accounts, |checks|) by {
          assert StepFailure(rt, checks[0], accounts) != Pass;
        }
      }
    }
  }

  /** A check looks only at the accounts taken before it runs. */
  lemma CheckSeesOnlyTakenAccounts(rt: Runtime, c: Check, accounts: seq<AccountInfo>, others: seq<AccountInfo>)
    requires AccountsTaken(c) <= |accounts| && AccountsTaken(c) <= |others|
    requires accounts[..AccountsTaken(c)] == others[..AccountsTaken(c)]
    ensures CheckFailure(rt, c, accounts) == CheckFailure(rt, c, others)
  {
  }

  /** Once the pipeline has reached a verdict other than a shortage,
      supplying more accounts changes nothing. */
  lemma {:induction false} MoreAccountsChangeNothing(rt: Runtime, checks: seq<Check>, accounts: seq<AccountInfo>, more: seq<AccountInfo>)
    requires RunChecks(rt, checks, accounts) != Err(NotEnoughAccountKeys)
    ensures RunChecks(rt, checks, accounts + more) == RunChecks(rt, checks, accounts)
    decreases |checks|
  {
    if checks != [] {
      var c := checks[0];
      assert AccountsTaken(c) <= |accounts|;
      CheckSeesOnlyTakenAccounts(rt, c, accounts, accounts + more);
      assert StepFailure(rt, c, accounts + more) == StepFailure(rt, c, accounts);
      if StepFailure(rt, c, accounts) == Pass {
        MoreAccountsChangeNothing(rt, checks[1..], accounts, more);
      }
    }
  }

  /** Accounts past the last one any check takes are never looked at. */
  lemma {:induction false} LaterAccountsUnseen(rt: Runtime, checks: seq<Check>, accounts: seq<AccountInfo>, n: nat)
    requires n <= |accounts|
    requires forall j :: 0 <= j < |checks| ==> AccountsTaken(checks[j]) <= n
    ensures RunChecks(rt, checks, accounts) == RunChecks(rt, checks, accounts[..n])
    decreases |checks|
  {
    if checks != [] {
      var c := checks[0];
      assert AccountsTaken(c) <= n;
      assert accounts[..n][..AccountsTaken(c)] == accounts[..AccountsTaken(c)];
      CheckSeesOnlyTakenAccounts(rt, c, accounts, accounts[..n]);
      LaterAccountsUnseen(rt, checks[1..], accounts, n);
    }
  }

  // ---------------------------------------------------------------------
  // InitEscrow: which error wins.
  // ---------------------------------------------------------------------

  /** With no accounts at all the first `next_account_info` fails. */
  lemma NoAccounts(rt: Runtime, amount: u64, programId: Pubkey)
    ensures InitEscrowOutcome(rt, [], amount, programId) == Err(NotEnoughAccountKeys)
  {
  }

  /** An initializer that did not sign is rejected with the runtime's own
      `MissingRequiredSignature`, however few accounts follow it. */
  lemma MissingSignatureWins(rt: Runtime, accounts: seq<AccountInfo>, amount: u64, programId: Pubkey)
    requires 1 <= |accounts| && !accounts[0].isSigner
    ensures InitEscrowOutcome(rt, accounts, amount, programId) == Err(ProgramError.MissingRequiredSignature)
  {
  }

  /** A receiving account not owned by the token program is rejected with
      `IncorrectProgramId`, whatever the rent and the record. */
  lemma IncorrectOwnerWins(rt: Runtime, accounts: seq<AccountInfo>, amount: u64, programId: Pubkey)
    requires 3 <= |accounts| && accounts[0].isSigner && accounts[2].owner != rt.tokenProgramId
    ensures InitEscrowOutcome(rt, accounts, amount, programId) == Err(IncorrectProgramId)
  {
  }

  /** An error from reading the rent sysvar is returned unchanged. */
  lemma RentSysvarErrorPropagates(rt: Runtime, accounts: seq<AccountInfo>, amount: u64, programId: Pubkey)
    requires 5 <= |accounts| && accounts[0].isSigner && accounts[2].owner == rt.tokenProgramId
    requires rt.rentFromAccount(accounts[4]).Err?
    ensures InitEscrowOutcome(rt, accounts, amount, programId) == Err(rt.rentFromAccount(accounts[4]).error)
  {
  }

  /** Past the signer and owner checks, an escrow account below the rent
      exemption threshold yields the program's `NotRentExempt`, `Custom(2)`,
      whatever its record holds. */
  lemma NotRentExemptWins(rt: Runtime, accounts: seq<AccountInfo>, amount: u64, programId: Pubkey)
    requires 5 <= |accounts| && accounts[0].isSigner && accounts[2].owner == rt.tokenProgramId
    requires rt.rentFromAccount(accounts[4]).Ok?
    requires !rt.rentFromAccount(accounts[4]).value.isExempt(accounts[3].lamports, |accounts[3].data|)
    ensures InitEscrowOutcome(rt, accounts, amount, programId) == Err(Custom(2))
  {
  }

  /** An error from decoding the escrow record is returned unchanged. */
  lemma RecordDecodeErrorPropagates(rt: Runtime, accounts: seq<AccountInfo>, amount: u64, programId: Pubkey)
    requires 5 <= |accounts| && accounts[0].isSigner && accounts[2].owner == rt.tokenProgramId
    requires rt.rentFromAccount(accounts[4]).Ok?
    requires rt.rentFromAccount(accounts[4]).value.isExempt(accounts[3].lamports, |accounts[3].data|)
    requires rt.unpackEscrow(accounts[3].data).Err?
    ensures InitEscrowOutcome(rt, accounts, amount, programId) == Err(rt.unpackEscrow(accounts[3].data).error)
  {
  }

  /** Past the first three checks, a record already marked initialized is
      rejected with `AccountAlreadyInitialized`. */
  lemma AlreadyInitializedWins(rt: Runtime, accounts: seq<AccountInfo>, amount: u64, programId: Pubkey)
    requires 5 <= |accounts| && accounts[0].isSigner && accounts[2].owner == rt.tokenProgramId
    requires rt.rentFromAccount(accounts[4]).Ok?
    requires rt.rentFromAccount(accounts[4]).value.isExempt(accounts[3].lamports, |accounts[3].data|)
    requires rt.unpackEscrow(accounts[3].data).Ok? && rt.unpackEscrow(accounts[3].data).value.isInitialized
    ensures InitEscrowOutcome(rt, accounts, amount, programId) == Err(AccountAlreadyInitialized)
  {
  }

  /** The conditions under which `InitEscrow` succeeds, in both directions. */
  lemma InitEscrowSucceedsIff(rt: Runtime, accounts: seq<AccountInfo>, amount: u64, programId: Pubkey)
    ensures InitEscrowOutcome(rt, accounts, amount, programId) == Ok(()) <==>
      5 <= |accounts| && accounts[0].isSigner && accounts[2].owner == rt.tokenProgramId
      && rt.rentFromAccount(accounts[4]).Ok?
      && rt.rentFromAccount(accounts[4]).value.isExempt(accounts[3].lamports, |accounts[3].data|)
      && rt.unpackEscrow(accounts[3].data).Ok?
      && !rt.unpackEscrow(accounts[3].data).value.isInitialized
  {
  }

  /** With fewer than five accounts the result is the signer error, the
      owner error, or the shortage, by how far the iterator gets; neither
      foreign decoder is consulted. */
  lemma ShortAccountList(rt: Runtime, accounts: seq<AccountInfo>, amount: u64, programId: Pubkey)
    requires |accounts| < 5
    ensures InitEscrowOutcome(rt, accounts, amount, programId) ==
      if 1 <= |accounts| && !accounts[0].isSigner then Err(ProgramError.MissingRequiredSignature)
      else if 3 <= |accounts| && accounts[2].owner != rt.tokenProgramId then Err(IncorrectProgramId)
      else Err(NotEnoughAccountKeys)
  {
  }

  /** A shortage surfaces only where the iterator runs out: whatever result
      a list of accounts yields other than `NotEnoughAccountKeys` stays the
      same when more accounts are appended. */
  lemma ShortageOnlyWhereListRunsOut(rt: Runtime, accounts: seq<AccountInfo>, more: seq<AccountInfo>, amount: u64, programId: Pubkey)
    requires InitEscrowOutcome(rt, accounts, amount, programId) != Err(NotEnoughAccountKeys)
    ensures InitEscrowOutcome(rt, accounts + more, amount, programId) == InitEscrowOutcome(rt, accounts, amount, programId)
  {
    MoreAccountsChangeNothing(rt, InitEscrowChecks, accounts, more);
  }

  /** Accounts beyond the fifth are never looked at. */
  lemma ExtraAccountsIgnored(rt: Runtime, accounts: seq<AccountInfo>, amount: u64, programId: Pubkey)
    requires 5 <= |accounts|
    ensures InitEscrowOutcome(rt, accounts, amount, programId) == InitEscrowOutcome(rt, accounts[..5], amount, programId)
  {
    LaterAccountsUnseen(rt, InitEscrowChecks, accounts, 5);
  }

  /** Once all five accounts are present, appending more changes nothing,
      even when a decoder reports `NotEnoughAccountKeys` itself. */
  lemma AppendingToFiveAccounts(rt: Runtime, accounts: seq<AccountInfo>, more: seq<AccountInfo>, amount: u64, programId: Pubkey)
    requires 5 <= |accounts|
    ensures InitEscrowOutcome(rt, accounts + more, amount, programId) == InitEscrowOutcome(rt, accounts, amount, programId)
  {
    ExtraAccountsIgnored(rt, accounts, amount, programId);
    ExtraAccountsIgnored(rt, accounts + more, amount, programId);
    assert (accounts + more)[..5] == accounts[..5];
  }

  /** The temp token account is taken from the list but never examined:
      any account in its place gives the same result. */
  lemma TempTokenAccountUnchecked(rt: Runtime, accounts: seq<AccountInfo>, other: AccountInfo, amount: u64, programId: Pubkey)
    requires 2 <= |accounts|
    ensures InitEscrowOutcome(rt, accounts[1 := other], amount, programId) == InitEscrowOutcome(rt, accounts, amount, programId)
  {
  }

  /** Of the decoded record only `is_initialized` matters: replacing it by
      any record with the same flag gives the same result. */
  lemma OnlyInitializedFlagConsulted(rt: Runtime, accounts: seq<AccountInfo>, e: Escrow, amount: u64, programId: Pubkey)
    requires 5 <= |accounts|
    requires rt.unpackEscrow(accounts[3].data).Ok?
    requires e.isInitialized == rt.unpackEscrow(accounts[3].data).value.isInitialized
    ensures InitEscrowOutcome(rt.(unpackEscrow := _ => Ok(e)), accounts, amount, programId) ==
            InitEscrowOutcome(rt, accounts, amount, programId)
  {
  }

  /** Two `InitEscrow` instructions on the same accounts give the same
      result, whatever their amounts and the program id. */
  lemma AmountAndProgramIdIgnored(rt: Runtime, accounts: seq<AccountInfo>, d1: seq<u8>, d2: seq<u8>, a1: u64, a2: u64, p1: Pubkey, p2: Pubkey)
    requires rt.unpackInstruction(d1) == Ok(InitEscrow(a1))
    requires rt.unpackInstruction(d2) == Ok(InitEscrow(a2))
    ensures Process(rt, p1, accounts, d1) == Process(rt, p2, accounts, d2)
  {
  }

  /** The only custom code the processor emits of its own accord is
      `NotRentExempt`'s; any other `Custom` error comes from a decoder. */
  lemma OnlyNotRentExemptIsCustom(rt: Runtime, accounts: seq<AccountInfo>, amount: u64, programId: Pubkey, n: u32)
    requires InitEscrowOutcome(rt, accounts, amount, programId) == Err(Custom(n))
    ensures n == Discriminant(NotRentExempt)
      || (5 <= |accounts| && rt.rentFromAccount(accounts[4]).Err? && rt.rentFromAccount(accounts[4]).error == Custom(n))
      || (5 <= |accounts| && rt.unpackEscrow(accounts[3].data).Err? && rt.unpackEscrow(accounts[3].data).error == Custom(n))
  {
  }

  // ---------------------------------------------------------------------
  // Dispatch.
  // ---------------------------------------------------------------------

  /** A decoding error is returned exactly, whatever the accounts are. */
  lemma DecodeErrorPropagates(rt: Runtime, programId: Pubkey, accounts: seq<AccountInfo>, others: seq<AccountInfo>, data: seq<u8>)
    requires rt.unpackInstruction(data).Err?
    ensures Process(rt, programId, accounts, data) == Err(rt.unpackInstruction(data).error)
    ensures Process(rt, programId, accounts, data) == Process(rt, programId, others, data)
  {
  }

  /** `InitEscrow { amount }` runs the validation on the same accounts,
      amount and program id. */
  lemma DispatchesInitEscrow(rt: Runtime, programId: Pubkey, accounts: seq<AccountInfo>, data: seq<u8>, amount: u64)
    requires rt.unpackInstruction(data) == Ok(InitEscrow(amount))
    ensures Process(rt, programId, accounts, data) == InitEscrowOutcome(rt, accounts, amount, programId)
  {
  }
}
