/** The program's own error kinds and their translation into the runtime's
    generic error channel. */
module Error {
  import opened SolanaProgram

  datatype EscrowError = InvalidInstruction | MissingRequiredSignature | NotRentExempt

  /** The variants in the order the enum declares them; `e as u32` is the
      position of `e` in this list. */
  const DeclarationOrder: seq<EscrowError> := [InvalidInstruction, EscrowError.MissingRequiredSignature, NotRentExempt]

  /** `e as u32`: the implicit discriminant of a field-less enum. */
  function Discriminant(e: EscrowError): (n: u32)
    ensures n as int < |DeclarationOrder| && DeclarationOrder[n] == e
  {
    match e
    case InvalidInstruction => 0
    case MissingRequiredSignature => 1
    case NotRentExempt => 2
  }

  /** `impl From<EscrowError> for ProgramError`. */
  function ToProgramError(e: EscrowError): (p: ProgramError)
    ensures p.Custom? && p.code < 3
    ensures DeclarationOrder[p.code] == e
  {
    Custom(Discriminant(e))
  }

  /** Each kind keeps the code of its declaration position. */
  lemma CustomCodes()
    ensures ToProgramError(InvalidInstruction) == Custom(0)
    ensures ToProgramError(EscrowError.MissingRequiredSignature) == Custom(1)
    ensures ToProgramError(NotRentExempt) == Custom(2)
  {
  }

  /** Distinct kinds are never conflated on the wire. */
  lemma ToProgramErrorInjective(a: EscrowError, b: EscrowError)
    ensures ToProgramError(a) == ToProgramError(b) <==> a == b
  {
  }

  /** The conversion never yields a built-in error: in particular the
      program's own `MissingRequiredSignature` is not the runtime's. */
  lemma NeverBuiltIn(e: EscrowError, b: ProgramError)
    requires !b.Custom?
    ensures ToProgramError(e) != b
  {
  }
}
