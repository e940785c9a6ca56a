/**
 Vocabulary shared by every module: optional values, the errors the ledgers raise, and the
 two textual grammars that every identifier in the system has to satisfy.
 */
module Foundation {

  datatype Option<+T> = None | Some(value: T)

  /** One constructor per exception class that the modelled code raises. */
  datatype Error =
    | ValueError
    | InvalidTransition
    | ReconciliationBlocked
    | IntegrityConflict
    | LookupFailure
    | AdmissionDenied
    | CursorInvalid

  datatype Result<+T> = Ok(value: T) | Err(error: Error)

  /** A call is one atomic step: the state it leaves behind and what it answers, which may be an error. */
  datatype Outcome<+S, +T> = Outcome(state: S, answer: Result<T>)

  predicate LowerLetter(c: char) { 'a' <= c <= 'z' }

  predicate UpperLetter(c: char) { 'A' <= c <= 'Z' }

  predicate Digit(c: char) { '0' <= c <= '9' }

  predicate AlphaNumeric(c: char) { LowerLetter(c) || UpperLetter(c) || Digit(c) }

  /** `[A-Za-z0-9][A-Za-z0-9._:@/-]{0,255}` */
  predicate ValidIdentifier(s: string) {
    && 1 <= |s| <= 256
    && AlphaNumeric(s[0])
    && forall i | 0 <= i < |s| :: AlphaNumeric(s[i]) || s[i] in "._:@/-"
  }

  predicate ValidOptionalIdentifier(s: Option<string>) {
    s.Some? ==> ValidIdentifier(s.value)
  }

  /** `[a-z][a-z0-9-]*(\.[a-z][a-z0-9-]*)+`: dotted, and a letter starts the name and follows every dot. */
  predicate ValidContractName(s: string) {
    && |s| > 0
    && LowerLetter(s[0])
    && '.' in s
    && forall i | 0 <= i < |s| ::
         && (LowerLetter(s[i]) || Digit(s[i]) || s[i] in "-.")
         && (s[i] == '.' ==> i + 1 < |s| && LowerLetter(s[i + 1]))
  }
}
