/** The argument validator of the command-line tool (src/bin/cli/cli.rs). */
module Cli {
  import opened Wrappers
  import opened Text

  const BoolMessage: string := "Must be 'true' or 'false'"

  /**
   * `is_bool_validator`: accepts the argument when, trimmed and lowercased, it
   * is "true" or "false"; otherwise fails with the one fixed message.
   */
  function IsBoolValidator(item: string): (r: Result<(), string>)
    ensures r.Success? <==> SpellsWord(item, "true") || SpellsWord(item, "false")
    ensures r.Failure? ==> r.error == BoolMessage
  {
    NormalizedIsWordIff(item, "true");
    NormalizedIsWordIff(item, "false");
    var normalized := ToLower(Trim(item));
    if normalized == "true" then Success(())
    else if normalized == "false" then Success(())
    else Failure(BoolMessage)
  }

  /**
   * Any spelling of "true" or "false", bare or padded with two spaces on each
   * side, is accepted: the inputs of `test_is_bool_validator`.
   */
  lemma ValidatorAcceptsSpelled(w: string)
    requires EqualsIgnoringCase(w, "true") || EqualsIgnoringCase(w, "false")
    ensures IsBoolValidator(w).Success? && IsBoolValidator("  " + w + "  ").Success?
  {
    if EqualsIgnoringCase(w, "true") {
      PaddedSpells(w, "true");
    } else {
      PaddedSpells(w, "false");
    }
  }

  /** The rejecting cases of `test_is_bool_validator_errors`. */
  lemma ValidatorRejectsTestInputs()
    ensures IsBoolValidator("") == Failure(BoolMessage)
    ensures IsBoolValidator("not a bool") == Failure(BoolMessage)
  {
    TrimOfUnpadded("not a bool");
  }

  /** Normalising the argument first does not change the verdict. */
  lemma ValidatorIgnoresNormalization(item: string)
    ensures IsBoolValidator(ToLower(Trim(item))) == IsBoolValidator(item)
  {
    NormalizeIdempotent(item);
  }
}
