/** The boolean converter of the command-line tool (src/bin/cli/main.rs). */
module CliMain {
  import opened Wrappers
  import opened Text
  import opened Ints
  import Cli

  /**
   * `convert_string_to_sqlite_bool`: "true" in any case, padded with
   * whitespace, becomes the stored integer 1, "false" becomes 0, and every
   * other string becomes `None`.
   */
  function ConvertStringToSqliteBool(value: string): (r: Option<i32>)
    ensures r == None || r == Some(0) || r == Some(1)
    ensures r == Some(1) <==> SpellsWord(value, "true")
    ensures r == Some(0) <==> SpellsWord(value, "false")
    ensures r == None <==> !SpellsWord(value, "true") && !SpellsWord(value, "false")
  {
    NormalizedIsWordIff(value, "true");
    NormalizedIsWordIff(value, "false");
    var normalized := ToLower(Trim(value));
    if normalized == "true" then Some(1)
    else if normalized == "false" then Some(0)
    else None
  }

  /**
   * Any spelling of "true" or "false", bare or padded with two spaces on each
   * side, converts to its value: the accepting cases of
   * `test_convert_string_to_sqlite_bool`.
   */
  lemma ConvertSpelled(w: string)
    ensures EqualsIgnoringCase(w, "true") ==>
      ConvertStringToSqliteBool(w) == Some(1) && ConvertStringToSqliteBool("  " + w + "  ") == Some(1)
    ensures EqualsIgnoringCase(w, "false") ==>
      ConvertStringToSqliteBool(w) == Some(0) && ConvertStringToSqliteBool("  " + w + "  ") == Some(0)
  {
    if EqualsIgnoringCase(w, "true") {
      PaddedSpells(w, "true");
    }
    if EqualsIgnoringCase(w, "false") {
      PaddedSpells(w, "false");
    }
  }

  /** The rejected case of `test_convert_string_to_sqlite_bool`. */
  lemma ConvertOtherTestCase()
    ensures ConvertStringToSqliteBool("something else") == None
  {
    TrimOfUnpadded("something else");
  }

  /** Converting the trimmed, lowercased string gives the same result. */
  lemma ConvertIgnoresNormalization(value: string)
    ensures ConvertStringToSqliteBool(ToLower(Trim(value))) == ConvertStringToSqliteBool(value)
  {
    NormalizeIdempotent(value);
  }

  /**
   * The validator accepts exactly the strings the converter maps to a value,
   * so the `unwrap` after a validated `create` or `update` argument cannot fail.
   */
  lemma {:induction false} ValidatorAgreesWithConverter(value: string)
    ensures Cli.IsBoolValidator(value).Success? <==> ConvertStringToSqliteBool(value).Some?
  {
  }

  /** A value the validator let through always converts. */
  lemma ValidatedArgumentConverts(value: string)
    requires Cli.IsBoolValidator(value).Success?
    ensures ConvertStringToSqliteBool(value).Some?
  {
  }
}
