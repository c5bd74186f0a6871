/**
 * The stand-alone `create-flag` program (src/bin/create-flag.rs): its value
 * parser and its argument check. `exit(1)` becomes a failure result that
 * carries the printed message and the exit status.
 */
module CreateFlag {
  import opened Wrappers
  import opened Text
  import opened Ints
  import CliMain

  /** What the program prints before `exit(status)`. */
  datatype Exit = Exit(message: string, status: int)

  /** The flag `main` goes on to insert. */
  datatype NewFlag = NewFlag(name: string, value: i32)

  const ValueMessage: string := "Value much be 'true' or 'false'"

  const Help: string :=
    "\nCommand to create a new flag\n\nUSAGE:\n    create-flag <name> <value>\n\n"
    + "name     Name of the flag\nvalue    Value of the flag (true or false)\n\n"
    + "Try:\n\ncargo run --bin create-flag name value\n\n"

  /**
   * `valuate_value`: lowercases, then trims; "true" gives 1, "false" gives 0,
   * anything else prints a message and exits with status 1. It accepts the
   * same strings, with the same values, as the command-line tool's converter,
   * which trims before lowercasing.
   */
  function ValuateValue(arg: string): (r: Result<i32, Exit>)
    ensures r.Success? ==> r.value == 0 || r.value == 1
    ensures r.Failure? ==> r.error == Exit(ValueMessage, 1)
    ensures r.Success? <==> CliMain.ConvertStringToSqliteBool(arg).Some?
    ensures r.Success? ==> CliMain.ConvertStringToSqliteBool(arg) == Some(r.value)
  {
    LowerTrimCommute(arg);
    var normalized := Trim(ToLower(arg));
    if normalized == "true" then Success(1)
    else if normalized == "false" then Success(0)
    else Failure(Exit(ValueMessage, 1))
  }

  /** "true" in any case, padded with whitespace, yields 1. */
  lemma ValuateTrue(arg: string)
    ensures ValuateValue(arg) == Success(1) <==> SpellsWord(arg, "true")
  {
  }

  /** "false" in any case, padded with whitespace, yields 0. */
  lemma ValuateFalse(arg: string)
    ensures ValuateValue(arg) == Success(0) <==> SpellsWord(arg, "false")
  {
  }

  /** Every other string takes the exit path. */
  lemma ValuateOther(arg: string)
    ensures ValuateValue(arg).Failure? <==> !SpellsWord(arg, "true") && !SpellsWord(arg, "false")
  {
  }

  /** `Vec::remove(i)`: the element at `i` and the vector without it. */
  function Remove(s: seq<string>, i: nat): (r: (string, seq<string>))
    requires i < |s|
    ensures r.0 == s[i] && |r.1| == |s| - 1
    ensures r.1[..i] == s[..i] && r.1[i..] == s[i + 1..]
  {
    (s[i], s[..i] + s[i + 1..])
  }

  /**
   * The argument handling of `main`: exactly two arguments must follow the
   * program name, else the help text is printed and the program exits with 1;
   * the name is removed first, then the value.
   */
  function ParseArgs(args: seq<string>): (r: Result<NewFlag, Exit>)
    ensures |args| != 3 ==> r == Failure(Exit(Help, 1))
    ensures r.Success? <==> |args| == 3 && ValuateValue(args[2]).Success?
    ensures r.Success? ==> r.value == NewFlag(args[1], ValuateValue(args[2]).value)
    ensures |args| == 3 && r.Failure? ==> r.error == Exit(ValueMessage, 1)
  {
    if |args| != 3 then Failure(Exit(Help, 1))
    else
      var (name, rest) := Remove(args, 1);
      var (arg, _) := Remove(rest, 1);
      match ValuateValue(arg)
      case Success(value) => Success(NewFlag(name, value))
      case Failure(e) => Failure(e)
  }
}
