# Feature flags: a Dafny model

This project models the parts of the feature-flag repository whose behaviour
can be stated without a database or an HTTP framework:

- the in-memory todo service of `src/main.rs`: a vector of todos edited in
  place by four request handlers (list, create, update, delete), each
  answering with a status code decided by the vector's contents;
- the boolean argument parsing of the command-line tool (`is_bool_validator`
  in `src/bin/cli/cli.rs`, `convert_string_to_sqlite_bool` in
  `src/bin/cli/main.rs`) and of the stand-alone `create-flag` program
  (`valuate_value` and the argument check of `main` in `src/bin/create-flag.rs`);
- the mapping of stored rows to `FlagWithID` records in `src/db.rs`, shared
  by `get_flag_by_name` and `get_all_flags`, with the rows a statement yields
  given as input.

Files and modules:

- `wrappers.dfy` (`Wrappers`): `Option` and `Result`.
- `ints.dfy` (`Ints`): `i32`, `u64`, `usize` as bounded newtypes.
- `text.dfy` (`Text`): Rust's `str::trim` and `str::to_lowercase`, and the
  predicate `SpellsWord(s, w)`: `s` is `w` in any letter case with only
  whitespace around it. Every parser is proved against `SpellsWord`, which is
  defined by a decomposition of the input and not by trimming.
- `cli.dfy` (`Cli`), `cli_main.dfy` (`CliMain`), `create_flag.dfy`
  (`CreateFlag`): the three parsers. `exit(1)` in `create-flag` becomes a
  `Failure(Exit(message, 1))` result.
- `flag_db.dfy` (`FlagDb`): rows, records, the decoding of the stored integer,
  both readers.
- `todo_server.dfy` (`TodoServer`): the `Todo` record, the class `Db` whose
  field `todos` is the vector, and one method per handler. Each method states
  the whole new vector in terms of the old one, so "nothing else changes" is
  part of every contract.

## Model

| member | source | states |
|---|---|---|
| `Text.ToLower` | src/bin/cli/cli.rs:4 | `to_lowercase` (also at src/bin/cli/main.rs:9 and src/bin/create-flag.rs:26): the result equals the input ignoring case, and every character of it is already lower case |
| `Text.Trim` | src/bin/cli/cli.rs:4 | `trim` (also at src/bin/cli/main.rs:9 and src/bin/create-flag.rs:26): the result is no longer than the input, and when non-empty it begins and ends with a non-whitespace character; `TrimBounds` and `TrimOfPadded` place it inside the input |
| `Text.SpellsWord` | src/bin/cli/cli.rs:4-6 | the inputs the parsers accept for a word, defined by a split into whitespace, the word in any case, and whitespace; such an input is never shorter than the word |
| `Text.LowerChar` | src/bin/cli/cli.rs:4 | lowercasing one character changes only A-Z, maps it to a-z, and keeps whitespace whitespace |
| `Text.SkipWhitespace` | src/bin/cli/cli.rs:4 | the forward scan of `trim` stops at the first position that is not whitespace, or at the end |
| `Text.SkipWhitespaceBack` | src/bin/cli/cli.rs:4 | the backward scan of `trim` stops just after the last non-whitespace character, never before the start of the content |
| `Text.SkipWhitespaceStops` | src/bin/cli/cli.rs:4 | the forward scan returns exactly the position of the first non-whitespace character |
| `Text.SkipWhitespaceBackStops` | src/bin/cli/cli.rs:4 | the backward scan returns exactly the end of the last non-whitespace character |
| `Text.TrimOfPadded` | src/bin/cli/cli.rs:4 | trimming a word that has only whitespace around it returns that word |
| `Text.TrimBounds` | src/bin/cli/cli.rs:4 | the trimmed string is a contiguous part of the input with only whitespace before and after it |
| `Text.NormalizedIsWordIff` | src/bin/cli/main.rs:9 | trimming then lowercasing yields "true" (or "false") exactly when the input spells that word |
| `Text.LowerFirstIsWordIff` | src/bin/create-flag.rs:26 | lowercasing then trimming yields the word exactly when the input spells it |
| `Text.EqualsIgnoringCaseIff` | src/bin/cli/cli.rs:4-6 | a string equals a lower-case word ignoring case exactly when it lowercases to that word |
| `Text.NormalizedSpells` | src/bin/cli/main.rs:9-11 | when trimming then lowercasing gives the word, the input spells it |
| `Text.SpelledNormalizes` | src/bin/cli/main.rs:9-11 | when the input spells the word, trimming then lowercasing gives it |
| `Text.LowerSkipWhitespace` | src/bin/create-flag.rs:26 | lowercasing does not move where the forward whitespace scan stops |
| `Text.LowerSkipWhitespaceBack` | src/bin/create-flag.rs:26 | lowercasing does not move where the backward whitespace scan stops |
| `Text.LowerSlice` | src/bin/create-flag.rs:26 | lowercasing a slice gives the same slice of the lowercased string |
| `Text.LowerTrimCommute` | src/bin/create-flag.rs:26 | `to_lowercase().trim()` equals `trim().to_lowercase()` on every string |
| `Text.TrimIdempotent` | src/bin/cli/main.rs:9 | trimming twice equals trimming once |
| `Text.NormalizeIdempotent` | src/bin/cli/main.rs:9 | normalising an already normalised string changes nothing |
| `Text.PaddedSpells` | src/bin/cli/cli.rs:65-73 | a case variant of a word, bare or with two spaces on each side, spells the word |
| `Text.TrimOfUnpadded` | src/bin/cli/cli.rs:83 | a string with no whitespace at its ends is its own trim, and its normalised form has its length |
| `Cli.IsBoolValidator` | src/bin/cli/cli.rs:3-9 | `Ok` exactly when the input spells "true" or "false"; every rejection carries the message "Must be 'true' or 'false'" |
| `Cli.ValidatorAcceptsSpelled` | src/bin/cli/cli.rs:63-79 | "True", "true", "False", "false", bare or padded with spaces, are accepted |
| `Cli.ValidatorRejectsTestInputs` | src/bin/cli/cli.rs:81-91 | the empty string and "not a bool" are rejected with the fixed message |
| `Cli.ValidatorIgnoresNormalization` | src/bin/cli/cli.rs:4 | validating the trimmed, lowercased input gives the same verdict as validating the input |
| `CliMain.ConvertStringToSqliteBool` | src/bin/cli/main.rs:8-14 | the result is one of None, Some(0), Some(1); Some(1) exactly for spellings of "true", Some(0) exactly for spellings of "false", None for every other string |
| `CliMain.ConvertSpelled` | src/bin/cli/main.rs:83-97 | every case spelling of "true" (such as "True"), bare or padded with two spaces, converts to Some(1), and of "false" to Some(0) |
| `CliMain.ConvertOtherTestCase` | src/bin/cli/main.rs:91 | "something else" converts to None |
| `CliMain.ConvertIgnoresNormalization` | src/bin/cli/main.rs:9 | converting the trimmed, lowercased input gives the same result as converting the input |
| `CliMain.ValidatorAgreesWithConverter` | src/bin/cli/main.rs:8-14 | the validator accepts exactly the strings the converter maps to Some |
| `CliMain.ValidatedArgumentConverts` | src/bin/cli/main.rs:34-36 | an argument the validator let through converts to Some, so the `unwrap` after it cannot panic |
| `CreateFlag.ValuateValue` | src/bin/create-flag.rs:22-34 | the value is 0 or 1; every failure is the message "Value much be 'true' or 'false'" with exit status 1; it succeeds exactly when the CLI converter does, with the same value |
| `CreateFlag.ValuateTrue` | src/bin/create-flag.rs:26-27 | the result is 1 exactly when the input spells "true" |
| `CreateFlag.ValuateFalse` | src/bin/create-flag.rs:26-28 | the result is 0 exactly when the input spells "false" |
| `CreateFlag.ValuateOther` | src/bin/create-flag.rs:29-32 | the exit path is taken exactly when the input spells neither word |
| `CreateFlag.Remove` | src/bin/create-flag.rs:45-46 | `Vec::remove(i)` returns the element at i and the vector with the elements before i unchanged and those after it shifted down by one |
| `CreateFlag.ParseArgs` | src/bin/create-flag.rs:40-46 | any argument count other than program name plus two prints the help text and exits with 1; otherwise the name is the first argument and the value is `valuate_value` of the second, and the program goes on exactly when that succeeds |
| `FlagDb.DecodeValue` | src/db.rs:51-54 | a stored integer decodes to true exactly when it is 1 |
| `FlagDb.EncodeValue` | src/bin/server.rs:165-168 | the server stores a boolean as 0 or 1, true as 1 and false as 0 |
| `FlagDb.DecodeEncode` | src/db.rs:51-54 | decoding inverts the server's encoding |
| `FlagDb.EncodeDecode` | src/db.rs:71-74 | encoding a decoded integer gives it back exactly when it is 0 or 1 |
| `FlagDb.MapRow` | src/db.rs:50-61 | the record copies the row's id and name unchanged and its value is true exactly when the stored integer is 1 |
| `FlagDb.FirstNamed` | src/db.rs:48 | the first row whose name equals the queried name, or none when no row has it |
| `FlagDb.GetFlagByName` | src/db.rs:46-65 | fails with "no rows" exactly when no row has the name; otherwise returns the mapped record of a row with that name |
| `FlagDb.GetAllFlags` | src/db.rs:67-90 | one record per row, in row order, each the shared row mapping of its row; no rows give an empty sequence |
| `FlagDb.SameRecordThroughEitherReader` | src/db.rs:50-61 | for the first row with a name, the single-flag reader returns exactly the record the shared mapping gives that row |
| `TodoServer.FirstIndex` | src/main.rs:149-150 | the first index holding the id, none exactly when the id is absent |
| `TodoServer.Skip` | src/main.rs:114 | `skip(n)` keeps max(0, len - n) todos, the i-th being the stored todo at n + i |
| `TodoServer.Take` | src/main.rs:115 | `take(n)` keeps min(n, len) todos, the leading ones in order |
| `TodoServer.ListTodos` | src/main.rs:108-119 | the page has length min(limit, max(0, len - offset)) with limit defaulting to `usize::MAX` and offset to 0, and its i-th item is the stored todo at offset + i |
| `TodoServer.ListDefaultsToAll` | src/main.rs:114-115 | with no offset and no limit the whole vector is listed |
| `TodoServer.Without` | src/main.rs:168-172 | what `retain` keeps: never longer than before, and no kept todo has the deleted id; the `Without*` lemmas below state the rest |
| `TodoServer.WithoutMembers` | src/main.rs:168-172 | after `retain`, a todo is present exactly when it was present before and has another id |
| `TodoServer.WithoutConcat` | src/main.rs:168-172 | `retain` works piece by piece over a concatenation, so the kept todos keep their order |
| `TodoServer.WithoutLength` | src/main.rs:167-174 | `retain` never lengthens the vector, shortens it exactly when the id was present, and leaves it identical otherwise |
| `TodoServer.WithoutKeepsUnique` | src/main.rs:168-172 | deleting keeps ids distinct |
| `TodoServer.UniqueCons` | src/main.rs:126-135 | a todo with a new id in front of distinct-id todos keeps ids distinct |
| `TodoServer.UniqueAppend` | src/main.rs:126-135 | appending a todo with a new id keeps ids distinct |
| `TodoServer.UpdateSameIdKeepsUnique` | src/main.rs:149-153 | replacing an entry by one with the same id keeps ids distinct |
| `TodoServer.UpdateCanDuplicateIds` | src/main.rs:151 | a body whose id differs from the path id can make two entries share an id |
| `TodoServer.Db.constructor` | src/main.rs:196-198 | `blank_db` starts with no todos |
| `TodoServer.Db.List` | src/main.rs:108-119 | the handler answers with the window `ListTodos` describes and changes nothing |
| `TodoServer.Db.Create` | src/main.rs:121-138 | 400 exactly when the id is already stored, and then the vector is unchanged; otherwise 201 and the todo is appended after all earlier entries; distinct ids stay distinct |
| `TodoServer.Db.Update` | src/main.rs:140-160 | 404 exactly when the id is absent, and then nothing changes; otherwise 200 and only the first entry with the id is replaced by the whole body |
| `TodoServer.Db.Delete` | src/main.rs:162-184 | the new vector is the old one without every entry with the id; 204 exactly when the length decreased, 404 exactly when the id was absent and then nothing changes; distinct ids stay distinct |
| `TodoServer.TestPost` | src/main.rs:225-238 | creating `todo1` in a blank store answers 201 |
| `TodoServer.TestPostConflict` | src/main.rs:240-255 | creating `todo1` when it is already stored answers 400 |
| `TodoServer.TestPutUnknown` | src/main.rs:257-272 | updating id 1 in a blank store answers 404 |

## Left out

- SQL execution through `rusqlite` (`Connection::open`, `execute`, `query_row`, `prepare`), the schema setup and the five statements: their behaviour belongs to SQLite and a schema not shown here. The readers take the rows a statement yields as input; `GetFlagByName` models `WHERE name = ?` as exact string equality and `query_row` as "first matching row".
- The errors `prepare` and `query_map` can raise in `get_all_flags`, and the `unwrap` on a row error: library errors, not modelled, so `GetAllFlags` always returns.
- Reading a column into `i32` (a stored value out of range is a library error): rows already carry `i32` values.
- The HTTP handlers of `src/bin/server.rs` and the programs `get-flag` and `delete-flag`: each runs one or two SQL statements whose outcome SQLite decides. `update_flag` first asks whether the id exists, answers 404 if not, and only then runs its `UPDATE`; that check-then-act sequence is not modelled, only its boolean encoding is (`EncodeValue`).
- `all-feature-flags` prints what `get_all_flags` returns; it runs no statement of its own, and its reader is modelled (`GetAllFlags`). `db-init` calls `initialize_db`, which `src/db.rs` does not define; it is not part of this model.
- The CLI subcommand modules and the dispatch in `main` of the command-line tool: printing wrappers around repository calls; they refer to `DBLocal` and `db::update_flag`, which `src/db.rs` does not define.
- `warp` routing, JSON bodies, the 16 KiB body limit, the `Bearer admin` header guard, `clap`'s `get_app` and its argument-arity tests: framework behaviour.
- `Arc<Mutex<…>>` and the async runtime: each handler is one sequential step on the store.
- Logging, environment setup and output formatting; printed messages are kept as strings without their trailing newline.
- src/error.rs: a wrapper around a foreign error type.
- Unicode case mapping: `ToLower` changes only the ASCII letters A-Z. `Trim` uses the full Unicode White_Space set, as `char::is_whitespace` does. For the words "true" and "false" the accepted sets match Unicode lowercasing, because no other character lowercases to one of their letters.
- `Vec` capacity limits: the vector is an unbounded sequence.
