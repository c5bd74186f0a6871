/**
 * The row-to-record mapping of the flag repository (src/db.rs). The rows a
 * `SELECT id, name, value FROM flags` statement yields are the input; the
 * SQL execution itself is not modelled.
 */
module FlagDb {
  import opened Wrappers
  import opened Ints

  /** One stored row: the `id`, `name` and `value` columns. */
  datatype Row = Row(id: i32, name: string, value: i32)

  /** `FlagWithID`: a flag as the readers return it. */
  datatype FlagWithId = FlagWithId(id: i32, name: string, value: bool)

  /** `rusqlite::Error::QueryReturnedNoRows`, what `query_row` fails with. */
  datatype DbError = QueryReturnedNoRows

  /** The stored integer read as a boolean: exactly 1 is true. */
  function DecodeValue(stored: i32): (b: bool)
    ensures b <==> stored == 1
  {
    match stored
    case 1 => true
    case _ => false
  }

  /** How the server stores a boolean (src/bin/server.rs): true as 1, false as 0. */
  function EncodeValue(b: bool): (stored: i32)
    ensures stored == 0 || stored == 1
    ensures stored == 1 <==> b
  {
    if b then 1 else 0
  }

  /** Decoding inverts encoding. */
  lemma DecodeEncode(b: bool)
    ensures DecodeValue(EncodeValue(b)) == b
  {
  }

  /** Encoding inverts decoding exactly on the values the schema allows. */
  lemma EncodeDecode(stored: i32)
    ensures EncodeValue(DecodeValue(stored)) == stored <==> stored == 0 || stored == 1
  {
  }

  /** The row-mapping closure both readers pass to rusqlite. */
  function MapRow(row: Row): (f: FlagWithId)
    ensures f.id == row.id && f.name == row.name
    ensures f.value <==> row.value == 1
  {
    FlagWithId(row.id, row.name, DecodeValue(row.value))
  }

  /** The position of the first row whose name is exactly `name`. */
  function FirstNamed(rows: seq<Row>, name: string): (r: Option<nat>)
    ensures r.None? <==> forall i | 0 <= i < |rows| :: rows[i].name != name
    ensures r.Some? ==> r.value < |rows| && rows[r.value].name == name
    ensures r.Some? ==> forall i | 0 <= i < r.value :: rows[i].name != name
  {
    if rows == [] then None
    else if rows[0].name == name then Some(0)
    else match FirstNamed(rows[1..], name)
      case None => None
      case Some(k) => Some(k + 1)
  }

  /**
   * `get_flag_by_name`: `query_row` for `WHERE name = ?` maps the first
   * matching row and ignores the rest; with no matching row it fails.
   */
  function GetFlagByName(rows: seq<Row>, name: string): (r: Result<FlagWithId, DbError>)
    ensures r.Failure? <==> forall i | 0 <= i < |rows| :: rows[i].name != name
    ensures r.Failure? ==> r.error == QueryReturnedNoRows
    ensures r.Success? ==> r.value.name == name
    ensures r.Success? ==> exists i | 0 <= i < |rows| :: rows[i].name == name && r.value == MapRow(rows[i])
  {
    match FirstNamed(rows, name)
    case None => Failure(QueryReturnedNoRows)
    case Some(k) => Success(MapRow(rows[k]))
  }

  /**
   * `get_all_flags`: one record per row, in row order, each decoded by the
   * shared row mapping; no rows give an empty result.
   */
  method GetAllFlags(rows: seq<Row>) returns (result: seq<FlagWithId>)
    ensures |result| == |rows|
    ensures forall i | 0 <= i < |rows| :: result[i] == MapRow(rows[i])
  {
    result := [];
    for i := 0 to |rows|
      invariant |result| == i
      invariant forall j | 0 <= j < i :: result[j] == MapRow(rows[j])
    {
      result := result + [MapRow(rows[i])];
    }
  }

  /**
   * Both readers decode a row the same way: the single-flag reader returns
   * exactly the record the all-flags reader puts at the first row with that name.
   */
  lemma SameRecordThroughEitherReader(rows: seq<Row>, k: nat)
    requires k < |rows|
    requires forall i | 0 <= i < k :: rows[i].name != rows[k].name
    ensures GetFlagByName(rows, rows[k].name) == Success(MapRow(rows[k]))
  {
    var first := FirstNamed(rows, rows[k].name);
    assert first == Some(k);
  }
}
